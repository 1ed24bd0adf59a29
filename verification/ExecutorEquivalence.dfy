/** How the two executors relate on the same pipeline: the parallel run is the sequential one, plus
    exactly what the later members of the group that stopped it still did. */
module ExecutorEquivalence {
  import opened Common
  import opened Pipelines
  import opened Policies
  import opened ExecutionRuntime
  import opened StageRun
  import opened Executors
  import GroupRun

  /** The sequential run, seen from the runs of its stages. */
  function InOrder(runs: seq<Run>): PipelineRun {
    if runs == [] then NOTHING_RUN
    else if Stops(runs[0].end) then Alone(runs[0])
    else Then(Alone(runs[0]), InOrder(runs[1..]))
  }

  /** The members after the first that raises for good or cancels: what running one by one never starts. */
  function NotReached(runs: seq<Run>): seq<Run> {
    if runs == [] then []
    else if Stops(runs[0].end) then runs[1..]
    else NotReached(runs[1..])
  }

  lemma {:induction false} SequentialIsInOrder(policies: seq<Policy>, stages: seq<Stage>)
    ensures SequentialFrom(policies, stages) == InOrder(Runs(policies, stages))
  {
    if stages != [] {
      assert Runs(policies, stages)[1..] == Runs(policies, stages[1..]);
      SequentialIsInOrder(policies, stages[1..]);
    }
  }

  lemma {:induction false} InOrderConcat(a: seq<Run>, b: seq<Run>)
    ensures InOrder(a + b) == if InOrder(a).end.Finished? then Then(InOrder(a), InOrder(b)) else InOrder(a)
  {
    if a == [] {
      assert a + b == b;
      ThenAssociates(NOTHING_RUN, NOTHING_RUN, InOrder(b));
    } else {
      assert (a + b)[1..] == a[1..] + b;
      InOrderConcat(a[1..], b);
      if !Stops(a[0].end) && InOrder(a[1..]).end.Finished? {
        ThenAssociates(Alone(a[0]), InOrder(a[1..]), InOrder(b));
      }
    }
  }

  lemma AnyFailedConcat(a: seq<StageResult>, b: seq<StageResult>)
    ensures AnyFailed(a + b) <==> AnyFailed(a) || AnyFailed(b)
  {
    if AnyFailed(a) {
      var i :| 0 <= i < |a| && a[i].Failed();
      assert (a + b)[i] == a[i];
    }
    if AnyFailed(b) {
      var i :| 0 <= i < |b| && b[i].Failed();
      assert (a + b)[|a| + i] == b[i];
    }
  }

  lemma NothingReported()
    ensures !AnyMemberCancels([]) && !AnyFailed([])
  {
  }

  lemma AnyMemberCancelsFirst(runs: seq<Run>)
    requires runs != []
    ensures AnyMemberCancels(runs) <==> (runs[0].end.Done? && runs[0].end.cancel) || AnyMemberCancels(runs[1..])
  {
    if AnyMemberCancels(runs[1..]) {
      var i :| 0 <= i < |runs[1..]| && runs[1..][i].end.Done? && runs[1..][i].end.cancel;
      assert runs[i + 1] == runs[1..][i];
    }
  }

  /** A run's first stage that does not stop, and what the others report after it. */
  lemma FirstGoesOn(first: Run, later: PipelineRun, rest: seq<Run>)
    requires !Stops(first.end)
    ensures var alone := Alone(first);
            && alone.end == Finished(AnyFailed(alone.results))
            && alone.results + later.results + Results(rest) == alone.results + (later.results + Results(rest))
            && alone.events + later.events + EventsOf(rest) == alone.events + (later.events + EventsOf(rest))
            && (AnyFailed(alone.results + later.results) <==> AnyFailed(alone.results) || AnyFailed(later.results))
  {
    var alone := Alone(first);
    AnyFailedConcat(alone.results, later.results);
    assert AnyFailed(alone.results) <==> first.end.result.Failed() by {
      assert alone.results[0] == first.end.result;
    }
  }

  /** What a group reports, against running its members one by one. */
  lemma {:induction false} GroupReport(runs: seq<Run>)
    ensures Results(runs) == InOrder(runs).results + Results(NotReached(runs))
    ensures EventsOf(runs) == InOrder(runs).events + EventsOf(NotReached(runs))
    ensures InOrder(runs).end.Finished? <==> FirstError(runs).None? && !AnyMemberCancels(runs)
    ensures InOrder(runs).end.Finished? ==>
              && InOrder(runs).end.tolerated == AnyFailed(InOrder(runs).results)
              && |Results(runs)| == |runs| && NotReached(runs) == []
    ensures InOrder(runs).end.Aborted? ==> FirstError(runs) == Some(InOrder(runs).end.error)
    ensures InOrder(runs).end.Cancelled? ==> FirstError(runs) == FirstError(NotReached(runs))
  {
    hide AnyMemberCancels, AnyFailed;
    if runs == [] {
      NothingReported();
    } else {
      GroupReport(runs[1..]);
      AnyMemberCancelsFirst(runs);
      if !Stops(runs[0].end) {
        FirstGoesOn(runs[0], InOrder(runs[1..]), NotReached(runs[1..]));
      }
    }
  }

  /** A run that goes on: members of the stopping group that running one by one never starts still
      finish, report their results, and an exception among them takes precedence over a cancellation. */
  function Overrun(run: PipelineRun, rest: seq<Run>): PipelineRun {
    PipelineRun(
      if run.end.Cancelled? && FirstError(rest).Some? then Aborted(FirstError(rest).value) else run.end,
      run.results + Results(rest),
      run.events + EventsOf(rest))
  }

  /** The members the parallel executor runs beyond the sequential one: those that follow the first
      stage to stop in its own group. */
  function Extra(policies: seq<Policy>, groups: seq<seq<Stage>>): seq<Run> {
    if groups == [] then []
    else
      var runs := Runs(policies, groups[0]);
      if InOrder(runs).end.Finished? then Extra(policies, groups[1..]) else NotReached(runs)
  }

  lemma RunsConcat(policies: seq<Policy>, a: seq<Stage>, b: seq<Stage>)
    ensures Runs(policies, a + b) == Runs(policies, a) + Runs(policies, b)
  {
  }

  /** A failure tolerated in the last group, or already before it, is a failure among all results. */
  lemma ToleratedSoFar(before: seq<StageResult>, results: seq<StageResult>, n: nat)
    requires |results| == n
    ensures (AnyFailed(before) || AnyFailed(LastResults(before + results, n))) == AnyFailed(before + results)
  {
    AnyFailedConcat(before, results);
    if n != 0 && n < |before + results| {
      assert LastResults(before + results, n) == results;
    }
  }

  /** The first group and the rest, one by one. */
  lemma SequentialSplits(policies: seq<Policy>, groups: seq<seq<Stage>>)
    requires groups != []
    ensures var first := InOrder(Runs(policies, groups[0]));
            SequentialFrom(policies, Concat(groups)) ==
              if first.end.Finished? then Then(first, SequentialFrom(policies, Concat(groups[1..]))) else first
  {
    var rest := Concat(groups[1..]);
    SequentialIsInOrder(policies, groups[0] + rest);
    SequentialIsInOrder(policies, rest);
    RunsConcat(policies, groups[0], rest);
    InOrderConcat(Runs(policies, groups[0]), Runs(policies, rest));
  }

  lemma GroupContinues(policies: seq<Policy>, groups: seq<seq<Stage>>, before: PipelineRun)
    requires before.end == Finished(AnyFailed(before.results))
    requires groups != [] && InOrder(Runs(policies, groups[0])).end.Finished?
    ensures var after := Then(before, InOrder(Runs(policies, groups[0])));
            && after.end == Finished(AnyFailed(after.results))
            && PrependEvents(before.events, ParallelFrom(policies, groups, before.results, before.end.tolerated)) ==
                 PrependEvents(after.events, ParallelFrom(policies, groups[1..], after.results, after.end.tolerated))
            && Then(before, SequentialFrom(policies, Concat(groups))) == Then(after, SequentialFrom(policies, Concat(groups[1..])))
  {
    hide ParallelFrom, SequentialFrom, InOrder, RunStage;
    var runs := Runs(policies, groups[0]);
    ParallelStep(policies, groups, 0, before.results, before.end.tolerated, before.events);
    assert groups[0..] == groups;
    SequentialSplits(policies, groups);
    GroupReport(runs);
    AnyFailedConcat(before.results, InOrder(runs).results);
    ToleratedSoFar(before.results, Results(runs), |groups[0]|);
    assert InOrder(runs).results + [] == InOrder(runs).results && InOrder(runs).events + [] == InOrder(runs).events;
    ThenAssociates(before, InOrder(runs), SequentialFrom(policies, Concat(groups[1..])));
  }

  lemma GroupStops(policies: seq<Policy>, groups: seq<seq<Stage>>, before: PipelineRun)
    requires before.end == Finished(AnyFailed(before.results))
    requires groups != [] && !InOrder(Runs(policies, groups[0])).end.Finished?
    ensures PrependEvents(before.events, ParallelFrom(policies, groups, before.results, before.end.tolerated)) ==
            Overrun(Then(before, SequentialFrom(policies, Concat(groups))), NotReached(Runs(policies, groups[0])))
  {
    hide ParallelFrom, SequentialFrom, InOrder, RunStage;
    var runs := Runs(policies, groups[0]);
    ParallelStep(policies, groups, 0, before.results, before.end.tolerated, before.events);
    assert groups[0..] == groups;
    SequentialSplits(policies, groups);
    GroupReport(runs);
    assert before.results + InOrder(runs).results + Results(NotReached(runs)) == before.results + Results(runs);
    assert before.events + InOrder(runs).events + EventsOf(NotReached(runs)) == before.events + EventsOf(runs);
  }

  lemma {:induction false} GroupsExtendSequence(policies: seq<Policy>, groups: seq<seq<Stage>>, before: PipelineRun)
    requires before.end == Finished(AnyFailed(before.results))
    ensures PrependEvents(before.events, ParallelFrom(policies, groups, before.results, before.end.tolerated)) ==
            Overrun(Then(before, SequentialFrom(policies, Concat(groups))), Extra(policies, groups))
  {
    if groups == [] {
      ThenAssociates(before, NOTHING_RUN, NOTHING_RUN);
      assert before.results + [] == before.results && before.events + [] == before.events;
    } else if InOrder(Runs(policies, groups[0])).end.Finished? {
      GroupContinues(policies, groups, before);
      GroupsExtendSequence(policies, groups[1..], Then(before, InOrder(Runs(policies, groups[0]))));
    } else {
      GroupStops(policies, groups, before);
    }
  }

  /** On every pipeline, under every choice of retry and failure policies, the parallel run is the
      sequential run extended by the rest of the group it stopped in. */
  lemma ParallelExtendsSequential(policies: seq<Policy>, items: seq<Item>)
    ensures Parallel(policies, items) == Overrun(Sequential(policies, items), Extra(policies, Groups(items)))
  {
    hide ParallelFrom, SequentialFrom, Extra;
    FlattenIsConcatOfGroups(items);
    GroupsExtendSequence(policies, Groups(items), NOTHING_RUN);
    ThenAssociates(NOTHING_RUN, NOTHING_RUN, Sequential(policies, items));
    var p := Parallel(policies, items);
    assert [] + p.events == p.events;
  }

  /** Both executors end in the same status, and the sequential results come first in the parallel ones. */
  lemma SameStatusAndPrefix(policies: seq<Policy>, items: seq<Item>)
    ensures Conclude(Parallel(policies, items)).status == Conclude(Sequential(policies, items)).status
    ensures Sequential(policies, items).results <= Parallel(policies, items).results
  {
    ParallelExtendsSequential(policies, items);
  }

  /** The results are the same exactly when every further member of the stopping group raises too. */
  lemma SameResultsIff(policies: seq<Policy>, items: seq<Item>)
    ensures Parallel(policies, items).results == Sequential(policies, items).results <==>
            forall run | run in Extra(policies, Groups(items)) :: run.end.GaveUp?
  {
    ParallelExtendsSequential(policies, items);
    NoResultsIff(Extra(policies, Groups(items)));
  }

  lemma {:induction false} NoResultsIff(runs: seq<Run>)
    ensures Results(runs) == [] <==> forall run | run in runs :: run.end.GaveUp?
  {
    if runs != [] {
      assert runs == [runs[0]] + runs[1..];
      NoResultsIff(runs[1..]);
    }
  }

  /** When no stage stops the pipeline the two runs are equal in every respect. */
  lemma SameRunWhenNothingStops(policies: seq<Policy>, items: seq<Item>)
    requires forall stage | stage in Flatten(items) :: !Stops(RunStage(policies, stage).end)
    ensures Parallel(policies, items) == Sequential(policies, items)
  {
    ParallelExtendsSequential(policies, items);
    FlattenIsConcatOfGroups(items);
    NothingExtra(policies, Groups(items));
    OverrunByNone(Sequential(policies, items));
  }

  lemma {:induction false} NothingExtra(policies: seq<Policy>, groups: seq<seq<Stage>>)
    requires forall stage | stage in Concat(groups) :: !Stops(RunStage(policies, stage).end)
    ensures Extra(policies, groups) == []
  {
    if groups != [] {
      NothingStops(Runs(policies, groups[0]));
      NothingExtra(policies, groups[1..]);
    }
  }

  lemma {:induction false} NothingStops(runs: seq<Run>)
    requires forall i | 0 <= i < |runs| :: !Stops(runs[i].end)
    ensures InOrder(runs).end.Finished?
  {
    if runs != [] {
      NothingStops(runs[1..]);
    }
  }

  /** In the executors' own terms: the runs are equal when every stage ends well, and also when
      failures do not cancel and no stage raises for good. */
  lemma SameRunWhenNothingFails(policies: seq<Policy>, items: seq<Item>)
    requires
      || (forall stage | stage in Flatten(items) ::
            RunStage(policies, stage).end.Done? && RunStage(policies, stage).end.result.Succeeded())
      || (Failure(true) !in policies && forall stage | stage in Flatten(items) :: RunStage(policies, stage).end.Done?)
    ensures Parallel(policies, items) == Sequential(policies, items)
  {
    SameRunWhenNothingStops(policies, items);
  }

  /** Without groups of two or more the two executors do exactly the same, event by event. */
  lemma SameRunWithoutGroups(policies: seq<Policy>, items: seq<Item>)
    requires forall item | item in items :: |Members(item)| <= 1
    ensures Parallel(policies, items) == Sequential(policies, items)
    ensures Lifecycle(Parallel(policies, items)) == Lifecycle(Sequential(policies, items))
    ensures Conclude(Parallel(policies, items)) == Conclude(Sequential(policies, items))
  {
    ParallelExtendsSequential(policies, items);
    assert forall i | 0 <= i < |items| :: |Groups(items)[i]| <= 1 by {
      assert forall i | 0 <= i < |items| :: items[i] in items;
    }
    NothingExtraAlone(policies, Groups(items));
    OverrunByNone(Sequential(policies, items));
  }

  lemma {:induction false} NothingExtraAlone(policies: seq<Policy>, groups: seq<seq<Stage>>)
    requires forall i | 0 <= i < |groups| :: |groups[i]| <= 1
    ensures Extra(policies, groups) == []
  {
    if groups != [] {
      var runs := Runs(policies, groups[0]);
      assert |runs| <= 1 && (|runs| == 1 ==> runs[1..] == []);
      assert NotReached(runs) == [];
      NothingExtraAlone(policies, groups[1..]);
    }
  }

  /** All the orders the parallel executor's event loop can choose from are then one: every run of it emits
      the sequential run's events, one for one. */
  lemma UngroupedRunsInOrder(policies: seq<Policy>, items: seq<Item>, events: seq<Event>)
    requires forall item | item in items :: |Members(item)| <= 1
    requires Interleaved(policies, items, events)
    ensures events == Lifecycle(Sequential(policies, items))
  {
    hide ParallelFrom, GroupsRan, SequentialFrom;
    var traces :| TracesOf(policies, items, events, traces);
    assert forall i | 0 <= i < |items| :: |Groups(items)[i]| <= 1 by {
      assert forall i | 0 <= i < |items| :: items[i] in items;
    }
    SingleTraces(policies, Groups(items), traces, [], false);
    SameRunWithoutGroups(policies, items);
  }

  lemma {:induction false} SingleTraces(policies: seq<Policy>, groups: seq<seq<Stage>>, traces: seq<seq<Event>>,
                                        results: seq<StageResult>, tolerated: bool)
    requires forall i | 0 <= i < |groups| :: |groups[i]| <= 1
    requires GroupTraces(policies, GroupsRan(policies, groups), traces)
    ensures Concat(traces) == ParallelFrom(policies, groups, results, tolerated).events
  {
    hide RunStage, GroupRun.GroupTrace, Results, FirstError, AnyMemberCancels, AnyFailed;
    if groups != [] {
      var runs := Runs(policies, groups[0]);
      var results' := results + Results(runs);
      assert GroupRun.GroupTrace(policies, GroupsRan(policies, groups)[0], traces[0]);
      SingleTrace(policies, groups[0], traces[0]);
      if FirstError(runs).Some? || AnyMemberCancels(runs) {
        assert traces == [traces[0]] && traces[1..] == [];
      } else {
        var ran := GroupsRan(policies, groups);
        assert forall k | 0 <= k < |ran[1..]| :: ran[1..][k] == ran[k + 1] && traces[1..][k] == traces[k + 1];
        assert ran[1..] == GroupsRan(policies, groups[1..]);
        SingleTraces(policies, groups[1..], traces[1..], results', tolerated || AnyFailed(LastResults(results', |groups[0]|)));
      }
    }
  }

  lemma NoStageNoEvent(policies: seq<Policy>, group: seq<Stage>, trace: seq<Event>)
    requires GroupRun.GroupTrace(policies, group, trace)
    ensures group == [] ==> trace == []
  {
    if trace != [] {
      var i :| 0 <= i < |group| && trace[0].id == group[i].id;
    }
  }

  /** A group of at most one stage has one trace. */
  lemma SingleTrace(policies: seq<Policy>, group: seq<Stage>, trace: seq<Event>)
    requires |group| <= 1 && GroupRun.GroupTrace(policies, group, trace)
    ensures trace == EventsOf(Runs(policies, group))
  {
    hide RunStage;
    if group == [] {
      NoStageNoEvent(policies, group, trace);
    } else {
      assert AllOfStage(trace, group[0].id) by {
        forall k | 0 <= k < |trace|
          ensures trace[k].OfStage() && trace[k].id == group[0].id
        {
          assert exists i | 0 <= i < |group| :: trace[k].id == group[i].id;
        }
      }
      EventsOfOneStage(trace, group[0].id, group[0].id);
      var runs := Runs(policies, group);
      assert runs[1..] == [] && runs[0].events + [] == runs[0].events;
    }
  }

  /** The error type and message a result carries. */
  datatype ErrorFields = ErrorFields(errorType: Option<string>, errorMessage: Option<string>)

  function FieldsOf(result: PipelineResult): ErrorFields {
    ErrorFields(result.errorType, result.errorMessage)
  }

  function Carried(result: StageResult): ErrorFields {
    ErrorFields(result.errorType, result.errorMessage)
  }

  /** The rest of the stopping group says nothing else: its first exception, or without one its last
      result, carries these fields, or there is no rest. */
  predicate NothingElseSaid(fields: ErrorFields, rest: seq<Run>) {
    match FirstError(rest)
    case Some(error) => fields == ErrorFields(Some(error.kind), Some(error.message))
    case None => rest == [] || fields == FieldsOf(FailedResult(Results(rest)))
  }

  lemma {:induction false} NoErrorAllResults(runs: seq<Run>)
    requires FirstError(runs).None?
    ensures |Results(runs)| == |runs|
  {
    if runs != [] {
      NoErrorAllResults(runs[1..]);
    }
  }

  /** What a cancelled run's fields become when the rest of its group goes on. */
  lemma CancelledFields(run: PipelineRun, rest: seq<Run>)
    requires run.end.Cancelled?
    ensures FieldsOf(Conclude(Overrun(run, rest))) == FieldsOf(Conclude(run)) <==> NothingElseSaid(FieldsOf(Conclude(run)), rest)
  {
    if FirstError(rest).None? {
      NoErrorAllResults(rest);
      if rest == [] {
        assert run.results + [] == run.results;
      } else {
        assert Last(run.results + Results(rest)) == Last(Results(rest));
      }
    }
  }

  /** Both executors report the same error fields exactly when no stage cancels the sequential run, or the
      rest of the group of the stage that does says nothing else. */
  lemma SameErrorFieldsIff(policies: seq<Policy>, items: seq<Item>)
    ensures var sequential := Sequential(policies, items);
            FieldsOf(Conclude(Parallel(policies, items))) == FieldsOf(Conclude(sequential)) <==>
            (sequential.end.Cancelled? ==> NothingElseSaid(FieldsOf(Conclude(sequential)), Extra(policies, Groups(items))))
  {
    hide Parallel, SequentialFrom, Groups, Flatten, Results, FirstError;
    var s, extra := Sequential(policies, items), Extra(policies, Groups(items));
    ParallelExtendsSequential(policies, items);
    if s.end.Cancelled? {
      CancelledFields(s, extra);
    } else if s.end.Finished? {
      FlattenIsConcatOfGroups(items);
      FinishedHasNoExtra(policies, Groups(items));
      OverrunByNone(s);
    }
  }

  lemma OverrunByNone(run: PipelineRun)
    ensures Overrun(run, []) == run
  {
    assert run.results + [] == run.results && run.events + [] == run.events;
  }

  lemma {:induction false} FinishedHasNoExtra(policies: seq<Policy>, groups: seq<seq<Stage>>)
    requires SequentialFrom(policies, Concat(groups)).end.Finished?
    ensures Extra(policies, groups) == []
  {
    if groups != [] {
      SequentialSplits(policies, groups);
      FinishedHasNoExtra(policies, groups[1..]);
    }
  }

  /** A group of two whose first member stops. */
  lemma TwoTogether(policies: seq<Policy>, a: Stage, b: Stage, ra: Run, rb: Run)
    requires ra == RunStage(policies, a) && rb == RunStage(policies, b) && Stops(ra.end)
    ensures Sequential(policies, [Group([a, b])]) == Alone(ra)
    ensures Parallel(policies, [Group([a, b])]) == Overrun(Alone(ra), [rb])
    ensures FirstError([rb]) == if rb.end.GaveUp? then Some(rb.end.error) else None
    ensures Results([rb]) == if rb.end.Done? then [rb.end.result] else []
  {
    hide RunStage;
    var group := [Group([a, b])];
    assert group[1..] == [] && [a, b] + [] == [a, b];
    assert Groups(group) == [[a, b]] && Flatten(group) == [a, b];
    assert Runs(policies, [a, b]) == [ra, rb] && [ra, rb][1..] == [rb] && [rb][1..] == [];
    ParallelExtendsSequential(policies, group);
  }

  /** The error fields may differ: one after another the first member's failure cancels; together, the
      second member's exception is what the result carries. */
  lemma ErrorFieldsMayDiffer(failed: StageResult, error: Error)
    requires failed.Failed() && failed.errorType != Some(error.kind)
    ensures var policies := [Failure(true), Retry];
            var group := [Group([Stage("a", 1, _ => Returns(failed)), Stage("b", 1, _ => Raises(error))])];
            && Conclude(Sequential(policies, group)).errorType == failed.errorType
            && Conclude(Parallel(policies, group)).errorType == Some(error.kind)
  {
    var policies := [Failure(true), Retry];
    var a, b := Stage("a", 1, _ => Returns(failed)), Stage("b", 1, _ => Raises(error));
    var ra, rb := RunStage(policies, a), RunStage(policies, b);
    assert ra.end == Done(failed, true) && rb.end == GaveUp(error);
    TwoTogether(policies, a, b, ra, rb);
  }

  /** They may differ without any exception, too: a failure that cancels is followed by a sibling's result,
      and that is the last one the parallel executor has. */
  lemma LaterResultHidesFailure(failed: StageResult, fine: StageResult)
    requires failed.Failed() && fine.Succeeded() && Carried(failed) != Carried(fine)
    ensures var policies := [Failure(true), Retry];
            var group := [Group([Stage("a", 1, _ => Returns(failed)), Stage("b", 1, _ => Returns(fine))])];
            && FieldsOf(Conclude(Sequential(policies, group))) == Carried(failed)
            && FieldsOf(Conclude(Parallel(policies, group))) == Carried(fine)
  {
    var policies := [Failure(true), Retry];
    var a, b := Stage("a", 1, _ => Returns(failed)), Stage("b", 1, _ => Returns(fine));
    var ra, rb := RunStage(policies, a), RunStage(policies, b);
    assert ra.end == Done(failed, true) && rb.end == Done(fine, false);
    TwoTogether(policies, a, b, ra, rb);
    assert Last([failed] + [fine]) == fine;
  }
}
