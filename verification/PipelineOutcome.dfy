/** What a whole pipeline comes to, stage by stage: which results it carries, its status, its error fields and
    the event it closes with. */
module PipelineOutcome {
  import opened Common
  import opened Pipelines
  import opened Policies
  import opened ExecutionRuntime
  import opened StageRun
  import opened Executors
  import ExecutorEquivalence

  /** The first n stages pass, and what follows them decides: nothing, when they are all; an exception; or a
      result that cancels. */
  ghost predicate DecidedAt(policies: seq<Policy>, stages: seq<Stage>, n: nat, result: PipelineResult, closing: Event) {
    && n <= |stages|
    && (forall i | 0 <= i < n :: Passes(policies, stages[i]))
    && |result.stageResults| >= n
    && (forall i | 0 <= i < n :: result.stageResults[i] == RunStage(policies, stages[i]).end.result)
    && if n == |stages| then
         && |result.stageResults| == n && closing == AfterPipeline
         && (if forall i | 0 <= i < n :: result.stageResults[i].status == COMPLETED
             then result.status == COMPLETED && result.errorType == None && result.errorMessage == None
             else result.status == FAILED && CarriesErrorOf(result, result.stageResults[n - 1]))
       else
         && result.status == FAILED
         && match RunStage(policies, stages[n]).end
            case GaveUp(error) =>
              && |result.stageResults| == n && closing == PipelineFailed(error)
              && result.errorType == Some(error.kind) && result.errorMessage == Some(error.message)
            case Done(last, cancel) =>
              && cancel && |result.stageResults| == n + 1 && result.stageResults[n] == last && CarriesErrorOf(result, last)
              && closing == PipelineFailed(Error("RuntimeError", "Pipeline cancelled by FailurePolicy."))
  }

  ghost predicate Passes(policies: seq<Policy>, stage: Stage) {
    RunStage(policies, stage).end.Done? && !RunStage(policies, stage).end.cancel
  }

  predicate CarriesErrorOf(result: PipelineResult, last: StageResult) {
    result.errorType == last.errorType && result.errorMessage == last.errorMessage
  }

  /** The run of the stages, up to where it is decided. */
  ghost predicate RunsTo(policies: seq<Policy>, stages: seq<Stage>, n: nat, run: PipelineRun) {
    && n <= |stages|
    && (forall i | 0 <= i < n :: Passes(policies, stages[i]))
    && |run.results| >= n
    && (forall i | 0 <= i < n :: run.results[i] == RunStage(policies, stages[i]).end.result)
    && if n == |stages| then |run.results| == n && run.end == Finished(AnyFailed(run.results))
       else match RunStage(policies, stages[n]).end
            case GaveUp(error) => |run.results| == n && run.end == Aborted(error)
            case Done(last, cancel) => cancel && |run.results| == n + 1 && run.results[n] == last && run.end == Cancelled
  }

  lemma {:induction false} SequentialRunsTo(policies: seq<Policy>, stages: seq<Stage>)
    ensures exists n :: RunsTo(policies, stages, n, SequentialFrom(policies, stages))
  {
    hide RunStage;
    if stages == [] {
      assert SequentialFrom(policies, stages) == NOTHING_RUN;
      assert RunsTo(policies, stages, 0, SequentialFrom(policies, stages));
    } else if Stops(RunStage(policies, stages[0]).end) {
      assert RunsTo(policies, stages, 0, SequentialFrom(policies, stages));
    } else {
      SequentialRunsTo(policies, stages[1..]);
      var n :| RunsTo(policies, stages[1..], n, SequentialFrom(policies, stages[1..]));
      OneStageMore(policies, stages, n);
    }
  }

  lemma OneStageMore(policies: seq<Policy>, stages: seq<Stage>, n: nat)
    requires stages != [] && !Stops(RunStage(policies, stages[0]).end)
    requires RunsTo(policies, stages[1..], n, SequentialFrom(policies, stages[1..]))
    ensures RunsTo(policies, stages, n + 1, SequentialFrom(policies, stages))
  {
    hide RunStage, AnyFailed;
    var rest := SequentialFrom(policies, stages[1..]);
    var result := RunStage(policies, stages[0]).end.result;
    assert Alone(RunStage(policies, stages[0])).results == [result];
    forall i | 0 <= i < n + 1
      ensures Passes(policies, stages[i]) && ([result] + rest.results)[i] == RunStage(policies, stages[i]).end.result
    {
      if i > 0 {
        assert Passes(policies, stages[1..][i - 1]);
      }
    }
    ExecutorEquivalence.AnyFailedConcat([result], rest.results);
    AnyFailedOne(result);
  }

  lemma AnyFailedOne(result: StageResult)
    ensures AnyFailed([result]) <==> result.Failed()
  {
    assert [result][0] == result;
  }

  /** A sequential execution carries the results of its stages in order, up to the first that raises for good
      or cancels; it is completed exactly when all of them ran and each completed, and otherwise reports the
      exception, or the error fields of its last result. */
  lemma SequentialOutcome(policies: seq<Policy>, items: seq<Item>)
    ensures exists n :: DecidedAt(policies, Flatten(items), n, Conclude(Sequential(policies, items)),
                                  Last(Lifecycle(Sequential(policies, items))))
  {
    hide SequentialFrom, RunStage, Flatten;
    var stages, run := Flatten(items), Sequential(policies, items);
    SequentialRunsTo(policies, stages);
    var n :| RunsTo(policies, stages, n, run);
    assert DecidedAt(policies, stages, n, Conclude(run), Last(Lifecycle(run)));
  }

  /** Completed means that every stage of the pipeline completed; both executors agree on it, and then both
      carry every stage's result, in pipeline order. */
  lemma CompletedIff(policies: seq<Policy>, items: seq<Item>)
    ensures var result := Conclude(Parallel(policies, items));
            && result.status == Conclude(Sequential(policies, items)).status
            && (result.status == COMPLETED || result.status == FAILED)
            && (result.status == COMPLETED <==> forall stage | stage in Flatten(items) :: Completes(policies, stage))
            && (result.status == COMPLETED ==>
                  && result == Conclude(Sequential(policies, items))
                  && CarriesAll(policies, Flatten(items), result.stageResults))
  {
    hide SequentialFrom, ParallelFrom, RunStage, Flatten, Conclude, Stops;
    var stages := Flatten(items);
    SequentialOutcome(policies, items);
    var result, closing := Conclude(Sequential(policies, items)), Last(Lifecycle(Sequential(policies, items)));
    var n :| DecidedAt(policies, stages, n, result, closing);
    ExecutorEquivalence.SameStatusAndPrefix(policies, items);
    CompletedStages(policies, stages, n, result, closing);
    if result.status == COMPLETED {
      assert CarriesAll(policies, stages, result.stageResults);
      ExecutorEquivalence.SameRunWhenNothingStops(policies, items);
    }
  }

  ghost predicate Completes(policies: seq<Policy>, stage: Stage) {
    RunStage(policies, stage).end.Done? && RunStage(policies, stage).end.result.status == COMPLETED
  }

  /** Each stage's result, in order. */
  ghost predicate CarriesAll(policies: seq<Policy>, stages: seq<Stage>, results: seq<StageResult>) {
    && |results| == |stages|
    && forall i | 0 <= i < |stages| :: Passes(policies, stages[i]) && results[i] == RunStage(policies, stages[i]).end.result
  }

  lemma CompletedStages(policies: seq<Policy>, stages: seq<Stage>, n: nat, result: PipelineResult, closing: Event)
    requires DecidedAt(policies, stages, n, result, closing)
    ensures result.status == COMPLETED <==> forall stage | stage in stages :: Completes(policies, stage)
    ensures result.status == COMPLETED ==> n == |stages| && forall stage | stage in stages :: !Stops(RunStage(policies, stage).end)
  {
    forall i | 0 <= i < |stages|
      ensures Completes(policies, stages[i]) ==> Passes(policies, stages[i])
      ensures stages[i] in stages
    {
      StageEndsAs(policies, stages[i]);
    }
    hide RunStage;
    if result.status == COMPLETED {
      forall stage | stage in stages
        ensures Completes(policies, stage) && !Stops(RunStage(policies, stage).end)
      {
        var i :| 0 <= i < |stages| && stages[i] == stage;
        assert Passes(policies, stages[i]);
      }
    } else if n < |stages| {
      assert !Passes(policies, stages[n]);
    } else {
      var i :| 0 <= i < n && result.stageResults[i].status != COMPLETED;
      assert !Completes(policies, stages[i]);
    }
  }

  // ---- The parallel executor

  /** The first member of the group to give up, in group order. */
  ghost predicate GivesUpFirst(policies: seq<Policy>, group: seq<Stage>, i: nat) {
    && i < |group| && RunStage(policies, group[i]).end.GaveUp?
    && forall j | 0 <= j < i :: RunStage(policies, group[j]).end.Done?
  }

  /** Every stage of the first n groups passes, and not every one of the next: that group still runs to its
      end, the result carries what all its members returned, and reports its first exception; without one,
      the cancellation. */
  ghost predicate DecidedInGroup(policies: seq<Policy>, groups: seq<seq<Stage>>, n: nat, result: PipelineResult, closing: Event) {
    && n < |groups|
    && (forall g | 0 <= g < n :: AllPass(policies, groups[g]))
    && !AllPass(policies, groups[n])
    && result.status == FAILED && result.stageResults == Results(Runs(policies, Concat(groups[..n + 1])))
    && (forall i: nat | GivesUpFirst(policies, groups[n], i) ::
          var error := RunStage(policies, groups[n][i]).end.error;
          && closing == PipelineFailed(error) && result.errorType == Some(error.kind) && result.errorMessage == Some(error.message))
    && ((forall i | 0 <= i < |groups[n]| :: RunStage(policies, groups[n][i]).end.Done?) ==>
          && closing == PipelineFailed(Error("RuntimeError", "Pipeline cancelled by FailurePolicy."))
          && result.stageResults != [] && CarriesErrorOf(result, Last(result.stageResults)))
  }

  ghost predicate AllPass(policies: seq<Policy>, group: seq<Stage>) {
    forall i | 0 <= i < |group| :: Passes(policies, group[i])
  }

  /** What is reported of several runs is what is reported of each, in order: the result of one that returned,
      nothing of one that raised. */
  lemma {:induction false} ResultsConcat(a: seq<Run>, b: seq<Run>)
    ensures Results(a + b) == Results(a) + Results(b)
  {
    if a == [] {
      assert a + b == b;
    } else {
      assert (a + b)[1..] == a[1..] + b && (a + b)[0] == a[0];
      ResultsConcat(a[1..], b);
      ConcatAssociates(if a[0].end.Done? then [a[0].end.result] else [], Results(a[1..]), Results(b));
    }
  }

  lemma ResultOfOne(run: Run)
    ensures Results([run]) == match run.end case Done(result, _) => [result] case GaveUp(_) => []
  {
    assert [run][1..] == [];
  }

  /** The first exception among a group's outcomes is that of the first member to give up. */
  lemma {:induction false} FirstErrorIs(policies: seq<Policy>, group: seq<Stage>) returns (i: nat)
    ensures var error := FirstError(Runs(policies, group));
            if error.Some? then GivesUpFirst(policies, group, i) && error.value == RunStage(policies, group[i]).end.error
            else forall j | 0 <= j < |group| :: RunStage(policies, group[j]).end.Done?
  {
    hide RunStage;
    var runs := Runs(policies, group);
    i := 0;
    if group != [] && runs[0].end.Done? {
      assert runs[1..] == Runs(policies, group[1..]);
      var k := FirstErrorIs(policies, group[1..]);
      i := k + 1;
      forall j | 1 <= j < |group|
        ensures group[j] == group[1..][j - 1]
      {
      }
    }
  }

  /** Whether a group stops the pipeline. */
  lemma GroupPasses(policies: seq<Policy>, group: seq<Stage>)
    ensures var runs := Runs(policies, group);
            AllPass(policies, group) <==> FirstError(runs).None? && !AnyMemberCancels(runs)
  {
    hide RunStage;
    var k := FirstErrorIs(policies, group);
    var runs := Runs(policies, group);
    if AnyMemberCancels(runs) {
      var i :| 0 <= i < |runs| && runs[i].end.Done? && runs[i].end.cancel;
      assert !Passes(policies, group[i]);
    }
    if FirstError(runs).Some? {
      assert !Passes(policies, group[k]);
    } else if !AllPass(policies, group) {
      var i :| 0 <= i < |group| && !Passes(policies, group[i]);
      assert runs[i].end.cancel;
    }
  }

  /** The run of the groups when group n is the first to stop it. */
  ghost predicate StopsAt(policies: seq<Policy>, groups: seq<seq<Stage>>, n: nat, before: seq<StageResult>, run: PipelineRun) {
    && n < |groups| && !AllPass(policies, groups[n])
    && (forall g | 0 <= g < n :: AllPass(policies, groups[g]))
    && run.results == before + Results(Runs(policies, Concat(groups[..n + 1])))
    && run.end == var error := FirstError(Runs(policies, groups[n])); if error.Some? then Aborted(error.value) else Cancelled
  }

  lemma {:induction false} StopsInGroup(policies: seq<Policy>, groups: seq<seq<Stage>>, results: seq<StageResult>, tolerated: bool)
    requires exists g :: 0 <= g < |groups| && !AllPass(policies, groups[g])
    ensures exists n :: StopsAt(policies, groups, n, results, ParallelFrom(policies, groups, results, tolerated))
  {
    hide RunStage, Results, FirstError, AnyMemberCancels, AllPass, AnyFailed, LastResults;
    var group := groups[0];
    var runs := Runs(policies, group);
    GroupPasses(policies, group);
    if AllPass(policies, group) {
      assert exists g :: 0 <= g < |groups[1..]| && !AllPass(policies, groups[1..][g]) by {
        var g :| 0 <= g < |groups| && !AllPass(policies, groups[g]);
        assert groups[1..][g - 1] == groups[g];
      }
      var results' := results + Results(runs);
      var tolerated' := tolerated || AnyFailed(LastResults(results', |group|));
      StopsInGroup(policies, groups[1..], results', tolerated');
      var n :| StopsAt(policies, groups[1..], n, results', ParallelFrom(policies, groups[1..], results', tolerated'));
      FirstGroupToo(policies, groups, n, results, ParallelFrom(policies, groups[1..], results', tolerated'),
                    ParallelFrom(policies, groups, results, tolerated));
    } else {
      assert groups[..1] == [group] && [group][1..] == [] && group + [] == group;
      assert Concat(groups[..0 + 1]) == group;
      assert StopsAt(policies, groups, 0, results, ParallelFrom(policies, groups, results, tolerated));
    }
  }

  lemma FirstGroupToo(policies: seq<Policy>, groups: seq<seq<Stage>>, n: nat, before: seq<StageResult>, rest: PipelineRun, run: PipelineRun)
    requires groups != [] && AllPass(policies, groups[0])
    requires StopsAt(policies, groups[1..], n, before + Results(Runs(policies, groups[0])), rest)
    requires run.results == rest.results && run.end == rest.end
    ensures StopsAt(policies, groups, n + 1, before, run)
  {
    hide Results, Runs, AllPass, FirstError;
    var later := Concat(groups[1..][..n + 1]);
    assert groups[..n + 2][1..] == groups[1..][..n + 1] && groups[n + 1] == groups[1..][n];
    ExecutorEquivalence.RunsConcat(policies, groups[0], later);
    ResultsConcat(Runs(policies, groups[0]), Runs(policies, later));
    ConcatAssociates(before, Results(Runs(policies, groups[0])), Results(Runs(policies, later)));
    forall g | 0 <= g < n + 1
      ensures AllPass(policies, groups[g])
    {
      if g > 0 {
        assert groups[g] == groups[1..][g - 1];
      }
    }
  }

  /** A parallel execution in which some stage raises for good or cancels is decided by the first group that
      has such a stage, after all its members have ended; without one it is the sequential execution. */
  lemma ParallelOutcome(policies: seq<Policy>, items: seq<Item>)
    ensures var run := Parallel(policies, items);
            if forall stage | stage in Flatten(items) :: Passes(policies, stage) then run == Sequential(policies, items)
            else exists n :: DecidedInGroup(policies, Groups(items), n, Conclude(run), Closing(run.end))
  {
    hide RunStage, ParallelFrom, SequentialFrom, Results, FirstError, Flatten, Groups;
    if forall stage | stage in Flatten(items) :: Passes(policies, stage) {
      ExecutorEquivalence.SameRunWhenNothingStops(policies, items);
    } else {
      var groups, run := Groups(items), Parallel(policies, items);
      FlattenIsConcatOfGroups(items);
      SomeGroupStops(policies, groups);
      StopsInGroup(policies, groups, [], false);
      var n :| StopsAt(policies, groups, n, [], run);
      assert run.results == Results(Runs(policies, Concat(groups[..n + 1])));
      GroupDecides(policies, groups, n, run);
    }
  }

  lemma {:induction false} SomeGroupStops(policies: seq<Policy>, groups: seq<seq<Stage>>)
    requires exists stage :: stage in Concat(groups) && !Passes(policies, stage)
    ensures exists g :: 0 <= g < |groups| && !AllPass(policies, groups[g])
  {
    hide RunStage;
    var stage :| stage in Concat(groups) && !Passes(policies, stage);
    if stage in groups[0] {
      var i :| 0 <= i < |groups[0]| && groups[0][i] == stage;
      assert !AllPass(policies, groups[0]);
    } else {
      SomeGroupStops(policies, groups[1..]);
      var g :| 0 <= g < |groups[1..]| && !AllPass(policies, groups[1..][g]);
      assert groups[g + 1] == groups[1..][g];
    }
  }

  lemma GroupDecides(policies: seq<Policy>, groups: seq<seq<Stage>>, n: nat, run: PipelineRun)
    requires n < |groups| && !AllPass(policies, groups[n])
    requires forall g | 0 <= g < n :: AllPass(policies, groups[g])
    requires run.results == Results(Runs(policies, Concat(groups[..n + 1])))
    requires run.end == var error := FirstError(Runs(policies, groups[n])); if error.Some? then Aborted(error.value) else Cancelled
    ensures DecidedInGroup(policies, groups, n, Conclude(run), Closing(run.end))
  {
    hide RunStage, Results, FirstError, AllPass;
    var i := FirstErrorIs(policies, groups[n]);
    if FirstError(Runs(policies, groups[n])).None? {
      SomethingReported(policies, groups, n);
    }
  }

  lemma SomethingReported(policies: seq<Policy>, groups: seq<seq<Stage>>, n: nat)
    requires n < |groups| && !AllPass(policies, groups[n])
    requires forall i | 0 <= i < |groups[n]| :: RunStage(policies, groups[n][i]).end.Done?
    ensures Results(Runs(policies, Concat(groups[..n + 1]))) != []
  {
    hide RunStage;
    assert groups[..n + 1] == groups[..n] + [groups[n]];
    ConcatOfTwo(groups[..n], [groups[n]]);
    assert [groups[n]][1..] == [] && groups[n] + [] == groups[n];
    var before := Concat(groups[..n]);
    ExecutorEquivalence.RunsConcat(policies, before, groups[n]);
    ResultsConcat(Runs(policies, before), Runs(policies, groups[n]));
    assert groups[n] != [];
    assert Runs(policies, groups[n])[0].end.Done?;
  }
}
