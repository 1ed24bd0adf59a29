/** The two executors: one runs the flattened stages one after another, the other runs each group to
    completion before it looks at the outcomes. */
module Executors {
  import opened Common
  import opened Pipelines
  import opened Policies
  import opened ExecutionRuntime
  import opened StageRun
  import GroupRun

  /** How a pipeline run ends before its result is built. */
  datatype PipelineEnd = Finished(tolerated: bool) | Cancelled | Aborted(error: Error)

  datatype PipelineRun = PipelineRun(end: PipelineEnd, results: seq<StageResult>, events: seq<Event>)

  const CANCELLED_BY_POLICY := Error("RuntimeError", "Pipeline cancelled by FailurePolicy.")

  predicate AnyFailed(results: seq<StageResult>) {
    exists i | 0 <= i < |results| :: results[i].Failed()
  }

  // ---- Sequential

  predicate Stops(end: StageEnd) {
    end.GaveUp? || end.cancel
  }

  /** What a single stage makes of a pipeline that ends with it. */
  function Alone(run: Run): PipelineRun {
    match run.end
    case GaveUp(error) => PipelineRun(Aborted(error), [], run.events)
    case Done(result, cancel) =>
      PipelineRun(if cancel then Cancelled else Finished(result.Failed()), [result], run.events)
  }

  /** One run after another; the first has not stopped. */
  function Then(first: PipelineRun, second: PipelineRun): PipelineRun
    requires first.end.Finished?
  {
    PipelineRun(
      if second.end.Finished? then Finished(first.end.tolerated || second.end.tolerated) else second.end,
      first.results + second.results,
      first.events + second.events)
  }

  const NOTHING_RUN := PipelineRun(Finished(false), [], [])

  /** The stages in order, up to the first that raises for good or cancels. */
  function SequentialFrom(policies: seq<Policy>, stages: seq<Stage>): PipelineRun {
    if stages == [] then NOTHING_RUN
    else
      var run := RunStage(policies, stages[0]);
      if Stops(run.end) then Alone(run) else Then(Alone(run), SequentialFrom(policies, stages[1..]))
  }

  // ---- Parallel

  function Runs(policies: seq<Policy>, group: seq<Stage>): (runs: seq<Run>)
    ensures |runs| == |group| && forall i | 0 <= i < |group| :: runs[i] == RunStage(policies, group[i])
  {
    seq(|group|, i requires 0 <= i < |group| => RunStage(policies, group[i]))
  }

  /** The results of those members that did not raise, in order. */
  function Results(runs: seq<Run>): seq<StageResult> {
    if runs == [] then []
    else (if runs[0].end.Done? then [runs[0].end.result] else []) + Results(runs[1..])
  }

  function FirstError(runs: seq<Run>): Option<Error> {
    if runs == [] then None
    else if runs[0].end.GaveUp? then Some(runs[0].end.error)
    else FirstError(runs[1..])
  }

  predicate AnyMemberCancels(runs: seq<Run>) {
    exists i | 0 <= i < |runs| :: runs[i].end.Done? && runs[i].end.cancel
  }

  /** The last n results; for n = 0 that is all of them, as a slice from minus zero is. */
  function LastResults(results: seq<StageResult>, n: nat): seq<StageResult> {
    if n == 0 || n >= |results| then results else results[|results| - n..]
  }

  function EventsOf(runs: seq<Run>): seq<Event> {
    if runs == [] then [] else runs[0].events + EventsOf(runs[1..])
  }

  /** The groups in order, each run to completion, up to the first with a raised or cancelling member. */
  function ParallelFrom(policies: seq<Policy>, groups: seq<seq<Stage>>, results: seq<StageResult>, tolerated: bool): PipelineRun {
    if groups == [] then PipelineRun(Finished(tolerated), results, [])
    else
      var runs := Runs(policies, groups[0]);
      var results' := results + Results(runs);
      if FirstError(runs).Some? then PipelineRun(Aborted(FirstError(runs).value), results', EventsOf(runs))
      else if AnyMemberCancels(runs) then PipelineRun(Cancelled, results', EventsOf(runs))
      else
        var rest := ParallelFrom(policies, groups[1..], results', tolerated || AnyFailed(LastResults(results', |groups[0]|)));
        rest.(events := EventsOf(runs) + rest.events)
  }

  /** The groups the parallel executor runs: up to the first with a raised or cancelling member. */
  function GroupsRan(policies: seq<Policy>, groups: seq<seq<Stage>>): seq<seq<Stage>> {
    if groups == [] then []
    else
      var runs := Runs(policies, groups[0]);
      [groups[0]] + if FirstError(runs).Some? || AnyMemberCancels(runs) then [] else GroupsRan(policies, groups[1..])
  }

  lemma GroupsRanStep(policies: seq<Policy>, groups: seq<seq<Stage>>, i: nat)
    requires i < |groups|
    ensures var runs := Runs(policies, groups[i]);
            GroupsRan(policies, groups[i..]) ==
              [groups[i]] + if FirstError(runs).Some? || AnyMemberCancels(runs) then [] else GroupsRan(policies, groups[i + 1..])
  {
    assert groups[i..][1..] == groups[i + 1..];
  }

  // ---- Around both

  function Closing(end: PipelineEnd): Event {
    match end
    case Finished(_) => AfterPipeline
    case Cancelled => PipelineFailed(CANCELLED_BY_POLICY)
    case Aborted(error) => PipelineFailed(error)
  }

  function Lifecycle(run: PipelineRun): seq<Event> {
    [BeforePipeline] + run.events + [Closing(run.end)]
  }

  /** The pipeline result: a failed one carries the raised error, or the last result's error fields. */
  function Conclude(run: PipelineRun): PipelineResult {
    match run.end
    case Finished(false) => PipelineResult(COMPLETED, run.results, None, None)
    case Aborted(error) => PipelineResult(FAILED, run.results, Some(error.kind), Some(error.message))
    case _ => FailedResult(run.results)
  }

  function FailedResult(results: seq<StageResult>): PipelineResult {
    if results == [] then PipelineResult(FAILED, [], None, None)
    else PipelineResult(FAILED, results, Last(results).errorType, Last(results).errorMessage)
  }

  function Sequential(policies: seq<Policy>, items: seq<Item>): PipelineRun {
    SequentialFrom(policies, Flatten(items))
  }

  function Parallel(policies: seq<Policy>, items: seq<Item>): PipelineRun {
    ParallelFrom(policies, Groups(items), [], false)
  }

  lemma ThenAssociates(a: PipelineRun, b: PipelineRun, c: PipelineRun)
    requires a.end.Finished? && b.end.Finished?
    ensures Then(Then(a, b), c) == Then(a, Then(b, c))
    ensures Then(NOTHING_RUN, c) == c && Then(a, NOTHING_RUN) == a
  {
    assert a.results + b.results + c.results == a.results + (b.results + c.results);
    assert a.events + b.events + c.events == a.events + (b.events + c.events);
    assert [] + c.results == c.results && [] + c.events == c.events;
    assert a.results + [] == a.results && a.events + [] == a.events;
  }

  /** One stage of the loop: what has run, then this stage, then the rest. */
  lemma SequentialStep(policies: seq<Policy>, stages: seq<Stage>, i: nat, before: PipelineRun)
    requires i < |stages| && before.end.Finished?
    ensures var last := Alone(RunStage(policies, stages[i]));
            Then(before, SequentialFrom(policies, stages[i..])) ==
              if last.end.Finished? then Then(Then(before, last), SequentialFrom(policies, stages[i + 1..]))
              else Then(before, last)
  {
    assert stages[i..][1..] == stages[i + 1..];
    var last := Alone(RunStage(policies, stages[i]));
    if last.end.Finished? {
      ThenAssociates(before, last, SequentialFrom(policies, stages[i + 1..]));
    }
  }

  lemma NothingLeft(policies: seq<Policy>, before: PipelineRun)
    requires before.end.Finished?
    ensures Then(before, SequentialFrom(policies, [])) == before
  {
    ThenAssociates(before, NOTHING_RUN, NOTHING_RUN);
  }

  /** SequentialExecutor: the stage loop with its two ways out. */
  method RunSequentially(policies: seq<Policy>, items: seq<Item>, context: PipelineContext, task: TaskContext)
    returns (end: PipelineEnd, results: seq<StageResult>, events: seq<Event>)
    modifies context, task
    ensures end == Sequential(policies, items).end && results == Sequential(policies, items).results
    ensures events == Lifecycle(Sequential(policies, items))
    ensures context.status == Some(Conclude(Sequential(policies, items)).status)
    ensures context.cancelled == Some(false)
  {
    hide RunStage, SequentialFrom;
    context.ExecutionStarted(task);
    events := [BeforePipeline];
    ghost var emitted: seq<Event> := [];
    var hasToleratedFailures := false;
    results := [];
    var stages := Flatten(items);
    ghost var total := SequentialFrom(policies, stages);
    var i := 0;
    assert stages[0..] == stages;
    ThenAssociates(NOTHING_RUN, NOTHING_RUN, total);
    while i < |stages|
      invariant 0 <= i <= |stages|
      invariant total == Then(PipelineRun(Finished(hasToleratedFailures), results, emitted), SequentialFrom(policies, stages[i..]))
      invariant events == [BeforePipeline] + emitted
      invariant context.cancelled == Some(false)
    {
      SequentialStep(policies, stages, i, PipelineRun(Finished(hasToleratedFailures), results, emitted));
      var stage := Execute(policies, stages[i], task);
      assert [BeforePipeline] + emitted + stage.events == [BeforePipeline] + (emitted + stage.events);
      events := events + stage.events;
      emitted := emitted + stage.events;
      i := i + 1;
      match stage.end {
        case GaveUp(error) =>
          context.ExecutionFailed(task, Some(error));
          events := events + [PipelineFailed(error)];
          assert results + [] == results;
          return Aborted(error), results, events;
        case Done(result, cancel) =>
          results := results + [result];
          if cancel {
            context.ExecutionFailed(task, Some(CANCELLED_BY_POLICY));
            events := events + [PipelineFailed(CANCELLED_BY_POLICY)];
            return Cancelled, results, events;
          }
          if result.Failed() {
            hasToleratedFailures := true;
          }
      }
    }
    assert stages[i..] == [];
    NothingLeft(policies, PipelineRun(Finished(hasToleratedFailures), results, emitted));
    if hasToleratedFailures {
      context.ExecutionFailed(task, None);
    } else {
      context.ExecutionCompleted(task);
    }
    events := events + [AfterPipeline];
    end := Finished(hasToleratedFailures);
  }

  /** Gathering a group: one task per member, each with its own copy of the variables, resumed in any order
      the event loop likes until all have ended. Every member ends as when run by itself. */
  method Gather(policies: seq<Policy>, group: seq<Stage>, parent: TaskContext) returns (runs: seq<Run>, trace: seq<Event>)
    ensures runs == Runs(policies, group)
    ensures DistinctIds(group) ==> GroupRun.GroupTrace(policies, group, trace)
  {
    hide RunStage, GroupRun.Advance, GroupRun.Resume, GroupRun.Play, GroupRun.UnderWay, GroupRun.AllRemaining, GroupRun.GroupTrace;
    var tasks := CopyContexts(parent, |group|);
    var progress: seq<GroupRun.Progress> := seq(|group|, _ => GroupRun.Waiting);
    var events: seq<seq<Event>> := seq(|group|, _ => []);
    trace := [];
    ghost var vars := parent.vars;
    ghost var inherited := seq(|group|, _ => vars);
    ghost var schedule: seq<nat> := [];
    ghost var start := GroupRun.Gathered(group, inherited);
    ghost var g := start;
    GroupRun.PlayNone(policies, group, GroupRun.OwnCopy, start);
    GroupRun.GatheredUnderWay(policies, group, inherited);
    while exists i :: 0 <= i < |group| && !progress[i].Ended?
      invariant GroupRun.ForTasks(schedule, |group|) && g == GroupRun.Play(policies, group, GroupRun.OwnCopy, start, schedule)
      invariant GroupRun.UnderWay(policies, group, g)
      invariant |progress| == |events| == |group| && Mirrors(g, progress, events, trace)
      invariant |tasks| == |group| && Separate(tasks) && forall i | 0 <= i < |group| :: fresh(tasks[i])
      invariant GroupRun.WellSized(group, GroupRun.OwnCopy, g) && |g.slots| == |group|
      invariant forall i | 0 <= i < |group| :: tasks[i].vars == g.slots[i]
      decreases GroupRun.AllRemaining(policies, group, g.tasks)
    {
      var i :| 0 <= i < |group| && !progress[i].Ended?;
      GroupRun.ResumeProgresses(policies, group, g, i);
      GroupRun.PlayMore(policies, group, GroupRun.OwnCopy, start, schedule, i);
      var next, emitted := GroupRun.RunToAwait(policies, group[i], progress[i], tasks[i]);
      MirrorsResumed(policies, group, g, progress, events, trace, i, next, tasks[i].vars, emitted);
      progress := progress[i := next];
      events := events[i := events[i] + emitted];
      trace := trace + emitted;
      g := GroupRun.Resume(policies, group, GroupRun.OwnCopy, g, i);
      schedule := schedule + [i];
    }
    runs := seq(|group|, i requires 0 <= i < |group| && |progress| == |events| == |group| && progress[i].Ended? =>
                  Run(progress[i].end, progress[i].attempts, events[i]));
    forall i | 0 <= i < |group|
      ensures runs[i] == RunStage(policies, group[i])
    {
      GroupRun.GroupEndsAsSpecified(policies, group, inherited, schedule, i);
    }
    if DistinctIds(group) {
      GroupRun.ScheduledGroupTrace(policies, group, inherited, schedule);
    }
  }

  /** Every task starts with its own copy of what its parent left in the variables. */
  method CopyContexts(parent: TaskContext, n: nat) returns (tasks: seq<TaskContext>)
    ensures |tasks| == n && Separate(tasks)
    ensures forall i | 0 <= i < n :: fresh(tasks[i]) && tasks[i].vars == parent.vars
  {
    tasks := [];
    while |tasks| < n
      invariant |tasks| <= n && Separate(tasks)
      invariant forall i | 0 <= i < |tasks| :: fresh(tasks[i]) && tasks[i].vars == parent.vars
    {
      var task := new TaskContext(parent.vars);
      tasks := tasks + [task];
    }
  }

  ghost predicate Separate(tasks: seq<TaskContext>) {
    forall i, j | 0 <= i < j < |tasks| :: tasks[i] != tasks[j]
  }

  /** What the executor holds of a group is what the event loop's model says. */
  ghost predicate Mirrors(g: GroupRun.EventLoop, progress: seq<GroupRun.Progress>, events: seq<seq<Event>>, trace: seq<Event>) {
    && |progress| == |events| == |g.tasks| && trace == g.trace
    && forall i | 0 <= i < |g.tasks| :: progress[i] == g.tasks[i].progress && events[i] == g.tasks[i].events
  }

  lemma MirrorsResumed(policies: seq<Policy>, group: seq<Stage>, g: GroupRun.EventLoop, progress: seq<GroupRun.Progress>,
                       events: seq<seq<Event>>, trace: seq<Event>, i: nat, next: GroupRun.Progress, vars: StageVars, emitted: seq<Event>)
    requires GroupRun.WellSized(group, GroupRun.OwnCopy, g) && i < |group| == |g.slots| && Mirrors(g, progress, events, trace)
    requires GroupRun.Advance(policies, group[i], GroupRun.Task(progress[i], g.slots[i], events[i])) == GroupRun.Task(next, vars, events[i] + emitted)
    ensures var g' := GroupRun.Resume(policies, group, GroupRun.OwnCopy, g, i);
            && Mirrors(g', progress[i := next], events[i := events[i] + emitted], trace + emitted)
            && g'.slots == g.slots[i := vars]
  {
    hide GroupRun.Advance;
    assert g.tasks[i].(vars := g.slots[i]) == GroupRun.Task(progress[i], g.slots[i], events[i]);
    assert (events[i] + emitted)[|events[i]|..] == emitted;
  }

  lemma NextOutcome(runs: seq<Run>, i: nat)
    requires i < |runs|
    ensures var run := runs[i];
            && Results(runs[i..]) == (if run.end.Done? then [run.end.result] else []) + Results(runs[i + 1..])
            && FirstError(runs[i..]) == (if run.end.GaveUp? then Some(run.end.error) else FirstError(runs[i + 1..]))
            && (AnyMemberCancels(runs[..i + 1]) <==> AnyMemberCancels(runs[..i]) || (run.end.Done? && run.end.cancel))
  {
    assert runs[i..][1..] == runs[i + 1..];
    assert runs[..i + 1] == runs[..i] + [runs[i]];
  }

  /** Sorting out a group's outcomes, in order: results of those that finished, the first exception,
      and whether any of them cancels. */
  method Aggregate(runs: seq<Run>) returns (results: seq<StageResult>, failure: Option<Error>, cancelled: bool)
    ensures results == Results(runs) && failure == FirstError(runs)
    ensures cancelled == AnyMemberCancels(runs)
  {
    hide Results, FirstError, AnyMemberCancels;
    results, failure, cancelled := [], None, false;
    assert runs[0..] == runs && [] + Results(runs) == Results(runs);
    NoneCancels();
    var i := 0;
    while i < |runs|
      invariant 0 <= i <= |runs|
      invariant results + Results(runs[i..]) == Results(runs)
      invariant (if failure.Some? then failure else FirstError(runs[i..])) == FirstError(runs)
      invariant cancelled == AnyMemberCancels(runs[..i])
    {
      NextOutcome(runs, i);
      match runs[i].end {
        case GaveUp(error) =>
          if failure.None? {
            failure := Some(error);
          }
        case Done(result, cancel) =>
          ConcatAssociates(results, [result], Results(runs[i + 1..]));
          results := results + [result];
          if cancel {
            cancelled := true;
          }
      }
      i := i + 1;
    }
    assert runs[..i] == runs && runs[i..] == [];
    NoOutcomes();
  }

  lemma NoneCancels()
    ensures !AnyMemberCancels([])
  {
  }

  lemma NoOutcomes()
    ensures Results([]) == [] && FirstError([]) == None
  {
  }

  function PrependEvents(events: seq<Event>, run: PipelineRun): PipelineRun {
    run.(events := events + run.events)
  }

  lemma ParallelStep(policies: seq<Policy>, groups: seq<seq<Stage>>, i: nat, results: seq<StageResult>, tolerated: bool, emitted: seq<Event>)
    requires i < |groups|
    ensures var runs := Runs(policies, groups[i]);
            var results' := results + Results(runs);
            PrependEvents(emitted, ParallelFrom(policies, groups[i..], results, tolerated)) ==
              if FirstError(runs).Some? then PipelineRun(Aborted(FirstError(runs).value), results', emitted + EventsOf(runs))
              else if AnyMemberCancels(runs) then PipelineRun(Cancelled, results', emitted + EventsOf(runs))
              else PrependEvents(emitted + EventsOf(runs),
                                 ParallelFrom(policies, groups[i + 1..], results', tolerated || AnyFailed(LastResults(results', |groups[i]|))))
  {
    assert groups[i..][1..] == groups[i + 1..];
    var runs := Runs(policies, groups[i]);
    var results' := results + Results(runs);
    var rest := ParallelFrom(policies, groups[i + 1..], results', tolerated || AnyFailed(LastResults(results', |groups[i]|)));
    assert emitted + EventsOf(runs) + rest.events == emitted + (EventsOf(runs) + rest.events);
  }

  /** The events of a parallel run in some order its groups allow: the lifecycle around the groups that ran,
      one after the other, and within each group any interleaving of its members. */
  ghost predicate Interleaved(policies: seq<Policy>, items: seq<Item>, events: seq<Event>) {
    exists traces :: TracesOf(policies, items, events, traces)
  }

  ghost predicate TracesOf(policies: seq<Policy>, items: seq<Item>, events: seq<Event>, traces: seq<seq<Event>>) {
    && GroupTraces(policies, GroupsRan(policies, Groups(items)), traces)
    && events == [BeforePipeline] + Concat(traces) + [Closing(Parallel(policies, items).end)]
  }

  ghost predicate GroupTraces(policies: seq<Policy>, groups: seq<seq<Stage>>, traces: seq<seq<Event>>) {
    |traces| == |groups| && forall k | 0 <= k < |groups| :: GroupRun.GroupTrace(policies, groups[k], traces[k])
  }

  /** One group more has run. */
  lemma OneMoreTrace(policies: seq<Policy>, groups: seq<seq<Stage>>, traces: seq<seq<Event>>, i: nat, trace: seq<Event>)
    requires i < |groups| && DistinctIds(Concat(groups))
    requires GroupTraces(policies, groups[..i], traces)
    requires DistinctIds(groups[i]) ==> GroupRun.GroupTrace(policies, groups[i], trace)
    ensures GroupTraces(policies, groups[..i + 1], traces + [trace])
  {
    hide GroupRun.GroupTrace, DistinctIds;
    DistinctGroup(groups, i);
    forall k | 0 <= k < i + 1
      ensures GroupRun.GroupTrace(policies, groups[..i + 1][k], (traces + [trace])[k])
    {
      if k < i {
        assert groups[..i][k] == groups[k];
        assert GroupRun.GroupTrace(policies, groups[..i][k], traces[k]);
      }
    }
  }

  lemma ConcatAppend(traces: seq<seq<Event>>, trace: seq<Event>)
    ensures [BeforePipeline] + Concat(traces + [trace]) == [BeforePipeline] + Concat(traces) + trace
  {
    ConcatOfTwo(traces, [trace]);
    assert [trace][1..] == [] && trace + [] == trace;
  }

  /** After i groups: what they have left, and what is still to come of the parallel run. */
  ghost predicate SoFar(policies: seq<Policy>, items: seq<Item>, i: nat, results: seq<StageResult>, tolerated: bool,
                        inOrder: seq<Event>, traces: seq<seq<Event>>)
  {
    var groups := Groups(items);
    && i <= |groups|
    && Parallel(policies, items) == PrependEvents(inOrder, ParallelFrom(policies, groups[i..], results, tolerated))
    && GroupsRan(policies, groups) == groups[..i] + GroupsRan(policies, groups[i..])
    && (DistinctIds(Flatten(items)) ==> GroupTraces(policies, groups[..i], traces))
  }

  lemma NothingRanYet(policies: seq<Policy>, items: seq<Item>)
    ensures SoFar(policies, items, 0, [], false, [], []) && [BeforePipeline] + Concat([]) == [BeforePipeline]
  {
    var p := Parallel(policies, items);
    assert [] + p.events == p.events && Groups(items)[0..] == Groups(items);
  }

  /** The run ends after its first n groups. */
  lemma EndsHere(policies: seq<Policy>, items: seq<Item>, traces: seq<seq<Event>>, n: nat)
    requires n <= |Groups(items)| && GroupsRan(policies, Groups(items)) == Groups(items)[..n]
    requires DistinctIds(Flatten(items)) ==> GroupTraces(policies, Groups(items)[..n], traces)
    ensures DistinctIds(Flatten(items)) ==>
              Interleaved(policies, items, [BeforePipeline] + Concat(traces) + [Closing(Parallel(policies, items).end)])
  {
    if DistinctIds(Flatten(items)) {
      assert TracesOf(policies, items, [BeforePipeline] + Concat(traces) + [Closing(Parallel(policies, items).end)], traces);
    }
  }

  /** One group more: the run ends with it, or goes on. */
  lemma GroupHasRun(policies: seq<Policy>, items: seq<Item>, i: nat, results: seq<StageResult>, tolerated: bool,
                    inOrder: seq<Event>, traces: seq<seq<Event>>, trace: seq<Event>)
    requires SoFar(policies, items, i, results, tolerated, inOrder, traces) && i < |Groups(items)|
    requires DistinctIds(Groups(items)[i]) ==> GroupRun.GroupTrace(policies, Groups(items)[i], trace)
    ensures var runs := Runs(policies, Groups(items)[i]);
            var results', traces', p := results + Results(runs), traces + [trace], Parallel(policies, items);
            if FirstError(runs).Some? || AnyMemberCancels(runs) then
              && p.end == (if FirstError(runs).Some? then Aborted(FirstError(runs).value) else Cancelled) && p.results == results'
              && (DistinctIds(Flatten(items)) ==> Interleaved(policies, items, [BeforePipeline] + Concat(traces') + [Closing(p.end)]))
            else
              SoFar(policies, items, i + 1, results', tolerated || AnyFailed(LastResults(results', |Groups(items)[i]|)),
                    inOrder + EventsOf(runs), traces')
  {
    hide RunStage, ParallelFrom, Results, FirstError, AnyMemberCancels, EventsOf, GroupsRan, GroupTraces, Concat, AnyFailed, DistinctIds, Closing;
    var groups := Groups(items);
    FlattenIsConcatOfGroups(items);
    ParallelStep(policies, groups, i, results, tolerated, inOrder);
    GroupsRanStep(policies, groups, i);
    if DistinctIds(Flatten(items)) {
      OneMoreTrace(policies, groups, traces, i, trace);
    }
    assert groups[..i] + [groups[i]] == groups[..i + 1];
    if FirstError(Runs(policies, groups[i])).Some? || AnyMemberCancels(Runs(policies, groups[i])) {
      assert groups[..i] + [groups[i]] + [] == groups[..i + 1];
      EndsHere(policies, items, traces + [trace], i + 1);
    } else {
      ConcatAssociates(groups[..i], [groups[i]], GroupsRan(policies, groups[i + 1..]));
    }
  }

  lemma NoGroupLeft(policies: seq<Policy>, items: seq<Item>, results: seq<StageResult>, tolerated: bool, inOrder: seq<Event>, traces: seq<seq<Event>>)
    requires SoFar(policies, items, |items|, results, tolerated, inOrder, traces)
    ensures Parallel(policies, items).end == Finished(tolerated) && Parallel(policies, items).results == results
    ensures DistinctIds(Flatten(items)) ==>
              Interleaved(policies, items, [BeforePipeline] + Concat(traces) + [AfterPipeline])
  {
    assert Groups(items)[|items|..] == [];
    EndsHere(policies, items, traces, |items|);
  }

  /** ParallelExecutor: the group loop, whatever order the event loop runs a group's tasks in. */
  method RunInGroups(policies: seq<Policy>, items: seq<Item>, context: PipelineContext, task: TaskContext)
    returns (end: PipelineEnd, results: seq<StageResult>, events: seq<Event>)
    modifies context, task
    ensures end == Parallel(policies, items).end && results == Parallel(policies, items).results
    ensures DistinctIds(Flatten(items)) ==> Interleaved(policies, items, events)
    ensures context.status == Some(Conclude(Parallel(policies, items)).status)
    ensures context.cancelled == Some(false)
  {
    hide RunStage, Parallel, Results, FirstError, AnyMemberCancels, EventsOf, SoFar, Interleaved, Concat, DistinctIds, Flatten, GroupRun.GroupTrace;
    context.ExecutionStarted(task);
    events := [BeforePipeline];
    ghost var inOrder: seq<Event> := [];
    ghost var traces: seq<seq<Event>> := [];
    var hasToleratedFailures := false;
    results := [];
    var groups := Groups(items);
    NothingRanYet(policies, items);
    var i := 0;
    while i < |groups|
      invariant 0 <= i <= |groups|
      invariant SoFar(policies, items, i, results, hasToleratedFailures, inOrder, traces)
      invariant events == [BeforePipeline] + Concat(traces)
      invariant context.cancelled == Some(false)
    {
      var outcomes, trace := Gather(policies, groups[i], task);
      var groupResults, technicalFailure, groupCancelled := Aggregate(outcomes);
      GroupHasRun(policies, items, i, results, hasToleratedFailures, inOrder, traces, trace);
      ConcatAppend(traces, trace);
      events := events + trace;
      traces := traces + [trace];
      inOrder := inOrder + EventsOf(outcomes);
      results := results + groupResults;
      if technicalFailure.Some? {
        context.ExecutionFailed(task, technicalFailure);
        events := events + [PipelineFailed(technicalFailure.value)];
        return Aborted(technicalFailure.value), results, events;
      }
      if groupCancelled {
        context.ExecutionFailed(task, Some(CANCELLED_BY_POLICY));
        events := events + [PipelineFailed(CANCELLED_BY_POLICY)];
        return Cancelled, results, events;
      }
      if AnyFailed(LastResults(results, |groups[i]|)) {
        hasToleratedFailures := true;
      }
      i := i + 1;
    }
    NoGroupLeft(policies, items, results, hasToleratedFailures, inOrder, traces);
    if hasToleratedFailures {
      context.ExecutionFailed(task, None);
    } else {
      context.ExecutionCompleted(task);
    }
    events := events + [AfterPipeline];
    end := Finished(hasToleratedFailures);
  }

  /** Building the pipeline result and storing it in the context. */
  method Publish(context: PipelineContext, end: PipelineEnd, results: seq<StageResult>) returns (result: PipelineResult)
    modifies context`pipelineResult
    ensures forall events :: result == Conclude(PipelineRun(end, results, events))
    ensures context.pipelineResult == Some(result)
  {
    match end {
      case Aborted(error) =>
        result := PipelineResult(FAILED, results, Some(error.kind), Some(error.message));
      case Cancelled =>
        result := FailedResult(results);
      case Finished(tolerated) =>
        result := if tolerated then FailedResult(results) else PipelineResult(COMPLETED, results, None, None);
    }
    context.pipelineResult := Some(result);
  }

  /** One execution from start to published result: what is stored in the context, status included,
      is what is returned. */
  method ExecuteSequentially(policies: seq<Policy>, items: seq<Item>, context: PipelineContext, task: TaskContext)
    returns (result: PipelineResult, events: seq<Event>)
    modifies context, task
    ensures result == Conclude(Sequential(policies, items)) && events == Lifecycle(Sequential(policies, items))
    ensures context.pipelineResult == Some(result) && context.status == Some(result.status)
  {
    var end, results, emitted := RunSequentially(policies, items, context, task);
    result := Publish(context, end, results);
    events := emitted;
    assert Sequential(policies, items) == PipelineRun(end, results, Sequential(policies, items).events);
  }

  method ExecuteInGroups(policies: seq<Policy>, items: seq<Item>, context: PipelineContext, task: TaskContext)
    returns (result: PipelineResult, events: seq<Event>)
    modifies context, task
    ensures result == Conclude(Parallel(policies, items))
    ensures DistinctIds(Flatten(items)) ==> Interleaved(policies, items, events)
    ensures context.pipelineResult == Some(result) && context.status == Some(result.status)
  {
    var end, results, emitted := RunInGroups(policies, items, context, task);
    result := Publish(context, end, results);
    events := emitted;
    assert Parallel(policies, items) == PipelineRun(end, results, Parallel(policies, items).events);
  }
}
