/** A group of stages running concurrently, one await at a time. Each task has its own copy of the
    stage-scoped variables; under every interleaving each stage ends as if it had run alone. */
module GroupRun {
  import opened Common
  import opened Pipelines
  import opened Policies
  import opened ExecutionRuntime
  import opened StageRun

  /** Where a task stands between two awaits: about to start, about to execute an attempt, about to
      have a failure judged by the policies, or at its end. */
  datatype Progress = Waiting | Executing(attempt: nat) | Judging(attempt: nat, outcome: Outcome) | Ended(end: StageEnd, attempts: nat)

  datatype Task = Task(progress: Progress, vars: StageVars, events: seq<Event>)

  /** What a task does up to its next await, on the variables it sees. */
  function Advance(policies: seq<Policy>, stage: Stage, t: Task): (t': Task)
    ensures t.events <= t'.events
  {
    match t.progress
    case Waiting =>
      Task(Executing(1), t.vars.Started(stage.id).(maxAttempts := Some(stage.maxAttempts)), t.events + [BeforeStage(stage.id)])
    case Executing(attempt) =>
      var outcome := stage.attempt(attempt);
      var vars := t.vars.Recorded(outcome);
      if outcome.Returns? && outcome.result.Succeeded() then
        Task(Ended(Done(outcome.result, false), attempt), vars.Finished(), t.events + [AfterStage(stage.id, outcome.result)])
      else
        Task(Judging(attempt, outcome), vars, t.events + [StageFailed(stage.id, outcome)])
    case Judging(attempt, Returns(result)) =>
      Task(Ended(Done(result, WantsCancel(policies, t.vars.FailureContext())), attempt), t.vars.Finished(), t.events)
    case Judging(attempt, Raises(error)) =>
      if WantsRetry(policies, t.vars.FailureContext()) then Task(Executing(attempt + 1), t.vars.Retried(attempt + 1), t.events)
      else Task(Ended(GaveUp(error), attempt), t.vars.Finished(), t.events)
    case Ended(_, _) => t
  }

  function Fresh(vars: StageVars): Task {
    Task(Waiting, vars, [])
  }

  // ---- Alone

  function Alone(policies: seq<Policy>, stage: Stage, vars: StageVars, steps: nat): Task {
    if steps == 0 then Fresh(vars) else Advance(policies, stage, Alone(policies, stage, vars, steps - 1))
  }

  /** What holds of a task between awaits, whatever variables it inherited. */
  ghost predicate OnCourse(policies: seq<Policy>, stage: Stage, t: Task) {
    var run := RunStage(policies, stage);
    match t.progress
    case Waiting => t.events == []
    case Executing(attempt) =>
      && 1 <= attempt <= run.attempts
      && t.vars == StageVars(Some(stage.id), Some(attempt), Some(stage.maxAttempts), None, None)
      && t.events == [BeforeStage(stage.id)] + Reports(stage, 1, attempt)
    case Judging(attempt, outcome) =>
      && 1 <= attempt <= run.attempts && outcome == stage.attempt(attempt)
      && (outcome.Returns? ==> outcome.result.Failed() && attempt == run.attempts)
      && t.vars == StageVars(Some(stage.id), Some(attempt), Some(stage.maxAttempts), None, None).Recorded(outcome)
      && t.events == [BeforeStage(stage.id)] + Reports(stage, 1, attempt) + [StageFailed(stage.id, outcome)]
    case Ended(end, attempts) => Run(end, attempts, t.events) == run
  }

  lemma AdvanceStaysOnCourse(policies: seq<Policy>, stage: Stage, t: Task)
    requires OnCourse(policies, stage, t)
    ensures OnCourse(policies, stage, Advance(policies, stage, t))
  {
    DecidingIsFirstReturn(stage, Limit(policies, stage), 1);
    if t.progress.Judging? && t.progress.outcome.Raises? {
      ReportsAppend(stage, 1, t.progress.attempt);
    }
  }

  /** Steps a task still has to take. */
  ghost function Remaining(policies: seq<Policy>, stage: Stage, t: Task): int {
    var n := RunStage(policies, stage).attempts;
    match t.progress
    case Waiting => 2 * n + 1
    case Executing(attempt) => 2 * (n - attempt) + 2
    case Judging(attempt, _) => 2 * (n - attempt) + 1
    case Ended(_, _) => 0
  }

  lemma AdvanceProgresses(policies: seq<Policy>, stage: Stage, t: Task)
    requires OnCourse(policies, stage, t)
    ensures Remaining(policies, stage, t) >= 0
    ensures Remaining(policies, stage, t) > 0 ==>
              Remaining(policies, stage, Advance(policies, stage, t)) <= Remaining(policies, stage, t) - 1
    ensures Remaining(policies, stage, t) == 0 <==> t.progress.Ended?
  {
    AdvanceStaysOnCourse(policies, stage, t);
    DecidingIsFirstReturn(stage, Limit(policies, stage), 1);
  }

  /** Run alone from any inherited variables, a stage follows its specification and ends within two
      steps per attempt and one to start. */
  lemma {:induction false} AloneFollowsSpecification(policies: seq<Policy>, stage: Stage, vars: StageVars, steps: nat)
    ensures OnCourse(policies, stage, Alone(policies, stage, vars, steps))
    ensures Remaining(policies, stage, Alone(policies, stage, vars, steps)) <=
            Max(0, 2 * RunStage(policies, stage).attempts + 1 - steps)
  {
    if steps > 0 {
      AloneFollowsSpecification(policies, stage, vars, steps - 1);
      var t := Alone(policies, stage, vars, steps - 1);
      AdvanceStaysOnCourse(policies, stage, t);
      AdvanceProgresses(policies, stage, t);
      AdvanceProgresses(policies, stage, Advance(policies, stage, t));
    }
  }

  // ---- Together

  /** Which variables task i sees: its own copy. */
  function OwnCopy(i: nat): nat {
    i
  }

  /** The earlier design: one slot for all. */
  function SharedSlot(i: nat): nat {
    0
  }

  /** The group: each task's progress and events, the variable slots, and the events in the order they occur. */
  datatype EventLoop = EventLoop(tasks: seq<Task>, slots: seq<StageVars>, trace: seq<Event>)

  predicate WellSized(stages: seq<Stage>, slotOf: nat -> nat, g: EventLoop) {
    && |g.tasks| == |stages|
    && forall i: nat | i < |stages| :: slotOf(i) < |g.slots|
  }

  /** The event loop resumes task i until its next await. */
  function Resume(policies: seq<Policy>, stages: seq<Stage>, slotOf: nat -> nat, g: EventLoop, i: nat): (g': EventLoop)
    requires WellSized(stages, slotOf, g) && i < |stages|
    ensures WellSized(stages, slotOf, g') && |g'.slots| == |g.slots|
  {
    var before := g.tasks[i].(vars := g.slots[slotOf(i)]);
    var after := Advance(policies, stages[i], before);
    EventLoop(g.tasks[i := after], g.slots[slotOf(i) := after.vars], g.trace + after.events[|before.events|..])
  }

  predicate ForTasks(schedule: seq<nat>, n: nat) {
    forall k | 0 <= k < |schedule| :: schedule[k] < n
  }

  function Play(policies: seq<Policy>, stages: seq<Stage>, slotOf: nat -> nat, g: EventLoop, schedule: seq<nat>): (g': EventLoop)
    requires WellSized(stages, slotOf, g) && ForTasks(schedule, |stages|)
    ensures WellSized(stages, slotOf, g') && |g'.slots| == |g.slots|
  {
    if schedule == [] then g
    else Resume(policies, stages, slotOf, Play(policies, stages, slotOf, g, Init(schedule)), Last(schedule))
  }

  /** At the start every task has copied whatever its parent left in the variables. */
  function Gathered(stages: seq<Stage>, inherited: seq<StageVars>): EventLoop
    requires |inherited| == |stages|
  {
    EventLoop(seq(|stages|, i requires 0 <= i < |stages| => Fresh(inherited[i])), inherited, [])
  }

  function Turns(schedule: seq<nat>, i: nat): nat {
    multiset(schedule)[i]
  }

  lemma TurnsLast(schedule: seq<nat>, i: nat)
    requires schedule != []
    ensures Turns(schedule, i) == Turns(Init(schedule), i) + (if Last(schedule) == i then 1 else 0)
  {
    InitLast(schedule);
    assert multiset(schedule) == multiset(Init(schedule)) + multiset{Last(schedule)};
  }

  /** Non-interference: after any schedule each task is where that many of its own steps alone lead. */
  lemma {:induction false} EachAsAlone(policies: seq<Policy>, stages: seq<Stage>, inherited: seq<StageVars>, schedule: seq<nat>, i: nat)
    requires |inherited| == |stages| && i < |stages| && ForTasks(schedule, |stages|)
    ensures var g := Play(policies, stages, OwnCopy, Gathered(stages, inherited), schedule);
            var alone := Alone(policies, stages[i], inherited[i], Turns(schedule, i));
            g.tasks[i] == alone && g.slots[i] == alone.vars
  {
    hide Advance;
    if schedule != [] {
      TurnsLast(schedule, i);
      EachAsAlone(policies, stages, inherited, Init(schedule), i);
    }
  }

  /** Each stage of a group ends with the outcome, the number of attempts and the events of running it
      by itself, once it has been resumed often enough, whatever its siblings do in between. */
  lemma GroupEndsAsSpecified(policies: seq<Policy>, stages: seq<Stage>, inherited: seq<StageVars>, schedule: seq<nat>, i: nat)
    requires |inherited| == |stages| && i < |stages| && ForTasks(schedule, |stages|)
    ensures var t := Play(policies, stages, OwnCopy, Gathered(stages, inherited), schedule).tasks[i];
            && (t.progress.Ended? ==> Run(t.progress.end, t.progress.attempts, t.events) == RunStage(policies, stages[i]))
            && (Turns(schedule, i) >= 2 * RunStage(policies, stages[i]).attempts + 1 ==> t.progress.Ended?)
            && (t.progress.Judging? ==> ExactlyOneFailure(t.vars))
  {
    EachAsAlone(policies, stages, inherited, schedule, i);
    AloneFollowsSpecification(policies, stages[i], inherited[i], Turns(schedule, i));
    AdvanceProgresses(policies, stages[i], Alone(policies, stages[i], inherited[i], Turns(schedule, i)));
  }

  // ---- The events in the order they occur

  lemma AdvanceEmits(policies: seq<Policy>, stage: Stage, t: Task)
    ensures AllOfStage(Advance(policies, stage, t).events[|t.events|..], stage.id)
  {
  }

  /** Seen from any one stage, the group's events are those of that stage's task, in its own order. */
  lemma {:induction false} TraceInterleaves(policies: seq<Policy>, stages: seq<Stage>, slotOf: nat -> nat,
                                            inherited: seq<StageVars>, schedule: seq<nat>, i: nat)
    requires |inherited| == |stages| && i < |stages| && ForTasks(schedule, |stages|) && DistinctIds(stages)
    requires WellSized(stages, slotOf, Gathered(stages, inherited))
    ensures var g := Play(policies, stages, slotOf, Gathered(stages, inherited), schedule);
            EventsOfStage(g.trace, stages[i].id) == g.tasks[i].events
  {
    hide Advance;
    if schedule != [] {
      var j := Last(schedule);
      var g := Play(policies, stages, slotOf, Gathered(stages, inherited), Init(schedule));
      TraceInterleaves(policies, stages, slotOf, inherited, Init(schedule), i);
      var before := g.tasks[j].(vars := g.slots[slotOf(j)]);
      var emitted := Advance(policies, stages[j], before).events[|before.events|..];
      AdvanceEmits(policies, stages[j], before);
      EventsOfStageConcat(g.trace, emitted, stages[i].id);
      EventsOfOneStage(emitted, stages[j].id, stages[i].id);
    }
  }

  /** Nothing but stage events occurs, and only of the group's own stages. */
  lemma {:induction false} TraceIsOfStages(policies: seq<Policy>, stages: seq<Stage>, slotOf: nat -> nat,
                                           g: EventLoop, schedule: seq<nat>, k: nat)
    requires WellSized(stages, slotOf, g) && ForTasks(schedule, |stages|) && g.trace == []
    requires k < |Play(policies, stages, slotOf, g, schedule).trace|
    ensures var e := Play(policies, stages, slotOf, g, schedule).trace[k];
            e.OfStage() && exists i | 0 <= i < |stages| :: e.id == stages[i].id
  {
    hide Advance;
    var g' := Play(policies, stages, slotOf, g, Init(schedule));
    if k < |g'.trace| {
      TraceIsOfStages(policies, stages, slotOf, g, Init(schedule), k);
    } else {
      var j := Last(schedule);
      AdvanceEmits(policies, stages[j], g'.tasks[j].(vars := g'.slots[slotOf(j)]));
    }
  }

  /** The events of a group, in some interleaving: only of its stages, and for each stage its own in order. */
  ghost predicate GroupTrace(policies: seq<Policy>, group: seq<Stage>, events: seq<Event>) {
    && (forall k | 0 <= k < |events| :: events[k].OfStage() && exists i | 0 <= i < |group| :: events[k].id == group[i].id)
    && (forall i | 0 <= i < |group| :: EventsOfStage(events, group[i].id) == RunStage(policies, group[i]).events)
  }

  /** Any schedule that runs a group to its end gives such a trace. */
  lemma ScheduledGroupTrace(policies: seq<Policy>, group: seq<Stage>, inherited: seq<StageVars>, schedule: seq<nat>)
    requires |inherited| == |group| && DistinctIds(group) && ForTasks(schedule, |group|)
    requires forall i | 0 <= i < |group| ::
               Play(policies, group, OwnCopy, Gathered(group, inherited), schedule).tasks[i].progress.Ended?
    ensures GroupTrace(policies, group, Play(policies, group, OwnCopy, Gathered(group, inherited), schedule).trace)
  {
    hide Play, RunStage;
    var g := Play(policies, group, OwnCopy, Gathered(group, inherited), schedule);
    forall i | 0 <= i < |group|
      ensures EventsOfStage(g.trace, group[i].id) == RunStage(policies, group[i]).events
    {
      TraceInterleaves(policies, group, OwnCopy, inherited, schedule, i);
      GroupEndsAsSpecified(policies, group, inherited, schedule, i);
    }
    forall k | 0 <= k < |g.trace|
      ensures g.trace[k].OfStage() && exists i | 0 <= i < |group| :: g.trace[k].id == group[i].id
    {
      TraceIsOfStages(policies, group, OwnCopy, Gathered(group, inherited), schedule, k);
    }
  }

  // ---- The same, in the executor's own code

  /** What a task's code does until its next await, on its own variables. */
  method RunToAwait(policies: seq<Policy>, stage: Stage, progress: Progress, context: TaskContext)
    returns (next: Progress, emitted: seq<Event>)
    modifies context
    ensures forall events ::
              Advance(policies, stage, Task(progress, old(context.vars), events)) == Task(next, context.vars, events + emitted)
  {
    match progress {
      case Waiting =>
        context.StageStarted(stage.id);
        context.MaxAttempts(stage.maxAttempts);
        return Executing(1), [BeforeStage(stage.id)];
      case Executing(attempt) =>
        var outcome := stage.attempt(attempt);
        context.Record(outcome);
        if outcome.Returns? && outcome.result.Succeeded() {
          context.StageFinished();
          return Ended(Done(outcome.result, false), attempt), [AfterStage(stage.id, outcome.result)];
        }
        return Judging(attempt, outcome), [StageFailed(stage.id, outcome)];
      case Judging(attempt, outcome) =>
        assert forall events: seq<Event> :: events + [] == events;
        var retry, cancel := context.EvaluatePolicies(policies);
        match outcome {
          case Returns(result) =>
            context.StageFinished();
            return Ended(Done(result, cancel), attempt), [];
          case Raises(error) =>
            if retry {
              context.RetryStarted(attempt + 1);
              return Executing(attempt + 1), [];
            }
            context.StageFinished();
            return Ended(GaveUp(error), attempt), [];
        }
      case Ended(_, _) =>
        assert forall events: seq<Event> :: events + [] == events;
        return progress, [];
    }
  }

  /** Steps all tasks together still have to take. */
  ghost function AllRemaining(policies: seq<Policy>, stages: seq<Stage>, tasks: seq<Task>): int
    requires |tasks| == |stages|
  {
    if tasks == [] then 0
    else AllRemaining(policies, Init(stages), Init(tasks)) + Remaining(policies, Last(stages), Last(tasks))
  }

  lemma {:induction false} AllRemainingAdvances(policies: seq<Policy>, stages: seq<Stage>, tasks: seq<Task>, i: nat, t: Task)
    requires |tasks| == |stages| && i < |tasks|
    ensures AllRemaining(policies, stages, tasks[i := t]) ==
            AllRemaining(policies, stages, tasks) - Remaining(policies, stages[i], tasks[i]) + Remaining(policies, stages[i], t)
  {
    hide Remaining;
    if i == |tasks| - 1 {
      assert Init(tasks[i := t]) == Init(tasks);
    } else {
      assert Init(tasks[i := t]) == Init(tasks)[i := t];
      AllRemainingAdvances(policies, Init(stages), Init(tasks), i, t);
    }
  }

  lemma {:induction false} AllRemainingIsNat(policies: seq<Policy>, stages: seq<Stage>, tasks: seq<Task>)
    requires |tasks| == |stages| && forall i | 0 <= i < |tasks| :: OnCourse(policies, stages[i], tasks[i])
    ensures AllRemaining(policies, stages, tasks) >= 0
  {
    hide Remaining, OnCourse;
    if tasks != [] {
      AllRemainingIsNat(policies, Init(stages), Init(tasks));
      AdvanceProgresses(policies, Last(stages), Last(tasks));
    }
  }

  /** Between awaits: every task is on its stage's course, with its own copy of the variables. */
  ghost predicate UnderWay(policies: seq<Policy>, stages: seq<Stage>, g: EventLoop) {
    && |g.tasks| == |g.slots| == |stages|
    && forall i | 0 <= i < |stages| :: OnCourse(policies, stages[i], g.tasks[i]) && g.slots[i] == g.tasks[i].vars
  }

  lemma GatheredUnderWay(policies: seq<Policy>, stages: seq<Stage>, inherited: seq<StageVars>)
    requires |inherited| == |stages|
    ensures UnderWay(policies, stages, Gathered(stages, inherited))
  {
  }

  /** Resuming a task that has not ended brings the group nearer to its end. */
  lemma ResumeProgresses(policies: seq<Policy>, stages: seq<Stage>, g: EventLoop, i: nat)
    requires UnderWay(policies, stages, g) && i < |stages| && !g.tasks[i].progress.Ended?
    ensures var g' := Resume(policies, stages, OwnCopy, g, i);
            && UnderWay(policies, stages, g')
            && 0 <= AllRemaining(policies, stages, g'.tasks) < AllRemaining(policies, stages, g.tasks)
  {
    hide Remaining, OnCourse, Advance, AllRemaining;
    var t := g.tasks[i];
    assert t.(vars := g.slots[i]) == t;
    AdvanceStaysOnCourse(policies, stages[i], t);
    AdvanceProgresses(policies, stages[i], t);
    AllRemainingAdvances(policies, stages, g.tasks, i, Advance(policies, stages[i], t));
    AllRemainingIsNat(policies, stages, g.tasks[i := Advance(policies, stages[i], t)]);
  }

  // ---- Why the copies matter

  /** With one slot for all, a sibling's exception can hide a stage's failure from the policies: stage
      a fails under fail-fast, yet its end no longer cancels the pipeline. */
  lemma SharedSlotInterferes(failed: StageResult, error: Error, left: StageVars)
    requires failed.Failed()
    ensures var policies := [Failure(true), Retry];
            var stages := [Stage("a", 3, _ => Returns(failed)), Stage("b", 3, _ => Raises(error))];
            var start := EventLoop([Fresh(left), Fresh(left)], [left], []);
            && RunStage(policies, stages[0]).end == Done(failed, true)
            && Play(policies, stages, SharedSlot, start, [0, 1, 0, 1, 0]).tasks[0].progress == Ended(Done(failed, false), 1)
            && Play(policies, stages, OwnCopy, Gathered(stages, [left, left]), [0, 1, 0, 1, 0]).tasks[0].progress == Ended(Done(failed, true), 1)
  {
    var policies := [Failure(true), Retry];
    var a, b := Stage("a", 3, _ => Returns(failed)), Stage("b", 3, _ => Raises(error));
    var stages := [a, b];
    var start := EventLoop([Fresh(left), Fresh(left)], [left], []);
    PlayFive(policies, stages, SharedSlot, start);
    OwnCopyKeepsFailure(policies, a, b, left);
  }

  /** With its own copy stage a is judged as when run alone. */
  lemma OwnCopyKeepsFailure(policies: seq<Policy>, a: Stage, b: Stage, left: StageVars)
    ensures Play(policies, [a, b], OwnCopy, Gathered([a, b], [left, left]), [0, 1, 0, 1, 0]).tasks[0] ==
            Advance(policies, a, Advance(policies, a, Advance(policies, a, Fresh(left))))
  {
    hide Play, Advance;
    var schedule := [0, 1, 0, 1, 0];
    EachAsAlone(policies, [a, b], [left, left], schedule, 0);
    assert Turns(schedule, 0) == 3;
    AloneThree(policies, a, left);
  }

  lemma AloneThree(policies: seq<Policy>, stage: Stage, vars: StageVars)
    ensures Alone(policies, stage, vars, 3) ==
            Advance(policies, stage, Advance(policies, stage, Advance(policies, stage, Fresh(vars))))
  {
    assert Alone(policies, stage, vars, 1) == Advance(policies, stage, Fresh(vars));
    assert Alone(policies, stage, vars, 2) == Advance(policies, stage, Alone(policies, stage, vars, 1));
  }

  lemma PlayNone(policies: seq<Policy>, stages: seq<Stage>, slotOf: nat -> nat, g: EventLoop)
    requires WellSized(stages, slotOf, g)
    ensures Play(policies, stages, slotOf, g, []) == g
  {
  }

  lemma PlayMore(policies: seq<Policy>, stages: seq<Stage>, slotOf: nat -> nat, g: EventLoop, schedule: seq<nat>, i: nat)
    requires WellSized(stages, slotOf, g) && ForTasks(schedule, |stages|) && i < |stages|
    ensures ForTasks(schedule + [i], |stages|)
    ensures Play(policies, stages, slotOf, g, schedule + [i]) ==
            Resume(policies, stages, slotOf, Play(policies, stages, slotOf, g, schedule), i)
  {
    AppendInit(schedule, i);
  }

  lemma PlayFive(policies: seq<Policy>, stages: seq<Stage>, slotOf: nat -> nat, g: EventLoop)
    requires WellSized(stages, slotOf, g) && |stages| == 2
    ensures var g1 := Resume(policies, stages, slotOf, g, 0);
            var g2 := Resume(policies, stages, slotOf, g1, 1);
            var g3 := Resume(policies, stages, slotOf, g2, 0);
            var g4 := Resume(policies, stages, slotOf, g3, 1);
            Play(policies, stages, slotOf, g, [0, 1, 0, 1, 0]) == Resume(policies, stages, slotOf, g4, 0)
  {
    hide Play, Resume;
    var none: seq<nat> := [];
    PlayNone(policies, stages, slotOf, g);
    PlayMore(policies, stages, slotOf, g, none, 0);
    PlayMore(policies, stages, slotOf, g, none + [0], 1);
    PlayMore(policies, stages, slotOf, g, none + [0] + [1], 0);
    PlayMore(policies, stages, slotOf, g, none + [0] + [1] + [0], 1);
    PlayMore(policies, stages, slotOf, g, none + [0] + [1] + [0] + [1], 0);
    assert none + [0] + [1] + [0] + [1] + [0] == [0, 1, 0, 1, 0];
  }
}
