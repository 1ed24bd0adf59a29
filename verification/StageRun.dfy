/** Running one stage to its end, retries included: a specification free of any runtime state, and the
    retry loop that meets it. */
module StageRun {
  import opened Common
  import opened Pipelines
  import opened Policies
  import opened ExecutionRuntime

  /** How a stage ends: with a result, which may cancel the pipeline, or with the exception it gave up on. */
  datatype StageEnd = Done(result: StageResult, cancel: bool) | GaveUp(error: Error)

  datatype Run = Run(end: StageEnd, attempts: nat, events: seq<Event>)

  /** How often a stage may be executed. */
  function Limit(policies: seq<Policy>, stage: Stage): (limit: nat)
    ensures limit >= 1
  {
    if Retry in policies then Max(1, stage.maxAttempts) else 1
  }

  /** The attempt that decides, looking from attempt k on: the first that returns, or the last allowed. */
  function Deciding(stage: Stage, limit: nat, k: nat): (n: nat)
    requires 1 <= k <= limit
    decreases limit - k
  {
    if k == limit || stage.attempt(k).Returns? then k else Deciding(stage, limit, k + 1)
  }

  function EndOf(policies: seq<Policy>, outcome: Outcome): StageEnd {
    match outcome
    case Raises(error) => GaveUp(error)
    case Returns(result) => Done(result, result.Failed() && Failure(true) in policies)
  }

  /** The failure reports of attempts k to n, all of them exceptions. */
  function Reports(stage: Stage, k: nat, n: nat): seq<Event>
    requires k <= n
    decreases n - k
  {
    if k == n then [] else [StageFailed(stage.id, stage.attempt(k))] + Reports(stage, k + 1, n)
  }

  function Verdict(stage: Stage, outcome: Outcome): Event {
    if outcome.Returns? && outcome.result.Succeeded() then AfterStage(stage.id, outcome.result)
    else StageFailed(stage.id, outcome)
  }

  lemma {:induction false} DecidingIsFirstReturn(stage: Stage, limit: nat, k: nat)
    requires 1 <= k <= limit
    ensures k <= Deciding(stage, limit, k) <= limit
    ensures forall j | k <= j < Deciding(stage, limit, k) :: stage.attempt(j).Raises?
    ensures Deciding(stage, limit, k) < limit ==> stage.attempt(Deciding(stage, limit, k)).Returns?
    decreases limit - k
  {
    if k < limit && stage.attempt(k).Raises? {
      DecidingIsFirstReturn(stage, limit, k + 1);
    }
  }

  /** The whole life of a stage: start, one report per exception that is retried, and the verdict. */
  function RunStage(policies: seq<Policy>, stage: Stage): Run {
    var n := Deciding(stage, Limit(policies, stage), 1);
    DecidingIsFirstReturn(stage, Limit(policies, stage), 1);
    Run(EndOf(policies, stage.attempt(n)), n,
        [BeforeStage(stage.id)] + Reports(stage, 1, n) + [Verdict(stage, stage.attempt(n))])
  }

  /** A stage is executed at most max(1, max_attempts) times, and exactly as often as retrying
      allows when it always raises. */
  lemma AttemptBound(policies: seq<Policy>, stage: Stage)
    ensures 1 <= RunStage(policies, stage).attempts <= Max(1, stage.maxAttempts)
    ensures (forall k: nat :: stage.attempt(k).Raises?) ==>
              RunStage(policies, stage).attempts == (if Retry in policies then Max(1, stage.maxAttempts) else 1)
    ensures RunStage(policies, stage).end.GaveUp? <==>
              forall k | 1 <= k <= Limit(policies, stage) :: stage.attempt(k).Raises?
  {
    DecidingIsFirstReturn(stage, Limit(policies, stage), 1);
  }

  lemma {:induction false} ReportsAppend(stage: Stage, k: nat, n: nat)
    requires k <= n
    ensures Reports(stage, k, n + 1) == Reports(stage, k, n) + [StageFailed(stage.id, stage.attempt(n))]
    decreases n - k
  {
    if k < n {
      ReportsAppend(stage, k + 1, n);
    } else {
      assert Reports(stage, k, n + 1) == [StageFailed(stage.id, stage.attempt(k))] + Reports(stage, k + 1, n + 1);
    }
  }

  lemma {:induction false} ReportAt(stage: Stage, k: nat, n: nat, i: nat)
    requires k <= n
    ensures |Reports(stage, k, n)| == n - k
    ensures i < n - k ==> Reports(stage, k, n)[i] == StageFailed(stage.id, stage.attempt(k + i))
    decreases n - k
  {
    if k < n {
      ReportAt(stage, k + 1, n, if i == 0 then 0 else i - 1);
    }
  }

  /** What a stage is seen to do: BEFORE_STAGE once, then one event an attempt: AFTER_STAGE for a result that
      is completed, STAGE_FAILED for an exception and for any other result. Only the last attempt may return. */
  lemma StageEvents(policies: seq<Policy>, stage: Stage, k: nat)
    ensures var run := RunStage(policies, stage);
            && |run.events| == run.attempts + 1 && run.events[0] == BeforeStage(stage.id)
            && (1 <= k <= run.attempts ==>
                  match stage.attempt(k)
                  case Raises(error) => run.events[k] == StageFailed(stage.id, Raises(error))
                  case Returns(result) =>
                    && k == run.attempts
                    && run.events[k] == if result.status == COMPLETED then AfterStage(stage.id, result) else StageFailed(stage.id, Returns(result)))
  {
    var n := RunStage(policies, stage).attempts;
    DecidingIsFirstReturn(stage, Limit(policies, stage), 1);
    ReportAt(stage, 1, n, if 1 <= k < n then k - 1 else 0);
  }

  /** How a stage ends: as its last attempt did; and a result that is not completed cancels exactly under a
      fail-fast policy. */
  lemma StageEndsAs(policies: seq<Policy>, stage: Stage)
    ensures var run := RunStage(policies, stage);
            match stage.attempt(run.attempts)
            case Raises(error) => run.end == GaveUp(error)
            case Returns(result) => run.end == Done(result, result.status != COMPLETED && Failure(true) in policies)
  {
  }

  /** At every evaluation the variables hold exactly one of an exception and a failed result. */
  predicate ExactlyOneFailure(vars: StageVars) {
    (vars.stageException.Some? && vars.stageResult.None?) ||
    (vars.stageException.None? && vars.stageResult.Some? && vars.stageResult.value.Failed())
  }

  /** The retry loop, reading every decision from the task's own variables. */
  method Execute(policies: seq<Policy>, stage: Stage, task: TaskContext) returns (run: Run)
    modifies task
    ensures run == RunStage(policies, stage)
    ensures task.vars.currentStage == None && task.vars.currentAttempt == None
  {
    ghost var limit := Limit(policies, stage);
    ghost var n := Deciding(stage, limit, 1);
    DecidingIsFirstReturn(stage, limit, 1);
    task.StageStarted(stage.id);
    task.MaxAttempts(stage.maxAttempts);
    var events := [BeforeStage(stage.id)];
    var attempt := 1;
    while true
      invariant 1 <= attempt <= n
      invariant task.vars == StageVars(Some(stage.id), Some(attempt), Some(stage.maxAttempts), None, None)
      invariant events == [BeforeStage(stage.id)] + Reports(stage, 1, attempt)
      decreases n - attempt
    {
      var outcome := stage.attempt(attempt);
      task.Record(outcome);
      if outcome.Returns? && outcome.result.Succeeded() {
        task.StageFinished();
        events := events + [AfterStage(stage.id, outcome.result)];
        return Run(Done(outcome.result, false), attempt, events);
      }
      events := events + [StageFailed(stage.id, outcome)];
      assert ExactlyOneFailure(task.vars);
      var retry, cancel := task.EvaluatePolicies(policies);
      match outcome {
        case Returns(result) =>
          task.StageFinished();
          return Run(Done(result, cancel), attempt, events);
        case Raises(error) =>
          if !retry {
            task.StageFinished();
            return Run(GaveUp(error), attempt, events);
          }
          ReportsAppend(stage, 1, attempt);
          attempt := attempt + 1;
          task.RetryStarted(attempt);
      }
    }
  }
}
