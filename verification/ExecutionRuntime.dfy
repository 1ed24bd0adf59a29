/** The runtime that records where an execution stands: stage-scoped variables, one copy per task, and
    pipeline-level keys, one per execution. */
module ExecutionRuntime {
  import opened Common
  import opened Pipelines
  import opened Policies

  /** The stage-scoped context variables. */
  datatype StageVars = StageVars(
    currentStage: Option<string>,
    currentAttempt: Option<int>,
    maxAttempts: Option<int>,
    stageResult: Option<StageResult>,
    stageException: Option<Error>)
  {
    function Started(id: string): StageVars {
      this.(currentStage := Some(id), currentAttempt := Some(1), stageResult := None, stageException := None)
    }

    function Finished(): StageVars {
      this.(currentStage := None, currentAttempt := None)
    }

    function Retried(attempt: int): StageVars {
      this.(currentAttempt := Some(attempt), stageResult := None, stageException := None)
    }

    /** What a policy evaluated now reads: an unset or zero attempt or limit reads as one. */
    function FailureContext(): PolicyContext {
      PolicyContext(STAGE_FAILED, stageException, stageResult, OrOne(currentAttempt), OrOne(maxAttempts))
    }

    function Recorded(outcome: Outcome): StageVars {
      match outcome
      case Raises(error) => this.(stageException := Some(error))
      case Returns(result) => this.(stageResult := Some(result))
    }
  }

  function OrOne(n: Option<int>): int {
    if n.None? || n.value == 0 then 1 else n.value
  }

  datatype PipelineResult = PipelineResult(
    status: ExecutionStatus,
    stageResults: seq<StageResult>,
    errorType: Option<string>,
    errorMessage: Option<string>)

  /** One task's copy of the context variables. */
  class TaskContext {
    var vars: StageVars

    constructor (parent: StageVars)
      ensures vars == parent
    {
      vars := parent;
    }

    method StageStarted(id: string)
      modifies this
      ensures vars == StageVars(Some(id), Some(1), old(vars).maxAttempts, None, None)
    {
      vars := vars.(currentStage := Some(id));
      vars := vars.(currentAttempt := Some(1));
      vars := vars.(stageResult := None);
      vars := vars.(stageException := None);
    }

    method StageFinished()
      modifies this
      ensures vars == StageVars(None, None, old(vars).maxAttempts, old(vars).stageResult, old(vars).stageException)
    {
      vars := vars.(currentStage := None);
      vars := vars.(currentAttempt := None);
    }

    method RetryStarted(attempt: int)
      modifies this
      ensures vars == StageVars(old(vars).currentStage, Some(attempt), old(vars).maxAttempts, None, None)
    {
      vars := vars.(currentAttempt := Some(attempt));
      vars := vars.(stageResult := None);
      vars := vars.(stageException := None);
    }

    method MaxAttempts(attempts: int)
      modifies this
      ensures vars == StageVars(old(vars).currentStage, old(vars).currentAttempt, Some(attempts), old(vars).stageResult, old(vars).stageException)
    {
      vars := vars.(maxAttempts := Some(attempts));
    }

    method Record(outcome: Outcome)
      modifies this
      ensures match outcome
              case Raises(error) => vars == old(vars).(stageException := Some(error))
              case Returns(result) => vars == old(vars).(stageResult := Some(result))
    {
      match outcome {
        case Raises(error) => vars := vars.(stageException := Some(error));
        case Returns(result) => vars := vars.(stageResult := Some(result));
      }
    }

    /** Evaluate the policies in order against this task's variables and merge their decisions. */
    method EvaluatePolicies(policies: seq<Policy>) returns (retry: bool, cancel: bool)
      ensures retry == WantsRetry(policies, vars.FailureContext())
      ensures cancel == WantsCancel(policies, vars.FailureContext())
      ensures retry <==> Retry in policies && vars.stageException.Some? &&
                         (if vars.currentAttempt == None || vars.currentAttempt == Some(0) then 1 else vars.currentAttempt.value) <
                         (if vars.maxAttempts == None || vars.maxAttempts == Some(0) then 1 else vars.maxAttempts.value)
      ensures cancel <==> Failure(true) in policies && vars.stageException.None? &&
                          vars.stageResult.Some? && vars.stageResult.value.status != COMPLETED
    {
      var context := vars.FailureContext();
      MergedDecision(policies, context);
      var decision := Merge(Decisions(policies, context));
      return decision.value.retry, decision.value.cancelPipeline;
    }
  }

  /** The pipeline-level keys of the processing context. */
  class PipelineContext {
    var status: Option<ExecutionStatus>
    var cancelled: Option<bool>
    var pipelineResult: Option<PipelineResult>

    constructor ()
      ensures status == None && cancelled == None && pipelineResult == None
    {
      status, cancelled, pipelineResult := None, None, None;
    }

    method ExecutionStarted(task: TaskContext)
      modifies this, task
      ensures status == Some(RUNNING) && cancelled == Some(false) && pipelineResult == None
      ensures task.vars == old(task.vars).(stageException := None, stageResult := None)
    {
      status := Some(RUNNING);
      task.vars := task.vars.(stageException := None);
      pipelineResult := None;
      task.vars := task.vars.(stageResult := None);
      cancelled := Some(false);
    }

    method ExecutionCompleted(task: TaskContext)
      modifies this`status, task
      ensures status == Some(COMPLETED) && task.vars == old(task.vars).(stageException := None)
    {
      status := Some(COMPLETED);
      task.vars := task.vars.(stageException := None);
    }

    method ExecutionFailed(task: TaskContext, exception: Option<Error>)
      modifies this`status, task
      ensures status == Some(FAILED)
      ensures task.vars == if exception.Some? then old(task.vars).(stageException := exception) else old(task.vars)
    {
      status := Some(FAILED);
      if exception.Some? {
        task.vars := task.vars.(stageException := exception);
      }
    }
  }
}
