/** The policy engine: what one policy decides, how decisions are merged, and when a merge is invalid. */
module Policies {
  import opened Common
  import opened Pipelines

  datatype PolicyResult = PolicyResult(continueExecution: bool, retry: bool, cancelPipeline: bool, reason: Option<string>)
  {
    /** The combinations a policy result accepts when it is built. */
    predicate Consistent() {
      !(cancelPipeline && continueExecution) && !(cancelPipeline && retry) && !(retry && !continueExecution)
    }
  }

  const NEUTRAL := PolicyResult(true, false, false, None)

  datatype PolicyEvent = BEFORE_PIPELINE | AFTER_PIPELINE | BEFORE_STAGE | AFTER_STAGE | PIPELINE_FAILED | STAGE_FAILED

  /** What a policy can read. */
  datatype PolicyContext = PolicyContext(
    event: PolicyEvent,
    exception: Option<Error>,
    stageResult: Option<StageResult>,
    currentAttempt: int,
    maxAttempts: int)
  {
    predicate Failed() {
      stageResult.Some? && stageResult.value.Failed()
    }
  }

  datatype Policy = Failure(failFast: bool) | Retry

  function Evaluate(policy: Policy, context: PolicyContext): PolicyResult {
    if !context.event.STAGE_FAILED? then NEUTRAL
    else
      match policy
      case Retry =>
        if context.exception.None? then NEUTRAL
        else if context.currentAttempt < context.maxAttempts then PolicyResult(true, true, false, Some("Retry allowed."))
        else PolicyResult(true, false, false, Some("Maximum retry attempts reached."))
      case Failure(failFast) =>
        if context.exception.Some? || !context.Failed() then NEUTRAL
        else if failFast then PolicyResult(false, false, true, Some("Pipeline interrupted due to stage failure."))
        else PolicyResult(true, false, false, Some("Stage failure ignored by policy."))
  }

  // ---- Merging

  ghost predicate AnyCancels(decisions: seq<PolicyResult>) {
    exists d | d in decisions :: d.cancelPipeline
  }

  ghost predicate AnyRetries(decisions: seq<PolicyResult>) {
    exists d | d in decisions :: d.retry
  }

  ghost predicate AllContinue(decisions: seq<PolicyResult>) {
    forall d | d in decisions :: d.continueExecution
  }

  function FirstReason(decisions: seq<PolicyResult>): Option<string> {
    if decisions == [] then None
    else if decisions[0].reason.Some? then decisions[0].reason
    else FirstReason(decisions[1..])
  }

  lemma {:induction false} FirstReasonAppend(decisions: seq<PolicyResult>, d: PolicyResult)
    ensures FirstReason(decisions + [d]) ==
            if FirstReason(decisions).Some? then FirstReason(decisions) else d.reason
  {
    if decisions == [] {
      assert decisions + [d] == [d] && [d][1..] == [];
    } else {
      assert (decisions + [d])[1..] == decisions[1..] + [d];
      FirstReasonAppend(decisions[1..], d);
    }
  }

  /** Merge the decisions one by one: a cancellation wins at once; otherwise all must continue and
      any may ask for a retry. The result is rejected exactly when nobody cancels and the merge asks
      for a retry that somebody does not want to continue for. */
  method Merge(decisions: seq<PolicyResult>) returns (r: Option<PolicyResult>)
    ensures r.None? <==> !AnyCancels(decisions) && AnyRetries(decisions) && !AllContinue(decisions)
    ensures r.Some? ==>
              && r.value.Consistent()
              && r.value.cancelPipeline == AnyCancels(decisions)
              && r.value.retry == (!AnyCancels(decisions) && AnyRetries(decisions))
              && r.value.continueExecution == (!AnyCancels(decisions) && AllContinue(decisions))
    ensures r.Some? ==> exists n | 0 <= n <= |decisions| ::
              && r.value.reason == FirstReason(decisions[..n])
              && (n == |decisions| || (n > 0 && decisions[n - 1].cancelPipeline))
  {
    var continueExecution, retry, reason := true, false, None;
    var i := 0;
    while i < |decisions|
      invariant 0 <= i <= |decisions|
      invariant continueExecution == AllContinue(decisions[..i])
      invariant retry == AnyRetries(decisions[..i])
      invariant !AnyCancels(decisions[..i])
      invariant reason == FirstReason(decisions[..i])
    {
      var result := decisions[i];
      assert decisions[..i + 1] == decisions[..i] + [result];
      FirstReasonAppend(decisions[..i], result);
      continueExecution := continueExecution && result.continueExecution;
      retry := retry || result.retry;
      if reason.None? {
        reason := result.reason;
      }
      i := i + 1;
      if result.cancelPipeline {
        assert decisions[i - 1] in decisions;
        return Some(PolicyResult(false, false, true, reason));
      }
    }
    assert decisions[..i] == decisions;
    if retry && !continueExecution {
      return None;
    }
    return Some(PolicyResult(continueExecution, retry, false, reason));
  }

  // ---- Retry and failure policies, in any number and order

  function Decisions(policies: seq<Policy>, context: PolicyContext): (decisions: seq<PolicyResult>)
    ensures |decisions| == |policies|
    ensures forall i | 0 <= i < |policies| :: decisions[i] == Evaluate(policies[i], context)
  {
    seq(|policies|, i requires 0 <= i < |policies| => Evaluate(policies[i], context))
  }

  predicate WantsRetry(policies: seq<Policy>, context: PolicyContext) {
    && Retry in policies && context.event.STAGE_FAILED?
    && context.exception.Some? && context.currentAttempt < context.maxAttempts
  }

  predicate WantsCancel(policies: seq<Policy>, context: PolicyContext) {
    && Failure(true) in policies && context.event.STAGE_FAILED?
    && context.exception.None? && context.Failed()
  }

  /** What a decision is explained by, in the policies' own words. */
  predicate Explained(d: PolicyResult) {
    if d.retry then d.reason == Some("Retry allowed.")
    else if d.cancelPipeline then d.reason == Some("Pipeline interrupted due to stage failure.")
    else d.reason in {None, Some("Maximum retry attempts reached."), Some("Stage failure ignored by policy.")}
  }

  /** However these policies are combined, only an exception with attempts left retries, only a
      failed result under fail-fast cancels, never both, and the merge is never rejected. */
  lemma MergedDecision(policies: seq<Policy>, context: PolicyContext)
    ensures var decisions := Decisions(policies, context);
            && (AnyCancels(decisions) <==> WantsCancel(policies, context))
            && (AnyRetries(decisions) <==> WantsRetry(policies, context))
            && !(AnyCancels(decisions) && AnyRetries(decisions))
            && (AllContinue(decisions) <==> !AnyCancels(decisions))
            && (forall d | d in decisions :: d.Consistent() && Explained(d))
  {
    var decisions := Decisions(policies, context);
    if WantsCancel(policies, context) {
      var i :| 0 <= i < |policies| && policies[i] == Failure(true);
      assert decisions[i].cancelPipeline && decisions[i] in decisions;
    }
    if WantsRetry(policies, context) {
      var i :| 0 <= i < |policies| && policies[i] == Retry;
      assert decisions[i].retry && decisions[i] in decisions;
    }
  }
}
