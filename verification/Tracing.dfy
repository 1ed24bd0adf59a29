/** The tracing hook: span bookkeeping per lifecycle event, and what it records for any run. */
module Tracing {
  import opened Common
  import opened Pipelines
  import opened Policies
  import opened ExecutionRuntime
  import opened StageRun
  import opened GroupRun
  import opened Executors

  datatype Span = Span(stageId: string, status: ExecutionStatus, exception: Option<string>)

  datatype Trace = Trace(status: ExecutionStatus, exception: Option<string>, spans: seq<Span>)

  /** The hook's state: whether a trace is open, the active and completed spans, and what the tracer got. */
  datatype HookState = HookState(open: bool, active: set<string>, completed: seq<Span>, recorded: seq<Trace>)

  function SpanFrom(e: Event): Span
    requires e.AfterStage? || e.StageFailed?
  {
    match e
    case AfterStage(id, result) => Span(id, result.status, None)
    case StageFailed(id, Returns(result)) => Span(id, result.status, None)
    case StageFailed(id, Raises(error)) => Span(id, FAILED, Some(error.message))
  }

  /** One event; a stage's first end closes its span, a later one finds none. */
  function Hooked(h: HookState, e: Event): HookState {
    match e
    case BeforePipeline => HookState(true, {}, [], h.recorded)
    case BeforeStage(id) => h.(active := h.active + {id})
    case AfterStage(id, _) => Closed(h, e)
    case StageFailed(id, _) => Closed(h, e)
    case AfterPipeline => Recorded(h, None)
    case PipelineFailed(error) => Recorded(h, Some(error.message))
  }

  function Closed(h: HookState, e: Event): HookState
    requires e.AfterStage? || e.StageFailed?
  {
    if e.id in h.active then h.(active := h.active - {e.id}, completed := h.completed + [SpanFrom(e)]) else h
  }

  /** No result is passed on pipeline events, so the recorded status is always COMPLETED. */
  function Recorded(h: HookState, exception: Option<string>): HookState {
    if h.open then HookState(false, {}, [], h.recorded + [Trace(COMPLETED, exception, h.completed)]) else h
  }

  class TracingHook {
    var open: bool
    var activeSpans: set<string>
    var completedSpans: seq<Span>
    var recorded: seq<Trace>

    constructor ()
      ensures Value() == HookState(false, {}, [], [])
    {
      open, activeSpans, completedSpans, recorded := false, {}, [], [];
    }

    function Value(): HookState
      reads this
    {
      HookState(open, activeSpans, completedSpans, recorded)
    }

    method Execute(e: Event)
      modifies this
      ensures Value() == Hooked(old(Value()), e)
    {
      match e {
        case BeforePipeline =>
          completedSpans := [];
          activeSpans := {};
          open := true;
        case BeforeStage(id) =>
          activeSpans := activeSpans + {id};
        case AfterStage(id, result) =>
          CloseSpan(e);
        case StageFailed(id, failure) =>
          CloseSpan(e);
        case AfterPipeline =>
          RecordTrace(None);
        case PipelineFailed(error) =>
          RecordTrace(Some(error.message));
      }
    }

    method CloseSpan(e: Event)
      requires e.AfterStage? || e.StageFailed?
      modifies this
      ensures Value() == Closed(old(Value()), e)
    {
      if e.id in activeSpans {
        activeSpans := activeSpans - {e.id};
        completedSpans := completedSpans + [SpanFrom(e)];
      }
    }

    method RecordTrace(exception: Option<string>)
      modifies this
      ensures Value() == Recorded(old(Value()), exception)
    {
      if !open {
        return;
      }
      recorded := recorded + [Trace(COMPLETED, exception, completedSpans)];
      open := false;
      activeSpans := {};
      completedSpans := [];
    }
  }

  function HookedAll(h: HookState, events: seq<Event>): HookState {
    if events == [] then h else Hooked(HookedAll(h, Init(events)), Last(events))
  }

  // ---- Spans, stage by stage

  function SpansOf(spans: seq<Span>, id: string): seq<Span> {
    if spans == [] then []
    else if Last(spans).stageId == id then SpansOf(Init(spans), id) + [Last(spans)]
    else SpansOf(Init(spans), id)
  }

  lemma SpansOfAppend(spans: seq<Span>, span: Span, id: string)
    ensures SpansOf(spans + [span], id) == SpansOf(spans, id) + (if span.stageId == id then [span] else [])
  {
    AppendInit(spans, span);
  }

  /** The start of a stage's life: it begins once, and what follows are ends of attempts. */
  ghost predicate Begun(events: seq<Event>) {
    events == [] || (events[0].BeforeStage? && forall k | 0 < k < |events| :: events[k].AfterStage? || events[k].StageFailed?)
  }

  /** A stage's whole life: begun, with at least one end. */
  ghost predicate Script(events: seq<Event>) {
    events == [] || (Begun(events) && |events| >= 2)
  }

  /** What the hook holds for one stage depends on that stage's events alone. */
  ghost predicate SpanState(h: HookState, id: string, events: seq<Event>) {
    Begun(events) ==>
      && (id in h.active <==> |events| == 1)
      && SpansOf(h.completed, id) == if |events| < 2 then [] else [SpanFrom(events[1])]
  }

  lemma {:induction false} SpanStateFollows(h: HookState, events: seq<Event>, id: string)
    requires h.active == {} && h.completed == []
    requires forall k | 0 <= k < |events| :: events[k].OfStage()
    ensures SpanState(HookedAll(h, events), id, EventsOfStage(events, id))
    ensures HookedAll(h, events).open == h.open && HookedAll(h, events).recorded == h.recorded
  {
    hide SpanState, Hooked, SpansOf;
    if events == [] {
      NoSpansYet(h, id);
    } else {
      SpanStateFollows(h, Init(events), id);
      SpanStep(HookedAll(h, Init(events)), Last(events), id, EventsOfStage(Init(events), id));
    }
  }

  lemma NoSpansYet(h: HookState, id: string)
    requires h.active == {} && h.completed == []
    ensures SpanState(h, id, [])
  {
  }

  lemma BegunBefore(seen: seq<Event>, e: Event)
    requires Begun(seen + [e])
    ensures Begun(seen)
    ensures e.BeforeStage? <==> seen == []
  {
    var now := seen + [e];
    assert now[|seen|] == e;
    if seen != [] {
      assert now[0] == seen[0];
      assert forall k | 0 < k < |seen| :: now[k] == seen[k];
    }
  }

  /** One event changes what the hook holds for its own stage only. */
  lemma SpanStep(h: HookState, e: Event, id: string, seen: seq<Event>)
    requires SpanState(h, id, seen) && e.OfStage()
    ensures SpanState(Hooked(h, e), id, if e.id == id then seen + [e] else seen)
    ensures Hooked(h, e).open == h.open && Hooked(h, e).recorded == h.recorded
  {
    hide Begun, SpansOf;
    if !e.BeforeStage? {
      SpansOfAppend(h.completed, SpanFrom(e), id);
    }
    if e.id == id && Begun(seen + [e]) {
      BegunBefore(seen, e);
    }
  }

  /** A complete middle of a run: stage events only, and each stage's are a whole life or none. */
  ghost predicate Complete(middle: seq<Event>) {
    && (forall k | 0 <= k < |middle| :: middle[k].OfStage())
    && (forall id :: Script(EventsOfStage(middle, id)))
  }

  /** Whatever ran before, a complete run is recorded as exactly one further trace, with exactly one
      span for every stage that started, closed at its first end, and no span is left active. */
  lemma RunIsTraced(h: HookState, middle: seq<Event>, closing: Event)
    requires Complete(middle) && (closing.AfterPipeline? || closing.PipelineFailed?)
    ensures HookedAll(Hooked(h, BeforePipeline), middle).active == {}
    ensures var after := HookedAll(h, [BeforePipeline] + middle + [closing]);
            && !after.open && after.active == {} && after.completed == []
            && |after.recorded| == |h.recorded| + 1 && Init(after.recorded) == h.recorded
            && var trace := Last(after.recorded);
               && trace.status == COMPLETED
               && trace.exception == (if closing.PipelineFailed? then Some(closing.error.message) else None)
               && forall id ::
                    SpansOf(trace.spans, id) ==
                      if EventsOfStage(middle, id) == [] then [] else [SpanFrom(EventsOfStage(middle, id)[1])]
  {
    var start := Hooked(h, BeforePipeline);
    var done := HookedAll(start, middle);
    SpanStateFollows(start, middle, "");
    forall id
      ensures SpanState(done, id, EventsOfStage(middle, id)) && Script(EventsOfStage(middle, id))
      ensures id !in done.active
    {
      SpanStateFollows(start, middle, id);
    }
    HookedConcat(h, [BeforePipeline], middle);
    assert HookedAll(h, [BeforePipeline]) == start by {
      assert Init([BeforePipeline]) == [];
    }
    AppendInit([BeforePipeline] + middle, closing);
  }

  lemma {:induction false} HookedConcat(h: HookState, a: seq<Event>, b: seq<Event>)
    ensures HookedAll(h, a + b) == HookedAll(HookedAll(h, a), b)
  {
    if b == [] {
      assert a + b == a;
    } else {
      assert Init(a + b) == a + Init(b) && Last(a + b) == Last(b);
      HookedConcat(h, a, Init(b));
    }
  }

  // ---- The runs of both executors are complete

  lemma {:induction false} ReportsAreEnds(stage: Stage, k: nat, n: nat)
    requires k <= n
    ensures forall j | 0 <= j < |Reports(stage, k, n)| :: Reports(stage, k, n)[j].StageFailed? && Reports(stage, k, n)[j].id == stage.id
    decreases n - k
  {
    if k < n {
      ReportsAreEnds(stage, k + 1, n);
    }
  }

  lemma StageLivesItsScript(policies: seq<Policy>, stage: Stage)
    ensures Script(RunStage(policies, stage).events) && RunStage(policies, stage).events != []
    ensures AllOfStage(RunStage(policies, stage).events, stage.id)
  {
    AttemptBound(policies, stage);
    ReportsAreEnds(stage, 1, RunStage(policies, stage).attempts);
  }

  lemma {:induction false} NoEventsOfOthers(events: seq<Event>, id: string)
    requires forall k | 0 <= k < |events| :: events[k].OfStage() && events[k].id != id
    ensures EventsOfStage(events, id) == []
  {
    if events != [] {
      NoEventsOfOthers(Init(events), id);
    }
  }

  /** One group's trace shows each of its stages' whole life and nothing of any other stage. */
  lemma GroupTraceOf(policies: seq<Policy>, group: seq<Stage>, events: seq<Event>, id: string)
    requires GroupTrace(policies, group, events)
    ensures Script(EventsOfStage(events, id))
    ensures EventsOfStage(events, id) == [] <==> !(exists i | 0 <= i < |group| :: group[i].id == id)
  {
    if i :| 0 <= i < |group| && group[i].id == id {
      StageLivesItsScript(policies, group[i]);
    } else {
      NoEventsOfOthers(events, id);
    }
  }

  ghost predicate HasStage(stages: seq<Stage>, id: string) {
    exists i | 0 <= i < |stages| :: stages[i].id == id
  }

  lemma DistinctParts(a: seq<Stage>, b: seq<Stage>, id: string)
    requires DistinctIds(a + b)
    ensures DistinctIds(a) && DistinctIds(b)
    ensures !(HasStage(a, id) && HasStage(b, id))
  {
    assert forall i | 0 <= i < |a| :: (a + b)[i] == a[i];
    assert forall j | 0 <= j < |b| :: (a + b)[|a| + j] == b[j];
    forall i, j | 0 <= i < |a| && 0 <= j < |b|
      ensures a[i].id != b[j].id
    {
      assert (a + b)[i].id != (a + b)[|a| + j].id;
    }
  }

  /** The groups that ran, each in its own interleaving, one group after the other. */
  lemma {:induction false} GroupsAreComplete(policies: seq<Policy>, groups: seq<seq<Stage>>, traces: seq<seq<Event>>, id: string)
    requires |traces| == |groups| && DistinctIds(Concat(groups))
    requires forall k | 0 <= k < |groups| :: GroupTrace(policies, groups[k], traces[k])
    ensures forall k | 0 <= k < |Concat(traces)| :: Concat(traces)[k].OfStage()
    ensures Script(EventsOfStage(Concat(traces), id))
    ensures EventsOfStage(Concat(traces), id) == [] <==> !HasStage(Concat(groups), id)
  {
    hide RunStage;
    if groups != [] {
      var group, rest := groups[0], Concat(groups[1..]);
      DistinctParts(group, rest, id);
      GroupsAreComplete(policies, groups[1..], traces[1..], id);
      EventsOfStageConcat(traces[0], Concat(traces[1..]), id);
      GroupTraceOf(policies, group, traces[0], id);
      HasStageConcat(group, rest, id);
      assert EventsOfStage(traces[0], id) == [] <==> !HasStage(group, id);
    }
  }

  lemma HasStageConcat(a: seq<Stage>, b: seq<Stage>, id: string)
    ensures HasStage(a + b, id) <==> HasStage(a, id) || HasStage(b, id)
  {
    if HasStage(a, id) {
      var i :| 0 <= i < |a| && a[i].id == id;
      assert (a + b)[i] == a[i];
    }
    if HasStage(b, id) {
      var i :| 0 <= i < |b| && b[i].id == id;
      assert (a + b)[|a| + i] == b[i];
    }
  }

  /** A stage of the groups shows its own life in the whole trace. */
  lemma {:induction false} StageInTrace(policies: seq<Policy>, groups: seq<seq<Stage>>, traces: seq<seq<Event>>, stage: Stage)
    requires |traces| == |groups| && DistinctIds(Concat(groups)) && stage in Concat(groups)
    requires forall k | 0 <= k < |groups| :: GroupTrace(policies, groups[k], traces[k])
    ensures EventsOfStage(Concat(traces), stage.id) == RunStage(policies, stage).events
  {
    hide RunStage;
    var group, rest := groups[0], Concat(groups[1..]);
    DistinctParts(group, rest, stage.id);
    EventsOfStageConcat(traces[0], Concat(traces[1..]), stage.id);
    GroupTraceOf(policies, group, traces[0], stage.id);
    GroupsAreComplete(policies, groups[1..], traces[1..], stage.id);
    if stage in group {
      var i :| 0 <= i < |group| && group[i] == stage;
      assert HasStage(group, stage.id);
      assert EventsOfStage(traces[0], stage.id) + [] == EventsOfStage(traces[0], stage.id);
    } else {
      var i :| 0 <= i < |rest| && rest[i] == stage;
      assert HasStage(rest, stage.id);
      StageInTrace(policies, groups[1..], traces[1..], stage);
      assert [] + EventsOfStage(Concat(traces[1..]), stage.id) == EventsOfStage(Concat(traces[1..]), stage.id);
    }
  }

  /** A stage's only span says how its first attempt ended, whatever a retry came to later. */
  predicate SpanOfFirstAttempt(stage: Stage, spans: seq<Span>) {
    && |spans| == 1 && spans[0].stageId == stage.id
    && match stage.attempt(1)
       case Raises(error) => spans[0].status == FAILED && spans[0].exception == Some(error.message)
       case Returns(result) => spans[0].status == result.status && spans[0].exception == None
  }

  lemma SpanFromFirst(policies: seq<Policy>, stage: Stage, spans: seq<Span>)
    requires var events := RunStage(policies, stage).events;
             && |events| >= 2 && (events[1].AfterStage? || events[1].StageFailed?) && spans == [SpanFrom(events[1])]
    ensures SpanOfFirstAttempt(stage, spans)
  {
    DecidingIsFirstReturn(stage, Limit(policies, stage), 1);
    StageEvents(policies, stage, 1);
  }

  /** However the groups' tasks interleave, the hook ends with one trace that has exactly one span for
      each stage of the groups that ran and none for any other; it tells of the stage's first attempt. */
  lemma EveryInterleavingIsTraced(policies: seq<Policy>, groups: seq<seq<Stage>>, traces: seq<seq<Event>>, h: HookState, closing: Event)
    requires |traces| == |groups| && DistinctIds(Concat(groups))
    requires forall k | 0 <= k < |groups| :: GroupTrace(policies, groups[k], traces[k])
    requires closing.AfterPipeline? || closing.PipelineFailed?
    ensures var after := HookedAll(h, [BeforePipeline] + Concat(traces) + [closing]);
            && !after.open && after.active == {} && |after.recorded| == |h.recorded| + 1
            && Last(after.recorded).status == COMPLETED
            && (forall id :: |SpansOf(Last(after.recorded).spans, id)| == if HasStage(Concat(groups), id) then 1 else 0)
            && forall stage | stage in Concat(groups) :: SpanOfFirstAttempt(stage, SpansOf(Last(after.recorded).spans, stage.id))
  {
    hide RunStage, SpanFrom, HookedAll, GroupTrace, HasStage, DistinctIds, SpanOfFirstAttempt, SpansOf;
    GroupsAreComplete(policies, groups, traces, "");
    forall id
      ensures Script(EventsOfStage(Concat(traces), id))
      ensures EventsOfStage(Concat(traces), id) == [] <==> !HasStage(Concat(groups), id)
    {
      GroupsAreComplete(policies, groups, traces, id);
    }
    RunIsTraced(h, Concat(traces), closing);
    var after := HookedAll(h, [BeforePipeline] + Concat(traces) + [closing]);
    forall stage | stage in Concat(groups)
      ensures SpanOfFirstAttempt(stage, SpansOf(Last(after.recorded).spans, stage.id))
    {
      StageInTrace(policies, groups, traces, stage);
      StageLivesItsScript(policies, stage);
      SpanFromFirst(policies, stage, SpansOf(Last(after.recorded).spans, stage.id));
    }
  }

  // ---- The sequential executor

  /** The stages the sequential executor starts. */
  function StartedStages(policies: seq<Policy>, stages: seq<Stage>): seq<Stage> {
    if stages == [] then []
    else if Stops(RunStage(policies, stages[0]).end) then [stages[0]]
    else [stages[0]] + StartedStages(policies, stages[1..])
  }

  lemma {:induction false} StartedIsPrefix(policies: seq<Policy>, stages: seq<Stage>)
    ensures StartedStages(policies, stages) <= stages
  {
    if stages != [] {
      StartedIsPrefix(policies, stages[1..]);
      assert stages == [stages[0]] + stages[1..];
    }
  }

  function Singles(stages: seq<Stage>): seq<seq<Stage>> {
    if stages == [] then [] else [[stages[0]]] + Singles(stages[1..])
  }

  function EventsByStage(policies: seq<Policy>, stages: seq<Stage>): seq<seq<Event>> {
    if stages == [] then [] else [RunStage(policies, stages[0]).events] + EventsByStage(policies, stages[1..])
  }

  /** A stage that runs by itself is a group of one. */
  lemma SingleGroupTrace(policies: seq<Policy>, stage: Stage)
    ensures GroupTrace(policies, [stage], RunStage(policies, stage).events)
  {
    var run := RunStage(policies, stage);
    StageLivesItsScript(policies, stage);
    hide RunStage;
    EventsOfOneStage(run.events, stage.id, stage.id);
    assert [stage][0] == stage;
  }

  lemma {:induction false} SinglesConcat(policies: seq<Policy>, stages: seq<Stage>)
    ensures Concat(Singles(stages)) == stages
    ensures |Singles(stages)| == |EventsByStage(policies, stages)| == |stages|
    ensures forall k | 0 <= k < |stages| :: GroupTrace(policies, Singles(stages)[k], EventsByStage(policies, stages)[k])
  {
    hide RunStage;
    if stages != [] {
      SinglesConcat(policies, stages[1..]);
      SingleGroupTrace(policies, stages[0]);
    }
  }

  lemma {:induction false} SequentialEvents(policies: seq<Policy>, stages: seq<Stage>)
    ensures SequentialFrom(policies, stages).events == Concat(EventsByStage(policies, StartedStages(policies, stages)))
  {
    hide RunStage;
    if stages != [] {
      var run := RunStage(policies, stages[0]);
      if Stops(run.end) {
        assert [stages[0]][1..] == [];
      } else {
        SequentialEvents(policies, stages[1..]);
        assert ([stages[0]] + StartedStages(policies, stages[1..]))[1..] == StartedStages(policies, stages[1..]);
      }
    }
  }

  /** Sequentially, too: one trace, one span for each stage that started, whatever the retries. The trace's
      status is the run's exactly when the run completes. */
  lemma SequentialRunIsTraced(policies: seq<Policy>, items: seq<Item>, h: HookState)
    requires DistinctIds(Flatten(items))
    ensures var after := HookedAll(h, Lifecycle(Sequential(policies, items)));
            && !after.open && after.active == {} && |after.recorded| == |h.recorded| + 1
            && (Last(after.recorded).status == Conclude(Sequential(policies, items)).status <==>
                  Sequential(policies, items).end == Finished(false))
            && (forall id :: |SpansOf(Last(after.recorded).spans, id)| ==
                               if HasStage(StartedStages(policies, Flatten(items)), id) then 1 else 0)
            && forall stage | stage in StartedStages(policies, Flatten(items)) ::
                 SpanOfFirstAttempt(stage, SpansOf(Last(after.recorded).spans, stage.id))
  {
    hide RunStage, SequentialFrom, StartedStages, HookedAll, SpanOfFirstAttempt;
    var started := StartedStages(policies, Flatten(items));
    StartedIsPrefix(policies, Flatten(items));
    SinglesConcat(policies, started);
    SequentialEvents(policies, Flatten(items));
    EveryInterleavingIsTraced(policies, Singles(started), EventsByStage(policies, started), h,
                              Closing(Sequential(policies, items).end));
  }

  // ---- The parallel executor

  lemma {:induction false} GroupsRanFirst(policies: seq<Policy>, groups: seq<seq<Stage>>)
    ensures GroupsRan(policies, groups) <= groups
  {
    hide FirstError, AnyMemberCancels, Runs;
    if groups != [] {
      GroupsRanFirst(policies, groups[1..]);
      assert groups == [groups[0]] + groups[1..];
    }
  }

  /** However the members of each group interleave: one trace, with exactly one span for each stage of
      the groups that ran, also when a group stops the pipeline; its status is the run's exactly when the
      run completes. */
  lemma ParallelRunIsTraced(policies: seq<Policy>, items: seq<Item>, events: seq<Event>, h: HookState)
    requires DistinctIds(Flatten(items)) && Interleaved(policies, items, events)
    ensures var ran := GroupsRan(policies, Groups(items));
            var after := HookedAll(h, events);
            && !after.open && after.active == {} && |after.recorded| == |h.recorded| + 1
            && (Last(after.recorded).status == Conclude(Parallel(policies, items)).status <==>
                  Parallel(policies, items).end == Finished(false))
            && (forall id :: |SpansOf(Last(after.recorded).spans, id)| == if HasStage(Concat(ran), id) then 1 else 0)
            && forall stage | stage in Concat(ran) :: SpanOfFirstAttempt(stage, SpansOf(Last(after.recorded).spans, stage.id))
  {
    hide GroupsRan, HookedAll, ParallelFrom, GroupTrace, SpanOfFirstAttempt;
    var traces :| TracesOf(policies, items, events, traces);
    var ran := GroupsRan(policies, Groups(items));
    FlattenIsConcatOfGroups(items);
    GroupsRanFirst(policies, Groups(items));
    var rest := Groups(items)[|ran|..];
    assert Groups(items) == ran + rest;
    ConcatOfTwo(ran, rest);
    DistinctParts(Concat(ran), Concat(rest), "");
    EveryInterleavingIsTraced(policies, ran, traces, h, Closing(Parallel(policies, items).end));
  }

  // ---- The grammar of a run

  ghost predicate OnlyStageEvents(events: seq<Event>) {
    forall k | 0 <= k < |events| :: events[k].OfStage()
  }

  /** BEFORE_PIPELINE once and first, exactly one of AFTER_PIPELINE and PIPELINE_FAILED, and that last. */
  ghost predicate Grammatical(events: seq<Event>) {
    && |events| >= 2 && events[0].BeforePipeline?
    && (Last(events).AfterPipeline? || Last(events).PipelineFailed?)
    && OnlyStageEvents(events[1..|events| - 1])
  }

  lemma {:induction false} SequentialEmitsStages(policies: seq<Policy>, stages: seq<Stage>)
    ensures OnlyStageEvents(SequentialFrom(policies, stages).events)
  {
    hide RunStage;
    if stages != [] {
      StageLivesItsScript(policies, stages[0]);
      SequentialEmitsStages(policies, stages[1..]);
    }
  }

  lemma {:induction false} TracesEmitStages(policies: seq<Policy>, groups: seq<seq<Stage>>, traces: seq<seq<Event>>)
    requires GroupTraces(policies, groups, traces)
    ensures OnlyStageEvents(Concat(traces))
  {
    hide RunStage;
    if groups != [] {
      assert GroupTrace(policies, groups[0], traces[0]);
      assert forall k | 0 <= k < |groups[1..]| :: groups[1..][k] == groups[k + 1] && traces[1..][k] == traces[k + 1];
      TracesEmitStages(policies, groups[1..], traces[1..]);
    }
  }

  /** Every run of either executor, however it ends and however groups interleave, has this shape. */
  lemma LifecycleIsGrammatical(policies: seq<Policy>, items: seq<Item>, events: seq<Event>)
    ensures Grammatical(Lifecycle(Sequential(policies, items)))
    ensures Interleaved(policies, items, events) ==> Grammatical(events)
  {
    hide SequentialFrom, ParallelFrom, GroupsRan, GroupTraces, Concat;
    SequentialEmitsStages(policies, Flatten(items));
    Wrapped(Sequential(policies, items).events, Closing(Sequential(policies, items).end));
    if Interleaved(policies, items, events) {
      var traces :| TracesOf(policies, items, events, traces);
      TracesEmitStages(policies, GroupsRan(policies, Groups(items)), traces);
      Wrapped(Concat(traces), Closing(Parallel(policies, items).end));
    }
  }

  lemma Wrapped(middle: seq<Event>, closing: Event)
    requires OnlyStageEvents(middle) && (closing.AfterPipeline? || closing.PipelineFailed?)
    ensures Grammatical([BeforePipeline] + middle + [closing])
  {
    var events := [BeforePipeline] + middle + [closing];
    assert events[1..|events| - 1] == middle;
  }
}
