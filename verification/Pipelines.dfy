/** Pipelines, stages and what running a stage can give. */
module Pipelines {
  import opened Common

  datatype ExecutionStatus = PENDING | RUNNING | COMPLETED | FAILED | CANCELLED | SKIPPED | TIMEOUT | RETRYING

  /** A raised exception: its type name and text. */
  datatype Error = Error(kind: string, message: string)

  datatype StageResult = StageResult(
    status: ExecutionStatus,
    stageId: string,
    errorType: Option<string>,
    errorMessage: Option<string>)
  {
    predicate Succeeded() {
      status.COMPLETED?
    }

    predicate Failed() {
      !Succeeded()
    }
  }

  /** One attempt at a stage raises, or returns a result of any status. */
  datatype Outcome = Raises(error: Error) | Returns(result: StageResult)

  /** A stage, as far as an executor can tell: what its n-th attempt does depends on n alone. */
  datatype Stage = Stage(id: string, maxAttempts: int, attempt: nat -> Outcome)

  /** An element of a pipeline: a lone stage, or a group meant to run concurrently. */
  datatype Item = Lone(stage: Stage) | Group(members: seq<Stage>)

  function Members(item: Item): seq<Stage> {
    match item
    case Lone(stage) => [stage]
    case Group(members) => members
  }

  /** The normalized execution units. */
  function Groups(items: seq<Item>): (groups: seq<seq<Stage>>)
    ensures |groups| == |items|
    ensures forall i | 0 <= i < |items| :: groups[i] == Members(items[i])
  {
    seq(|items|, i requires 0 <= i < |items| => Members(items[i]))
  }

  function Concat<T>(parts: seq<seq<T>>): seq<T> {
    if parts == [] then [] else parts[0] + Concat(parts[1..])
  }

  lemma {:induction false} ConcatOfTwo<T>(a: seq<seq<T>>, b: seq<seq<T>>)
    ensures Concat(a + b) == Concat(a) + Concat(b)
  {
    if a == [] {
      assert a + b == b;
    } else {
      assert (a + b)[1..] == a[1..] + b;
      ConcatOfTwo(a[1..], b);
    }
  }

  /** Iterating a pipeline: its stages one by one, groups dissolved. */
  function Flatten(items: seq<Item>): seq<Stage> {
    if items == [] then [] else Members(items[0]) + Flatten(items[1..])
  }

  /** Both views hold the same stages in the same order. */
  lemma {:induction false} FlattenIsConcatOfGroups(items: seq<Item>)
    ensures Flatten(items) == Concat(Groups(items))
  {
    if items != [] {
      FlattenIsConcatOfGroups(items[1..]);
      assert Groups(items)[1..] == Groups(items[1..]);
    }
  }

  /** A pipeline holds its elements one after the other: a lone stage as itself and as a group of one, a
      group as its members and as it is. */
  lemma ElementsInOrder(stage: Stage, members: seq<Stage>, rest: seq<Item>)
    ensures Flatten([Lone(stage)] + rest) == [stage] + Flatten(rest)
    ensures Flatten([Group(members)] + rest) == members + Flatten(rest)
    ensures Groups([Lone(stage)] + rest) == [[stage]] + Groups(rest)
    ensures Groups([Group(members)] + rest) == [members] + Groups(rest)
    ensures Flatten([]) == [] && Groups([]) == []
  {
    hide Flatten, Groups;
    OneElement(Lone(stage), rest);
    OneElement(Group(members), rest);
    NoElements();
  }

  lemma OneElement(item: Item, rest: seq<Item>)
    ensures Flatten([item] + rest) == Members(item) + Flatten(rest)
    ensures Groups([item] + rest) == [Members(item)] + Groups(rest)
  {
    assert ([item] + rest)[1..] == rest;
  }

  lemma NoElements()
    ensures Flatten([]) == [] && Groups([]) == []
  {
  }

  ghost predicate DistinctIds(stages: seq<Stage>) {
    forall i, j | 0 <= i < j < |stages| :: stages[i].id != stages[j].id
  }

  lemma {:induction false} DistinctGroup(groups: seq<seq<Stage>>, i: nat)
    requires DistinctIds(Concat(groups)) && i < |groups|
    ensures DistinctIds(groups[i])
  {
    var group, rest := groups[0], Concat(groups[1..]);
    assert forall k | 0 <= k < |group| :: (group + rest)[k] == group[k];
    assert forall k | 0 <= k < |rest| :: (group + rest)[|group| + k] == rest[k];
    if i > 0 {
      DistinctGroup(groups[1..], i - 1);
    }
  }

  datatype PipelineError = EmptyId | EmptyName | NoStages | DuplicateStage(id: string)

  /** The checks a pipeline makes when it is built. */
  method Validate(id: string, name: string, items: seq<Item>) returns (error: Option<PipelineError>)
    ensures error.None? <==> id != "" && name != "" && items != [] && DistinctIds(Flatten(items))
    ensures error == Some(EmptyId) <==> id == ""
    ensures error == Some(EmptyName) <==> id != "" && name == ""
    ensures error == Some(NoStages) <==> id != "" && name != "" && items == []
    ensures error.Some? && error.value.DuplicateStage? ==>
              exists i, j | 0 <= i < j < |Flatten(items)| ::
                Flatten(items)[i].id == Flatten(items)[j].id == error.value.id
  {
    if id == "" {
      return Some(EmptyId);
    }
    if name == "" {
      return Some(EmptyName);
    }
    if items == [] {
      return Some(NoStages);
    }
    var stages := Flatten(items);
    var seen: set<string> := {};
    var i := 0;
    while i < |stages|
      invariant 0 <= i <= |stages|
      invariant seen == set j | 0 <= j < i :: stages[j].id
      invariant DistinctIds(stages[..i])
    {
      if stages[i].id in seen {
        return Some(DuplicateStage(stages[i].id));
      }
      seen := seen + {stages[i].id};
      i := i + 1;
    }
    assert stages[..i] == stages;
    return None;
  }

  // ---- Lifecycle events

  datatype Event =
    | BeforePipeline
    | AfterPipeline
    | PipelineFailed(error: Error)
    | BeforeStage(id: string)
    | AfterStage(id: string, result: StageResult)
    | StageFailed(id: string, failure: Outcome)
  {
    predicate OfStage() {
      BeforeStage? || AfterStage? || StageFailed?
    }
  }

  /** The events of one stage, in order. */
  function EventsOfStage(events: seq<Event>, id: string): seq<Event> {
    if events == [] then []
    else if Last(events).OfStage() && Last(events).id == id then EventsOfStage(Init(events), id) + [Last(events)]
    else EventsOfStage(Init(events), id)
  }

  lemma {:induction false} EventsOfStageConcat(a: seq<Event>, b: seq<Event>, id: string)
    ensures EventsOfStage(a + b, id) == EventsOfStage(a, id) + EventsOfStage(b, id)
  {
    if b == [] {
      assert a + b == a;
    } else {
      assert Init(a + b) == a + Init(b) && Last(a + b) == Last(b);
      EventsOfStageConcat(a, Init(b), id);
    }
  }

  ghost predicate AllOfStage(events: seq<Event>, id: string) {
    forall k | 0 <= k < |events| :: events[k].OfStage() && events[k].id == id
  }

  lemma {:induction false} EventsOfOneStage(events: seq<Event>, id: string, other: string)
    requires AllOfStage(events, id)
    ensures EventsOfStage(events, other) == if other == id then events else []
  {
    if events != [] {
      EventsOfOneStage(Init(events), id, other);
    }
  }
}
