/** The life of one entity in the Bronze Consumer as a labelled transition system: the round-robin
    loop, the flush workers, and an environment that may rewind a position, let an abandoned commit
    land late, or crash the process. */
module BronzeProtocol {
  import opened Common
  import opened BronzeLog
  import opened EntityTurn

  /** Where one flush task stands. Lost: a commit found the group membership lost or timed out;
      Discarded: its consumer is gone, the buffer is not cleared yet. */
  datatype Flight =
    | Submitted
    | Writing(rows: seq<Entry>)
    | Written(rows: seq<Entry>)
    | Committed(rows: seq<Entry>)
    | Lost
    | Discarded
    | Finished
    | Raised
  {
    predicate Done() {
      Finished? || Raised?
    }
  }

  /** Looping: the round-robin loop runs. Draining: it ended, the pool waits for its tasks.
      Broken: a poll raised, so messages may have been read that were never buffered. */
  datatype Mode = Looping | Draining | Broken

  /** Broker and table (log, committed, late, table) survive a crash; the rest is the process. */
  datatype State = State(
    log: Topic,
    committed: Offsets,
    late: set<Offsets>,
    table: seq<Entry>,
    consumer: Option<Offsets>,
    buffer: Buffer,
    flights: seq<Flight>,
    inFlight: Option<nat>,
    mode: Mode)
  {
    predicate Flying(i: nat) {
      i < |flights| && !flights[i].Done()
    }

    /** The position the next poll starts from: a new consumer joins at the committed offsets. */
    function Position(): Offsets {
      consumer.GetOr(committed)
    }

    predicate MayTurn() {
      mode.Looping? && (inFlight.Some? ==> inFlight.value < |flights| && flights[inFlight.value].Finished?)
    }
  }

  datatype Label =
    // the round-robin loop
    | SkipInFlight
    | Turn(batch: seq<Entry>, openAt: real, dueAt: real)
    | PollRaises(batch: seq<Entry>)
    | FutureRaises
    | LoopEnds
    // flush task i
    | Snapshot(i: nat)
    | BuildFails(i: nat)
    | WriteOk(i: nat)
    | WriteFails(i: nat, landed: bool)
    | CommitOk(i: nat)
    | CommitFails(i: nat, partitions: set<nat>)
    | CommitLost(i: nat, partitions: set<nat>)
    | CommitTimesOut(i: nat)
    | Discard(i: nat)
    | ClearLost(i: nat)
    | LagThenClear(i: nat)
    | LagRaises(i: nat)
    // the environment
    | Produce(partition: nat, message: Message)
    | LateCommit(offsets: Offsets, partitions: set<nat>)
    | Rewind(partition: nat)
    | Crash
  {
    predicate FromLoop() {
      SkipInFlight? || Turn? || PollRaises? || FutureRaises? || LoopEnds?
    }

    predicate FromWorker() {
      Snapshot? || BuildFails? || WriteOk? || WriteFails? || CommitOk? || CommitFails? || CommitLost? || CommitTimesOut?
      || Discard? || ClearLost? || LagThenClear? || LagRaises?
    }
  }

  /** A commit that reached the broker for some of the partitions. */
  function Merge(committed: Offsets, offered: Offsets, partitions: set<nat>): (merged: Offsets)
    requires |committed| == |offered|
    ensures |merged| == |committed|
    ensures forall p | 0 <= p < |merged| :: merged[p] == if p in partitions then offered[p] else committed[p]
  {
    seq(|committed|, p requires 0 <= p < |committed| => if p in partitions then offered[p] else committed[p])
  }

  ghost predicate Enabled(caps: Caps, s: State, l: Label) {
    match l
    case SkipInFlight => s.mode.Looping? && s.inFlight.Some? && s.Flying(s.inFlight.value)
    case Turn(batch, _, _) =>
      && s.MayTurn()
      && (if s.buffer.Polls(caps) then CanFetch(s.log, s.committed, s.Position(), batch) && |batch| <= s.buffer.Room(caps)
          else batch == [])
    case PollRaises(batch) =>
      s.MayTurn() && s.buffer.Polls(caps) && CanFetch(s.log, s.committed, s.Position(), batch)
    case FutureRaises =>
      s.mode.Looping? && s.inFlight.Some? && s.inFlight.value < |s.flights| && s.flights[s.inFlight.value].Raised?
    case LoopEnds => s.mode.Looping?
    case Snapshot(i) => s.Flying(i) && s.flights[i].Submitted?
    case BuildFails(i) => s.Flying(i) && s.flights[i].Submitted?
    case WriteOk(i) => s.Flying(i) && s.flights[i].Writing?
    case WriteFails(i, _) => s.Flying(i) && s.flights[i].Writing?
    // A commit needs the consumer an earlier poll resolved, and offers its current position;
    // without one it fails like any other error.
    case CommitOk(i) => s.Flying(i) && s.flights[i].Written? && s.consumer.Some? && |s.consumer.value| == |s.committed|
    case CommitFails(i, _) => s.Flying(i) && s.flights[i].Written? && |s.Position()| == |s.committed|
    case CommitLost(i, _) => s.Flying(i) && s.flights[i].Written? && s.consumer.Some? && |s.consumer.value| == |s.committed|
    case CommitTimesOut(i) => s.Flying(i) && s.flights[i].Written? && s.consumer.Some? && |s.consumer.value| == |s.committed|
    case Discard(i) => s.Flying(i) && s.flights[i].Lost?
    case ClearLost(i) => s.Flying(i) && s.flights[i].Discarded?
    case LagThenClear(i) => s.Flying(i) && s.flights[i].Committed?
    case LagRaises(i) => s.Flying(i) && s.flights[i].Committed?
    case Produce(p, _) => p < |s.log|
    case LateCommit(offsets, _) => offsets in s.late && |offsets| == |s.committed|
    case Rewind(p) => s.consumer.Some? && p < |s.consumer.value| && p < |s.committed|
    case Crash => true
  }

  function Fly(s: State, i: nat, f: Flight): State
    requires i < |s.flights|
  {
    s.(flights := s.flights[i := f])
  }

  /** A taken turn: reap the finished flush, poll and buffer, then submit a flush when due. */
  function TakeTurn(caps: Caps, s: State, batch: seq<Entry>, openAt: real, dueAt: real): State
    requires forall e | e in batch :: e.partition < |s.Position()|
  {
    var consumer := if s.buffer.Polls(caps) then Some(Fetched(s.Position(), batch)) else s.consumer;
    var buffer := s.buffer.AfterPoll(s.log, caps, batch, openAt);
    if buffer.Due(caps, dueAt) then
      s.(consumer := consumer, buffer := buffer, flights := s.flights + [Submitted], inFlight := Some(|s.flights|))
    else
      s.(consumer := consumer, buffer := buffer, inFlight := None)
  }

  function Restarted(s: State): State {
    s.(consumer := None, buffer := FRESH, flights := [], inFlight := None, mode := Looping)
  }

  ghost function Step(caps: Caps, s: State, l: Label): State
    requires Enabled(caps, s, l)
  {
    match l
    case SkipInFlight => s
    case Turn(batch, openAt, dueAt) => FetchPartitions(s, batch); TakeTurn(caps, s, batch, openAt, dueAt)
    case PollRaises(batch) =>
      FetchPartitions(s, batch);
      s.(consumer := Some(Fetched(s.Position(), batch)), buffer := s.buffer.(roundsSincePoll := 0), inFlight := None, mode := Broken)
    case FutureRaises => s.(mode := Draining)
    case LoopEnds => s.(mode := Draining)
    case Snapshot(i) => Fly(s, i, Writing(s.buffer.records))
    case BuildFails(i) => Fly(s, i, Finished)
    case WriteOk(i) => Fly(s, i, Written(s.flights[i].rows)).(table := s.table + s.flights[i].rows)
    case WriteFails(i, landed) =>
      Fly(s, i, Finished).(table := if landed then s.table + s.flights[i].rows else s.table)
    case CommitOk(i) => Fly(s, i, Committed(s.flights[i].rows)).(committed := s.consumer.value)
    case CommitFails(i, partitions) => Fly(s, i, Finished).(committed := Merge(s.committed, s.Position(), partitions))
    case CommitLost(i, partitions) => Fly(s, i, Lost).(committed := Merge(s.committed, s.consumer.value, partitions))
    case CommitTimesOut(i) => Fly(s, i, Lost).(late := s.late + {s.consumer.value})
    case Discard(i) => Fly(s, i, Discarded).(consumer := None)
    case ClearLost(i) => Fly(s, i, Finished).(buffer := s.buffer.Cleared())
    case LagThenClear(i) => Fly(s, i, Finished).(buffer := s.buffer.Cleared())
    case LagRaises(i) => Fly(s, i, Raised)
    case Produce(p, m) => s.(log := s.log[p := s.log[p] + [m]])
    case LateCommit(offsets, partitions) => s.(committed := Merge(s.committed, offsets, partitions))
    case Rewind(p) => s.(consumer := Some(s.consumer.value[p := s.committed[p]]))
    case Crash => Restarted(s)
  }

  /** l leads from s to t. */
  ghost predicate Next(caps: Caps, s: State, l: Label, t: State) {
    Enabled(caps, s, l) && t == Step(caps, s, l)
  }

  lemma FetchPartitions(s: State, batch: seq<Entry>)
    ensures CanFetch(s.log, s.committed, s.Position(), batch) ==> forall e | e in batch :: e.partition < |s.Position()|
  {
    if CanFetch(s.log, s.committed, s.Position(), batch) {
      FetchInTopic(s.log, s.committed, s.Position(), batch);
    }
  }

  /** A fresh process on an untouched group: nothing committed, nothing landed. */
  predicate Initial(s: State) {
    && |s.committed| == |s.log|
    && (forall p | 0 <= p < |s.committed| :: s.committed[p] == 0)
    && s.late == {} && s.table == []
    && s == Restarted(s)
  }

  // ---- Runs

  /** The state after a run, or None when some label was not enabled. */
  ghost function Exec(caps: Caps, s: State, run: seq<Label>): Option<State> {
    if run == [] then Some(s)
    else
      var t := Exec(caps, s, Init(run));
      if t.Some? && Enabled(caps, t.value, Last(run)) then Some(Step(caps, t.value, Last(run))) else None
  }

  lemma ExecStep(caps: Caps, s: State, run: seq<Label>, l: Label)
    requires Exec(caps, s, run).Some? && Enabled(caps, Exec(caps, s, run).value, l)
    ensures Exec(caps, s, run + [l]) == Some(Step(caps, Exec(caps, s, run).value, l))
  {
    AppendInit(run, l);
  }

  lemma ExecTwoSteps(caps: Caps, s: State, run: seq<Label>, l: Label, t: State, m: Label, u: State)
    requires Exec(caps, s, run).Some? && Next(caps, Exec(caps, s, run).value, l, t) && Next(caps, t, m, u)
    ensures Exec(caps, s, run + [l, m]) == Some(u)
  {
    ExecStep(caps, s, run, l);
    ExecStep(caps, s, run + [l], m);
    assert run + [l] + [m] == run + [l, m];
  }

  lemma {:induction false} ExecConcat(caps: Caps, s: State, run: seq<Label>, more: seq<Label>)
    requires Exec(caps, s, run).Some?
    ensures Exec(caps, s, run + more) == Exec(caps, Exec(caps, s, run).value, more)
  {
    if more == [] {
      assert run + more == run;
    } else {
      InitLast(more);
      ExecConcat(caps, s, run, Init(more));
      assert run + more == run + Init(more) + [Last(more)];
      AppendInit(run + Init(more), Last(more));
    }
  }

  // ---- The first half of a flush that succeeds

  lemma SnapshotTaken(caps: Caps, t: State, i: nat)
    requires i < |t.flights| && t.flights[i].Submitted?
    ensures Next(caps, t, Snapshot(i), Fly(t, i, Writing(t.buffer.records)))
  {
  }

  lemma WriteLands(caps: Caps, t: State, i: nat)
    requires i < |t.flights| && t.flights[i].Writing?
    ensures Next(caps, t, WriteOk(i), Fly(t, i, Written(t.flights[i].rows)).(table := t.table + t.flights[i].rows))
  {
  }

  lemma CommitLands(caps: Caps, t: State, i: nat)
    requires i < |t.flights| && t.flights[i].Written? && t.consumer.Some? && |t.consumer.value| == |t.committed|
    ensures Next(caps, t, CommitOk(i), Fly(t, i, Committed(t.flights[i].rows)).(committed := t.consumer.value))
  {
  }

  /** A submitted flush that is written and committed. */
  lemma CommitsInThree(caps: Caps, t: State, i: nat)
    requires i < |t.flights| && t.flights[i].Submitted? && t.consumer.Some? && |t.consumer.value| == |t.committed|
    ensures Exec(caps, t, [Snapshot(i), WriteOk(i), CommitOk(i)]) ==
            Some(Fly(t, i, Committed(t.buffer.records)).(table := t.table + t.buffer.records, committed := t.consumer.value))
  {
    hide Enabled, Step;
    var rows := t.buffer.records;
    SnapshotTaken(caps, t, i);
    var t1 := Fly(t, i, Writing(rows));
    WriteLands(caps, t1, i);
    var t2 := Fly(t1, i, Written(rows)).(table := t.table + rows);
    assert Exec(caps, t, []) == Some(t);
    ExecTwoSteps(caps, t, [], Snapshot(i), t1, WriteOk(i), t2);
    CommitLands(caps, t2, i);
    assert [] + [Snapshot(i), WriteOk(i)] == [Snapshot(i), WriteOk(i)];
    ExecStep(caps, t, [Snapshot(i), WriteOk(i)], CommitOk(i));
    assert Fly(t2, i, Committed(rows)).flights == t.flights[i := Committed(rows)];
    assert [Snapshot(i), WriteOk(i)] + [CommitOk(i)] == [Snapshot(i), WriteOk(i), CommitOk(i)];
  }
}
