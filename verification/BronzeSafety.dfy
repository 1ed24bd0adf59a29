/** Safety of the Bronze Consumer over every run: at-least-once landing, order, in-flight exclusion
    and the buffer rules. */
module BronzeSafety {
  import opened Common
  import opened BronzeLog
  import opened EntityTurn
  import opened BronzeProtocol

  /** Everything landed or buffered, in order of arrival. */
  function Landing(s: State): seq<Entry> {
    s.table + s.buffer.records
  }

  /** At most one flush is running, and the loop knows which. */
  ghost predicate OneFlight(s: State) {
    && (s.inFlight.Some? ==> s.inFlight.value < |s.flights|)
    && forall i | 0 <= i < |s.flights| && !s.flights[i].Done() :: s.inFlight == Some(i) && !s.mode.Broken?
  }

  /** What a running flush may rely on: its snapshot is still the buffer, and once the write
      succeeded the buffer is in the table. */
  ghost predicate FlightOk(s: State, f: Flight) {
    match f
    case Submitted => s.consumer.Some? && s.buffer.records != []
    case Writing(rows) => s.consumer.Some? && rows == s.buffer.records
    case Written(rows) => s.consumer.Some? && rows == s.buffer.records && (forall e | e in rows :: e in s.table)
    case Committed(rows) => s.consumer.Some? && rows == s.buffer.records && (forall e | e in rows :: e in s.table)
    case Lost => s.consumer.Some? && forall e | e in s.buffer.records :: e in s.table
    case Discarded => s.consumer.None? && forall e | e in s.buffer.records :: e in s.table
    case Finished => true
    case Raised => true
  }

  ghost predicate Offsets(s: State) {
    && Covers(s.log, s.table, s.committed)
    && (forall l | l in s.late :: Covers(s.log, s.table, l))
    && (s.consumer.Some? ==> |s.consumer.value| == |s.log|)
    && (s.consumer.Some? && !s.mode.Broken? ==> Covers(s.log, Landing(s), s.consumer.value))
  }

  ghost predicate Inv(caps: Caps, s: State) {
    && caps.Valid()
    && GapFree(s.log, Landing(s))
    && Offsets(s)
    && s.buffer.Valid(caps)
    && OneFlight(s)
    && (forall i | 0 <= i < |s.flights| :: FlightOk(s, s.flights[i]))
    && (s.buffer.records != [] && s.consumer.None? ==>
          s.inFlight.Some? && s.flights[s.inFlight.value].Discarded?)
  }

  lemma InitialInv(caps: Caps, s: State)
    requires caps.Valid() && Initial(s)
    ensures Inv(caps, s)
  {
    assert Landing(s) == [];
  }

  // ---- Each step keeps the invariant

  /** In a turn no flush is running. */
  lemma NoneFlying(s: State)
    requires OneFlight(s) && s.MayTurn()
    ensures forall i | 0 <= i < |s.flights| :: s.flights[i].Done()
  {
  }

  lemma PollKeepsBuffer(caps: Caps, topic: Topic, b: Buffer, batch: seq<Entry>, openAt: real)
    requires caps.Valid() && b.Valid(caps) && b.Polls(caps) && |batch| <= b.Room(caps)
    ensures b.AfterPoll(topic, caps, batch, openAt).Valid(caps)
    ensures b.AfterPoll(topic, caps, batch, openAt).records == b.records + Kept(topic, batch)
  {
  }

  /** Between flushes, a new position and buffer are safe once they are covered and in order. */
  lemma AdvanceKeepsInv(caps: Caps, s: State, position: BronzeLog.Offsets, b: Buffer)
    requires Inv(caps, s) && s.MayTurn()
    requires b.Valid(caps) && GapFree(s.log, s.table + b.records) && Covers(s.log, s.table + b.records, position)
    ensures Inv(caps, s.(consumer := Some(position), buffer := b, inFlight := None))
  {
    NoneFlying(s);
  }

  lemma PollKeepsInv(caps: Caps, s: State, batch: seq<Entry>, b: Buffer)
    requires Inv(caps, s) && s.MayTurn() && CanFetch(s.log, s.committed, s.Position(), batch)
    requires b.Valid(caps) && b.records == s.buffer.records + Kept(s.log, batch)
    ensures forall e | e in batch :: e.partition < |s.Position()|
    ensures Inv(caps, s.(consumer := Some(Fetched(s.Position(), batch)), buffer := b, inFlight := None))
  {
    FetchInTopic(s.log, s.committed, s.Position(), batch);
    CoverGrows(s.log, s.table, Landing(s), s.committed);
    FetchKeepsCover(s.log, s.committed, s.Position(), batch, Landing(s));
    assert s.table + b.records == Landing(s) + Kept(s.log, batch);
    AdvanceKeepsInv(caps, s, Fetched(s.Position(), batch), b);
  }

  lemma NoPollKeepsInv(caps: Caps, s: State, b: Buffer)
    requires Inv(caps, s) && s.MayTurn() && b.Valid(caps) && b.records == s.buffer.records
    ensures Inv(caps, s.(buffer := b, inFlight := None))
  {
    NoneFlying(s);
    assert Landing(s.(buffer := b, inFlight := None)) == Landing(s);
  }

  lemma TurnKeepsInv(caps: Caps, s: State, batch: seq<Entry>, openAt: real, dueAt: real)
    requires Inv(caps, s) && Enabled(caps, s, Turn(batch, openAt, dueAt))
    ensures Inv(caps, Step(caps, s, Turn(batch, openAt, dueAt)))
  {
    var b := s.buffer.AfterPoll(s.log, caps, batch, openAt);
    if s.buffer.Polls(caps) {
      PollKeepsBuffer(caps, s.log, s.buffer, batch, openAt);
      PollKeepsInv(caps, s, batch, b);
      if b.Due(caps, dueAt) {
        SubmitKeepsInv(caps, s.(consumer := Some(Fetched(s.Position(), batch)), buffer := b, inFlight := None));
      }
    } else {
      NoPollKeepsInv(caps, s, b);
      if b.Due(caps, dueAt) {
        SubmitKeepsInv(caps, s.(buffer := b, inFlight := None));
      }
    }
  }

  lemma SubmitKeepsInv(caps: Caps, s: State)
    requires Inv(caps, s) && s.inFlight.None? && s.mode.Looping? && s.buffer.records != []
    ensures Inv(caps, s.(flights := s.flights + [Submitted], inFlight := Some(|s.flights|)))
  {
    var s' := s.(flights := s.flights + [Submitted], inFlight := Some(|s.flights|));
    assert Landing(s') == Landing(s);
    assert forall i | 0 <= i < |s.flights| :: s'.flights[i] == s.flights[i] && s.flights[i].Done();
  }

  lemma WriteKeepsInv(caps: Caps, s: State, l: Label)
    requires Inv(caps, s) && Enabled(caps, s, l) && (l.WriteOk? || l.WriteFails?)
    ensures Inv(caps, Step(caps, s, l))
  {
    var s' := Step(caps, s, l);
    if s'.table != s.table {
      GapFreeRepeat(s.log, s.table, s.buffer.records);
      assert Landing(s') == s.table + s.buffer.records + s.buffer.records;
      CoversAll(s, s');
    } else {
      assert Landing(s') == Landing(s);
    }
  }

  /** Offsets stay covered when the table and the landing only grow. */
  lemma CoversAll(s: State, s': State)
    requires Offsets(s) && s'.log == s.log && s'.committed == s.committed && s'.late == s.late
    requires s'.consumer == s.consumer && s'.mode == s.mode
    requires forall e | e in s.table :: e in s'.table
    requires forall e | e in Landing(s) :: e in Landing(s')
    ensures Offsets(s')
  {
    CoverGrows(s.log, s.table, s'.table, s.committed);
    forall l | l in s.late ensures Covers(s.log, s'.table, l) { CoverGrows(s.log, s.table, s'.table, l); }
    if s.consumer.Some? && !s.mode.Broken? {
      CoverGrows(s.log, Landing(s), Landing(s'), s.consumer.value);
    }
  }

  lemma MergeCovered(topic: Topic, s: seq<Entry>, a: BronzeLog.Offsets, b: BronzeLog.Offsets, partitions: set<nat>)
    requires Covers(topic, s, a) && Covers(topic, s, b)
    ensures Covers(topic, s, Merge(a, b, partitions))
  {
    forall p | 0 <= p < |a|
      ensures CoversPartition(topic, s, Merge(a, b, partitions), p)
    {
      assert CoversPartition(topic, s, a, p) && CoversPartition(topic, s, b, p);
    }
  }

  /** While a written batch waits for its commit, the position is covered by the table alone. */
  lemma PositionInTable(caps: Caps, s: State, i: nat)
    requires Inv(caps, s) && s.Flying(i)
    requires s.flights[i].Written? || s.flights[i].Committed? || s.flights[i].Lost?
    ensures s.consumer.Some? && Covers(s.log, s.table, s.consumer.value)
  {
    assert FlightOk(s, s.flights[i]);
    CoverGrows(s.log, Landing(s), s.table, s.consumer.value);
  }

  lemma CommitKeepsInv(caps: Caps, s: State, l: Label)
    requires Inv(caps, s) && Enabled(caps, s, l)
    requires l.CommitOk? || l.CommitFails? || l.CommitLost? || l.CommitTimesOut?
    ensures Inv(caps, Step(caps, s, l))
  {
    PositionInTable(caps, s, l.i);
    var partitions := if l.CommitFails? || l.CommitLost? then l.partitions else {};
    MergeCovered(s.log, s.table, s.committed, s.consumer.value, partitions);
    assert Landing(Step(caps, s, l)) == Landing(s);
  }

  lemma ClearKeepsInv(caps: Caps, s: State, l: Label)
    requires Inv(caps, s) && Enabled(caps, s, l)
    requires l.Discard? || l.ClearLost? || l.LagThenClear?
    ensures Inv(caps, Step(caps, s, l))
  {
    var s' := Step(caps, s, l);
    assert FlightOk(s, s.flights[l.i]);
    GapFreePrefix(s.log, s.table, s.buffer.records);
    assert s.table + [] == s.table;
    if l.LagThenClear? {
      PositionInTable(caps, s, l.i);
    }
    assert Landing(s') == if l.Discard? then Landing(s) else s.table;
  }

  lemma EnvironmentKeepsInv(caps: Caps, s: State, l: Label)
    requires Inv(caps, s) && Enabled(caps, s, l)
    requires l.Produce? || l.LateCommit? || l.Rewind? || l.Crash?
    ensures Inv(caps, Step(caps, s, l))
  {
    var s' := Step(caps, s, l);
    GapFreePrefix(s.log, s.table, s.buffer.records);
    match l {
      case Produce(p, m) =>
        GrowthKeepsGapFree(s.log, p, m, Landing(s));
        GrowthKeepsCover(s.log, p, m, s.table, s.committed);
        forall l | l in s.late ensures Covers(s'.log, s.table, l) { GrowthKeepsCover(s.log, p, m, s.table, l); }
        if s.consumer.Some? && !s.mode.Broken? {
          GrowthKeepsCover(s.log, p, m, Landing(s), s.consumer.value);
        }
      case LateCommit(late, partitions) =>
        MergeCovered(s.log, s.table, s.committed, late, partitions);
        assert Landing(s') == Landing(s);
      case Rewind(p) =>
        CoverGrows(s.log, s.table, Landing(s), s.committed);
        if !s.mode.Broken? {
          MergeCovered(s.log, Landing(s), s.consumer.value, s.committed, {p});
          assert s'.consumer.value == Merge(s.consumer.value, s.committed, {p});
        }
        assert Landing(s') == Landing(s);
      case Crash =>
        assert Landing(s') == s.table;
    }
  }

  lemma PollRaisesKeepsInv(caps: Caps, s: State, batch: seq<Entry>)
    requires Inv(caps, s) && Enabled(caps, s, PollRaises(batch))
    ensures Inv(caps, Step(caps, s, PollRaises(batch)))
  {
    FetchPartitions(s, batch);
    assert forall i :: !s.Flying(i);
    assert Landing(Step(caps, s, PollRaises(batch))) == Landing(s);
  }

  /** The steps that neither poll, write, commit nor clear. */
  lemma QuietStepKeepsInv(caps: Caps, s: State, l: Label)
    requires Inv(caps, s) && Enabled(caps, s, l)
    requires l.SkipInFlight? || l.FutureRaises? || l.LoopEnds? || l.Snapshot? || l.BuildFails? || l.LagRaises?
    ensures Inv(caps, Step(caps, s, l))
  {
    assert Landing(Step(caps, s, l)) == Landing(s);
  }

  lemma StepKeepsInv(caps: Caps, s: State, l: Label)
    requires Inv(caps, s) && Enabled(caps, s, l)
    ensures Inv(caps, Step(caps, s, l))
  {
    hide Inv, Enabled, Step;
    match l {
      case Turn(batch, openAt, dueAt) => TurnKeepsInv(caps, s, batch, openAt, dueAt);
      case WriteOk(_) => WriteKeepsInv(caps, s, l);
      case WriteFails(_, _) => WriteKeepsInv(caps, s, l);
      case CommitOk(_) => CommitKeepsInv(caps, s, l);
      case CommitFails(_, _) => CommitKeepsInv(caps, s, l);
      case CommitLost(_, _) => CommitKeepsInv(caps, s, l);
      case CommitTimesOut(_) => CommitKeepsInv(caps, s, l);
      case Discard(_) => ClearKeepsInv(caps, s, l);
      case ClearLost(_) => ClearKeepsInv(caps, s, l);
      case LagThenClear(_) => ClearKeepsInv(caps, s, l);
      case Produce(_, _) => EnvironmentKeepsInv(caps, s, l);
      case LateCommit(_, _) => EnvironmentKeepsInv(caps, s, l);
      case Rewind(_) => EnvironmentKeepsInv(caps, s, l);
      case Crash => EnvironmentKeepsInv(caps, s, l);
      case PollRaises(batch) => PollRaisesKeepsInv(caps, s, batch);
      case _ => QuietStepKeepsInv(caps, s, l);
    }
  }

  lemma {:induction false} RunKeepsInv(caps: Caps, s: State, run: seq<Label>)
    requires Inv(caps, s) && Exec(caps, s, run).Some?
    ensures Inv(caps, Exec(caps, s, run).value)
  {
    if run != [] {
      RunKeepsInv(caps, s, Init(run));
      StepKeepsInv(caps, Exec(caps, s, Init(run)).value, Last(run));
    }
  }

  /** The states a consumer can be in: the end of some run from a fresh start. */
  ghost predicate Reachable(caps: Caps, t: State) {
    exists s, run :: Initial(s) && Exec(caps, s, run) == Some(t)
  }

  lemma ReachableInv(caps: Caps, t: State)
    requires caps.Valid() && Reachable(caps, t)
    ensures Inv(caps, t)
  {
    var s, run :| Initial(s) && Exec(caps, s, run) == Some(t);
    InitialInv(caps, s);
    RunKeepsInv(caps, s, run);
  }

  // ---- At-least-once

  /** In every reachable state a decodable message below the committed offset is in the table, one
      below the consumer's position is in the table or the buffer (unless a poll has raised, after
      which this process writes nothing more), and nothing else was ever written. */
  lemma AtLeastOnce(caps: Caps, t: State)
    requires caps.Valid() && Reachable(caps, t)
    ensures |t.committed| == |t.Position()| == |t.log|
    ensures forall e | Decodable(t.log, e) && e.offset < t.committed[e.partition] :: e in t.table
    ensures !t.mode.Broken? ==>
              forall e | Decodable(t.log, e) && e.offset < t.Position()[e.partition] :: e in t.table || e in t.buffer.records
    ensures t.mode.Broken? ==> forall i :: !t.Flying(i)
    ensures forall e | e in t.table || e in t.buffer.records :: Decodable(t.log, e)
  {
    ReachableInv(caps, t);
    forall e | Decodable(t.log, e) && e.offset < t.committed[e.partition]
      ensures e in t.table
    {
      assert CoversPartition(t.log, t.table, t.committed, e.partition);
    }
    if !t.mode.Broken? {
      CoverGrows(t.log, t.table, Landing(t), t.committed);
      forall e | Decodable(t.log, e) && e.offset < t.Position()[e.partition]
        ensures e in Landing(t)
      {
        assert CoversPartition(t.log, Landing(t), t.Position(), e.partition);
      }
    }
    forall e | e in Landing(t)
      ensures Decodable(t.log, e)
    {
      var i :| 0 <= i < |Landing(t)| && Landing(t)[i] == e;
      assert InOrder(t.log, Landing(t), i);
    }
    assert forall e | e in t.table || e in t.buffer.records :: e in Landing(t);
  }

  /** In every reachable state the table, repeats dropped, holds in each partition exactly a prefix
      of the partition's decodable messages, in order, and that prefix reaches the committed offset. */
  lemma TableIsPrefix(caps: Caps, t: State, p: nat)
    requires caps.Valid() && Reachable(caps, t) && p < |t.log|
    ensures DeliversOnce(t.log[p], OffsetsOf(t.table, p), Reach(t.table, p))
    ensures |t.committed| == |t.log| && t.committed[p] <= |t.log[p]|
    ensures DecodableBelow(t.log[p], t.committed[p]) <= DecodableBelow(t.log[p], Reach(t.table, p))
  {
    ReachableInv(caps, t);
    GapFreePrefix(t.log, t.table, t.buffer.records);
    GapFreeIsPrefix(t.log, t.table, p);
    assert CoversPartition(t.log, t.table, t.committed, p);
    var reach := Reach(t.table, p);
    if reach < t.committed[p] {
      forall o | reach <= o < t.committed[p]
        ensures !t.log[p][o].Change?
      {
        var e := Entry(p, o);
        ReachBounds(t.table, p);
        if Decodable(t.log, e) {
          assert false;
        }
      }
      DecodableBelowSkips(t.log[p], reach, t.committed[p]);
    } else {
      DecodableBelowMonotone(t.log[p], t.committed[p], reach);
    }
  }

  lemma {:induction false} DecodableBelowMonotone(messages: seq<Message>, n: nat, m: nat)
    requires n <= m <= |messages|
    ensures DecodableBelow(messages, n) <= DecodableBelow(messages, m)
  {
    if n < m {
      DecodableBelowMonotone(messages, n, m - 1);
    }
  }

  /** What all this has to withstand can happen in every reachable state: a crash, new messages, a rebalance that
      rewinds any partition, and an abandoned commit landing on any of them. */
  lemma EnvironmentIsFree(caps: Caps, t: State, p: nat, m: Message, partitions: set<nat>)
    requires caps.Valid() && Reachable(caps, t) && p < |t.log|
    ensures Enabled(caps, t, Crash) && Enabled(caps, t, Produce(p, m))
    ensures t.consumer.Some? ==> Enabled(caps, t, Rewind(p))
    ensures forall offsets | offsets in t.late :: Enabled(caps, t, LateCommit(offsets, partitions))
  {
    ReachableInv(caps, t);
  }

  // ---- One flush at a time

  /** Until its commit is over, a submitted flush sees the buffer it was submitted with, and the position
      in every partition that was not rewound: nothing the loop or the environment does changes them. */
  lemma {:induction false} FlightSeesItsBuffer(caps: Caps, s: State, run: seq<Label>, i: nat)
    requires Inv(caps, s) && s.Flying(i) && s.flights[i].Submitted?
    requires Exec(caps, s, run).Some? && Crash !in run
    ensures var t := Exec(caps, s, run).value;
            && i < |t.flights|
            && (t.flights[i].Submitted? || t.flights[i].Writing? || t.flights[i].Written? || t.flights[i].Committed? ==>
                  t.buffer == s.buffer && SamePosition(s.consumer, t.consumer, run))
  {
    hide Inv, Step, Enabled;
    if run != [] {
      var front, l := Init(run), Last(run);
      InitLast(run);
      FlightSeesItsBuffer(caps, s, front, i);
      RunKeepsInv(caps, s, front);
      var u := Exec(caps, s, front).value;
      if u.Flying(i) {
        FlyingStep(caps, u, l, i);
      } else {
        DoneStaysDone(caps, u, l, i);
      }
    } else {
      SubmittedHasConsumer(caps, s, i);
    }
  }

  /** The same position, but for the partitions a rebalance rewound in the run. */
  ghost predicate SamePosition(before: Option<BronzeLog.Offsets>, now: Option<BronzeLog.Offsets>, run: seq<Label>) {
    && before.Some? && now.Some? && |now.value| == |before.value|
    && forall p: nat | p < |now.value| && Rewind(p) !in run :: now.value[p] == before.value[p]
  }

  lemma SubmittedHasConsumer(caps: Caps, s: State, i: nat)
    requires Inv(caps, s) && s.Flying(i) && s.flights[i].Submitted?
    ensures s.consumer.Some?
  {
    assert FlightOk(s, s.flights[i]);
  }

  /** While flush i runs, no loop step changes anything of the entity but the mode, and only flush i moves. */
  lemma FlyingStep(caps: Caps, u: State, l: Label, i: nat)
    requires Inv(caps, u) && Enabled(caps, u, l) && u.Flying(i) && !l.Crash?
    ensures var v := Step(caps, u, l);
            && i < |v.flights|
            && (l.FromLoop() ==> v == u.(mode := v.mode))
            && (v.Flying(i) && (u.flights[i].Lost? ==> v.flights[i].Lost?) && !v.flights[i].Discarded? ==>
                  && v.buffer == u.buffer
                  && (l.Rewind? ==> l.partition < |u.consumer.GetOr([])| && l.partition < |u.committed|)
                  && v.consumer == if l.Rewind? then Some(u.consumer.value[l.partition := u.committed[l.partition]]) else u.consumer)
            && (u.flights[i].Lost? || u.flights[i].Discarded? ==>
                  v.flights[i].Lost? || v.flights[i].Discarded? || v.flights[i].Done())
  {
    assert u.inFlight == Some(i);
  }

  lemma DoneStaysDone(caps: Caps, u: State, l: Label, i: nat)
    requires Enabled(caps, u, l) && i < |u.flights| && u.flights[i].Done() && !l.Crash?
    ensures i < |Step(caps, u, l).flights| && Step(caps, u, l).flights[i] == u.flights[i]
  {
  }

  /** The offset a flush commits is the position read when it was submitted, in every partition no
      rebalance rewound meanwhile; everything buffered then, and everything below it, is in the table. */
  lemma CommitCoversWhatWasRead(caps: Caps, s: State, run: seq<Label>, i: nat)
    requires Inv(caps, s) && s.Flying(i) && s.flights[i].Submitted?
    requires Crash !in run
    requires Exec(caps, s, run).Some? && Enabled(caps, Exec(caps, s, run).value, CommitOk(i))
    ensures var v := Step(caps, Exec(caps, s, run).value, CommitOk(i));
            && SamePosition(s.consumer, Some(v.committed), run)
            && (forall e | e in s.buffer.records :: e in v.table)
            && Covers(v.log, v.table, v.committed)
  {
    FlightSeesItsBuffer(caps, s, run, i);
    RunKeepsInv(caps, s, run);
    var t := Exec(caps, s, run).value;
    assert FlightOk(t, t.flights[i]);
    PositionInTable(caps, t, i);
  }

  /** Why the loop must not poll meanwhile: were one more decodable message read between the write
      and the commit, the committed offset would cover a message that is nowhere in the table. */
  lemma PollBeforeCommitWouldLose(caps: Caps, s: State, i: nat, e: Entry)
    requires Inv(caps, s) && s.Flying(i) && s.flights[i].Written? && s.consumer.Some?
    requires Decodable(s.log, e) && e.offset == s.consumer.value[e.partition] && e !in s.table
    ensures !Covers(s.log, s.table, Fetched(s.consumer.value, [e]))
  {
    var moved := Fetched(s.consumer.value, [e]);
    var one := s.consumer.value[e.partition := e.offset + 1];
    assert [e][1..] == [] && Fetched(one, []) == one;
    assert moved == s.consumer.value[e.partition := e.offset + 1];
    assert e == Entry(e.partition, e.offset);
    assert !CoversPartition(s.log, s.table, moved, e.partition);
  }

  /** In a reachable state a commit always finds the consumer its messages came from. */
  lemma CommitFindsConsumer(caps: Caps, t: State, i: nat)
    requires caps.Valid() && Reachable(caps, t) && t.Flying(i) && t.flights[i].Written?
    ensures Enabled(caps, t, CommitOk(i))
  {
    ReachableInv(caps, t);
    assert FlightOk(t, t.flights[i]);
  }

  // ---- Tasks that raise

  ghost predicate SomeRaised(s: State) {
    exists i | 0 <= i < |s.flights| :: s.flights[i].Raised?
  }

  /** As long as the loop runs it still has to wait for a task that raised. */
  ghost predicate RaisedAwaits(s: State) {
    forall i | 0 <= i < |s.flights| && s.flights[i].Raised? :: s.mode.Looping? ==> s.inFlight == Some(i)
  }

  ghost predicate LagRaisedIn(run: seq<Label>) {
    exists l | l in run :: l.LagRaises?
  }

  lemma RaisingStep(caps: Caps, u: State, l: Label)
    requires Inv(caps, u) && RaisedAwaits(u) && Enabled(caps, u, l) && !l.Crash?
    ensures RaisedAwaits(Step(caps, u, l))
    ensures SomeRaised(Step(caps, u, l)) <==> SomeRaised(u) || l.LagRaises?
  {
    if l.LagRaises? {
      assert u.inFlight == Some(l.i) && Step(caps, u, l).flights[l.i].Raised?;
    } else {
      SameRaised(caps, u, l);
      StillAwaited(caps, u, l);
    }
  }

  lemma SameRaised(caps: Caps, u: State, l: Label)
    requires Inv(caps, u) && Enabled(caps, u, l) && !l.Crash? && !l.LagRaises?
    ensures SomeRaised(Step(caps, u, l)) <==> SomeRaised(u)
  {
    if i :| 0 <= i < |u.flights| && u.flights[i].Raised? {
      DoneStaysDone(caps, u, l, i);
      assert Step(caps, u, l).flights[i].Raised?;
    }
  }

  lemma StillAwaited(caps: Caps, u: State, l: Label)
    requires RaisedAwaits(u) && Enabled(caps, u, l) && !l.Crash? && !l.LagRaises?
    ensures RaisedAwaits(Step(caps, u, l))
  {
  }

  /** In the life of a process a flush task raises exactly if reading the lag after a successful commit
      failed; and then, as long as the loop runs, waiting for the task raises in the entity's next turn. */
  lemma {:induction false} TasksRaiseExactlyAtLag(caps: Caps, s: State, run: seq<Label>)
    requires Inv(caps, s) && !SomeRaised(s)
    requires Exec(caps, s, run).Some? && Crash !in run
    ensures var t := Exec(caps, s, run).value;
            && (SomeRaised(t) <==> LagRaisedIn(run))
            && (t.mode.Looping? ==> (Enabled(caps, t, FutureRaises) <==> LagRaisedIn(run)))
            && RaisedAwaits(t)
  {
    hide Inv, Step;
    if run != [] {
      var u := Exec(caps, s, Init(run)).value;
      InitLast(run);
      TasksRaiseExactlyAtLag(caps, s, Init(run));
      RunKeepsInv(caps, s, Init(run));
      RaisingStep(caps, u, Last(run));
      assert LagRaisedIn(run) <==> LagRaisedIn(Init(run)) || Last(run).LagRaises?;
    }
  }

  /** Any flush may end so: written and committed, and then raising. */
  lemma LagFailureRaises(caps: Caps, t: State, i: nat)
    requires Inv(caps, t) && t.mode.Looping? && t.Flying(i) && t.flights[i].Submitted?
    ensures var run := [Snapshot(i), WriteOk(i), CommitOk(i)] + [LagRaises(i)];
            Exec(caps, t, run).Some? && Enabled(caps, Exec(caps, t, run).value, FutureRaises)
  {
    SubmittedHasConsumer(caps, t, i);
    CommitsInThree(caps, t, i);
    ExecStep(caps, t, [Snapshot(i), WriteOk(i), CommitOk(i)], LagRaises(i));
  }

  /** A fresh process over one empty partition; after one message is produced, polled and buffered; and
      after the turn that finds it old enough to flush. */
  const START := State([[]], [0], {}, [], None, FRESH, [], None, Looping)

  function Buffered(row: Row): State {
    State([[Change(row)]], [0], {}, [], Some([1]), Buffer([Entry(0, 0)], Some(0.0), 0, 0), [], None, Looping)
  }

  function Due(row: Row): State {
    Buffered(row).(buffer := Buffer([Entry(0, 0)], Some(0.0), 1, 0), flights := [Submitted], inFlight := Some(0))
  }

  function BufferOne(row: Row): seq<Label> {
    [Produce(0, Change(row)), Turn([Entry(0, 0)], 0.0, 0.0)]
  }

  lemma OneIsBuffered(caps: Caps, row: Row)
    requires caps.Valid() && caps.maxBatch > 1
    ensures Exec(caps, START, BufferOne(row)) == Some(Buffered(row))
  {
    var s1 := START.(log := [[Change(row)]]);
    OneIsProduced(caps, row, s1);
    OneIsPolled(caps, row, s1);
    hide Enabled, Step;
    assert Exec(caps, START, []) == Some(START);
    ExecTwoSteps(caps, START, [], BufferOne(row)[0], s1, BufferOne(row)[1], Buffered(row));
    assert [] + BufferOne(row) == BufferOne(row);
  }

  lemma OneIsProduced(caps: Caps, row: Row, s1: State)
    requires s1 == START.(log := [[Change(row)]])
    ensures Next(caps, START, Produce(0, Change(row)), s1)
  {
    assert START.log[0 := START.log[0] + [Change(row)]] == s1.log by {
      assert START.log[0] + [Change(row)] == [Change(row)];
    }
  }

  lemma OneIsPolled(caps: Caps, row: Row, s1: State)
    requires caps.Valid() && caps.maxBatch > 1
    requires s1 == START.(log := [[Change(row)]])
    ensures Next(caps, s1, Turn([Entry(0, 0)], 0.0, 0.0), Buffered(row))
  {
    var e := Entry(0, 0);
    assert [e][1..] == [] && [0][0 := 1] == [1];
    assert Kept(s1.log, [e]) == [e] + Kept(s1.log, []);
    assert CanFetch(s1.log, [0], [1], []);
    assert Fetched([0], [e]) == Fetched([1], []);
    assert [] + [e] == [e];
  }

  lemma OneIsDue(caps: Caps, row: Row)
    requires caps.Valid() && caps.maxBatch > 1
    ensures Next(caps, Buffered(row), Turn([], 300.0, 300.0), Due(row))
  {
    assert Buffered(row).flights + [Submitted] == Due(row).flights;
  }

  /** It happens: one message, buffered until it is old enough, is flushed, and reading the lag fails. */
  lemma LoopCanRaise(caps: Caps, row: Row)
    requires caps.Valid() && caps.maxBatch > 1
    ensures exists t :: Reachable(caps, t) && Enabled(caps, t, FutureRaises)
  {
    hide Enabled, Step, Exec;
    OneIsBuffered(caps, row);
    OneIsDue(caps, row);
    var turn := Turn([], 300.0, 300.0);
    ExecStep(caps, START, BufferOne(row), turn);
    InitialInv(caps, START);
    RunKeepsInv(caps, START, BufferOne(row) + [turn]);
    var last := [Snapshot(0), WriteOk(0), CommitOk(0)] + [LagRaises(0)];
    LagFailureRaises(caps, Due(row), 0);
    ExecConcat(caps, START, BufferOne(row) + [turn], last);
    var t := Exec(caps, Due(row), last).value;
    assert Initial(START) && Exec(caps, START, BufferOne(row) + [turn] + last) == Some(t);
    assert Reachable(caps, t);
  }

  // ---- Returning

  /** Worker steps a flush can still take. */
  function StepsLeft(f: Flight): nat {
    match f
    case Submitted => 5
    case Writing(_) => 4
    case Written(_) => 3
    case Committed(_) => 2
    case Lost => 2
    case Discarded => 1
    case Finished => 0
    case Raised => 0
  }

  function WorkerSteps(run: seq<Label>): nat {
    if run == [] then 0 else WorkerSteps(Init(run)) + if Last(run).FromWorker() then 1 else 0
  }

  function StepsLeftIn(s: State): nat {
    if s.inFlight.Some? && s.inFlight.value < |s.flights| then StepsLeft(s.flights[s.inFlight.value]) else 0
  }

  lemma OneInFlight(caps: Caps, u: State, i: nat)
    requires Inv(caps, u) && u.Flying(i)
    ensures u.inFlight == Some(i)
  {
  }

  lemma DrainingStep(caps: Caps, u: State, l: Label)
    requires Inv(caps, u) && u.mode.Draining? && Enabled(caps, u, l) && !l.Crash?
    ensures var v := Step(caps, u, l);
            && v.mode.Draining? && v.inFlight == u.inFlight && |v.flights| == |u.flights|
            && StepsLeftIn(v) <= StepsLeftIn(u) - (if l.FromWorker() then 1 else 0)
  {
    hide Inv;
    if l.FromWorker() {
      WorkerFlies(caps, u, l);
      OneInFlight(caps, u, l.i);
    }
  }

  /** A running flush can always go on. */
  lemma FlightNeverStuck(caps: Caps, s: State, i: nat)
    requires Inv(caps, s) && s.Flying(i)
    ensures exists l: Label :: l.FromWorker() && Enabled(caps, s, l)
  {
    assert FlightOk(s, s.flights[i]);
    var l :=
      match s.flights[i]
      case Submitted => Snapshot(i)
      case Writing(_) => WriteOk(i)
      case Written(_) => CommitOk(i)
      case Committed(_) => LagThenClear(i)
      case Lost => Discard(i)
      case Discarded => ClearLost(i)
      case Finished => LoopEnds
      case Raised => LoopEnds;
    assert l.FromWorker() && Enabled(caps, s, l);
  }

  /** Once the loop has ended, the pool has at most five more steps to take, and it has none left exactly
      when no flush is running: the wait in which the function returns always ends, and then nothing flies. */
  lemma {:induction false} DrainsToQuiescence(caps: Caps, s: State, run: seq<Label>)
    requires Inv(caps, s) && s.mode.Draining? && Exec(caps, s, run).Some? && Crash !in run
    ensures var t := Exec(caps, s, run).value;
            && t.mode.Draining?
            && WorkerSteps(run) + StepsLeftIn(t) <= StepsLeftIn(s) <= 5
            && ((forall l: Label | l.FromWorker() :: !Enabled(caps, t, l)) <==> (forall i :: !t.Flying(i)))
  {
    hide Inv, Step, Enabled;
    RunKeepsInv(caps, s, run);
    var t := Exec(caps, s, run).value;
    if run != [] {
      InitLast(run);
      DrainsToQuiescence(caps, s, Init(run));
      RunKeepsInv(caps, s, Init(run));
      DrainingStep(caps, Exec(caps, s, Init(run)).value, Last(run));
    }
    if i :| t.Flying(i) {
      FlightNeverStuck(caps, t, i);
    }
    forall l: Label | l.FromWorker() && Enabled(caps, t, l)
      ensures t.Flying(l.i)
    {
      WorkerFlies(caps, t, l);
    }
  }

  lemma WorkerFlies(caps: Caps, t: State, l: Label)
    requires l.FromWorker() && Enabled(caps, t, l)
    ensures t.Flying(l.i)
  {
  }

  /** Quiescent is not flushed: a buffer that was not due when the loop ended stays where it is, and what
      it holds is in no table. */
  lemma QuiescentNotFlushed(caps: Caps, row: Row)
    requires caps.Valid() && caps.maxBatch > 1
    ensures exists t :: Reachable(caps, t) && t.mode.Draining? && (forall i :: !t.Flying(i)) && t.buffer.records != [] && t.table == []
  {
    OneIsBuffered(caps, row);
    ExecStep(caps, START, BufferOne(row), LoopEnds);
    var t := Buffered(row).(mode := Draining);
    assert Initial(START) && Exec(caps, START, BufferOne(row) + [LoopEnds]) == Some(t);
    assert Reachable(caps, t);
  }

  ghost predicate ClearedIn(run: seq<Label>) {
    exists l | l in run :: l.LagThenClear? || l.ClearLost?
  }

  lemma DrainingBuffer(caps: Caps, u: State, l: Label)
    requires Inv(caps, u) && u.mode.Draining? && Enabled(caps, u, l) && !l.Crash?
    ensures Step(caps, u, l).buffer.records == if l.LagThenClear? || l.ClearLost? then [] else u.buffer.records
    ensures l.LagThenClear? || l.ClearLost? ==> l.FromWorker()
  {
  }

  /** The function returns with an empty buffer exactly if it was empty when the loop ended, or the flush
      still running then cleared it; without such a flush it returns with the buffer as it is. */
  lemma {:induction false} ReturnsFlushedIff(caps: Caps, s: State, run: seq<Label>)
    requires Inv(caps, s) && s.mode.Draining? && Exec(caps, s, run).Some? && Crash !in run
    ensures var t := Exec(caps, s, run).value;
            && (t.buffer.records == [] <==> s.buffer.records == [] || ClearedIn(run))
            && (StepsLeftIn(s) == 0 ==> !ClearedIn(run) && t.buffer.records == s.buffer.records)
  {
    hide Inv, Step, Enabled, StepsLeftIn;
    if run != [] {
      InitLast(run);
      ReturnsFlushedIff(caps, s, Init(run));
      RunKeepsInv(caps, s, Init(run));
      DrainsToQuiescence(caps, s, Init(run));
      DrainsToQuiescence(caps, s, run);
      DrainingBuffer(caps, Exec(caps, s, Init(run)).value, Last(run));
      assert ClearedIn(run) <==> ClearedIn(Init(run)) || Last(run).LagThenClear? || Last(run).ClearLost?;
    }
  }

  /** With an empty buffer everything read has landed. */
  lemma EmptyBufferIsFlushed(caps: Caps, t: State)
    requires caps.Valid() && Reachable(caps, t) && !t.mode.Broken? && t.buffer.records == []
    ensures Covers(t.log, t.table, t.Position())
  {
    ReachableInv(caps, t);
    assert Landing(t) == t.table;
  }

  // ---- Buffer rules

  /** Every reachable buffer is bounded, open exactly while non-empty, never idle when full, and
      has skipped at most four polls in a row. */
  lemma BufferRules(caps: Caps, t: State)
    requires caps.Valid() && Reachable(caps, t)
    ensures |t.buffer.records| <= caps.maxBatch
    ensures t.buffer.records == [] <==> t.buffer.openedAt.None?
    ensures |t.buffer.records| == caps.maxBatch ==> t.buffer.emptyPolls == 0
    ensures t.buffer.roundsSincePoll <= 4
  {
    ReachableInv(caps, t);
  }

  /** A turn that leaves the buffer full leaves a flush running for it. */
  lemma FullBufferIsFlushed(caps: Caps, s: State, batch: seq<Entry>, openAt: real, dueAt: real)
    requires Inv(caps, s) && Enabled(caps, s, Turn(batch, openAt, dueAt))
    ensures var t := Step(caps, s, Turn(batch, openAt, dueAt));
            |t.buffer.records| == caps.maxBatch ==> t.inFlight.Some? && t.Flying(t.inFlight.value)
  {
    FetchPartitions(s, batch);
  }

  function Turns(run: seq<Label>): nat {
    if run == [] then 0 else Turns(Init(run)) + if Last(run).Turn? then 1 else 0
  }

  /** Every turn of the run skipped its poll by the idle rule. */
  ghost predicate OnlyIdleTurns(caps: Caps, s: State, run: seq<Label>)
    requires Exec(caps, s, run).Some?
  {
    run == [] ||
    (OnlyIdleTurns(caps, s, Init(run)) && (Last(run).Turn? ==> Exec(caps, s, Init(run)).value.buffer.SkipsPoll()))
  }

  lemma RoundsStep(caps: Caps, u: State, l: Label)
    requires Enabled(caps, u, l) && !l.Crash? && (l.Turn? ==> u.buffer.SkipsPoll())
    ensures var v := Step(caps, u, l);
            v.mode.Looping? ==>
              u.mode.Looping? && v.buffer.roundsSincePoll == u.buffer.roundsSincePoll + (if l.Turn? then 1 else 0)
  {
  }

  /** However the run is interleaved, at most four turns in a row are idle skips. */
  lemma {:induction false} AtMostFourIdleTurns(caps: Caps, s: State, run: seq<Label>)
    requires Exec(caps, s, run).Some? && forall l | l in run :: !l.Crash?
    requires OnlyIdleTurns(caps, s, run)
    ensures Turns(run) <= 4
    ensures Exec(caps, s, run).value.mode.Looping? ==>
              Exec(caps, s, run).value.buffer.roundsSincePoll == s.buffer.roundsSincePoll + Turns(run)
  {
    if run != [] {
      InitLast(run);
      AtMostFourIdleTurns(caps, s, Init(run));
      RoundsStep(caps, Exec(caps, s, Init(run)).value, Last(run));
    }
  }

  // ---- How long a row waits

  lemma RowStays(caps: Caps, u: State, l: Label)
    requires Enabled(caps, u, l) && !l.ClearLost? && !l.LagThenClear? && !l.Crash?
    requires u.buffer.openedAt.Some?
    ensures var v := Step(caps, u, l);
            u.buffer.records <= v.buffer.records && v.buffer.openedAt == u.buffer.openedAt
  {
    hide Kept, CanFetch, Fetched;
  }

  /** As long as nothing clears it, a buffer keeps its rows and the moment its first one came. */
  lemma {:induction false} RowsStay(caps: Caps, s: State, run: seq<Label>)
    requires s.buffer.openedAt.Some?
    requires Exec(caps, s, run).Some? && forall l | l in run :: !l.ClearLost? && !l.LagThenClear? && !l.Crash?
    ensures var t := Exec(caps, s, run).value;
            s.buffer.records <= t.buffer.records && t.buffer.openedAt == s.buffer.openedAt
  {
    hide Enabled, Step;
    if run != [] {
      InitLast(run);
      RowsStay(caps, s, Init(run));
      RowStays(caps, Exec(caps, s, Init(run)).value, Last(run));
    }
  }

  /** A turn submits a flush exactly if its buffer is full or holds a row that came at least 300 seconds
      before: however a run goes on, the first turn taken from then on has the row in a flush. */
  lemma OldRowsAreFlushed(caps: Caps, s: State, run: seq<Label>, batch: seq<Entry>, openAt: real, dueAt: real)
    requires Inv(caps, s) && s.buffer.records != []
    requires Exec(caps, s, run).Some? && forall l | l in run :: !l.ClearLost? && !l.LagThenClear? && !l.Crash?
    requires Enabled(caps, Exec(caps, s, run).value, Turn(batch, openAt, dueAt))
    ensures var t := Step(caps, Exec(caps, s, run).value, Turn(batch, openAt, dueAt));
            && s.buffer.openedAt.Some? && s.buffer.records <= t.buffer.records
            && (t.inFlight.Some? <==> |t.buffer.records| >= caps.maxBatch || dueAt >= s.buffer.openedAt.value + 300.0)
            && (t.inFlight.Some? ==> t.Flying(t.inFlight.value) && t.flights[t.inFlight.value].Submitted?)
  {
    hide Kept, CanFetch, Fetched, Exec, GapFree, Offsets;
    RowsStay(caps, s, run);
    var u := Exec(caps, s, run).value;
    RowStays(caps, u, Turn(batch, openAt, dueAt));
  }

  // ---- The assignment-loss deadlock

  /** As long as nothing clears it, a full buffer stays full and its entity never polls again:
      retrying the flush alone cannot reach the poll that a rejoin needs. */
  lemma {:induction false} FullBufferNeverPolls(caps: Caps, s: State, run: seq<Label>)
    requires Inv(caps, s) && |s.buffer.records| == caps.maxBatch
    requires Exec(caps, s, run).Some? && forall l | l in run :: !l.ClearLost? && !l.LagThenClear? && !l.Crash?
    ensures var t := Exec(caps, s, run).value;
            |t.buffer.records| == caps.maxBatch && !t.buffer.Polls(caps)
  {
    if run != [] {
      InitLast(run);
      FullBufferNeverPolls(caps, s, Init(run));
      RunKeepsInv(caps, s, Init(run));
      FetchPartitions(Exec(caps, s, Init(run)).value, if Last(run).Turn? then Last(run).batch else []);
    }
  }

  /** Recovery reopens the gate: after the consumer is discarded and the full buffer cleared, the
      next turn polls, from the offsets committed by then. */
  lemma RecoveryReopensPolling(caps: Caps, s: State, i: nat)
    requires Inv(caps, s) && s.Flying(i) && s.flights[i].Lost? && s.mode.Looping?
    requires |s.buffer.records| == caps.maxBatch
    ensures Exec(caps, s, [Discard(i), ClearLost(i)]).Some?
    ensures var t := Exec(caps, s, [Discard(i), ClearLost(i)]).value;
            && t.MayTurn() && t.buffer.Polls(caps) && t.Position() == t.committed
            && forall e | e in s.buffer.records :: e in t.table
  {
    assert Init([Discard(i), ClearLost(i)]) == [Discard(i)] && Init([Discard(i)]) == [];
    assert Exec(caps, s, []) == Some(s);
    assert Exec(caps, s, [Discard(i)]) == Some(Step(caps, s, Discard(i)));
    assert FlightOk(s, s.flights[i]) && s.inFlight == Some(i);
  }
}
