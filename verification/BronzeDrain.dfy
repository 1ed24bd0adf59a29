/** How long a backlog can last: the round-robin turn, with its idle rule and its full-buffer gate,
    reads everything that is waiting within a bounded number of rounds. */
module BronzeDrain {
  import opened Common
  import opened BronzeLog
  import opened EntityTurn
  import opened BronzeProtocol
  import opened BronzeSafety
  import opened KafkaProvider

  /** Messages not yet read. */
  function Backlog(topic: Topic, position: BronzeLog.Offsets): int
    requires |position| == |topic|
  {
    if topic == [] then 0 else Backlog(Init(topic), Init(position)) + |Last(topic)| - Last(position)
  }

  function Unread(s: State): int
    requires |s.Position()| == |s.log|
  {
    Backlog(s.log, s.Position())
  }

  /** The poll reads on from the position, with no rebalance in between. */
  predicate InSequence(position: BronzeLog.Offsets, batch: seq<Entry>)
    decreases |batch|
  {
    batch == [] ||
    (batch[0].partition < |position| && batch[0].offset == position[batch[0].partition] &&
     InSequence(position[batch[0].partition := batch[0].offset + 1], batch[1..]))
  }

  datatype Choice = Choice(batch: seq<Entry>, openAt: real, dueAt: real)

  /** A turn that is possible, reads in sequence, and returns a message whenever it polls with one waiting. */
  ghost predicate Eager(caps: Caps, s: State, c: Choice) {
    && Enabled(caps, s, Turn(c.batch, c.openAt, c.dueAt))
    && InSequence(s.Position(), c.batch)
    && (s.buffer.Polls(caps) && |s.Position()| == |s.log| && Unread(s) > 0 ==> c.batch != [])
  }

  /** A flush that succeeds. */
  function FlushRun(i: nat): seq<Label> {
    [Snapshot(i), WriteOk(i), CommitOk(i), LagThenClear(i)]
  }

  /** One round of the entity: a turn, and the flush it may have submitted, run to success. */
  function RoundRun(s: State, due: bool, c: Choice): seq<Label> {
    [Turn(c.batch, c.openAt, c.dueAt)] + if due then FlushRun(|s.flights|) else []
  }

  /** The state a round ends in. */
  ghost function AfterRound(caps: Caps, s: State, c: Choice): State
    requires Enabled(caps, s, Turn(c.batch, c.openAt, c.dueAt))
  {
    var t := Step(caps, s, Turn(c.batch, c.openAt, c.dueAt));
    if t.inFlight.Some? then AfterFlush(t, |s.flights|) else t
  }

  function AfterFlush(t: State, i: nat): State
    requires i < |t.flights|
  {
    t.(flights := t.flights[i := Finished], table := t.table + t.buffer.records,
       committed := t.Position(), buffer := t.buffer.Cleared())
  }

  lemma FlushClears(caps: Caps, t: State, i: nat)
    requires i < |t.flights| && t.flights[i].Committed?
    ensures Next(caps, t, LagThenClear(i), Fly(t, i, Finished).(buffer := t.buffer.Cleared()))
  {
  }

  /** A submitted flush can run to success, and then has landed and committed what it was given. */
  lemma FlushSucceeds(caps: Caps, t: State, i: nat)
    requires i < |t.flights| && t.flights[i].Submitted? && t.consumer.Some? && |t.consumer.value| == |t.committed|
    ensures Exec(caps, t, FlushRun(i)) == Some(AfterFlush(t, i))
  {
    hide Enabled, Step, Exec;
    CommitsInThree(caps, t, i);
    var t3 := Fly(t, i, Committed(t.buffer.records)).(table := t.table + t.buffer.records, committed := t.consumer.value);
    FlushClears(caps, t3, i);
    ExecStep(caps, t, [Snapshot(i), WriteOk(i), CommitOk(i)], LagThenClear(i));
    assert Fly(t3, i, Finished).flights == t.flights[i := Finished];
    assert [Snapshot(i), WriteOk(i), CommitOk(i)] + [LagThenClear(i)] == FlushRun(i);
  }

  /** The round is a run of the protocol and ends ready for the next turn. */
  lemma RoundIsRun(caps: Caps, s: State, c: Choice)
    requires Inv(caps, s) && Enabled(caps, s, Turn(c.batch, c.openAt, c.dueAt))
    ensures var t := Step(caps, s, Turn(c.batch, c.openAt, c.dueAt));
            Exec(caps, s, RoundRun(s, t.inFlight.Some?, c)) == Some(AfterRound(caps, s, c))
    ensures Inv(caps, AfterRound(caps, s, c)) && AfterRound(caps, s, c).MayTurn()
  {
    hide CanFetch, Fetched, Kept, GapFree, CoversPartition;
    var turn := Turn(c.batch, c.openAt, c.dueAt);
    var t := Step(caps, s, turn);
    assert Exec(caps, s, []) == Some(s);
    ExecStep(caps, s, [], turn);
    assert [] + [turn] == [turn];
    StepKeepsInv(caps, s, turn);
    if t.inFlight.Some? {
      FetchPartitions(s, c.batch);
      assert t.inFlight == Some(|s.flights|) && FlightOk(t, t.flights[|s.flights|]);
      FlushSucceeds(caps, t, |s.flights|);
      ExecConcat(caps, s, [turn], FlushRun(|s.flights|));
    } else {
      assert RoundRun(s, false, c) == [turn];
    }
    RunKeepsInv(caps, s, RoundRun(s, t.inFlight.Some?, c));
  }

  // ---- The bound

  /** Rounds the entity may still lose before it must read: idle skips, or one turn to flush a full buffer. */
  function Delay(caps: Caps, b: Buffer): int {
    if b.SkipsPoll() then IDLE_POLL_EVERY_N_ROUNDS - 1 - b.roundsSincePoll
    else if b.Room(caps) <= 0 then 1
    else 0
  }

  lemma {:induction false} BacklogMoves(topic: Topic, position: BronzeLog.Offsets, p: nat, o: nat)
    requires |position| == |topic| && p < |topic|
    ensures Backlog(topic, position[p := o]) == Backlog(topic, position) + position[p] - o
  {
    var moved := position[p := o];
    if p == |topic| - 1 {
      assert Init(moved) == Init(position);
    } else {
      assert Init(moved) == Init(position)[p := o];
      BacklogMoves(Init(topic), Init(position), p, o);
    }
  }

  lemma {:induction false} PollReducesBacklog(topic: Topic, position: BronzeLog.Offsets, batch: seq<Entry>)
    requires |position| == |topic| && InSequence(position, batch)
    requires forall e | e in batch :: e.partition < |position|
    ensures Backlog(topic, Fetched(position, batch)) == Backlog(topic, position) - |batch|
    decreases |batch|
  {
    if batch != [] {
      var e := batch[0];
      BacklogMoves(topic, position, e.partition, e.offset + 1);
      PollReducesBacklog(topic, position[e.partition := e.offset + 1], batch[1..]);
    }
  }

  lemma {:induction false} BacklogIsNat(topic: Topic, position: BronzeLog.Offsets)
    requires |position| == |topic| && forall p | 0 <= p < |topic| :: position[p] <= |topic[p]|
    ensures Backlog(topic, position) >= 0
  {
    if topic != [] {
      assert forall p | 0 <= p < |Init(topic)| :: Init(position)[p] == position[p] && Init(topic)[p] == topic[p];
      BacklogIsNat(Init(topic), Init(position));
    }
  }

  lemma UnreadIsNat(caps: Caps, s: State)
    requires Inv(caps, s) && s.mode.Looping?
    ensures |s.Position()| == |s.log| && Unread(s) >= 0
  {
    CoverGrows(s.log, s.table, Landing(s), s.committed);
    forall p | 0 <= p < |s.log|
      ensures s.Position()[p] <= |s.log[p]|
    {
      assert CoversPartition(s.log, Landing(s), s.Position(), p);
    }
    BacklogIsNat(s.log, s.Position());
  }

  /** What an eager round does to position and buffer. */
  lemma RoundEffect(caps: Caps, s: State, c: Choice)
    requires Inv(caps, s) && s.mode.Looping? && Eager(caps, s, c)
    ensures var t := AfterRound(caps, s, c);
            && t.mode.Looping? && t.log == s.log && |t.Position()| == |s.Position()| == |s.log|
            && Unread(t) == Unread(s) - (if s.buffer.Polls(caps) then |c.batch| else 0)
            && |t.buffer.records| < caps.maxBatch
            && t.buffer.emptyPolls == s.buffer.AfterPoll(s.log, caps, c.batch, c.openAt).emptyPolls
            && t.buffer.roundsSincePoll == s.buffer.AfterPoll(s.log, caps, c.batch, c.openAt).roundsSincePoll
  {
    UnreadIsNat(caps, s);
    FetchPartitions(s, c.batch);
    StepKeepsInv(caps, s, Turn(c.batch, c.openAt, c.dueAt));
    if s.buffer.Polls(caps) {
      PollReducesBacklog(s.log, s.Position(), c.batch);
    }
  }

  /** While something is unread, every eager round reads some of it or uses up delay. */
  lemma RoundProgress(caps: Caps, s: State, c: Choice)
    requires Inv(caps, s) && s.mode.Looping? && Eager(caps, s, c)
    ensures var t := AfterRound(caps, s, c);
            && |t.Position()| == |t.log| && |s.Position()| == |s.log| && t.mode.Looping?
            && 0 <= Unread(t) <= Unread(s)
            && (Unread(s) > 0 ==> Unread(t) + Delay(caps, t.buffer) < Unread(s) + Delay(caps, s.buffer) || Unread(t) == 0)
  {
    RoundEffect(caps, s, c);
    RoundIsRun(caps, s, c);
    UnreadIsNat(caps, AfterRound(caps, s, c));
  }

  ghost predicate EagerRounds(caps: Caps, s: State, cs: seq<Choice>)
    decreases |cs|
  {
    cs == [] || (Eager(caps, s, cs[0]) && EagerRounds(caps, AfterRound(caps, s, cs[0]), cs[1..]))
  }

  ghost function AfterRounds(caps: Caps, s: State, cs: seq<Choice>): State
    requires EagerRounds(caps, s, cs)
    decreases |cs|
  {
    if cs == [] then s else AfterRounds(caps, AfterRound(caps, s, cs[0]), cs[1..])
  }

  lemma {:induction false} Drains(caps: Caps, s: State, cs: seq<Choice>)
    requires Inv(caps, s) && s.mode.Looping? && EagerRounds(caps, s, cs)
    requires |s.Position()| == |s.log|
    requires Unread(s) == 0 || |cs| >= Unread(s) + Delay(caps, s.buffer)
    ensures var t := AfterRounds(caps, s, cs); |t.Position()| == |t.log| && Unread(t) == 0
    decreases |cs|
  {
    UnreadIsNat(caps, s);
    if cs != [] {
      RoundProgress(caps, s, cs[0]);
      RoundIsRun(caps, s, cs[0]);
      Drains(caps, AfterRound(caps, s, cs[0]), cs[1..]);
    }
  }

  /** From any reachable state ready for a turn, idle or not, a backlog of n messages is read within n + 4 rounds. */
  lemma BacklogIsReadInTime(caps: Caps, s: State, cs: seq<Choice>)
    requires caps.Valid() && Reachable(caps, s) && s.mode.Looping? && EagerRounds(caps, s, cs)
    requires |s.Position()| == |s.log| && |cs| >= Unread(s) + 4
    ensures var t := AfterRounds(caps, s, cs); |t.Position()| == |t.log| && Unread(t) == 0
  {
    ReachableInv(caps, s);
    Drains(caps, s, cs);
  }

  lemma {:induction false} SomePartitionWaits(topic: Topic, position: BronzeLog.Offsets) returns (p: nat)
    requires |position| == |topic| && Backlog(topic, position) > 0
    ensures p < |topic| && position[p] < |topic[p]|
  {
    if |Last(topic)| > Last(position) {
      p := |topic| - 1;
    } else {
      p := SomePartitionWaits(Init(topic), Init(position));
    }
  }

  /** There always is such a turn: a backlog can be read, one message at least. */
  lemma EagerTurnExists(caps: Caps, s: State, openAt: real, dueAt: real) returns (c: Choice)
    requires Inv(caps, s) && s.MayTurn()
    ensures Eager(caps, s, c)
  {
    UnreadIsNat(caps, s);
    c := Choice([], openAt, dueAt);
    if s.buffer.Polls(caps) && Unread(s) > 0 {
      var p := SomePartitionWaits(s.log, s.Position());
      var e := Entry(p, s.Position()[p]);
      c := Choice([e], openAt, dueAt);
      assert [e][1..] == [] && [e][0] == e;
      assert CanFetch(s.log, s.committed, s.Position()[p := e.offset + 1], []);
      assert InSequence(s.Position()[p := e.offset + 1], []);
    }
  }

  /** When every partition is assigned, the lag the provider reports is the backlog; a partition with no position
      yet will be read from its low watermark. */
  lemma {:induction false} LagIsBacklog(topic: Topic, position: BronzeLog.Offsets, reports: seq<Report>)
    requires |reports| == |position| == |topic|
    requires forall p | 0 <= p < |topic| :: position[p] <= |topic[p]|
    requires forall p | 0 <= p < |topic| ::
               reports[p].high == |topic[p]| && position[p] == if reports[p].position >= 0 then reports[p].position else reports[p].low
    ensures Lag(reports) == Backlog(topic, position)
  {
    if topic != [] {
      assert forall p | 0 <= p < |Init(topic)| ::
          Init(topic)[p] == topic[p] && Init(position)[p] == position[p] && Init(reports)[p] == reports[p];
      LagIsBacklog(Init(topic), Init(position), Init(reports));
    }
  }
}
