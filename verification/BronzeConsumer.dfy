/** The Bronze Consumer's own code for one entity: its buffer, its round-robin turn and its flush.
    Every call is proved to be a step, or a run of steps, of the protocol. */
module BronzeConsumer {
  import opened Common
  import opened BronzeLog
  import opened EntityTurn
  import opened BronzeProtocol
  import opened KafkaProvider

  const CONSUMER_GROUP_ID := "bronze-consumer"

  function TopicFor(entity: string): Key {
    ("marketplace.marketplace." + entity, CONSUMER_GROUP_ID)
  }

  class EntityBuffer {
    const maxBatchSize: nat
    var records: seq<Entry>
    var openedAt: Option<real>
    var consecutiveEmptyPolls: nat
    var roundsSinceLastPoll: nat

    constructor (maxBatchSize: nat)
      ensures this.maxBatchSize == maxBatchSize && Value() == FRESH
    {
      this.maxBatchSize := maxBatchSize;
      records, openedAt, consecutiveEmptyPolls, roundsSinceLastPoll := [], None, 0, 0;
    }

    function Value(): Buffer
      reads this
    {
      Buffer(records, openedAt, consecutiveEmptyPolls, roundsSinceLastPoll)
    }

    method Add(record: Entry, now: real)
      modifies this
      ensures Value() == old(Value()).Added([record], now)
    {
      if openedAt.None? {
        openedAt := Some(now);
      }
      records := records + [record];
    }

    method IsDue(now: real) returns (due: bool)
      ensures forall pollCap :: due == Value().Due(Caps(maxBatchSize, pollCap), now)
    {
      if |records| == 0 {
        return false;
      }
      if |records| >= maxBatchSize {
        return true;
      }
      return openedAt.Some? && now - openedAt.value >= MAX_BATCH_AGE_SECONDS;
    }

    method Clear()
      modifies this
      ensures Value() == old(Value()).Cleared()
    {
      records := [];
      openedAt := None;
    }
  }

  /** How the table answers an append; a failed one may still have landed. */
  datatype WriteReply = Appended | WriteRaised(landed: bool)

  /** What one flush meets on its way. */
  datatype FlushScript = FlushScript(buildOk: bool, write: WriteReply, commit: CommitReply, lagOk: bool)

  /** Without a resolved consumer the commit fails before it reaches the broker. */
  function CommitLabel(i: nat, reply: CommitReply, resolved: bool): Label {
    if !resolved then CommitFails(i, {}) else
    match reply
    case Returned => CommitOk(i)
    case Failed(lost, landed) => if lost then CommitLost(i, landed) else CommitFails(i, landed)
    case StillRunning => CommitTimesOut(i)
  }

  function LagLabel(i: nat, lagOk: bool): Label {
    if lagOk then LagThenClear(i) else LagRaises(i)
  }

  function WriteLabels(i: nat, script: FlushScript): seq<Label> {
    if !script.buildOk then [BuildFails(i)]
    else [Snapshot(i), if script.write.Appended? then WriteOk(i) else WriteFails(i, script.write.landed)]
  }

  /** The protocol steps a flush takes. */
  function FlushLabels(i: nat, script: FlushScript, resolved: bool): seq<Label> {
    if !script.buildOk || script.write.WriteRaised? then WriteLabels(i, script)
    else if !resolved then WriteLabels(i, script) + [CommitLabel(i, script.commit, resolved)]
    else WriteLabels(i, script) + [CommitLabel(i, script.commit, resolved)] + AfterCommitLabels(i, script)
  }

  function AfterCommitLabels(i: nat, script: FlushScript): seq<Label> {
    match script.commit
    case Returned => [LagLabel(i, script.lagOk)]
    case Failed(false, _) => []
    case _ => [Discard(i), ClearLost(i)]
  }

  // ---- What a flush leaves

  /** After the write half: whether it may go on, and what is in the table. */
  function AfterWrite(s: State, i: nat, script: FlushScript): State
    requires i < |s.flights|
  {
    var rows := s.buffer.records;
    if !script.buildOk then s.(flights := s.flights[i := Finished])
    else
      match script.write
      case Appended => s.(flights := s.flights[i := Written(rows)], table := s.table + rows)
      case WriteRaised(landed) => s.(flights := s.flights[i := Finished], table := if landed then s.table + rows else s.table)
  }

  /** The state a whole flush ends in. */
  function AfterCommit(s: State, i: nat, script: FlushScript): State
    requires i < |s.flights| && (s.consumer.Some? ==> |s.consumer.value| == |s.committed|)
  {
    var u := AfterWrite(s, i, script);
    var done := u.(flights := s.flights[i := Finished]);
    var lost := done.(consumer := None, buffer := s.buffer.Cleared());
    if !u.flights[i].Written? then u
    else if s.consumer.None? then done
    else
      match script.commit
      case Returned =>
        if script.lagOk then done.(committed := s.consumer.value, buffer := s.buffer.Cleared())
        else u.(flights := s.flights[i := Raised], committed := s.consumer.value)
      case Failed(assignmentLost, landed) =>
        (if assignmentLost then lost else done).(committed := Merge(s.committed, s.consumer.value, landed))
      case StillRunning => lost.(late := s.late + {s.consumer.value})
  }

  lemma WriteRuns(caps: Caps, s: State, i: nat, script: FlushScript)
    requires i < |s.flights| && s.flights[i].Submitted?
    ensures Exec(caps, s, WriteLabels(i, script)) == Some(AfterWrite(s, i, script))
  {
    assert Exec(caps, s, []) == Some(s);
    if !script.buildOk {
      ExecStep(caps, s, [], BuildFails(i));
      assert [] + [BuildFails(i)] == WriteLabels(i, script);
    } else {
      var l := if script.write.Appended? then WriteOk(i) else WriteFails(i, script.write.landed);
      var t := Fly(s, i, Writing(s.buffer.records));
      assert Fly(t, i, Written(s.buffer.records)).flights == s.flights[i := Written(s.buffer.records)];
      assert Fly(t, i, Finished).flights == s.flights[i := Finished];
      ExecTwoSteps(caps, s, [], Snapshot(i), t, l, AfterWrite(s, i, script));
      assert [] + [Snapshot(i), l] == WriteLabels(i, script);
    }
  }

  lemma MergeNothing(committed: Offsets)
    ensures Merge(committed, committed, {}) == committed
  {
  }

  /** The commit of a flush whose consumer is resolved, and the state it leaves. */
  lemma CommitStep(caps: Caps, u: State, i: nat, reply: CommitReply)
    requires i < |u.flights| && u.flights[i].Written? && u.consumer.Some? && |u.consumer.value| == |u.committed|
    ensures Next(caps, u, CommitLabel(i, reply, true),
              match reply
              case Returned => Fly(u, i, Committed(u.flights[i].rows)).(committed := u.consumer.value)
              case Failed(lost, landed) =>
                Fly(u, i, if lost then Lost else Finished).(committed := Merge(u.committed, u.consumer.value, landed))
              case StillRunning => Fly(u, i, Lost).(late := u.late + {u.consumer.value}))
  {
  }

  lemma LostSteps(caps: Caps, s: State, run: seq<Label>, v: State, i: nat)
    requires Exec(caps, s, run) == Some(v) && i < |v.flights| && v.flights[i].Lost?
    ensures Exec(caps, s, run + [Discard(i), ClearLost(i)]) ==
            Some(Fly(v, i, Finished).(consumer := None, buffer := v.buffer.Cleared()))
  {
    hide Exec;
    var w := Fly(v, i, Discarded).(consumer := None);
    assert Fly(w, i, Finished).flights == v.flights[i := Finished];
    ExecTwoSteps(caps, s, run, Discard(i), w, ClearLost(i), Fly(v, i, Finished).(consumer := None, buffer := v.buffer.Cleared()));
  }

  lemma LagSteps(caps: Caps, s: State, run: seq<Label>, v: State, i: nat, lagOk: bool)
    requires Exec(caps, s, run) == Some(v) && i < |v.flights| && v.flights[i].Committed?
    ensures Exec(caps, s, run + [LagLabel(i, lagOk)]) ==
            Some(if lagOk then Fly(v, i, Finished).(buffer := v.buffer.Cleared()) else Fly(v, i, Raised))
  {
    hide Exec;
    ExecStep(caps, s, run, LagLabel(i, lagOk));
  }

  lemma UnresolvedRuns(caps: Caps, s: State, i: nat, script: FlushScript, run: seq<Label>)
    requires i < |s.flights| && Exec(caps, s, run) == Some(AfterWrite(s, i, script)) && AfterWrite(s, i, script).flights[i].Written?
    requires s.consumer.None?
    ensures Exec(caps, s, run + [CommitLabel(i, script.commit, false)]) == Some(AfterCommit(s, i, script))
  {
    hide Exec;
    var u := AfterWrite(s, i, script);
    MergeNothing(s.committed);
    ExecStep(caps, s, run, CommitFails(i, {}));
    assert Fly(u, i, Finished).flights == s.flights[i := Finished];
  }

  /** After the commit a flush has at most two steps left. */
  lemma ResolvedRuns(caps: Caps, s: State, i: nat, script: FlushScript, run: seq<Label>)
    requires i < |s.flights| && Exec(caps, s, run) == Some(AfterWrite(s, i, script)) && AfterWrite(s, i, script).flights[i].Written?
    requires s.consumer.Some? && |s.consumer.value| == |s.committed|
    ensures Exec(caps, s, run + [CommitLabel(i, script.commit, true)] + AfterCommitLabels(i, script)) == Some(AfterCommit(s, i, script))
  {
    hide Exec, Step, Enabled;
    var u, l, t := AfterWrite(s, i, script), CommitLabel(i, script.commit, true), AfterCommit(s, i, script);
    ExecStepTo(caps, s, run, u, i, script.commit);
    var v := Exec(caps, s, run + [l]).value;
    assert run + [l] + [] == run + [l];
    assert v.flights[i := Finished] == s.flights[i := Finished] && v.flights[i := Raised] == s.flights[i := Raised];
    match script.commit {
      case Returned =>
        LagSteps(caps, s, run + [l], v, i, script.lagOk);
      case Failed(lost, _) =>
        if lost {
          LostSteps(caps, s, run + [l], v, i);
        } else {
          assert v.flights == s.flights[i := Finished];
        }
      case StillRunning =>
        LostSteps(caps, s, run + [l], v, i);
    }
  }

  lemma ExecStepTo(caps: Caps, s: State, run: seq<Label>, u: State, i: nat, reply: CommitReply)
    requires Exec(caps, s, run) == Some(u)
    requires i < |u.flights| && u.flights[i].Written? && u.consumer.Some? && |u.consumer.value| == |u.committed|
    ensures Exec(caps, s, run + [CommitLabel(i, reply, true)]) == Some(
              match reply
              case Returned => Fly(u, i, Committed(u.flights[i].rows)).(committed := u.consumer.value)
              case Failed(lost, landed) =>
                Fly(u, i, if lost then Lost else Finished).(committed := Merge(u.committed, u.consumer.value, landed))
              case StillRunning => Fly(u, i, Lost).(late := u.late + {u.consumer.value}))
  {
    hide Exec, Step, Enabled;
    CommitStep(caps, u, i, reply);
    ExecStep(caps, s, run, CommitLabel(i, reply, true));
  }

  lemma FlushRuns(caps: Caps, s: State, i: nat, script: FlushScript)
    requires i < |s.flights| && s.flights[i].Submitted? && (s.consumer.Some? ==> |s.consumer.value| == |s.committed|)
    ensures Exec(caps, s, FlushLabels(i, script, s.consumer.Some?)) == Some(AfterCommit(s, i, script))
  {
    hide Exec, Step, Enabled;
    WriteRuns(caps, s, i, script);
    if AfterWrite(s, i, script).flights[i].Written? {
      if s.consumer.Some? {
        ResolvedRuns(caps, s, i, script, WriteLabels(i, script));
      } else {
        UnresolvedRuns(caps, s, i, script, WriteLabels(i, script));
      }
    }
  }

  /** What a flush leaves: the buffer is empty exactly if the commit succeeded and the lag was read, or the
      commit found a consumer that cannot be trusted any more; that one is gone. Whenever the buffer is emptied
      its rows were appended. After any other failure the buffer is as it was, for another try. */
  lemma FlushOutcome(caps: Caps, s: State, i: nat, script: FlushScript, t: State)
    requires i < |s.flights| && s.flights[i].Submitted? && (s.consumer.Some? ==> |s.consumer.value| == |s.committed|)
    requires Exec(caps, s, FlushLabels(i, script, s.consumer.Some?)) == Some(t)
    ensures var written := script.buildOk && script.write.Appended?;
            var tried := written && s.consumer.Some?;
            var committed := tried && script.commit.Returned?;
            var lost := tried && (script.commit == StillRunning || (script.commit.Failed? && script.commit.assignmentLost));
            && t.log == s.log && t.mode == s.mode && t.inFlight == s.inFlight
            && t.table == s.table + (if written || (script.buildOk && script.write.WriteRaised? && script.write.landed) then s.buffer.records else [])
            && t.buffer == (if (committed && script.lagOk) || lost then Buffer([], None, s.buffer.emptyPolls, s.buffer.roundsSincePoll) else s.buffer)
            && t.consumer == (if lost then None else s.consumer)
            && (committed ==> t.committed == s.consumer.value)
            && (tried && script.commit.Failed? ==>
                  && |t.committed| == |s.committed|
                  && forall p | 0 <= p < |s.committed| :: t.committed[p] == if p in script.commit.landed then s.consumer.value[p] else s.committed[p])
            && (!committed && !(tried && script.commit.Failed?) ==> t.committed == s.committed)
            && t.late == s.late + (if tried && script.commit == StillRunning then {s.consumer.value} else {})
            && t.flights == s.flights[i := if committed && !script.lagOk then Raised else Finished]
  {
    hide Exec, FlushLabels;
    FlushRuns(caps, s, i, script);
    assert s.table + [] == s.table;
  }

  /** What one poll takes from the queue: at most the room left. */
  function FirstOf(queue: seq<Polled>, room: int): seq<Polled> {
    queue[..Max(0, Min(room, |queue|))]
  }

  /** A polling turn takes exactly what the queue holds up to the room left, and raises exactly when an
      error event is among it; the times are those of this turn. */
  predicate HandsOut(caps: Caps, b: Buffer, queue: seq<Polled>, openAt: real, dueAt: real, l: Label) {
    match l
    case Turn(batch, at, until) =>
      && at == openAt && until == dueAt
      && (b.Polls(caps) ==> batch == Entries(FirstOf(queue, b.Room(caps))) && ErrorEvent !in FirstOf(queue, b.Room(caps)))
    case PollRaises(batch) =>
      batch == Entries(FirstOf(queue, b.Room(caps))) && ErrorEvent in FirstOf(queue, b.Room(caps))
    case _ => true
  }

  lemma {:induction false} RecordsOnly(batch: seq<Polled>)
    requires ErrorEvent !in batch
    ensures |Entries(batch)| == |batch|
  {
    if batch != [] {
      assert batch[0] in batch;
      RecordsOnly(batch[1..]);
    }
  }

  /** A turn leaves records in the queue only when it took as many as one poll may, or as many as filled the
      buffer; it asks for none only in the four rounds after a poll of an idle entity, or with a full buffer. */
  lemma TurnTakesWhatFits(caps: Caps, b: Buffer, queue: seq<Polled>, openAt: real, dueAt: real, l: Label)
    requires caps.Valid() && HandsOut(caps, b, queue, openAt, dueAt, l) && (l.Turn? || l.PollRaises?)
    requires |b.records| < caps.maxBatch && (b.emptyPolls < 3 || b.roundsSincePoll >= 4)
    ensures exists n: nat ::
              && n <= |queue| && n <= caps.pollCap && |b.records| + n <= caps.maxBatch
              && (n < |queue| ==> n == caps.pollCap || |b.records| + n == caps.maxBatch)
              && l.batch == Entries(queue[..n]) && (l.PollRaises? <==> ErrorEvent in queue[..n])
              && (l.Turn? ==> |l.batch| == n)
  {
    var n := Min(b.Room(caps), |queue|);
    assert FirstOf(queue, b.Room(caps)) == queue[..n];
    if l.Turn? {
      RecordsOnly(queue[..n]);
    }
  }

  /** What run_bronze_consumer holds for one entity, next to the broker and the table it works on. */
  class EntityConsumer {
    const caps: Caps
    const key: Key
    const provider: KafkaMessagingProvider
    const broker: Broker
    const buffer: EntityBuffer
    var table: seq<Entry>
    var flights: seq<Flight>
    var inFlight: Option<nat>
    var mode: Mode

    ghost predicate Valid()
    {
      caps.Valid() && buffer.maxBatchSize == caps.maxBatch
    }

    function State(): BronzeProtocol.State
      reads this, provider, broker, buffer
    {
      BronzeProtocol.State(
        broker.log, broker.committed, broker.late, table,
        if key in provider.consumers then Some(provider.consumers[key]) else None,
        buffer.Value(), flights, inFlight, mode)
    }

    /** A process starts over whatever broker and table hold: the state a crash leaves. */
    constructor (entity: string, provider: KafkaMessagingProvider, broker: Broker, table: seq<Entry>)
      requires TopicFor(entity) !in provider.consumers
      ensures Valid() && this.provider == provider && this.broker == broker && this.table == table
      ensures State() == Restarted(State())
      ensures broker.Untouched() && table == [] ==> Initial(State())
      ensures key == ("marketplace.marketplace." + entity, "bronze-consumer") && fresh(buffer)
      ensures caps == CapsFor(entity)
    {
      caps := CapsFor(entity);
      key := TopicFor(entity);
      this.provider := provider;
      this.broker := broker;
      buffer := new EntityBuffer(CapsFor(entity).maxBatch);
      this.table := table;
      flights, inFlight, mode := [], None, Looping;
    }

    /** Decode one message and buffer its row; anything else is dropped. */
    method BufferMessage(message: Entry, now: real)
      requires InTopic(broker.log, message)
      modifies buffer
      ensures buffer.Value() ==
              if Decodable(broker.log, message) then old(buffer.Value()).Added([message], now) else old(buffer.Value())
    {
      match broker.log[message.partition][message.offset] {
        case Malformed =>
        case NoRecord =>
        case Change(_) => buffer.Add(message, now);
      }
    }

    method BufferMessages(messages: seq<Entry>, now: real)
      requires forall e | e in messages :: InTopic(broker.log, e)
      modifies buffer
      ensures buffer.Value() == old(buffer.Value()).Added(Kept(broker.log, messages), now)
    {
      var i := 0;
      while i < |messages|
        invariant 0 <= i <= |messages|
        invariant buffer.Value() == old(buffer.Value()).Added(Kept(broker.log, messages[..i]), now)
      {
        KeptAppend(broker.log, messages[..i], messages[i]);
        assert messages[..i] + [messages[i]] == messages[..i + 1];
        BufferMessage(messages[i], now);
        i := i + 1;
      }
      assert messages[..i] == messages;
    }

    /** The poll of a turn: skipped by the idle rule, skipped for a full buffer, or capped at the room
        left. None when the provider raised. */
    method Poll(queue: seq<Polled>, openAt: real) returns (batch: seq<Entry>, raised: bool)
      requires Valid()
      requires CanFetch(broker.log, broker.committed, State().Position(), Entries(queue))
      modifies buffer, provider
      ensures old(buffer.Value()).Polls(caps) ==>
                && batch == Entries(FirstOf(queue, old(buffer.Value()).Room(caps)))
                && (raised <==> ErrorEvent in FirstOf(queue, old(buffer.Value()).Room(caps)))
                && |batch| <= old(buffer.Value()).Room(caps)
                && CanFetch(broker.log, broker.committed, old(State()).Position(), batch)
                && (forall e | e in batch :: e.partition < |old(State()).Position()|)
                && provider.consumers == old(provider.consumers)[key := Fetched(old(State()).Position(), batch)]
      ensures !old(buffer.Value()).Polls(caps) ==> batch == [] && !raised && provider.consumers == old(provider.consumers)
      ensures provider.consumers - {key} == old(provider.consumers) - {key}
      ensures buffer.Value() == if raised then old(buffer.Value()).(roundsSincePoll := 0)
                                else old(buffer.Value()).AfterPoll(broker.log, caps, batch, openAt)
    {
      hide Entries, CanFetch, Fetched, Kept;
      batch, raised := [], false;
      var idle := buffer.consecutiveEmptyPolls >= IDLE_AFTER_EMPTY_POLLS;
      if idle && buffer.roundsSinceLastPoll < IDLE_POLL_EVERY_N_ROUNDS - 1 {
        buffer.roundsSinceLastPoll := buffer.roundsSinceLastPoll + 1;
        return;
      }
      buffer.roundsSinceLastPoll := 0;
      var remaining := Min(caps.maxBatch - |buffer.records|, caps.pollCap);
      if remaining > 0 {
        var messages := provider.ConsumeBatch(key, broker, remaining, queue);
        if messages.None? {
          return Entries(queue[..Min(remaining, |queue|)]), true;
        }
        batch := messages.value;
        FetchInTopic(broker.log, broker.committed, old(State()).Position(), batch);
        if |batch| > 0 {
          buffer.consecutiveEmptyPolls := 0;
          BufferMessages(batch, openAt);
        } else {
          buffer.consecutiveEmptyPolls := buffer.consecutiveEmptyPolls + 1;
        }
      }
    }

    /** One turn of the round-robin loop; queue is what the client has ready to hand out. */
    method TakeTurn(queue: seq<Polled>, openAt: real, dueAt: real) returns (l: Label)
      requires Valid() && mode.Looping?
      requires inFlight.Some? ==> inFlight.value < |flights|
      requires CanFetch(broker.log, broker.committed, State().Position(), Entries(queue))
      modifies this`flights, this`inFlight, this`mode, buffer, provider
      ensures l.FromLoop() && !l.LoopEnds?
      ensures HandsOut(caps, old(buffer.Value()), queue, openAt, dueAt, l)
      ensures Next(caps, old(State()), l, State())
      ensures provider.consumers - {key} == old(provider.consumers) - {key}
    {
      hide Entries, CanFetch, Fetched, Kept;
      ghost var s := State();
      if inFlight.Some? && !flights[inFlight.value].Done() {
        return SkipInFlight;
      }
      if inFlight.Some? {
        if flights[inFlight.value].Raised? {
          mode := Draining;
          return FutureRaises;
        }
        inFlight := None;
      }
      var batch, raised := Poll(queue, openAt);
      FetchPartitions(s, batch);
      if raised {
        mode := Broken;
        return PollRaises(batch);
      }
      var due := buffer.IsDue(dueAt);
      assert due == s.buffer.AfterPoll(s.log, caps, batch, openAt).Due(caps, dueAt) by {
        assert Caps(buffer.maxBatchSize, caps.pollCap) == caps;
      }
      if due {
        inFlight := Some(|flights|);
        flights := flights + [Submitted];
      }
      return Turn(batch, openAt, dueAt);
    }

    // ---- The flush task, step by step

    method BuildTable(i: nat, ok: bool) returns (l: Label)
      requires i < |flights| && flights[i].Submitted?
      modifies this`flights
      ensures l == (if ok then Snapshot(i) else BuildFails(i))
      ensures Next(caps, old(State()), l, State())
    {
      flights := flights[i := if ok then Writing(buffer.records) else Finished];
      return if ok then Snapshot(i) else BuildFails(i);
    }

    method WriteTable(i: nat, reply: WriteReply) returns (l: Label)
      requires i < |flights| && flights[i].Writing?
      modifies this`flights, this`table
      ensures l == (if reply.Appended? then WriteOk(i) else WriteFails(i, reply.landed))
      ensures Next(caps, old(State()), l, State())
    {
      var rows := flights[i].rows;
      if reply.Appended? || reply.landed {
        table := table + rows;
      }
      flights := flights[i := if reply.Appended? then Written(rows) else Finished];
      return if reply.Appended? then WriteOk(i) else WriteFails(i, reply.landed);
    }

    method Commit(i: nat, reply: CommitReply) returns (error: Option<FlushError>, l: Label)
      requires i < |flights| && flights[i].Written?
      requires key in provider.consumers ==> |provider.consumers[key]| == |broker.committed|
      modifies this`flights, broker
      ensures l == CommitLabel(i, reply, key in provider.consumers)
      ensures error.None? <==> key in provider.consumers && reply.Returned?
      ensures error.Some? ==> (Unrecoverable(error.value) <==> l.CommitLost? || l.CommitTimesOut?)
      ensures Next(caps, old(State()), l, State())
    {
      var r := provider.Commit(key, broker, reply);
      error := if r.Ok? then None else Some(r.error);
      flights := flights[i := if r.Ok? then Committed(flights[i].rows) else if Unrecoverable(r.error) then Lost else Finished];
      l := CommitLabel(i, reply, key in provider.consumers);
      assert Merge(old(broker.committed), old(broker.committed), {}) == old(broker.committed);
    }

    method DiscardConsumer(i: nat, error: FlushError) returns (recovered: bool)
      requires i < |flights| && (Unrecoverable(error) ==> flights[i].Lost?)
      modifies this`flights, provider
      ensures recovered == Unrecoverable(error)
      ensures recovered ==> Next(caps, old(State()), Discard(i), State())
      ensures !recovered ==> State() == old(State())
    {
      recovered := provider.RecoverFromLostAssignment(key, error);
      if recovered {
        flights := flights[i := Discarded];
      }
    }

    method ClearBuffer(i: nat, l: Label)
      requires i < |flights|
      requires (flights[i].Discarded? && l == ClearLost(i)) || (flights[i].Committed? && l == LagThenClear(i))
      modifies this`flights, buffer
      ensures Next(caps, old(State()), l, State())
    {
      buffer.Clear();
      flights := flights[i := Finished];
    }

    /** The write half of the flush. */
    method BuildAndWrite(i: nat, script: FlushScript) returns (written: bool)
      requires i < |flights| && flights[i].Submitted?
      modifies this`table, this`flights
      ensures |flights| == |old(flights)| && written == (script.buildOk && script.write.Appended?)
      ensures written ==> flights[i].Written?
      ensures Exec(caps, old(State()), WriteLabels(i, script)) == Some(State())
    {
      ghost var s := State();
      assert Exec(caps, s, []) == Some(s);
      var l0 := BuildTable(i, script.buildOk);
      ExecStep(caps, s, [], l0);
      written := false;
      if script.buildOk {
        var l1 := WriteTable(i, script.write);
        ExecStep(caps, s, [] + [l0], l1);
        assert [] + [l0] + [l1] == WriteLabels(i, script);
        written := script.write.Appended?;
      } else {
        assert [] + [l0] == WriteLabels(i, script);
      }
    }

    /** The flush task: write, commit, then clear; on an error, recover if the consumer is lost. */
    method Flush(i: nat, script: FlushScript)
      requires Valid() && i < |flights| && flights[i].Submitted?
      requires key in provider.consumers ==> |provider.consumers[key]| == |broker.committed|
      modifies this`table, this`flights, buffer, provider, broker
      ensures Exec(caps, old(State()), FlushLabels(i, script, key in old(provider.consumers))) == Some(State())
    {
      ghost var s := State();
      var error := WriteError;
      var written := BuildAndWrite(i, script);
      ghost var run := WriteLabels(i, script);
      if written {
        var failure, l := Commit(i, script.commit);
        ExecStep(caps, s, run, l);
        run := run + [l];
        if failure.None? {
          FinishCommitted(i, script.lagOk, s, run);
          return;
        }
        error := failure.value;
      }
      FinishFailed(i, error, s, run);
      assert run + [] == run;
    }

    /** After a failure: a lost consumer is discarded and the buffer cleared, otherwise both stay. */
    method FinishFailed(i: nat, error: FlushError, ghost s: BronzeProtocol.State, ghost run: seq<Label>)
      requires i < |flights| && (Unrecoverable(error) ==> flights[i].Lost?)
      requires Exec(caps, s, run) == Some(State())
      modifies this`flights, buffer, provider
      ensures Exec(caps, s, run + (if Unrecoverable(error) then [Discard(i), ClearLost(i)] else [])) == Some(State())
    {
      var recovered := DiscardConsumer(i, error);
      if recovered {
        ghost var t := State();
        ClearBuffer(i, ClearLost(i));
        ExecTwoSteps(caps, s, run, Discard(i), t, ClearLost(i), State());
      } else {
        assert run + [] == run;
      }
    }

    /** After a successful commit the lag is read outside the try block: a failure there leaves the
        buffer as it is and is raised again by the loop. */
    method FinishCommitted(i: nat, lagOk: bool, ghost s: BronzeProtocol.State, ghost run: seq<Label>)
      requires i < |flights| && flights[i].Committed?
      requires Exec(caps, s, run) == Some(State())
      modifies this`flights, buffer
      ensures Exec(caps, s, run + [LagLabel(i, lagOk)]) == Some(State())
    {
      ExecStep(caps, s, run, LagLabel(i, lagOk));
      if lagOk {
        ClearBuffer(i, LagThenClear(i));
      } else {
        flights := flights[i := Raised];
      }
    }
  }

  // ---- The round over all entities

  /** Entities share the provider, each with its own topic, buffer and broker state. */
  ghost predicate Separate(entities: seq<EntityConsumer>, provider: KafkaMessagingProvider) {
    && (forall i | 0 <= i < |entities| :: entities[i].provider == provider && entities[i].Valid())
    && (forall i, j | 0 <= i < j < |entities| ::
          entities[i] != entities[j] && entities[i].key != entities[j].key && entities[i].buffer != entities[j].buffer)
  }

  /** The entity can take its turn, with the queue its client holds. */
  ghost predicate Ready(e: EntityConsumer, queue: seq<Polled>)
    reads e, e.provider, e.broker, e.buffer
  {
    && e.mode.Looping?
    && (e.inFlight.Some? ==> e.inFlight.value < |e.flights|)
    && CanFetch(e.broker.log, e.broker.committed, e.State().Position(), Entries(queue))
  }

  predicate Raises(l: Label) {
    l.FutureRaises? || l.PollRaises?
  }

  /** One pass of the round-robin loop: every entity takes exactly one protocol step of its own,
      whatever the others do, up to the first turn that raises, which ends the loop. */
  method Round(entities: seq<EntityConsumer>, provider: KafkaMessagingProvider, queues: seq<seq<Polled>>,
               openAt: real, dueAt: real)
    returns (labels: seq<Label>)
    requires Separate(entities, provider) && |queues| == |entities|
    requires forall i | 0 <= i < |entities| :: Ready(entities[i], queues[i])
    modifies provider, set e | e in entities :: e, set e | e in entities :: e.buffer
    ensures |labels| <= |entities|
    ensures |labels| < |entities| ==> labels != [] && Raises(Last(labels))
    ensures forall i | 0 <= i < |labels| - 1 :: !Raises(labels[i])
    ensures forall i | 0 <= i < |labels| ::
              Next(entities[i].caps, old(entities[i].State()), labels[i], entities[i].State()) && labels[i].FromLoop()
    ensures forall i | 0 <= i < |labels| ::
              HandsOut(entities[i].caps, old(entities[i].buffer.Value()), queues[i], openAt, dueAt, labels[i])
    ensures forall i | |labels| <= i < |entities| :: entities[i].State() == old(entities[i].State())
  {
    hide HandsOut, Next, CanFetch;
    labels := [];
    var i := 0;
    while i < |entities|
      invariant 0 <= i <= |entities| && |labels| == i
      invariant forall j | 0 <= j < i ::
          && Next(entities[j].caps, old(entities[j].State()), labels[j], entities[j].State())
          && labels[j].FromLoop() && !Raises(labels[j])
          && HandsOut(entities[j].caps, old(entities[j].buffer.Value()), queues[j], openAt, dueAt, labels[j])
      invariant forall j | i <= j < |entities| :: entities[j].State() == old(entities[j].State())
    {
      assert Ready(entities[i], queues[i]) by {
        assert old(Ready(entities[i], queues[i]));
        assert entities[i].State() == old(entities[i].State());
      }
      label Before:
      var l := entities[i].TakeTurn(queues[i], openAt, dueAt);
      forall j | 0 <= j < |entities| && j != i
        ensures entities[j].State() == old@Before(entities[j].State())
      {
        SameConsumer(provider.consumers, old@Before(provider.consumers), entities[i].key, entities[j].key);
      }
      labels := labels + [l];
      i := i + 1;
      if Raises(l) {
        return;
      }
    }
  }

  lemma SameConsumer(now: map<Key, Offsets>, before: map<Key, Offsets>, changed: Key, other: Key)
    requires now - {changed} == before - {changed} && other != changed
    ensures other in now <==> other in before
    ensures other in now ==> now[other] == before[other]
  {
    assert other in now <==> other in now - {changed};
    assert other in before <==> other in before - {changed};
    if other in now {
      assert (now - {changed})[other] == (before - {changed})[other];
    }
  }
}
