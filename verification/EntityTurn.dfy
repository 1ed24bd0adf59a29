/** The micro-batch buffer of one entity and the rules of its round-robin turn, on values. */
module EntityTurn {
  import opened Common
  import opened BronzeLog

  const MAX_BATCH_SIZE: nat := 100
  const MAX_POLL_BATCH_SIZE: nat := 25
  const MAX_BATCH_AGE_SECONDS: real := 300.0
  const IDLE_AFTER_EMPTY_POLLS: nat := 3
  const IDLE_POLL_EVERY_N_ROUNDS: nat := 5

  /** An entity's two caps, resolved once from the override tables. */
  datatype Caps = Caps(maxBatch: nat, pollCap: nat) {
    predicate Valid() {
      maxBatch > 0 && pollCap > 0
    }
  }

  /** The two deepest backlogs fill and flush a buffer in one turn, every other entity in four. */
  function CapsFor(entity: string): (caps: Caps)
    ensures caps.Valid() && caps.maxBatch == 100
    ensures caps.maxBatch == caps.pollCap * if entity == "products" || entity == "inventories" then 1 else 4
  {
    Caps(MAX_BATCH_SIZE, if entity in {"products", "inventories"} then 100 else MAX_POLL_BATCH_SIZE)
  }

  datatype Buffer = Buffer(
    records: seq<Entry>,
    openedAt: Option<real>,
    emptyPolls: nat,
    roundsSincePoll: nat)
  {
    predicate Idle() {
      emptyPolls >= IDLE_AFTER_EMPTY_POLLS
    }

    /** The idle rule: this turn's poll is skipped. */
    predicate SkipsPoll() {
      Idle() && roundsSincePoll < IDLE_POLL_EVERY_N_ROUNDS - 1
    }

    /** How many messages this turn may ask for; none when not positive. */
    function Room(caps: Caps): int {
      Min(caps.maxBatch - |records|, caps.pollCap)
    }

    predicate Polls(caps: Caps) {
      !SkipsPoll() && Room(caps) > 0
    }

    predicate Due(caps: Caps, now: real) {
      records != [] &&
      (|records| >= caps.maxBatch || (openedAt.Some? && now - openedAt.value >= MAX_BATCH_AGE_SECONDS))
    }

    function Cleared(): Buffer {
      this.(records := [], openedAt := None)
    }

    /** Buffering records opens the buffer at the first of them. */
    function Added(kept: seq<Entry>, at: real): Buffer {
      if kept == [] then this
      else this.(records := records + kept, openedAt := Some(openedAt.GetOr(at)))
    }

    /** A turn up to the flush decision, given the messages its poll returned. */
    function AfterPoll(topic: Topic, caps: Caps, batch: seq<Entry>, openAt: real): Buffer {
      if SkipsPoll() then this.(roundsSincePoll := roundsSincePoll + 1)
      else if Room(caps) <= 0 then this.(roundsSincePoll := 0)
      else if batch == [] then this.(roundsSincePoll := 0, emptyPolls := emptyPolls + 1)
      else this.(roundsSincePoll := 0, emptyPolls := 0).Added(Kept(topic, batch), openAt)
    }

    /** What every turn keeps: bounded, open exactly while non-empty, and a full buffer is never idle. */
    predicate Valid(caps: Caps) {
      && |records| <= caps.maxBatch
      && (records == [] <==> openedAt.None?)
      && (|records| == caps.maxBatch ==> emptyPolls == 0)
      && roundsSincePoll < IDLE_POLL_EVERY_N_ROUNDS
    }
  }

  const FRESH: Buffer := Buffer([], None, 0, 0)

  /** A turn asks for messages unless the buffer is full, or the entity is idle and one of its last four turns
      polled. */
  lemma WhenItPolls(caps: Caps, b: Buffer)
    requires caps.Valid()
    ensures b.Polls(caps) <==> |b.records| < caps.maxBatch && (b.emptyPolls < 3 || b.roundsSincePoll >= 4)
  {
  }

  /** The buffer after n turns in which nothing was waiting. */
  function QuietTurns(topic: Topic, caps: Caps, b: Buffer, at: real, n: nat): Buffer {
    if n == 0 then b else QuietTurns(topic, caps, b, at, n - 1).AfterPoll(topic, caps, [], at)
  }

  /** The idle rule over time: an entity that has just had a message polls three turns in vain, then every fifth
      turn only, and keeps what it has buffered. */
  lemma {:induction false} QuietSchedule(topic: Topic, caps: Caps, b: Buffer, at: real, n: nat)
    requires caps.Valid() && |b.records| < caps.maxBatch && b.emptyPolls == 0 && b.roundsSincePoll == 0
    ensures var quiet := QuietTurns(topic, caps, b, at, n);
            && (quiet.Polls(caps) <==> n < 3 || n % 5 == 2)
            && quiet.records == b.records && quiet.openedAt == b.openedAt
            && quiet.emptyPolls == (if n < 3 then n else 3 + (n - 3) / 5) && quiet.roundsSincePoll == (if n < 3 then 0 else (n - 3) % 5)
  {
    if n > 0 {
      QuietSchedule(topic, caps, b, at, n - 1);
    }
  }

  /** A poll that brings messages ends the idleness, whether or not any of them is kept; what it keeps joins the
      buffer, which opened when its first record came. */
  lemma MessagesEndIdleness(topic: Topic, caps: Caps, b: Buffer, batch: seq<Entry>, at: real)
    requires caps.Valid() && b.Polls(caps) && batch != []
    ensures var after := b.AfterPoll(topic, caps, batch, at);
            && after.emptyPolls == 0 && after.roundsSincePoll == 0
            && after.records == b.records + Kept(topic, batch)
            && (b.openedAt.Some? ==> after.openedAt == b.openedAt)
            && (b.openedAt.None? && Kept(topic, batch) != [] ==> after.openedAt == Some(at))
  {
  }

  /** A buffer is flushed at a hundred rows, or once its first row is 300 seconds old, and no earlier. */
  lemma WhenItFlushes(entity: string, b: Buffer, now: real, since: real)
    requires b.records != [] && b.openedAt == Some(since)
    ensures b.Due(CapsFor(entity), now) <==> |b.records| >= 100 || now >= since + 300.0
  {
  }
}
