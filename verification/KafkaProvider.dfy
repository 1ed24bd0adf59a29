/** The messaging provider: one cached consumer per topic and group, a bounded commit, recovery from
    an untrustworthy consumer, and the lag it reports. */
module KafkaProvider {
  import opened Common
  import opened BronzeLog
  import opened BronzeProtocol

  /** What outlives the process for one topic: the log, the group's committed offsets, and the
      offsets of abandoned commits that may still land. */
  class Broker {
    var log: Topic
    var committed: Offsets
    var late: set<Offsets>

    /** No commit has reached it. */
    predicate Untouched()
      reads this
    {
      |committed| == |log| && late == {} && forall p | 0 <= p < |committed| :: committed[p] == 0
    }

    constructor (log: Topic)
      ensures this.log == log && Untouched()
    {
      this.log := log;
      committed := seq(|log|, _ => 0);
      late := {};
    }
  }

  /** Errors that reach the flush worker. */
  datatype FlushError = WriteError | NotResolved | KafkaError(assignmentLost: bool) | CommitTimeout

  /** How the broker answers a synchronous commit: for some partitions it may have landed although
      the call failed; past the deadline the call is still running. */
  datatype CommitReply = Returned | Failed(assignmentLost: bool, landed: set<nat>) | StillRunning

  /** The errors after which this consumer can no longer be trusted. */
  predicate Unrecoverable(error: FlushError) {
    error.CommitTimeout? || (error.KafkaError? && error.assignmentLost)
  }

  /** A record handed out by the client: a message, or an error event. */
  datatype Polled = Record(entry: Entry) | ErrorEvent

  type Key = (string, string)

  class KafkaMessagingProvider {
    /** The position of each cached consumer. */
    var consumers: map<Key, Offsets>

    constructor ()
      ensures consumers == map[]
    {
      consumers := map[];
    }

    /** Reuse the cached consumer, or join the group at its committed offsets. */
    method ResolveConsumer(key: Key, broker: Broker)
      modifies this
      ensures consumers == if key in old(consumers) then old(consumers) else old(consumers)[key := broker.committed]
    {
      if key !in consumers {
        consumers := consumers[key := broker.committed];
      }
    }

    /** Deliver the first records of the queue, at most maxMessages; an error event among them raises. */
    method ConsumeBatch(key: Key, broker: Broker, maxMessages: nat, queue: seq<Polled>)
      returns (messages: Option<seq<Entry>>)
      requires var position := if key in consumers then consumers[key] else broker.committed;
               CanFetch(broker.log, broker.committed, position, Entries(queue))
      modifies this
      ensures var position := if key in old(consumers) then old(consumers)[key] else broker.committed;
              var batch := queue[..Min(maxMessages, |queue|)];
              && CanFetch(broker.log, broker.committed, position, Entries(batch))
              && (forall e | e in Entries(batch) :: e.partition < |position|)
              && consumers == old(consumers)[key := Fetched(position, Entries(batch))]
              && messages == (if ErrorEvent in batch then None else Some(Entries(batch)))
    {
      hide CanFetch, Fetched, Entries;
      ghost var position := if key in consumers then consumers[key] else broker.committed;
      ResolveConsumer(key, broker);
      var records := queue[..Min(maxMessages, |queue|)];
      FetchPrefix(broker.log, broker.committed, position, queue, |records|);
      FetchInTopic(broker.log, broker.committed, position, Entries(records));
      consumers := consumers[key := Fetched(consumers[key], Entries(records))];
      var collected: seq<Entry> := [];
      var i := 0;
      while i < |records|
        invariant 0 <= i <= |records|
        invariant consumers == old(consumers)[key := Fetched(position, Entries(records))]
        invariant ErrorEvent !in records[..i]
        invariant collected == Entries(records[..i])
      {
        if records[i].ErrorEvent? {
          assert ErrorEvent in records;
          return None;
        }
        EntriesAppend(records[..i], records[i]);
        assert records[..i] + [records[i]] == records[..i + 1];
        collected := collected + [records[i].entry];
        i := i + 1;
      }
      assert records[..i] == records;
      return Some(collected);
    }

    /** Commit the consumer's position, waiting no longer than the deadline. */
    method Commit(key: Key, broker: Broker, reply: CommitReply) returns (r: Result<(), FlushError>)
      requires key in consumers ==> |consumers[key]| == |broker.committed|
      modifies broker
      ensures broker.log == old(broker.log)
      ensures key !in consumers ==> r == Err(NotResolved) && broker.committed == old(broker.committed) && broker.late == old(broker.late)
      ensures key in consumers ==> match reply
        case Returned => r == Ok(()) && broker.committed == consumers[key] && broker.late == old(broker.late)
        case Failed(lost, landed) =>
          && r == Err(KafkaError(lost)) && broker.late == old(broker.late)
          && broker.committed == Merge(old(broker.committed), consumers[key], landed)
        case StillRunning =>
          r == Err(CommitTimeout) && broker.committed == old(broker.committed) && broker.late == old(broker.late) + {consumers[key]}
    {
      if key !in consumers {
        return Err(NotResolved);
      }
      match reply {
        case Returned =>
          broker.committed := consumers[key];
          return Ok(());
        case Failed(lost, landed) =>
          broker.committed := Merge(broker.committed, consumers[key], landed);
          return Err(KafkaError(lost));
        case StillRunning =>
          broker.late := broker.late + {consumers[key]};
          return Err(CommitTimeout);
      }
    }

    /** Discard the consumer after an unrecoverable error; do nothing for any other. */
    method RecoverFromLostAssignment(key: Key, error: FlushError) returns (recovered: bool)
      modifies this
      ensures recovered == Unrecoverable(error)
      ensures consumers == if recovered then old(consumers) - {key} else old(consumers)
    {
      if !(error == KafkaError(true) || error == CommitTimeout) {
        return false;
      }
      consumers := consumers - {key};
      return true;
    }

    /** The total lag over the assigned partitions, or None before any poll resolved a consumer. */
    method ConsumerLag(key: Key, reports: seq<Report>) returns (lag: Option<int>)
      ensures lag == if key in consumers then Some(Lag(reports)) else None
    {
      if key !in consumers {
        return None;
      }
      var total := 0;
      var i := 0;
      while i < |reports|
        invariant 0 <= i <= |reports|
        invariant total == Lag(reports[..i])
      {
        var current := if reports[i].position >= 0 then reports[i].position else reports[i].low;
        total := total + Max(reports[i].high - current, 0);
        assert Init(reports[..i + 1]) == reports[..i] && Last(reports[..i + 1]) == reports[i];
        i := i + 1;
      }
      assert reports[..i] == reports;
      return Some(total);
    }
  }

  // ---- Batches

  function Entries(batch: seq<Polled>): (entries: seq<Entry>)
    ensures |entries| <= |batch|
  {
    if batch == [] then []
    else if batch[0].Record? then [batch[0].entry] + Entries(batch[1..])
    else Entries(batch[1..])
  }

  lemma {:induction false} EntriesAppend(batch: seq<Polled>, last: Polled)
    ensures Entries(batch + [last]) == Entries(batch) + (if last.Record? then [last.entry] else [])
  {
    if batch == [] {
      assert batch + [last] == [last] && [last][1..] == [];
    } else {
      assert (batch + [last])[1..] == batch[1..] + [last];
      EntriesAppend(batch[1..], last);
    }
  }

  /** What can be fetched can be fetched in part. */
  lemma {:induction false} FetchPrefix(topic: Topic, committed: Offsets, position: Offsets, queue: seq<Polled>, n: nat)
    requires CanFetch(topic, committed, position, Entries(queue)) && n <= |queue|
    ensures CanFetch(topic, committed, position, Entries(queue[..n]))
    decreases |queue|
  {
    if n > 0 {
      assert queue[..n][1..] == queue[1..][..n - 1] && queue[..n][0] == queue[0];
      if queue[0].Record? {
        var e := queue[0].entry;
        assert Entries(queue)[1..] == Entries(queue[1..]);
        FetchPrefix(topic, committed, position[e.partition := e.offset + 1], queue[1..], n - 1);
        assert Entries(queue[..n])[1..] == Entries(queue[..n][1..]);
      } else {
        FetchPrefix(topic, committed, position, queue[1..], n - 1);
      }
    }
  }

  // ---- Lag

  /** One assigned partition: its low and high watermark, and the position, negative when nothing was read yet. */
  datatype Report = Report(low: nat, high: nat, position: int)

  function Lag(reports: seq<Report>): int {
    if reports == [] then 0
    else
      var r := Last(reports);
      Lag(Init(reports)) + Max(r.high - (if r.position >= 0 then r.position else r.low), 0)
  }

  /** Nothing is unread in any partition exactly when the reported lag is zero, and it is never negative. */
  lemma {:induction false} ZeroLagMeansCaughtUp(reports: seq<Report>)
    ensures Lag(reports) >= 0
    ensures Lag(reports) == 0 <==>
            forall i | 0 <= i < |reports| ::
              reports[i].high <= (if reports[i].position >= 0 then reports[i].position else reports[i].low)
  {
    if reports != [] {
      ZeroLagMeansCaughtUp(Init(reports));
      assert forall i | 0 <= i < |Init(reports)| :: Init(reports)[i] == reports[i];
    }
  }
}
