/** A Kafka topic as the Bronze Consumer sees it, and what it means for a sequence
    of landed messages to have no gap. */
module BronzeLog {
  import opened Common

  /** One row as it is appended to a Bronze table: natural key, source commit time, the rest. */
  datatype Row = Row(key: string, cdcTsMs: int, payload: string)

  /** What decoding one Debezium message gives: an error, an event without a row image, or a row. */
  datatype Message = Malformed | NoRecord | Change(row: Row)

  /** One append-only message list per partition. */
  type Topic = seq<seq<Message>>

  /** One offset per partition: committed offsets, or a consumer's position. */
  type Offsets = seq<nat>

  /** The identity of a message: a buffered record and a table row remember where they came from. */
  datatype Entry = Entry(partition: nat, offset: nat)

  predicate InTopic(topic: Topic, e: Entry) {
    e.partition < |topic| && e.offset < |topic[e.partition]|
  }

  /** Only such messages are buffered; the others are logged and dropped. */
  predicate Decodable(topic: Topic, e: Entry) {
    InTopic(topic, e) && topic[e.partition][e.offset].Change?
  }

  function RowOf(topic: Topic, e: Entry): Row
    requires Decodable(topic, e)
  {
    topic[e.partition][e.offset].row
  }

  /** The decodable messages of a polled batch, in order. */
  function Kept(topic: Topic, batch: seq<Entry>): (kept: seq<Entry>)
    ensures |kept| <= |batch|
  {
    if batch == [] then []
    else if Decodable(topic, batch[0]) then [batch[0]] + Kept(topic, batch[1..])
    else Kept(topic, batch[1..])
  }

  lemma {:induction false} KeptAppend(topic: Topic, batch: seq<Entry>, e: Entry)
    ensures Kept(topic, batch + [e]) == Kept(topic, batch) + (if Decodable(topic, e) then [e] else [])
  {
    if batch == [] {
      assert batch + [e] == [e] && [e][1..] == [];
    } else {
      assert (batch + [e])[1..] == batch[1..] + [e];
      KeptAppend(topic, batch[1..], e);
    }
  }

  /** Every decodable message of e's partition before e is in s. */
  ghost predicate NothingMissingBefore(topic: Topic, e: Entry, s: seq<Entry>) {
    forall o: nat | o < e.offset && Decodable(topic, Entry(e.partition, o)) :: Entry(e.partition, o) in s
  }

  ghost predicate InOrder(topic: Topic, s: seq<Entry>, i: int)
    requires 0 <= i < |s|
  {
    Decodable(topic, s[i]) && NothingMissingBefore(topic, s[i], s[..i])
  }

  /** No element of s arrives before all its decodable predecessors have arrived. */
  ghost predicate GapFree(topic: Topic, s: seq<Entry>) {
    forall i | 0 <= i < |s| :: InOrder(topic, s, i)
  }

  ghost predicate CoversPartition(topic: Topic, s: seq<Entry>, offsets: Offsets, p: int)
    requires 0 <= p < |offsets| == |topic|
  {
    offsets[p] <= |topic[p]| && NothingMissingBefore(topic, Entry(p, offsets[p]), s)
  }

  /** Every decodable message below the given offsets is in s. */
  ghost predicate Covers(topic: Topic, s: seq<Entry>, offsets: Offsets) {
    && |offsets| == |topic|
    && forall p | 0 <= p < |offsets| :: CoversPartition(topic, s, offsets, p)
  }

  lemma MissingLess(topic: Topic, e: Entry, s: seq<Entry>, t: seq<Entry>)
    requires NothingMissingBefore(topic, e, s)
    requires forall x | x in s :: x in t
    ensures NothingMissingBefore(topic, e, t)
  {
  }

  lemma GapFreeConcat(topic: Topic, s: seq<Entry>, t: seq<Entry>)
    requires GapFree(topic, s)
    requires forall e | e in t :: Decodable(topic, e) && NothingMissingBefore(topic, e, s)
    ensures GapFree(topic, s + t)
  {
    forall i | 0 <= i < |s + t|
      ensures InOrder(topic, s + t, i)
    {
      if i < |s| {
        assert InOrder(topic, s, i);
        assert (s + t)[..i] == s[..i];
      } else {
        assert (s + t)[i] == t[i - |s|];
        assert (s + t)[..i] == s + t[..i - |s|];
      }
    }
  }

  lemma GapFreePrefix(topic: Topic, s: seq<Entry>, t: seq<Entry>)
    requires GapFree(topic, s + t)
    ensures GapFree(topic, s)
  {
    forall i | 0 <= i < |s|
      ensures InOrder(topic, s, i)
    {
      assert InOrder(topic, s + t, i);
      assert (s + t)[..i] == s[..i];
    }
  }

  /** Writing a batch again only repeats: what was gap-free stays gap-free. */
  lemma GapFreeRepeat(topic: Topic, s: seq<Entry>, t: seq<Entry>)
    requires GapFree(topic, s + t)
    ensures GapFree(topic, s + t + t)
  {
    forall e | e in t
      ensures Decodable(topic, e) && NothingMissingBefore(topic, e, s + t)
    {
      var i :| 0 <= i < |t| && t[i] == e;
      assert InOrder(topic, s + t, |s| + i);
      MissingLess(topic, e, (s + t)[..|s| + i], s + t);
    }
    GapFreeConcat(topic, s + t, t);
  }

  /** New messages at the end of a partition change nothing that was true of the old ones. */
  lemma GrowthKeepsGapFree(topic: Topic, p: nat, m: Message, s: seq<Entry>)
    requires p < |topic|
    requires GapFree(topic, s)
    ensures GapFree(topic[p := topic[p] + [m]], s)
  {
    var grown := topic[p := topic[p] + [m]];
    forall i | 0 <= i < |s|
      ensures InOrder(grown, s, i)
    {
      assert InOrder(topic, s, i);
    }
  }

  lemma GrowthKeepsCover(topic: Topic, p: nat, m: Message, s: seq<Entry>, offsets: Offsets)
    requires p < |topic| && Covers(topic, s, offsets)
    ensures Covers(topic[p := topic[p] + [m]], s, offsets)
  {
    var grown := topic[p := topic[p] + [m]];
    forall q | 0 <= q < |offsets|
      ensures CoversPartition(grown, s, offsets, q)
    {
      assert CoversPartition(topic, s, offsets, q);
    }
  }

  lemma CoverGrows(topic: Topic, s: seq<Entry>, t: seq<Entry>, offsets: Offsets)
    requires Covers(topic, s, offsets)
    requires forall e | e in s :: e in t
    ensures Covers(topic, t, offsets)
  {
    forall p | 0 <= p < |offsets|
      ensures CoversPartition(topic, t, offsets, p)
    {
      assert CoversPartition(topic, s, offsets, p);
    }
  }

  // ---- Polling

  /** A poll delivers each message from the consumer's position, or, when a rebalance has just
      rewound the partition, from its committed offset. */
  predicate CanFetch(topic: Topic, committed: Offsets, position: Offsets, batch: seq<Entry>)
    decreases |batch|
  {
    && |committed| == |position| == |topic|
    && (batch == [] ||
        var e := batch[0];
        && InTopic(topic, e)
        && (e.offset == position[e.partition] || e.offset == committed[e.partition])
        && CanFetch(topic, committed, position[e.partition := e.offset + 1], batch[1..]))
  }

  /** The position after a poll. */
  function Fetched(position: Offsets, batch: seq<Entry>): (moved: Offsets)
    requires forall e | e in batch :: e.partition < |position|
    ensures |moved| == |position|
    decreases |batch|
  {
    if batch == [] then position
    else Fetched(position[batch[0].partition := batch[0].offset + 1], batch[1..])
  }

  lemma {:induction false} FetchInTopic(topic: Topic, committed: Offsets, position: Offsets, batch: seq<Entry>)
    requires CanFetch(topic, committed, position, batch)
    ensures forall e | e in batch :: InTopic(topic, e)
    decreases |batch|
  {
    if batch != [] {
      var e := batch[0];
      FetchInTopic(topic, committed, position[e.partition := e.offset + 1], batch[1..]);
      assert batch == [e] + batch[1..];
    }
  }

  /** One fetched message. */
  lemma FetchOneKeepsCover(topic: Topic, position: Offsets, e: Entry, s: seq<Entry>, landed: seq<Entry>)
    requires GapFree(topic, s) && Covers(topic, s, position)
    requires InTopic(topic, e) && NothingMissingBefore(topic, e, s)
    requires landed == if Decodable(topic, e) then s + [e] else s
    ensures GapFree(topic, landed)
    ensures Covers(topic, landed, position[e.partition := e.offset + 1])
  {
    if Decodable(topic, e) {
      GapFreeConcat(topic, s, [e]);
    }
    var moved := position[e.partition := e.offset + 1];
    forall p | 0 <= p < |moved|
      ensures CoversPartition(topic, landed, moved, p)
    {
      assert CoversPartition(topic, s, position, p);
    }
  }

  /** A poll followed by buffering keeps the landed and buffered messages gap-free and keeps
      everything below the position landed or buffered. */
  lemma {:induction false} FetchKeepsCover(topic: Topic, committed: Offsets, position: Offsets, batch: seq<Entry>, s: seq<Entry>)
    requires CanFetch(topic, committed, position, batch)
    requires forall e | e in batch :: e.partition < |position|
    requires GapFree(topic, s) && Covers(topic, s, committed) && Covers(topic, s, position)
    ensures GapFree(topic, s + Kept(topic, batch))
    ensures Covers(topic, s + Kept(topic, batch), Fetched(position, batch))
    decreases |batch|
  {
    if batch == [] {
      assert s + Kept(topic, batch) == s;
    } else {
      var e := batch[0];
      var landed := if Decodable(topic, e) then s + [e] else s;
      FetchedIsNext(topic, committed, position, e, s);
      FetchOneKeepsCover(topic, position, e, s, landed);
      CoverGrows(topic, s, landed, committed);
      FetchKeepsCover(topic, committed, position[e.partition := e.offset + 1], batch[1..], landed);
      assert landed + Kept(topic, batch[1..]) == s + Kept(topic, batch);
    }
  }

  lemma FetchedIsNext(topic: Topic, committed: Offsets, position: Offsets, e: Entry, s: seq<Entry>)
    requires Covers(topic, s, committed) && Covers(topic, s, position) && InTopic(topic, e)
    requires e.offset == position[e.partition] || e.offset == committed[e.partition]
    ensures NothingMissingBefore(topic, e, s)
  {
    assert CoversPartition(topic, s, position, e.partition) && CoversPartition(topic, s, committed, e.partition);
  }

  // ---- The prefix property

  /** The offsets of one partition that occur in s, in order of arrival. */
  function OffsetsOf(s: seq<Entry>, p: nat): seq<nat> {
    if s == [] then []
    else if Last(s).partition == p then OffsetsOf(Init(s), p) + [Last(s).offset]
    else OffsetsOf(Init(s), p)
  }

  /** Drop repeats, keeping first occurrences. */
  function FirstOccurrences<T(==)>(s: seq<T>): seq<T> {
    if s == [] then []
    else if Last(s) in Init(s) then FirstOccurrences(Init(s))
    else FirstOccurrences(Init(s)) + [Last(s)]
  }

  /** The decodable offsets of a partition below n, ascending: the partition delivered once. */
  function DecodableBelow(messages: seq<Message>, n: nat): seq<nat>
    requires n <= |messages|
  {
    if n == 0 then []
    else if messages[n - 1].Change? then DecodableBelow(messages, n - 1) + [n - 1]
    else DecodableBelow(messages, n - 1)
  }

  /** How far partition p has landed in s: one past the greatest offset. */
  function Reach(s: seq<Entry>, p: nat): nat {
    if s == [] then 0
    else if Last(s).partition == p then Max(Last(s).offset + 1, Reach(Init(s), p))
    else Reach(Init(s), p)
  }

  lemma {:induction false} OffsetsOfMembers(s: seq<Entry>, p: nat)
    ensures forall o: nat :: o in OffsetsOf(s, p) <==> Entry(p, o) in s
  {
    if s != [] {
      InitLast(s);
      OffsetsOfMembers(Init(s), p);
    }
  }

  /** Dropping repeats loses no element and leaves none twice. */
  lemma {:induction false} FirstOccurrencesMembers<T(!new)>(s: seq<T>)
    ensures forall x :: x in FirstOccurrences(s) <==> x in s
    ensures forall i, j | 0 <= i < j < |FirstOccurrences(s)| :: FirstOccurrences(s)[i] != FirstOccurrences(s)[j]
  {
    if s != [] {
      InitLast(s);
      FirstOccurrencesMembers(Init(s));
    }
  }

  lemma {:induction false} DecodableBelowMembers(messages: seq<Message>, n: nat)
    requires n <= |messages|
    ensures forall o: nat :: o in DecodableBelow(messages, n) <==> o < n && messages[o].Change?
  {
    if n > 0 {
      DecodableBelowMembers(messages, n - 1);
    }
  }

  lemma {:induction false} DecodableBelowSkips(messages: seq<Message>, n: nat, m: nat)
    requires n <= m <= |messages|
    requires forall o | n <= o < m :: !messages[o].Change?
    ensures DecodableBelow(messages, m) == DecodableBelow(messages, n)
  {
    if n < m {
      DecodableBelowSkips(messages, n, m - 1);
    }
  }

  /** The greatest offset bounds them all and occurs. */
  lemma {:induction false} ReachBounds(s: seq<Entry>, p: nat)
    ensures forall e | e in s && e.partition == p :: e.offset < Reach(s, p)
    ensures Reach(s, p) > 0 ==> Entry(p, Reach(s, p) - 1) in s
  {
    if s != [] {
      InitLast(s);
      ReachBounds(Init(s), p);
    }
  }

  /** The next new offset extends the prefix by exactly that offset. */
  lemma PrefixExtends(messages: seq<Message>, n: nat, o: nat)
    requires n <= |messages| && o < |messages| && messages[o].Change?
    requires o !in DecodableBelow(messages, n)
    requires forall k: nat | k < o && messages[k].Change? :: k in DecodableBelow(messages, n)
    ensures n <= o
    ensures DecodableBelow(messages, o + 1) == DecodableBelow(messages, n) + [o]
  {
    DecodableBelowMembers(messages, n);
    DecodableBelowSkips(messages, n, o);
  }

  /** Partition p of s, repeats dropped, is the delivery of its messages below n exactly once. */
  ghost predicate DeliversOnce(messages: seq<Message>, offsets: seq<nat>, n: nat) {
    n <= |messages| && FirstOccurrences(offsets) == DecodableBelow(messages, n)
  }

  /** One more arrival in order: a repeat changes nothing, a new offset extends the prefix. */
  lemma ArrivalKeepsPrefix(messages: seq<Message>, offsets: seq<nat>, n: nat, o: nat)
    requires DeliversOnce(messages, offsets, n)
    requires o < |messages| && messages[o].Change?
    requires forall k: nat | k < o && messages[k].Change? :: k in offsets
    ensures DeliversOnce(messages, offsets + [o], Max(o + 1, n))
  {
    AppendInit(offsets, o);
    FirstOccurrencesMembers(offsets);
    DecodableBelowMembers(messages, n);
    if o !in offsets {
      PrefixExtends(messages, n, o);
    }
  }

  /** The last arrival of a gap-free sequence, seen from its partition. */
  lemma LastArrival(topic: Topic, front: seq<Entry>, e: Entry)
    requires GapFree(topic, front + [e])
    ensures GapFree(topic, front) && Decodable(topic, e)
    ensures forall k: nat | k < e.offset && topic[e.partition][k].Change? :: k in OffsetsOf(front, e.partition)
  {
    GapFreePrefix(topic, front, [e]);
    assert InOrder(topic, front + [e], |front|);
    assert (front + [e])[..|front|] == front;
    OffsetsOfMembers(front, e.partition);
    forall k: nat | k < e.offset && topic[e.partition][k].Change?
      ensures k in OffsetsOf(front, e.partition)
    {
      assert Decodable(topic, Entry(e.partition, k));
    }
  }

  /** Without its repeats, a gap-free sequence is in each partition exactly a prefix of the
      partition's decodable messages, in partition order. */
  lemma {:induction false} GapFreeIsPrefix(topic: Topic, s: seq<Entry>, p: nat)
    requires GapFree(topic, s) && p < |topic|
    ensures Reach(s, p) <= |topic[p]|
    ensures FirstOccurrences(OffsetsOf(s, p)) == DecodableBelow(topic[p], Reach(s, p))
  {
    if s != [] {
      var front, e := Init(s), Last(s);
      InitLast(s);
      LastArrival(topic, front, e);
      GapFreeIsPrefix(topic, front, p);
      if e.partition == p {
        ArrivalKeepsPrefix(topic[p], OffsetsOf(front, p), Reach(front, p), e.offset);
      }
    }
  }
}
