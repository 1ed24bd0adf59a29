/** The Silver transformations of a Bronze table: trim, drop exact duplicates, keep the latest row per
    key; and why the repeats that at-least-once delivery leaves in Bronze disappear there. */
module Silver {
  import opened Common
  import opened BronzeLog
  import opened EntityTurn
  import opened BronzeProtocol
  import opened BronzeSafety

  function TrimLeft(s: string): string {
    if s != [] && s[0] == ' ' then TrimLeft(s[1..]) else s
  }

  function TrimRight(s: string): string {
    if s != [] && Last(s) == ' ' then TrimRight(Init(s)) else s
  }

  function Trim(s: string): string {
    TrimRight(TrimLeft(s))
  }

  predicate OnlySpaces(s: string) {
    forall k | 0 <= k < |s| :: s[k] == ' '
  }

  lemma {:induction false} TrimLeftOnly(s: string)
    ensures exists a :: OnlySpaces(a) && s == a + TrimLeft(s)
    ensures TrimLeft(s) != "" ==> TrimLeft(s)[0] != ' '
  {
    if s != [] && s[0] == ' ' {
      TrimLeftOnly(s[1..]);
      var a :| OnlySpaces(a) && s[1..] == a + TrimLeft(s[1..]);
      ConcatAssociates([' '], a, TrimLeft(s));
      assert s == [' '] + s[1..];
      assert OnlySpaces([' '] + a);
    } else {
      assert OnlySpaces("") && "" + s == s;
    }
  }

  lemma {:induction false} TrimRightOnly(s: string)
    ensures exists b :: OnlySpaces(b) && s == TrimRight(s) + b
    ensures TrimRight(s) != "" ==> Last(TrimRight(s)) != ' ' && TrimRight(s)[0] == s[0]
  {
    if s != [] && Last(s) == ' ' {
      TrimRightOnly(Init(s));
      var b :| OnlySpaces(b) && Init(s) == TrimRight(Init(s)) + b;
      InitLast(s);
      ConcatAssociates(TrimRight(s), b, [' ']);
      assert OnlySpaces(b + [' ']);
    } else {
      assert OnlySpaces("") && s + "" == s;
    }
  }

  /** Trimming takes away surrounding spaces, all of them, and nothing else. */
  lemma TrimOnlySpaces(s: string)
    ensures exists a, b :: OnlySpaces(a) && OnlySpaces(b) && s == a + Trim(s) + b
    ensures Trim(s) != "" ==> Trim(s)[0] != ' ' && Last(Trim(s)) != ' '
  {
    TrimLeftOnly(s);
    TrimRightOnly(TrimLeft(s));
    var a :| OnlySpaces(a) && s == a + TrimLeft(s);
    var b :| OnlySpaces(b) && TrimLeft(s) == Trim(s) + b;
    ConcatAssociates(a, Trim(s), b);
    assert s == a + Trim(s) + b;
  }

  /** Every string column is trimmed. */
  function TrimRow(row: Row): Row {
    row.(key := Trim(row.key), payload := Trim(row.payload))
  }

  function TrimRows(rows: seq<Row>): (trimmed: seq<Row>)
    ensures |trimmed| == |rows|
    ensures forall i | 0 <= i < |rows| :: trimmed[i] == TrimRow(rows[i])
  {
    seq(|rows|, i requires 0 <= i < |rows| => TrimRow(rows[i]))
  }

  /** The rows of a table without exact duplicates. */
  function DropDuplicates(rows: seq<Row>): seq<Row> {
    FirstOccurrences(rows)
  }

  ghost predicate IsLatest(rows: set<Row>, k: Row) {
    k in rows && forall r | r in rows && r.key == k.key :: r.cdcTsMs <= k.cdcTsMs
  }

  ghost predicate HasKey(rows: set<Row>, key: string) {
    exists r | r in rows :: r.key == key
  }

  /** What ranking each key's rows by descending order column and keeping rank one may return:
      exactly one row per key, and no row of the key is later. Ties may be broken either way. */
  ghost predicate KeepsLatest(rows: set<Row>, result: set<Row>) {
    && (forall k | k in result :: IsLatest(rows, k))
    && (forall r | r in rows :: HasKey(result, r.key))
    && (forall k1, k2 | k1 in result && k2 in result && k1.key == k2.key :: k1 == k2)
  }

  /** One resolution: in order of arrival, a row replaces its key's row when it is strictly later. */
  function LatestByKey(rows: seq<Row>): (latest: map<string, Row>)
    ensures forall k | k in latest :: latest[k].key == k
  {
    if rows == [] then map[]
    else
      var front, row := LatestByKey(Init(rows)), Last(rows);
      if row.key in front && row.cdcTsMs <= front[row.key].cdcTsMs then front else front[row.key := row]
  }

  lemma {:induction false} LatestByKeyIsLatest(rows: seq<Row>)
    ensures var latest := LatestByKey(rows);
            && (forall k | k in latest :: latest[k] in rows)
            && (forall r | r in rows :: r.key in latest && r.cdcTsMs <= latest[r.key].cdcTsMs)
  {
    if rows != [] {
      InitLast(rows);
      LatestByKeyIsLatest(Init(rows));
    }
  }

  /** Of several rows of its key that are as late as this one it was the first to arrive. */
  ghost predicate FirstOfItsTime(rows: seq<Row>, row: Row) {
    exists i | 0 <= i < |rows| :: FirstAt(rows, row, i)
  }

  predicate FirstAt(rows: seq<Row>, row: Row, i: int)
    requires 0 <= i < |rows|
  {
    rows[i] == row && forall j | 0 <= j < i && rows[j].key == row.key :: rows[j].cdcTsMs < row.cdcTsMs
  }

  lemma StillFirst(rows: seq<Row>, last: Row, row: Row)
    requires FirstOfItsTime(rows, row)
    ensures FirstOfItsTime(rows + [last], row)
  {
    var i :| 0 <= i < |rows| && FirstAt(rows, row, i);
    assert FirstAt(rows + [last], row, i);
  }

  lemma NewFirst(rows: seq<Row>, last: Row)
    requires forall r | r in rows && r.key == last.key :: r.cdcTsMs < last.cdcTsMs
    ensures FirstOfItsTime(rows + [last], last)
  {
    assert forall j | 0 <= j < |rows| :: (rows + [last])[j] == rows[j] && rows[j] in rows;
    assert FirstAt(rows + [last], last, |rows|);
  }

  /** This resolution breaks ties for the first to arrive. */
  lemma {:induction false} LatestIsFirst(rows: seq<Row>, key: string)
    requires key in LatestByKey(rows)
    ensures FirstOfItsTime(rows, LatestByKey(rows)[key])
  {
    hide FirstOfItsTime;
    var front, last := Init(rows), Last(rows);
    InitLast(rows);
    if key in LatestByKey(front) && LatestByKey(rows)[key] == LatestByKey(front)[key] {
      LatestIsFirst(front, key);
      StillFirst(front, last, LatestByKey(front)[key]);
    } else {
      LatestByKeyIsLatest(front);
      NewFirst(front, last);
    }
  }

  function RowSet(rows: seq<Row>): set<Row> {
    set r | r in rows
  }

  function Chosen(latest: map<string, Row>): set<Row> {
    set k | k in latest :: latest[k]
  }

  /** The ranking always has a result. */
  lemma LatestExists(rows: seq<Row>)
    ensures KeepsLatest(RowSet(rows), Chosen(LatestByKey(rows)))
  {
    LatestByKeyIsLatest(rows);
    var latest := LatestByKey(rows);
    forall r | r in RowSet(rows)
      ensures HasKey(Chosen(latest), r.key)
    {
      assert latest[r.key] in Chosen(latest);
    }
    forall k | k in Chosen(latest)
      ensures IsLatest(RowSet(rows), k)
    {
      assert k == latest[k.key];
    }
  }

  /** Two different rows of one key are both its latest. */
  ghost predicate Tied(rows: set<Row>, a: Row, b: Row) {
    a != b && a.key == b.key && IsLatest(rows, a) && IsLatest(rows, b)
  }

  ghost predicate NoTie(rows: set<Row>) {
    forall a, b :: !Tied(rows, a, b)
  }

  ghost predicate Determined(rows: set<Row>) {
    forall x, y | KeepsLatest(rows, x) && KeepsLatest(rows, y) :: x == y
  }

  function Swapped(result: set<Row>, a: Row): set<Row> {
    (set k | k in result && k.key != a.key) + {a}
  }

  /** Exchanging the chosen row of one key for another of its latest rows gives another result. */
  lemma SwapChoice(rows: set<Row>, result: set<Row>, a: Row)
    requires KeepsLatest(rows, result) && IsLatest(rows, a)
    ensures KeepsLatest(rows, Swapped(result, a))
  {
    forall r | r in rows
      ensures HasKey(Swapped(result, a), r.key)
    {
      if r.key == a.key {
        assert a in Swapped(result, a);
      } else {
        assert HasKey(result, r.key);
        var k :| k in result && k.key == r.key;
        assert k in Swapped(result, a);
      }
    }
  }

  /** The keyed de-duplication has one possible result exactly when no two different rows tie as the
      latest of a key. */
  lemma DeterminedIffNoTie(rows: seq<Row>)
    ensures Determined(RowSet(rows)) <==> NoTie(RowSet(rows))
  {
    var all, result := RowSet(rows), Chosen(LatestByKey(rows));
    LatestExists(rows);
    if !NoTie(all) {
      var a, b :| Tied(all, a, b);
      SwapChoice(all, result, a);
      SwapChoice(all, result, b);
      assert a in Swapped(result, a) && a !in Swapped(result, b);
    } else {
      forall x, y | KeepsLatest(all, x) && KeepsLatest(all, y)
        ensures x == y
      {
        SameResult(all, x, y);
        SameResult(all, y, x);
      }
    }
  }

  lemma SameResult(rows: set<Row>, x: set<Row>, y: set<Row>)
    requires KeepsLatest(rows, x) && KeepsLatest(rows, y) && NoTie(rows)
    ensures x <= y
  {
    forall a | a in x
      ensures a in y
    {
      assert IsLatest(rows, a) && HasKey(y, a.key);
      var b :| b in y && b.key == a.key;
      assert IsLatest(rows, b) && !Tied(rows, a, b);
    }
  }

  // ---- Redelivery

  /** The rows of the landed messages, in the order they were appended. */
  function TableRows(topic: Topic, s: seq<Entry>): (rows: seq<Row>)
    requires forall e | e in s :: Decodable(topic, e)
    ensures |rows| == |s|
    ensures forall i | 0 <= i < |s| :: s[i] in s && rows[i] == RowOf(topic, s[i])
  {
    seq(|s|, i requires 0 <= i < |s| => assert s[i] in s; RowOf(topic, s[i]))
  }

  /** Each partition's decodable messages below its reach, delivered exactly once. */
  function DeliveredOnce(topic: Topic, reach: seq<nat>): seq<Entry>
    requires |reach| == |topic| && forall p | 0 <= p < |reach| :: reach[p] <= |topic[p]|
  {
    if topic == [] then []
    else DeliveredOnce(Init(topic), Init(reach)) + OfPartition(|topic| - 1, DecodableBelow(Last(topic), Last(reach)))
  }

  function OfPartition(p: nat, offsets: seq<nat>): (entries: seq<Entry>)
    ensures |entries| == |offsets| && forall i | 0 <= i < |offsets| :: entries[i] == Entry(p, offsets[i])
  {
    seq(|offsets|, i requires 0 <= i < |offsets| => Entry(p, offsets[i]))
  }

  lemma {:induction false} DeliveredOnceMembers(topic: Topic, reach: seq<nat>, e: Entry)
    requires |reach| == |topic| && forall p | 0 <= p < |reach| :: reach[p] <= |topic[p]|
    ensures e in DeliveredOnce(topic, reach) <==> Decodable(topic, e) && e.offset < reach[e.partition]
  {
    if topic != [] {
      var below := DecodableBelow(Last(topic), Last(reach));
      DeliveredOnceMembers(Init(topic), Init(reach), e);
      DecodableBelowMembers(Last(topic), Last(reach));
      var here := OfPartition(|topic| - 1, below);
      assert e in here <==> e.partition == |topic| - 1 && e.offset in below by {
        if e.partition == |topic| - 1 && e.offset in below {
          var i :| 0 <= i < |below| && below[i] == e.offset;
          assert here[i] == e;
        }
      }
    }
  }

  ghost function Reaches(t: State): (reach: seq<nat>)
    ensures |reach| == |t.log|
  {
    seq(|t.log|, p requires 0 <= p < |t.log| => Reach(t.table, p))
  }

  /** In every reachable state the table, with all its repeats, has exactly the messages of a single
      delivery up to where it reaches. */
  lemma TableIsOneDelivery(caps: Caps, t: State)
    requires caps.Valid() && Reachable(caps, t)
    ensures forall p | 0 <= p < |t.log| :: Reaches(t)[p] <= |t.log[p]|
    ensures forall e :: e in t.table <==> e in DeliveredOnce(t.log, Reaches(t))
    ensures forall e | e in t.table :: Decodable(t.log, e)
  {
    AtLeastOnce(caps, t);
    forall p | 0 <= p < |t.log| ensures Reaches(t)[p] <= |t.log[p]| { TableIsPrefix(caps, t, p); }
    forall e
      ensures e in t.table <==> e in DeliveredOnce(t.log, Reaches(t))
    {
      DeliveredOnceMembers(t.log, Reaches(t), e);
      if e.partition < |t.log| {
        TableIsPrefix(caps, t, e.partition);
        OffsetsOfMembers(t.table, e.partition);
        FirstOccurrencesMembers(OffsetsOf(t.table, e.partition));
        DecodableBelowMembers(t.log[e.partition], Reach(t.table, e.partition));
        assert e == Entry(e.partition, e.offset);
      }
    }
  }

  /** The Silver input: trimmed and without exact duplicates. */
  function SilverInput(rows: seq<Row>): seq<Row> {
    DropDuplicates(TrimRows(rows))
  }

  /** r is q without the spaces around key and payload. */
  predicate Trimmed(q: Row, r: Row) {
    r.key == Trim(q.key) && r.payload == Trim(q.payload) && r.cdcTsMs == q.cdcTsMs
  }

  /** The Silver input holds, once each, the rows given with the spaces around key and payload removed, and
      nothing else. */
  lemma SilverInputIs(rows: seq<Row>)
    ensures forall i, j | 0 <= i < j < |SilverInput(rows)| :: SilverInput(rows)[i] != SilverInput(rows)[j]
    ensures forall r :: r in SilverInput(rows) <==> exists q | q in rows :: Trimmed(q, r)
  {
    var trimmed := TrimRows(rows);
    FirstOccurrencesMembers(trimmed);
    forall r
      ensures r in trimmed <==> exists q | q in rows :: Trimmed(q, r)
    {
      if q :| q in rows && Trimmed(q, r) {
        var i :| 0 <= i < |rows| && rows[i] == q;
        assert trimmed[i] == r;
      }
      if r in trimmed {
        var i :| 0 <= i < |trimmed| && trimmed[i] == r;
        assert rows[i] in rows && Trimmed(rows[i], r);
      }
    }
  }

  /** A message that carries this row, trimmed. */
  predicate Carries(topic: Topic, e: Entry, r: Row) {
    && e.partition < |topic| && e.offset < |topic[e.partition]|
    && topic[e.partition][e.offset].Change? && Trimmed(topic[e.partition][e.offset].row, r)
  }

  /** What Silver gets of landed messages is what the messages carry. */
  lemma SilverRowsAreMessages(topic: Topic, s: seq<Entry>, r: Row)
    requires forall e | e in s :: Decodable(topic, e)
    ensures r in SilverInput(TableRows(topic, s)) <==> exists e | e in s :: Carries(topic, e, r)
  {
    hide Trimmed, SilverInput;
    var rows := TableRows(topic, s);
    SilverInputIs(rows);
    if e :| e in s && Carries(topic, e, r) {
      var i :| 0 <= i < |s| && s[i] == e;
      assert rows[i] in rows && Trimmed(rows[i], r);
    }
    if q :| q in rows && Trimmed(q, r) {
      var i :| 0 <= i < |rows| && rows[i] == q;
      assert s[i] in s && Carries(topic, s[i], r);
    }
  }

  /** Whatever the ranking returns: for every message one row of its key, no message of the key is later, and
      the row is that of a message. */
  lemma LatestOfMessages(topic: Topic, s: seq<Entry>, result: set<Row>)
    requires forall e | e in s :: Decodable(topic, e)
    requires KeepsLatest(RowSet(SilverInput(TableRows(topic, s))), result)
    ensures forall k | k in result :: exists e | e in s :: Carries(topic, e, k)
    ensures forall e, r | e in s && Carries(topic, e, r) :: exists k | k in result :: k.key == r.key
    ensures forall k, e, r | k in result && e in s && Carries(topic, e, r) && r.key == k.key :: r.cdcTsMs <= k.cdcTsMs
    ensures forall k1, k2 | k1 in result && k2 in result && k1.key == k2.key :: k1 == k2
  {
    var rows := SilverInput(TableRows(topic, s));
    forall r
      ensures r in RowSet(rows) <==> exists e | e in s :: Carries(topic, e, r)
    {
      SilverRowsAreMessages(topic, s, r);
    }
    hide Carries;
    forall k | k in result
      ensures k in RowSet(rows)
    {
      assert IsLatest(RowSet(rows), k);
    }
    forall e, r | e in s && Carries(topic, e, r)
      ensures exists k | k in result :: k.key == r.key
    {
      assert HasKey(result, r.key);
    }
    forall k, e, r | k in result && e in s && Carries(topic, e, r) && r.key == k.key
      ensures r.cdcTsMs <= k.cdcTsMs
    {
      assert IsLatest(RowSet(rows), k);
    }
  }

  lemma {:induction false} DistinctSize(rows: seq<Row>)
    requires forall i, j | 0 <= i < j < |rows| :: rows[i] != rows[j]
    ensures |rows| == |RowSet(rows)|
  {
    if rows != [] {
      DistinctSize(Init(rows));
      InitLast(rows);
      assert RowSet(rows) == RowSet(Init(rows)) + {Last(rows)};
    }
  }

  lemma SameSize(a: seq<Row>, b: seq<Row>)
    requires RowSet(SilverInput(a)) == RowSet(SilverInput(b))
    ensures |SilverInput(a)| == |SilverInput(b)|
  {
    hide SilverInput;
    SilverInputIs(a);
    SilverInputIs(b);
    DistinctSize(SilverInput(a));
    DistinctSize(SilverInput(b));
  }

  lemma SameMessagesSameInput(topic: Topic, s: seq<Entry>, t: seq<Entry>)
    requires forall e | e in s || e in t :: Decodable(topic, e)
    requires forall e | e in s :: e in t
    ensures RowSet(SilverInput(TableRows(topic, s))) <= RowSet(SilverInput(TableRows(topic, t)))
  {
    forall r | r in SilverInput(TableRows(topic, s))
      ensures r in SilverInput(TableRows(topic, t))
    {
      SilverRowsAreMessages(topic, s, r);
      SilverRowsAreMessages(topic, t, r);
    }
  }

  ghost function DeliveredOnceTo(t: State): seq<Entry> {
    if forall p | 0 <= p < |t.log| :: Reaches(t)[p] <= |t.log[p]| then DeliveredOnce(t.log, Reaches(t)) else []
  }

  /** Equal sets of messages, however often and in whatever order they were appended, give Silver the
      same rows, each once, and so the same latest row per key when no two of them tie. */
  lemma SameMessagesSameSilver(topic: Topic, s: seq<Entry>, t: seq<Entry>)
    requires forall e | e in s || e in t :: Decodable(topic, e)
    requires forall e :: e in s <==> e in t
    ensures RowSet(SilverInput(TableRows(topic, s))) == RowSet(SilverInput(TableRows(topic, t)))
    ensures |SilverInput(TableRows(topic, s))| == |SilverInput(TableRows(topic, t))|
    ensures Determined(RowSet(SilverInput(TableRows(topic, s)))) <==> NoTie(RowSet(SilverInput(TableRows(topic, t))))
  {
    hide SilverInput, Determined, NoTie;
    SameMessagesSameInput(topic, s, t);
    SameMessagesSameInput(topic, t, s);
    DeterminedIffNoTie(SilverInput(TableRows(topic, s)));
    SameSize(TableRows(topic, s), TableRows(topic, t));
  }

  /** Silver absorbs redelivery: whatever retries, recoveries and crashes left in the table, its rows
      for the keyed de-duplication are those of a single delivery, and the result is determined
      exactly when no two different rows of that delivery tie as the latest of a key. */
  lemma SilverAbsorbsRedelivery(caps: Caps, t: State)
    requires caps.Valid() && Reachable(caps, t)
    ensures forall e | e in t.table || e in DeliveredOnceTo(t) :: Decodable(t.log, e)
    ensures RowSet(SilverInput(TableRows(t.log, t.table))) == RowSet(SilverInput(TableRows(t.log, DeliveredOnceTo(t))))
    ensures |SilverInput(TableRows(t.log, t.table))| == |SilverInput(TableRows(t.log, DeliveredOnceTo(t)))|
    ensures Determined(RowSet(SilverInput(TableRows(t.log, t.table)))) <==>
            NoTie(RowSet(SilverInput(TableRows(t.log, DeliveredOnceTo(t)))))
  {
    TableIsOneDelivery(caps, t);
    SameMessagesSameSilver(t.log, t.table, DeliveredOnceTo(t));
  }
}
