/** Reading a table's schema from its Delta log: newest commit first, stopping at the first metaData. */
module DeltaLog {
  import opened Common

  datatype Field = Field(name: string, sparkType: string)

  /** One line of a commit file, as far as the reader looks at it. */
  datatype Line = Blank | Malformed | OtherAction | MetaData(schema: seq<Field>)

  datatype StorageObject = StorageObject(name: string, lines: seq<Line>)

  datatype ReadError = NO_METADATA | MALFORMED_JSON

  type Schema = seq<Field>

  // ---- Names

  /** Strings compare by their first difference, a proper prefix before its extensions. */
  predicate NameLess(a: string, b: string) {
    b != [] && (a == [] || a[0] < b[0] || (a[0] == b[0] && NameLess(a[1..], b[1..])))
  }

  function Pow10(n: nat): nat {
    if n == 0 then 1 else 10 * Pow10(n - 1)
  }

  /** The low n decimal digits of v, zero-padded. */
  function Padded(v: nat, n: nat): string {
    if n == 0 then "" else Padded(v / 10, n - 1) + ['0' + (v % 10) as char]
  }

  /** A commit file's name; the protocol pads versions to twenty digits. */
  function CommitName(version: nat, width: nat): string {
    Padded(version, width) + ".json"
  }

  predicate EndsWith(s: string, suffix: string) {
    |s| >= |suffix| && s[|s| - |suffix|..] == suffix
  }

  lemma {:induction false} PaddedLength(v: nat, n: nat)
    ensures |Padded(v, n)| == n
  {
    if n > 0 {
      PaddedLength(v / 10, n - 1);
    }
  }

  lemma {:induction false} LessBeforeCommonSuffix(a: string, b: string, x: char, y: char, suffix: string)
    requires |a| == |b|
    ensures NameLess(a + [x], b + [y]) <==> NameLess(a, b) || (a == b && x < y)
    ensures NameLess(a + suffix, b + suffix) <==> NameLess(a, b)
  {
    if a == [] {
      assert a + suffix == suffix && b + suffix == suffix;
      Irreflexive(suffix);
    } else {
      assert (a + [x])[1..] == a[1..] + [x] && (b + [y])[1..] == b[1..] + [y];
      assert (a + suffix)[1..] == a[1..] + suffix && (b + suffix)[1..] == b[1..] + suffix;
      assert a == b <==> a[0] == b[0] && a[1..] == b[1..];
      LessBeforeCommonSuffix(a[1..], b[1..], x, y, suffix);
    }
  }

  lemma {:induction false} Irreflexive(a: string)
    ensures !NameLess(a, a)
  {
    if a != [] {
      Irreflexive(a[1..]);
    }
  }

  lemma {:induction false} PaddedOrder(v: nat, w: nat, n: nat)
    requires v < Pow10(n) && w < Pow10(n)
    ensures NameLess(Padded(v, n), Padded(w, n)) <==> v < w
    ensures Padded(v, n) == Padded(w, n) <==> v == w
  {
    if n > 0 {
      var a, b := Padded(v / 10, n - 1), Padded(w / 10, n - 1);
      var x, y := '0' + (v % 10) as char, '0' + (w % 10) as char;
      PaddedLength(v / 10, n - 1);
      PaddedLength(w / 10, n - 1);
      PaddedOrder(v / 10, w / 10, n - 1);
      LessBeforeCommonSuffix(a, b, x, y, "");
      assert Padded(v, n) == a + [x] && Padded(w, n) == b + [y];
      assert (a + [x])[..n - 1] == a && (b + [y])[..n - 1] == b;
      assert (a + [x])[n - 1] == x && (b + [y])[n - 1] == y;
    }
  }

  /** With versions padded to one width, the order of the names is the order of the versions. */
  lemma NameOrderIsVersionOrder(v: nat, w: nat, width: nat)
    requires v < Pow10(width) && w < Pow10(width)
    ensures NameLess(CommitName(v, width), CommitName(w, width)) <==> v < w
    ensures CommitName(v, width) == CommitName(w, width) <==> v == w
    ensures EndsWith(CommitName(v, width), ".json")
  {
    hide Pow10, Padded;
    PaddedOrder(v, w, width);
    PaddedLength(v, width);
    PaddedLength(w, width);
    var a, b := Padded(v, width), Padded(w, width);
    LessBeforeCommonSuffix(a, b, 'x', 'x', ".json");
    assert CommitName(v, width)[..width] == a && CommitName(w, width)[..width] == b;
  }

  /** Without the padding, version 10 would sort before version 9. */
  lemma UnpaddedNamesMislead()
    ensures NameLess("10.json", "9.json")
  {
  }

  // ---- The listing

  function JsonObjects(listing: seq<StorageObject>): seq<StorageObject> {
    if listing == [] then []
    else JsonObjects(Init(listing)) + if EndsWith(Last(listing).name, ".json") then [Last(listing)] else []
  }

  /** Put one object in front of the first whose name is smaller; equals keep their order. */
  function InsertNewestFirst(o: StorageObject, sorted: seq<StorageObject>): seq<StorageObject> {
    if sorted == [] || NameLess(sorted[0].name, o.name) then [o] + sorted
    else [sorted[0]] + InsertNewestFirst(o, sorted[1..])
  }

  /** Stable sort by name, greatest first. */
  function NewestFirst(objects: seq<StorageObject>): seq<StorageObject> {
    if objects == [] then [] else InsertNewestFirst(Last(objects), NewestFirst(Init(objects)))
  }

  predicate Descending(objects: seq<StorageObject>) {
    forall i, j | 0 <= i < j < |objects| :: !NameLess(objects[i].name, objects[j].name)
  }

  lemma {:induction false} NameTotal(a: string, b: string)
    ensures NameLess(a, b) || NameLess(b, a) || a == b
    ensures !(NameLess(a, b) && NameLess(b, a))
  {
    if a != [] && b != [] && a[0] == b[0] {
      NameTotal(a[1..], b[1..]);
      assert a == [a[0]] + a[1..] && b == [b[0]] + b[1..];
    }
  }

  lemma {:induction false} NameTransitive(a: string, b: string, c: string)
    requires !NameLess(a, b) && !NameLess(b, c)
    ensures !NameLess(a, c)
  {
    if a != [] && b != [] && c != [] && a[0] == b[0] == c[0] {
      NameTransitive(a[1..], b[1..], c[1..]);
    }
  }

  lemma {:induction false} InsertPermutes(o: StorageObject, sorted: seq<StorageObject>)
    ensures multiset(InsertNewestFirst(o, sorted)) == multiset(sorted) + multiset{o}
  {
    hide NameLess;
    if sorted != [] && !NameLess(sorted[0].name, o.name) {
      InsertPermutes(o, sorted[1..]);
      assert sorted == [sorted[0]] + sorted[1..];
    }
  }

  lemma {:induction false} InsertSorts(o: StorageObject, sorted: seq<StorageObject>)
    requires Descending(sorted)
    ensures Descending(InsertNewestFirst(o, sorted))
  {
    hide NameLess;
    InsertPermutes(o, sorted);
    if sorted == [] || NameLess(sorted[0].name, o.name) {
      forall j | 0 <= j < |sorted|
        ensures !NameLess(o.name, sorted[j].name)
      {
        NameTotal(sorted[0].name, o.name);
        Irreflexive(sorted[0].name);
        NameTransitive(o.name, sorted[0].name, sorted[j].name);
      }
    } else {
      var rest := InsertNewestFirst(o, sorted[1..]);
      InsertSorts(o, sorted[1..]);
      InsertPermutes(o, sorted[1..]);
      forall j | 0 <= j < |rest|
        ensures !NameLess(sorted[0].name, rest[j].name)
      {
        assert rest[j] in multiset(rest);
      }
    }
  }

  /** The sort is a permutation, greatest name first. */
  lemma {:induction false} NewestFirstSorts(objects: seq<StorageObject>)
    ensures Descending(NewestFirst(objects))
    ensures multiset(NewestFirst(objects)) == multiset(objects)
  {
    if objects != [] {
      InitLast(objects);
      NewestFirstSorts(Init(objects));
      InsertPermutes(Last(objects), NewestFirst(Init(objects)));
      InsertSorts(Last(objects), NewestFirst(Init(objects)));
    }
  }

  predicate DistinctNames(objects: seq<StorageObject>) {
    forall i, j | 0 <= i < j < |objects| :: objects[i].name != objects[j].name
  }

  lemma SameTails<T>(a: seq<T>, b: seq<T>)
    requires a != [] && b != [] && a[0] == b[0] && multiset(a) == multiset(b)
    ensures multiset(a[1..]) == multiset(b[1..])
  {
    assert a == [a[0]] + a[1..] && b == [b[0]] + b[1..];
    assert multiset(a[1..]) == multiset(a) - multiset{a[0]};
  }

  /** Distinct names leave the sort no choice. */
  lemma {:induction false} OneSortedOrder(a: seq<StorageObject>, b: seq<StorageObject>)
    requires Descending(a) && Descending(b) && DistinctNames(a) && multiset(a) == multiset(b)
    ensures a == b
  {
    hide NameLess;
    if a == [] || b == [] {
      assert |multiset(a)| == |a| && |multiset(b)| == |b|;
    } else {
      assert a[0] in multiset(b) && b[0] in multiset(a);
      var i :| 0 <= i < |b| && b[i] == a[0];
      var j :| 0 <= j < |a| && a[j] == b[0];
      NameTotal(a[0].name, b[0].name);
      Irreflexive(a[0].name);
      assert j == 0;
      SameTails(a, b);
      OneSortedOrder(a[1..], b[1..]);
    }
  }

  // ---- The scan

  function AllLines(objects: seq<StorageObject>): seq<Line> {
    if objects == [] then [] else objects[0].lines + AllLines(objects[1..])
  }

  /** The first line that ends the scan: a metaData action, or one that is not JSON. */
  function FirstDecisive(lines: seq<Line>): Option<Line> {
    if lines == [] then None
    else if lines[0].MetaData? || lines[0].Malformed? then Some(lines[0])
    else FirstDecisive(lines[1..])
  }

  /** What the lines, read in this order, make of the schema. */
  function Verdict(lines: seq<Line>): Result<Option<Schema>, ReadError> {
    match FirstDecisive(lines)
    case None => Err(NO_METADATA)
    case Some(MetaData(schema)) => Ok(Some(schema))
    case Some(_) => Err(MALFORMED_JSON)
  }

  function Scan(listing: seq<StorageObject>): Result<Option<Schema>, ReadError> {
    var commits := NewestFirst(JsonObjects(listing));
    if commits == [] then Ok(None) else Verdict(AllLines(commits))
  }

  /** The reader's two loops with their early return. */
  method ReadDeltaSchema(listing: seq<StorageObject>) returns (schema: Result<Option<Schema>, ReadError>)
    ensures schema == Scan(listing)
  {
    var commits := NewestFirst(JsonObjects(listing));
    if commits == [] {
      return Ok(None);
    }
    assert commits[0..] == commits;
    var i := 0;
    while i < |commits|
      invariant 0 <= i <= |commits|
      invariant Verdict(AllLines(commits)) == Verdict(AllLines(commits[i..]))
    {
      var lines := commits[i].lines;
      ghost var older := AllLines(commits[i + 1..]);
      assert commits[i..][1..] == commits[i + 1..] && lines[0..] + older == lines + older;
      var j := 0;
      while j < |lines|
        invariant 0 <= j <= |lines|
        invariant Verdict(AllLines(commits)) == Verdict(lines[j..] + older)
      {
        assert (lines[j..] + older)[1..] == lines[j + 1..] + older;
        if lines[j].Malformed? {
          return Err(MALFORMED_JSON);
        }
        if lines[j].MetaData? {
          return Ok(Some(lines[j].schema));
        }
        j := j + 1;
      }
      assert lines[j..] + older == older;
      i := i + 1;
    }
    assert AllLines(commits[i..]) == [];
    return Err(NO_METADATA);
  }

  // ---- Replaying the log

  datatype Commit = Commit(version: nat, lines: seq<Line>)

  /** The commits of a log, oldest first. */
  predicate InVersionOrder(log: seq<Commit>, width: nat) {
    && (forall i, j | 0 <= i < j < |log| :: log[i].version < log[j].version)
    && (forall i | 0 <= i < |log| :: log[i].version < Pow10(width))
  }

  /** A log whose lines can all be read. */
  predicate IsLog(log: seq<Commit>, width: nat) {
    InVersionOrder(log, width) && forall i | 0 <= i < |log| :: Readable(log[i].lines)
  }

  predicate Readable(lines: seq<Line>) {
    forall k | 0 <= k < |lines| :: !lines[k].Malformed?
  }

  /** The commit files, newest first. */
  function Files(log: seq<Commit>, width: nat): seq<StorageObject> {
    if log == [] then [] else [StorageObject(CommitName(Last(log).version, width), Last(log).lines)] + Files(Init(log), width)
  }

  function LastMetaData(lines: seq<Line>): Option<Schema> {
    if lines == [] then None
    else if Last(lines).MetaData? then Some(Last(lines).schema)
    else LastMetaData(Init(lines))
  }

  /** The schema after applying every action of every commit in order: each metaData replaces the one before. */
  function Replay(log: seq<Commit>, start: Option<Schema>): Option<Schema> {
    if log == [] then start
    else ApplyAll(Last(log).lines, Replay(Init(log), start))
  }

  function ApplyAll(lines: seq<Line>, current: Option<Schema>): Option<Schema> {
    if lines == [] then current
    else ApplyAll(lines[1..], if lines[0].MetaData? then Some(lines[0].schema) else current)
  }

  /** The newest commit that changes the metadata. */
  function NewestWithMetaData(log: seq<Commit>): Option<Commit> {
    if log == [] then None
    else if exists l | l in Last(log).lines :: l.MetaData? then Some(Last(log))
    else NewestWithMetaData(Init(log))
  }

  lemma {:induction false} ApplyAllIsLast(lines: seq<Line>, current: Option<Schema>)
    ensures ApplyAll(lines, current) == if LastMetaData(lines).Some? then LastMetaData(lines) else current
  {
    if lines != [] {
      var next := if lines[0].MetaData? then Some(lines[0].schema) else current;
      ApplyAllIsLast(lines[1..], next);
      LastOfTail(lines);
    }
  }

  lemma {:induction false} LastOfTail(lines: seq<Line>)
    requires lines != []
    ensures LastMetaData(lines) ==
            if LastMetaData(lines[1..]).Some? then LastMetaData(lines[1..])
            else if lines[0].MetaData? then Some(lines[0].schema) else None
  {
    if |lines| > 1 {
      assert Init(lines)[1..] == Init(lines[1..]) && Last(lines[1..]) == Last(lines);
      LastOfTail(Init(lines));
    } else {
      assert Init(lines) == [];
    }
  }

  lemma {:induction false} DecisiveConcat(a: seq<Line>, b: seq<Line>)
    ensures FirstDecisive(a + b) == if FirstDecisive(a).Some? then FirstDecisive(a) else FirstDecisive(b)
  {
    if a == [] {
      assert a + b == b;
    } else {
      assert (a + b)[1..] == a[1..] + b;
      DecisiveConcat(a[1..], b);
    }
  }

  lemma {:induction false} DecisiveIsMetaData(lines: seq<Line>)
    requires Readable(lines)
    ensures FirstDecisive(lines).Some? <==> exists l | l in lines :: l.MetaData?
    ensures FirstDecisive(lines).Some? ==> FirstDecisive(lines).value.MetaData?
    ensures LastMetaData(lines).Some? <==> FirstDecisive(lines).Some?
  {
    if lines != [] {
      assert lines == [lines[0]] + lines[1..];
      DecisiveIsMetaData(lines[1..]);
      LastOfTail(lines);
    }
  }

  // ---- The two agree

  /** The first metaData of a commit is also its last, or equal to it. */
  predicate StartsAsItEnds(lines: seq<Line>) {
    LastMetaData(lines).Some? ==> FirstDecisive(lines) == Some(MetaData(LastMetaData(lines).value))
  }

  lemma {:induction false} FileAt(log: seq<Commit>, width: nat, k: nat)
    ensures |Files(log, width)| == |log|
    ensures k < |log| ==> Files(log, width)[k].name == CommitName(log[|log| - 1 - k].version, width)
  {
    hide CommitName;
    if log != [] {
      FileAt(Init(log), width, if k == 0 then 0 else k - 1);
    }
  }

  lemma FilesSorted(log: seq<Commit>, width: nat)
    requires InVersionOrder(log, width)
    ensures |Files(log, width)| == |log| && Descending(Files(log, width)) && DistinctNames(Files(log, width))
  {
    hide NameLess, CommitName, Pow10, Readable, Files;
    FileAt(log, width, 0);
    forall i, j | 0 <= i < j < |log|
      ensures !NameLess(Files(log, width)[i].name, Files(log, width)[j].name) && Files(log, width)[i].name != Files(log, width)[j].name
    {
      FileAt(log, width, i);
      FileAt(log, width, j);
      NameOrderIsVersionOrder(log[|log| - 1 - i].version, log[|log| - 1 - j].version, width);
    }
  }

  predicate IsCommitFile(o: StorageObject) {
    EndsWith(o.name, ".json")
  }

  lemma CommitFilesAre(o: StorageObject)
    ensures IsCommitFile(o) <==> exists base :: o.name == base + ".json"
  {
    if IsCommitFile(o) {
      var base := o.name[..|o.name| - 5];
      assert o.name == base + ".json";
    }
  }

  /** The filter keeps exactly the commit files, each as often as it is listed. */
  lemma {:induction false} JsonObjectsOf(listing: seq<StorageObject>, o: StorageObject)
    ensures multiset(JsonObjects(listing))[o] == if IsCommitFile(o) then multiset(listing)[o] else 0
  {
    if listing != [] {
      InitLast(listing);
      JsonObjectsOf(Init(listing), o);
      assert multiset(listing) == multiset(Init(listing)) + multiset{Last(listing)};
    }
  }

  /** A listing of a log: its commit files in any order, among other objects. */
  lemma ListedLog(log: seq<Commit>, width: nat, listing: seq<StorageObject>, others: seq<StorageObject>)
    requires InVersionOrder(log, width) && multiset(listing) == multiset(Files(log, width)) + multiset(others)
    requires forall k | 0 <= k < |others| :: !IsCommitFile(others[k])
    ensures multiset(JsonObjects(listing)) == multiset(Files(log, width))
  {
    hide CommitName, InVersionOrder, JsonObjects;
    forall o: StorageObject
      ensures multiset(JsonObjects(listing))[o] == multiset(Files(log, width))[o]
    {
      JsonObjectsOf(listing, o);
      if o in multiset(Files(log, width)) {
        FilesAreCommitFiles(log, width, o);
      }
      if o in multiset(others) {
        var k :| 0 <= k < |others| && others[k] == o;
        assert !IsCommitFile(o);
      }
    }
  }

  lemma {:induction false} FilesAreCommitFiles(log: seq<Commit>, width: nat, o: StorageObject)
    requires InVersionOrder(log, width) && o in Files(log, width)
    ensures IsCommitFile(o)
  {
    hide CommitName, Pow10, Readable, EndsWith;
    if o.name == CommitName(Last(log).version, width) {
      NameOrderIsVersionOrder(Last(log).version, Last(log).version, width);
    } else {
      FilesAreCommitFiles(Init(log), width, o);
    }
  }

  /** Whatever order the listing comes in, and whatever else it holds, the scan reads the log newest first. */
  lemma ScanReadsTheLog(log: seq<Commit>, width: nat, listing: seq<StorageObject>)
    requires InVersionOrder(log, width) && multiset(JsonObjects(listing)) == multiset(Files(log, width))
    ensures NewestFirst(JsonObjects(listing)) == Files(log, width)
  {
    FilesSorted(log, width);
    NewestFirstSorts(JsonObjects(listing));
    OneSortedOrder(Files(log, width), NewestFirst(JsonObjects(listing)));
  }

  /** Reading newest first finds the first metaData of the newest commit that has one; replaying ends
      with the last metaData of that commit. */
  lemma {:induction false} ScanFindsNewest(log: seq<Commit>, width: nat)
    requires IsLog(log, width)
    ensures NewestWithMetaData(log).None? ==> FirstDecisive(AllLines(Files(log, width))) == None && Replay(log, None) == None
    ensures NewestWithMetaData(log).Some? ==>
              var lines := NewestWithMetaData(log).value.lines;
              && Readable(lines) && LastMetaData(lines).Some?
              && FirstDecisive(AllLines(Files(log, width))) == FirstDecisive(lines)
              && Replay(log, None) == LastMetaData(lines)
  {
    if log != [] {
      var newest := Last(log).lines;
      ScanFindsNewest(Init(log), width);
      assert Files(log, width)[1..] == Files(Init(log), width);
      DecisiveConcat(newest, AllLines(Files(Init(log), width)));
      DecisiveIsMetaData(newest);
      ApplyAllIsLast(newest, Replay(Init(log), None));
    }
  }

  /** The backward scan gives the replayed schema exactly when the newest commit with a metaData starts
      and ends on the same one. */
  lemma ScanIsReplay(log: seq<Commit>, width: nat, listing: seq<StorageObject>)
    requires IsLog(log, width) && multiset(JsonObjects(listing)) == multiset(Files(log, width))
    ensures log == [] ==> Scan(listing) == Ok(None)
    ensures log != [] && Replay(log, None) == None ==> Scan(listing) == Err(NO_METADATA)
    ensures Replay(log, None).Some? ==>
              && NewestWithMetaData(log).Some? && Scan(listing).Ok?
              && (Scan(listing) == Ok(Replay(log, None)) <==> StartsAsItEnds(NewestWithMetaData(log).value.lines))
  {
    ScanReadsTheLog(log, width, listing);
    ScanFindsNewest(log, width);
    FilesSorted(log, width);
    if NewestWithMetaData(log).Some? {
      DecisiveIsMetaData(NewestWithMetaData(log).value.lines);
    }
  }

  predicate Decisive(line: Line) {
    line.MetaData? || line.Malformed?
  }

  /** The line that ends a scan of these lines is the first that is a metaData or no JSON. */
  lemma {:induction false} VerdictIs(lines: seq<Line>)
    ensures (exists k :: EndsScan(lines, k)) || forall j | 0 <= j < |lines| :: !Decisive(lines[j])
    ensures forall k | EndsScan(lines, k) ::
              Verdict(lines) == match lines[k] case MetaData(schema) => Ok(Some(schema)) case _ => Err(MALFORMED_JSON)
    ensures (forall j | 0 <= j < |lines| :: !Decisive(lines[j])) <==> Verdict(lines) == Err(NO_METADATA)
  {
    if lines != [] {
      var rest := lines[1..];
      VerdictIs(rest);
      if Decisive(lines[0]) {
        assert EndsScan(lines, 0);
      } else {
        forall k
          ensures EndsScan(lines, k + 1) <==> EndsScan(rest, k)
        {
          NextEndsScan(lines, k);
        }
        if k :| EndsScan(rest, k) {
          assert EndsScan(lines, k + 1);
        }
        forall k | EndsScan(lines, k)
          ensures EndsScan(rest, k - 1)
        {
          NextEndsScan(lines, k - 1);
        }
        assert forall j | 0 <= j < |rest| :: rest[j] == lines[j + 1];
      }
    }
  }

  ghost predicate EndsScan(lines: seq<Line>, k: int) {
    0 <= k < |lines| && Decisive(lines[k]) && forall j | 0 <= j < k :: !Decisive(lines[j])
  }

  lemma NextEndsScan(lines: seq<Line>, k: int)
    requires lines != [] && !Decisive(lines[0])
    ensures EndsScan(lines, k + 1) <==> EndsScan(lines[1..], k)
  {
    assert forall j | 0 <= j < |lines| - 1 :: lines[1..][j] == lines[j + 1];
    if EndsScan(lines, k + 1) {
      assert forall j | 0 <= j < k :: lines[1..][j] == lines[j + 1];
    }
  }

  /** Whatever its lines are, a log is read back to the newest commit that has a decisive line, and answered by
      the first of them: an older commit is not looked at, not even a damaged one. */
  lemma ScanStopsAt(log: seq<Commit>, width: nat, listing: seq<StorageObject>, i: nat)
    requires InVersionOrder(log, width) && multiset(JsonObjects(listing)) == multiset(Files(log, width)) && i < |log|
    requires exists k :: EndsScan(log[i].lines, k)
    requires forall l, j | i < l < |log| && 0 <= j < |log[l].lines| :: !Decisive(log[l].lines[j])
    ensures Scan(listing) == Verdict(log[i].lines)
  {
    hide Files, JsonObjects, InVersionOrder;
    ScanReadsTheLog(log, width, listing);
    FilesSorted(log, width);
    FirstDecisiveOfLog(log, width, i);
  }

  lemma {:induction false} FirstDecisiveOfLog(log: seq<Commit>, width: nat, i: nat)
    requires i < |log| && exists k :: EndsScan(log[i].lines, k)
    requires forall l, j | i < l < |log| && 0 <= j < |log[l].lines| :: !Decisive(log[l].lines[j])
    ensures FirstDecisive(AllLines(Files(log, width))) == FirstDecisive(log[i].lines)
  {
    hide CommitName;
    var newest := Last(log).lines;
    assert Files(log, width)[1..] == Files(Init(log), width);
    DecisiveConcat(newest, AllLines(Files(Init(log), width)));
    VerdictIs(newest);
    if i < |log| - 1 {
      FirstDecisiveOfLog(Init(log), width, i);
    }
  }

  predicate AtMostOneMetaData(lines: seq<Line>) {
    forall i, j | 0 <= i < j < |lines| :: !(lines[i].MetaData? && lines[j].MetaData?)
  }

  /** In particular with at most one metaData a commit, as the protocol's 'Change Metadata' section has it. */
  lemma ScanIsReplayForProtocolLogs(log: seq<Commit>, width: nat, listing: seq<StorageObject>)
    requires IsLog(log, width) && multiset(JsonObjects(listing)) == multiset(Files(log, width))
    requires forall i | 0 <= i < |log| :: AtMostOneMetaData(log[i].lines)
    ensures Replay(log, None).Some? ==> Scan(listing) == Ok(Replay(log, None))
  {
    hide JsonObjects, Scan, IsLog, AtMostOneMetaData, Replay, Files;
    ScanIsReplay(log, width, listing);
    ScanFindsNewest(log, width);
    if Replay(log, None).Some? {
      NewestIsInLog(log);
      var lines := NewestWithMetaData(log).value.lines;
      FirstIsLast(lines);
      DecisiveIsMetaData(lines);
    }
  }

  lemma {:induction false} NewestIsInLog(log: seq<Commit>)
    ensures NewestWithMetaData(log).Some? ==> NewestWithMetaData(log).value in log
  {
    if log != [] {
      NewestIsInLog(Init(log));
    }
  }

  lemma {:induction false} FirstIsLast(lines: seq<Line>)
    requires Readable(lines) && AtMostOneMetaData(lines)
    ensures StartsAsItEnds(lines)
  {
    if lines != [] {
      LastOfTail(lines);
      FirstIsLast(lines[1..]);
      DecisiveIsMetaData(lines[1..]);
    }
  }

  /** Two metaData in one commit: the scan answers with the first, the table has the second. */
  lemma TwoMetaDataDisagree(one: Schema, two: Schema, width: nat)
    requires one != two
    ensures var log := [Commit(0, [MetaData(one), MetaData(two)])];
            IsLog(log, width) && Scan(Files(log, width)) == Ok(Some(one)) && Replay(log, None) == Some(two)
  {
    hide NameLess, CommitName, Pow10;
    var lines := [MetaData(one), MetaData(two)];
    var log := [Commit(0, lines)];
    PowersArePositive(width);
    NameOrderIsVersionOrder(0, 0, width);
    assert Files(log, width) == [StorageObject(CommitName(0, width), lines)] by {
      assert Files(Init(log), width) == [];
    }
    assert JsonObjects(Files(log, width)) == Files(log, width) by {
      assert JsonObjects(Init(Files(log, width))) == [];
    }
    ScanReadsTheLog(log, width, Files(log, width));
    assert FirstDecisive(lines) == Some(MetaData(one)) && LastMetaData(lines) == Some(two);
    ScanFindsNewest(log, width);
  }

  lemma {:induction false} PowersArePositive(n: nat)
    ensures Pow10(n) > 0
  {
    if n > 0 {
      PowersArePositive(n - 1);
    }
  }
}
