/** Object-store locations: validation, key normalisation and the round trip through a URI. */
module StorageLocation {
  import opened Common

  datatype Location = Location(scheme: string, bucket: string, key: string) {
    function Uri(): string {
      scheme + "://" + bucket + "/" + key
    }
  }

  datatype LocationError = EMPTY_SCHEME | EMPTY_BUCKET | EMPTY_KEY | MISSING_SCHEME | MISSING_BUCKET | BAD_NETLOC

  // ---- Characters and ends of strings

  /** What strip() removes. */
  predicate IsSpace(c: char) {
    || '\t' <= c <= '\r' || '\U{1c}' <= c <= ' ' || c == '\U{85}' || c == '\U{a0}' || c == '\U{1680}'
    || '\U{2000}' <= c <= '\U{200a}' || c == '\U{2028}' || c == '\U{2029}' || c == '\U{202f}' || c == '\U{205f}' || c == '\U{3000}'
  }

  function StripLeft(s: string): string {
    if s != "" && IsSpace(s[0]) then StripLeft(s[1..]) else s
  }

  function StripRight(s: string): string {
    if s != "" && IsSpace(Last(s)) then StripRight(Init(s)) else s
  }

  function Strip(s: string): string {
    StripRight(StripLeft(s))
  }

  function DropSlashes(s: string): string {
    if s != "" && s[0] == '/' then DropSlashes(s[1..]) else s
  }

  function LowerChar(c: char): char {
    if 'A' <= c <= 'Z' then c - 'A' + 'a' else c
  }

  function Lower(s: string): string {
    if s == "" then "" else [LowerChar(s[0])] + Lower(s[1..])
  }

  predicate EndsWithSlash(s: string) {
    s != "" && Last(s) == '/'
  }

  // ---- Paths

  /** The pieces between slashes. */
  function Split(s: string): (pieces: seq<string>)
    ensures |pieces| >= 1
  {
    if s == "" then [""]
    else
      var rest := Split(s[1..]);
      if s[0] == '/' then [""] + rest else [[s[0]] + rest[0]] + rest[1..]
  }

  predicate IsReal(piece: string) {
    piece != "" && piece != "."
  }

  function RealOnes(pieces: seq<string>): seq<string> {
    if pieces == [] then []
    else (if IsReal(pieces[0]) then [pieces[0]] else []) + RealOnes(pieces[1..])
  }

  /** The components of a relative path: empty ones and "." do not count. */
  function Components(path: string): seq<string> {
    RealOnes(Split(path))
  }

  function Join(parts: seq<string>): string
    requires parts != []
  {
    if |parts| == 1 then parts[0] else parts[0] + "/" + Join(parts[1..])
  }

  /** How a pure path prints. */
  function AsPosix(parts: seq<string>): string {
    if parts == [] then "." else Join(parts)
  }

  function NormalKey(key: string): string {
    var relative := DropSlashes(key);
    var path := AsPosix(Components(relative));
    if EndsWithSlash(relative) && !EndsWithSlash(path) then path + "/" else path
  }

  /** Validate and normalise. */
  function Locate(scheme: string, bucket: string, key: string): Result<Location, LocationError> {
    if Strip(scheme) == "" then Err(EMPTY_SCHEME)
    else if Strip(bucket) == "" then Err(EMPTY_BUCKET)
    else if Strip(key) == "" then Err(EMPTY_KEY)
    else Ok(Location(Lower(Strip(scheme)), Strip(bucket), NormalKey(Strip(key))))
  }

  // ---- Splitting and joining are inverse

  predicate NoSlash(s: string) {
    '/' !in s
  }

  ghost predicate RealParts(parts: seq<string>) {
    forall k | 0 <= k < |parts| :: IsReal(parts[k]) && NoSlash(parts[k])
  }

  lemma {:induction false} SplitPiece(s: string, rest: string)
    requires NoSlash(s)
    ensures Split(s) == [s]
    ensures Split(s + "/" + rest) == [s] + Split(rest)
  {
    if s == "" {
      assert s + "/" + rest == "/" + rest && ("/" + rest)[1..] == rest;
    } else {
      var t := s[1..];
      assert forall c | c in t :: c in s;
      SplitPiece(t, rest);
      assert s == [s[0]] + t;
      assert (s + "/" + rest)[1..] == t + "/" + rest;
      assert s[0] in s;
    }
  }

  lemma {:induction false} RealOnesConcat(a: seq<string>, b: seq<string>)
    ensures RealOnes(a + b) == RealOnes(a) + RealOnes(b)
  {
    if a == [] {
      assert a + b == b;
    } else {
      assert (a + b)[1..] == a[1..] + b;
      RealOnesConcat(a[1..], b);
    }
  }

  /** A path has the components it is joined from, with or without a slash at its end. */
  lemma {:induction false} ComponentsOfJoin(parts: seq<string>)
    requires parts != [] && RealParts(parts)
    ensures Components(Join(parts)) == parts && Components(Join(parts) + "/") == parts
    ensures Join(parts) != "" && Join(parts)[0] == parts[0][0] && Last(Join(parts)) == Last(Last(parts)) != '/'
  {
    hide Split;
    var p := parts[0];
    JustOne(p);
    if |parts| == 1 {
      assert parts == [p] && Last(p) in p;
    } else {
      var rest := parts[1..];
      ComponentsOfJoin(rest);
      OneMore(p, Join(rest));
      OneMore(p, Join(rest) + "/");
      assert p + "/" + Join(rest) + "/" == p + "/" + (Join(rest) + "/");
      assert parts == [p] + rest;
    }
  }

  lemma JustOne(p: string)
    requires IsReal(p) && NoSlash(p)
    ensures Components(p) == [p] && Components(p + "/") == [p]
  {
    SplitPiece(p, "");
    assert p + "/" + "" == p + "/";
    NothingReal();
    assert [p][1..] == [] && RealOnes([p]) == [p];
    RealOnesConcat([p], [""]);
    assert Split("") == [""] && [p] + [] == [p];
  }

  lemma OneMore(p: string, rest: string)
    requires IsReal(p) && NoSlash(p)
    ensures Components(p + "/" + rest) == [p] + Components(rest)
  {
    SplitPiece(p, rest);
    assert ([p] + Split(rest))[1..] == Split(rest);
  }

  lemma {:induction false} PiecesHaveNoSlash(s: string)
    ensures forall k | 0 <= k < |Split(s)| :: NoSlash(Split(s)[k])
  {
    if s != "" {
      PiecesHaveNoSlash(s[1..]);
    }
  }

  lemma {:induction false} RealOnesAreReal(pieces: seq<string>)
    requires forall k | 0 <= k < |pieces| :: NoSlash(pieces[k])
    ensures RealParts(RealOnes(pieces))
  {
    if pieces != [] {
      RealOnesAreReal(pieces[1..]);
    }
  }

  lemma ComponentsAreReal(path: string)
    ensures RealParts(Components(path))
  {
    PiecesHaveNoSlash(path);
    RealOnesAreReal(Split(path));
  }

  lemma {:induction false} LeadingSlashesDoNotCount(path: string)
    ensures Components(DropSlashes(path)) == Components(path)
    ensures DropSlashes(path) != "" ==> DropSlashes(path)[0] != '/'
  {
    if path != "" && path[0] == '/' {
      LeadingSlashesDoNotCount(path[1..]);
      assert Split(path)[1..] == Split(path[1..]);
    }
  }

  /** Normalising keeps the sequence of components and whether there is a slash at the end. */
  lemma NormalKeyKeepsPath(key: string)
    ensures Components(NormalKey(key)) == Components(key)
    ensures EndsWithSlash(NormalKey(key)) == EndsWithSlash(DropSlashes(key))
    ensures NormalKey(key) != "" && NormalKey(key)[0] != '/'
  {
    hide Components, Join;
    LeadingSlashesDoNotCount(key);
    ComponentsAreReal(key);
    var parts := Components(key);
    if parts == [] {
      DotIsNoComponent();
      assert "." + "/" == "./";
    } else {
      ComponentsOfJoin(parts);
    }
  }

  lemma DotIsNoComponent()
    ensures Components(".") == [] && Components("./") == []
  {
    SplitPiece(".", "");
    assert "." + "/" + "" == "./";
    assert RealOnes([""]) == [];
    assert ([".", ""])[1..] == [""] && (["."])[1..] == [];
  }

  lemma {:induction false} SplitOfJoin(parts: seq<string>)
    requires parts != [] && RealParts(parts)
    ensures Split(Join(parts)) == parts
  {
    var p := parts[0];
    if |parts| == 1 {
      SplitPiece(p, "");
    } else {
      SplitPiece(p, Join(parts[1..]));
      SplitOfJoin(parts[1..]);
      assert parts == [p] + parts[1..];
    }
  }

  /** A normalised key is its components with one slash between them, and one at the end if there was one; with
      no component it is the dot. */
  lemma NormalKeyIsTidy(key: string)
    ensures var slash := EndsWithSlash(DropSlashes(key));
            Split(NormalKey(key)) == (if Components(key) == [] then ["."] else Components(key)) + (if slash then [""] else [])
  {
    hide Components, Join, Split;
    LeadingSlashesDoNotCount(key);
    ComponentsAreReal(key);
    var parts := Components(key);
    SplitPiece(".", "");
    if parts != [] {
      SplitOfJoin(parts);
      ComponentsOfJoin(parts);
    }
    SplitBeforeSlash(AsPosix(parts));
    assert Split(AsPosix(parts)) + [] == Split(AsPosix(parts));
  }

  /** Normalising a normalised key changes nothing. */
  lemma NormalKeyIsNormal(key: string)
    ensures NormalKey(NormalKey(key)) == NormalKey(key)
  {
    hide Components;
    LeadingSlashesDoNotCount(key);
    NormalKeyKeepsPath(key);
    NormalKeyKeepsPath(NormalKey(key));
    assert DropSlashes(NormalKey(key)) == NormalKey(key);
  }

  // ---- Normalising never adds characters

  function Weight(pieces: seq<string>): nat {
    if pieces == [] then 0 else |pieces[0]| + 1 + Weight(pieces[1..])
  }

  lemma {:induction false} SplitWeight(s: string)
    ensures Weight(Split(s)) == |s| + 1
  {
    if s != "" {
      SplitWeight(s[1..]);
      var rest := Split(s[1..]);
      assert ([""] + rest)[1..] == rest;
      assert ([[s[0]] + rest[0]] + rest[1..])[1..] == rest[1..];
    }
  }

  lemma {:induction false} RealOnesWeight(pieces: seq<string>)
    ensures Weight(RealOnes(pieces)) <= Weight(pieces)
  {
    if pieces != [] {
      RealOnesWeight(pieces[1..]);
      var rest := RealOnes(pieces[1..]);
      assert ([pieces[0]] + rest)[1..] == rest && [] + rest == rest;
    }
  }

  lemma {:induction false} JoinWeight(parts: seq<string>)
    requires parts != []
    ensures |Join(parts)| + 1 == Weight(parts)
  {
    if |parts| > 1 {
      JoinWeight(parts[1..]);
    } else {
      assert parts[1..] == [];
    }
  }

  lemma {:induction false} DropSlashesShortens(s: string)
    ensures |DropSlashes(s)| <= |s|
    ensures s != "" && s[0] == '/' ==> |DropSlashes(s)| < |s|
  {
    if s != "" && s[0] == '/' {
      DropSlashesShortens(s[1..]);
    }
  }

  lemma {:induction false} SplitBeforeSlash(s: string)
    ensures Split(s + "/") == Split(s) + [""]
  {
    if s == "" {
      assert s + "/" == "/" && "/"[1..] == "";
    } else {
      SplitBeforeSlash(s[1..]);
      assert (s + "/")[1..] == s[1..] + "/";
    }
  }

  lemma JoinIsShort(k: string)
    requires Components(k) != []
    ensures |Join(Components(k))| + (if EndsWithSlash(k) then 1 else 0) <= |k|
  {
    hide Split, RealOnes, Weight, Join;
    JoinWeight(Components(k));
    if EndsWithSlash(k) {
      var before := Init(k);
      assert k == before + "/";
      SplitBeforeSlash(before);
      RealOnesConcat(Split(before), [""]);
      NothingReal();
      assert Components(k) == Components(before) + [] == Components(before);
      SplitWeight(before);
      RealOnesWeight(Split(before));
    } else {
      SplitWeight(k);
      RealOnesWeight(Split(k));
    }
  }

  lemma NothingReal()
    ensures RealOnes([""]) == []
  {
    assert ([""])[1..] == [];
  }

  lemma NormalKeyIsShort(key: string)
    requires key != ""
    ensures |NormalKey(key)| <= |key|
  {
    hide Components, Join;
    var k := DropSlashes(key);
    DropSlashesShortens(key);
    LeadingSlashesDoNotCount(key);
    if Components(k) != [] {
      JoinIsShort(k);
    } else if EndsWithSlash(k) {
      assert k[0] != '/' && Last(k) == '/';
    }
  }

  // ---- Idempotence

  lemma {:induction false} StripShortens(s: string)
    ensures |StripLeft(s)| <= |s| && |StripRight(s)| <= |s|
    ensures StripLeft(s) == s <==> s == "" || !IsSpace(s[0])
    ensures StripRight(s) == s <==> s == "" || !IsSpace(Last(s))
  {
    if s != "" {
      StripShortens(s[1..]);
      StripShortens(Init(s));
    }
  }

  lemma {:induction false} StripLeaves(s: string)
    ensures StripLeft(s) != "" ==> !IsSpace(StripLeft(s)[0]) && Last(StripLeft(s)) == Last(s)
    ensures StripRight(s) != "" ==> !IsSpace(Last(StripRight(s))) && StripRight(s)[0] == s[0]
  {
    if s != "" {
      StripLeaves(s[1..]);
      StripLeaves(Init(s));
    }
  }

  /** Stripping leaves a string alone exactly when neither end is white space. */
  lemma StripFixed(s: string)
    ensures |Strip(s)| <= |s|
    ensures Strip(s) == s <==> s == "" || (!IsSpace(s[0]) && !IsSpace(Last(s)))
    ensures |Strip(s)| == |s| ==> Strip(s) == s
    ensures Strip(s) != "" ==> !IsSpace(Strip(s)[0]) && !IsSpace(Last(Strip(s)))
  {
    StripShortens(s);
    StripShortens(StripLeft(s));
    StripLeaves(s);
    StripLeaves(StripLeft(s));
    if |Strip(s)| == |s| {
      StripSameLength(s);
    }
  }

  lemma StripSameLength(s: string)
    ensures |StripLeft(s)| == |s| ==> StripLeft(s) == s
    ensures |StripRight(s)| == |s| ==> StripRight(s) == s
  {
    if s != "" {
      StripShortens(s[1..]);
      StripShortens(Init(s));
    }
  }

  lemma {:induction false} LowerTwice(s: string)
    ensures |Lower(s)| == |s| && Lower(Lower(s)) == Lower(s)
    ensures forall k | 0 <= k < |s| :: Lower(s)[k] == LowerChar(s[k])
  {
    if s != "" {
      LowerTwice(s[1..]);
      assert Lower(s)[1..] == Lower(s[1..]);
    }
  }

  /** Scheme, bucket and key come out of Locate non-empty, and the first two stay as they are. */
  lemma LocatedParts(scheme: string, bucket: string, key: string)
    requires Locate(scheme, bucket, key).Ok?
    ensures var loc := Locate(scheme, bucket, key).value;
            && loc.scheme != "" && Strip(loc.scheme) == Lower(loc.scheme) == loc.scheme
            && loc.bucket != "" && Strip(loc.bucket) == loc.bucket
            && loc.key != "" && loc.key[0] != '/' && NormalKey(loc.key) == loc.key
  {
    hide IsSpace, NormalKey, Strip;
    var s := Strip(scheme);
    LowerTwice(s);
    StripFixed(scheme);
    StripFixed(bucket);
    StripFixed(Lower(s));
    StripFixed(Strip(bucket));
    LowerKeepsSpace(s[0]);
    LowerKeepsSpace(Last(s));
    NormalKeyKeepsPath(Strip(key));
    NormalKeyIsNormal(Strip(key));
  }

  lemma LowerKeepsSpace(c: char)
    ensures IsSpace(LowerChar(c)) == IsSpace(c)
  {
  }

  /** What a caller can see in the normalised key: neither end is white space. */
  predicate CleanEnds(key: string) {
    key != "" && !IsSpace(key[0]) && !IsSpace(Last(key))
  }

  /** Normalising a location again gives it back exactly when its key has clean ends. */
  lemma LocateIsIdempotent(scheme: string, bucket: string, key: string)
    requires Locate(scheme, bucket, key).Ok?
    ensures var loc := Locate(scheme, bucket, key).value;
            Locate(loc.scheme, loc.bucket, loc.key) == Ok(loc) <==> CleanEnds(loc.key)
  {
    hide IsSpace, NormalKey, Strip;
    var loc := Locate(scheme, bucket, key).value;
    LocatedParts(scheme, bucket, key);
    StripFixed(loc.key);
    if Strip(loc.key) != "" && Strip(loc.key) != loc.key {
      NormalKeyIsShort(Strip(loc.key));
    }
  }

  /** In terms of the key given: no component at its start may begin with white space, nor one at its end
      close with it. */
  lemma CleanEndsOfComponents(key: string)
    ensures RealParts(Components(key))
    ensures var parts := Components(key);
            CleanEnds(NormalKey(key)) <==>
              parts == [] || (!IsSpace(parts[0][0]) && (EndsWithSlash(DropSlashes(key)) || !IsSpace(Last(Last(parts)))))
  {
    hide IsSpace, Components;
    ComponentsAreReal(key);
    LeadingSlashesDoNotCount(key);
    var parts := Components(key);
    if parts != [] {
      ComponentsOfJoin(parts);
    }
    assert !IsSpace('.') && !IsSpace('/') by {
      NoSpaceInDots();
    }
  }

  lemma NoSpaceInDots()
    ensures !IsSpace('.') && !IsSpace('/')
  {
  }

  // ---- Parsing a URI

  /** The part of s before the first character of the given kinds, all of s if there is none. */
  function Before(s: string, stops: string): string {
    if s == "" || s[0] in stops then "" else [s[0]] + Before(s[1..], stops)
  }

  predicate NoneOf(s: string, stops: string) {
    forall k | 0 <= k < |s| :: s[k] !in stops
  }

  function Without(s: string, removed: string): string {
    if s == "" then "" else (if s[0] in removed then "" else [s[0]]) + Without(s[1..], removed)
  }

  function DropControls(s: string): string {
    if s != "" && s[0] <= ' ' then DropControls(s[1..]) else s
  }

  predicate IsLetter(c: char) {
    'a' <= c <= 'z' || 'A' <= c <= 'Z'
  }

  predicate SchemeChar(c: char) {
    IsLetter(c) || '0' <= c <= '9' || c in "+-."
  }

  /** A letter, then letters, digits, '+', '-' and '.'. */
  predicate ValidScheme(s: string) {
    s != "" && IsLetter(s[0]) && forall k | 0 <= k < |s| :: SchemeChar(s[k])
  }

  /** Schemes whose last path segment may carry parameters after a ';'. */
  predicate UsesParams(scheme: string) {
    scheme in ["", "ftp", "hdl", "prospero", "http", "https", "shttp", "rtsp", "rtsps", "rtspu", "sip", "sips", "mms", "sftp", "tel"]
  }

  /** The characters after the last slash. */
  function LastSegment(path: string): string {
    if path == "" || Last(path) == '/' then "" else LastSegment(Init(path)) + [Last(path)]
  }

  /** A path without the parameters of its last segment. */
  function DropParams(path: string): string {
    var segment := LastSegment(path);
    SegmentFits(path);
    path[..|path| - |segment|] + Before(segment, ";")
  }

  lemma {:induction false} SegmentFits(path: string)
    ensures |LastSegment(path)| <= |path|
    ensures path == path[..|path| - |LastSegment(path)|] + LastSegment(path)
  {
    if path != "" && Last(path) != '/' {
      SegmentFits(Init(path));
      InitLast(path);
      var cut := |path| - |LastSegment(path)|;
      assert path[..cut] == Init(path)[..cut];
    }
  }

  datatype Parsed = Parsed(scheme: string, netloc: string, path: string)

  const UNSAFE: string := "\t\r\n"

  /** Leading control characters and all tabs and line ends are dropped. */
  function Cleaned(uri: string): string {
    Without(DropControls(uri), UNSAFE)
  }

  /** Scheme and rest, if what precedes the first colon can be a scheme. */
  function SplitScheme(url: string): (string, string) {
    var head := Before(url, ":");
    if |head| < |url| && ValidScheme(head) then (Lower(head), url[|head| + 1..]) else ("", url)
  }

  /** Network location and rest: the location runs to the next delimiter. */
  function SplitNetloc(rest: string): (string, string) {
    if "//" <= rest then
      BeforeFits(rest[2..], "/?#");
      (Before(rest[2..], "/?#"), rest[2 + |Before(rest[2..], "/?#")|..])
    else ("", rest)
  }

  /** The path ends where query, fragment or parameters begin. */
  function PathOf(scheme: string, tail: string): string {
    var path := Before(tail, "?#");
    if UsesParams(scheme) then DropParams(path) else path
  }

  /** What the standard library makes of a URI. */
  function UrlParse(uri: string): Parsed {
    var (scheme, rest) := SplitScheme(Cleaned(uri));
    var (netloc, tail) := SplitNetloc(rest);
    Parsed(scheme, netloc, PathOf(scheme, tail))
  }

  lemma {:induction false} BeforeFits(s: string, stops: string)
    ensures Before(s, stops) <= s && NoneOf(Before(s, stops), stops)
    ensures |Before(s, stops)| < |s| ==> s[|Before(s, stops)|] in stops
    ensures Before(s, stops) == s <==> NoneOf(s, stops)
  {
    if s != "" && s[0] !in stops {
      BeforeFits(s[1..], stops);
      assert s == [s[0]] + s[1..];
    }
  }

  /** A location from its URI. Which network locations the parser turns down on its own (brackets,
      characters that normalise to delimiters) is up to accepts. */
  function FromUri(uri: string, accepts: string -> bool): Result<Location, LocationError> {
    var parsed := UrlParse(uri);
    if parsed.netloc != "" && !accepts(parsed.netloc) then Err(BAD_NETLOC)
    else if parsed.scheme == "" then Err(MISSING_SCHEME)
    else if parsed.netloc == "" then Err(MISSING_BUCKET)
    else Locate(parsed.scheme, parsed.netloc, DropSlashes(parsed.path))
  }

  // ---- The round trip

  lemma {:induction false} BeforeStop(a: string, c: char, b: string, stops: string)
    requires NoneOf(a, stops) && c in stops
    ensures Before(a + [c] + b, stops) == a
  {
    if a == "" {
      assert a + [c] + b == [c] + b;
    } else {
      assert (a + [c] + b)[1..] == a[1..] + [c] + b;
      BeforeStop(a[1..], c, b, stops);
    }
  }

  lemma {:induction false} WithoutFits(s: string, removed: string)
    ensures |Without(s, removed)| <= |s|
    ensures |Without(s, removed)| == |s| <==> NoneOf(s, removed)
    ensures NoneOf(s, removed) ==> Without(s, removed) == s
  {
    if s != "" {
      WithoutFits(s[1..], removed);
      assert s == [s[0]] + s[1..];
      assert NoneOf(s, removed) <==> s[0] !in removed && NoneOf(s[1..], removed);
    }
  }

  lemma {:induction false} DropControlsFits(s: string)
    ensures |DropControls(s)| <= |s|
    ensures |DropControls(s)| == |s| ==> DropControls(s) == s
  {
    if s != "" {
      DropControlsFits(s[1..]);
    }
  }

  lemma {:induction false} SegmentAfterSlash(key: string)
    ensures LastSegment("/" + key) == LastSegment(key)
  {
    if key != "" {
      assert Init("/" + key) == "/" + Init(key);
      SegmentAfterSlash(Init(key));
    }
  }

  lemma DropParamsFits(path: string)
    ensures DropParams(path) <= path
    ensures DropParams(path) == path <==> NoneOf(LastSegment(path), ";")
  {
    SegmentFits(path);
    BeforeFits(LastSegment(path), ";");
    var cut := |path| - |LastSegment(path)|;
    assert path == path[..cut] + LastSegment(path);
  }

  lemma CleanedFits(uri: string)
    ensures |Cleaned(uri)| <= |uri|
    ensures |Cleaned(uri)| == |uri| ==> Cleaned(uri) == uri && NoneOf(uri, UNSAFE)
    ensures uri != "" && uri[0] > ' ' && NoneOf(uri, UNSAFE) ==> Cleaned(uri) == uri
  {
    DropControlsFits(uri);
    WithoutFits(DropControls(uri), UNSAFE);
  }

  lemma SplitSchemeFits(url: string)
    ensures var (scheme, rest) := SplitScheme(url);
            scheme != "" ==>
              exists head :: ValidScheme(head) && scheme == Lower(head) && |head| == |scheme| && url == head + ":" + rest
  {
    var head := Before(url, ":");
    BeforeFits(url, ":");
    if |head| < |url| && ValidScheme(head) {
      LowerTwice(head);
      assert url == head + ":" + url[|head| + 1..];
    }
  }

  lemma SplitSchemeOf(scheme: string, rest: string)
    requires ValidScheme(scheme)
    ensures SplitScheme(scheme + ":" + rest) == (Lower(scheme), rest)
  {
    BeforeStop(scheme, ':', rest, ":");
    assert (scheme + ":" + rest)[|scheme| + 1..] == rest;
  }

  lemma SplitNetlocFits(rest: string)
    ensures var (netloc, tail) := SplitNetloc(rest);
            netloc != "" ==>
              && rest == "//" + netloc + tail && NoneOf(netloc, "/?#")
              && (tail != "" ==> tail[0] in "/?#")
  {
    if "//" <= rest {
      var netloc := Before(rest[2..], "/?#");
      BeforeFits(rest[2..], "/?#");
      assert rest == "//" + rest[2..];
      assert rest[2..][|netloc|..] == rest[2 + |netloc|..];
      assert rest[2..] == netloc + rest[2..][|netloc|..];
    }
  }

  lemma SplitNetlocOf(netloc: string, key: string)
    requires NoneOf(netloc, "/?#")
    ensures SplitNetloc("//" + netloc + "/" + key) == (netloc, "/" + key)
  {
    var rest := "//" + netloc + "/" + key;
    assert rest[..2] == "//" && rest[2..] == netloc + "/" + key;
    BeforeStop(netloc, '/', key, "/?#");
    assert rest[2 + |netloc|..] == "/" + key;
  }

  /** What a path may hold and still be read back whole. */
  predicate PlainPath(scheme: string, key: string) {
    NoneOf(key, "?#") && (UsesParams(scheme) ==> NoneOf(LastSegment(key), ";"))
  }

  lemma PathOfFits(scheme: string, tail: string)
    ensures PathOf(scheme, tail) <= tail
    ensures tail != "" && tail[0] in "/?#" && PathOf(scheme, tail) != "" ==> tail[0] == '/'
    ensures PathOf(scheme, tail) == tail <==> PlainPath(scheme, tail)
  {
    hide UsesParams, DropParams;
    BeforeFits(tail, "?#");
    DropParamsFits(Before(tail, "?#"));
  }

  lemma PlainAfterSlash(scheme: string, key: string)
    ensures PlainPath(scheme, "/" + key) <==> PlainPath(scheme, key)
  {
    hide UsesParams, LastSegment;
    SegmentAfterSlash(key);
    var path := "/" + key;
    assert path[1..] == key;
    assert forall k | 0 <= k < |key| :: path[k + 1] == key[k];
  }

  /** The condition on a location: every part can stand in a URI, and the key has clean ends. */
  predicate Writable(loc: Location) {
    && ValidScheme(loc.scheme)
    && NoneOf(loc.bucket, "/?#") && NoneOf(loc.bucket, UNSAFE)
    && PlainPath(loc.scheme, loc.key) && NoneOf(loc.key, UNSAFE)
    && CleanEnds(loc.key)
  }

  /** The parse of a URI whose parts can stand in it. */
  lemma ParseOfUri(loc: Location)
    requires Writable(loc) && Lower(loc.scheme) == loc.scheme
    ensures UrlParse(loc.Uri()) == Parsed(loc.scheme, loc.bucket, "/" + loc.key)
  {
    hide SplitScheme, SplitNetloc, PathOf, PlainPath, Cleaned, CleanEnds;
    var rest := "//" + loc.bucket + "/" + loc.key;
    UriParts(loc);
    CleanedFits(loc.Uri());
    SplitSchemeOf(loc.scheme, rest);
    SplitNetlocOf(loc.bucket, loc.key);
    PlainAfterSlash(loc.scheme, loc.key);
    PathOfFits(loc.scheme, "/" + loc.key);
  }

  lemma NoneOfConcat(a: string, b: string, stops: string)
    ensures NoneOf(a + b, stops) <==> NoneOf(a, stops) && NoneOf(b, stops)
  {
    assert forall k | 0 <= k < |a| :: (a + b)[k] == a[k];
    assert forall k | 0 <= k < |b| :: (a + b)[|a| + k] == b[k];
  }

  lemma UriParts(loc: Location)
    ensures loc.Uri() == loc.scheme + ":" + ("//" + loc.bucket + "/" + loc.key)
    ensures NoneOf(loc.Uri(), UNSAFE) <==> NoneOf(loc.scheme, UNSAFE) && NoneOf(loc.bucket, UNSAFE) && NoneOf(loc.key, UNSAFE)
    ensures ValidScheme(loc.scheme) ==> NoneOf(loc.scheme, UNSAFE) && loc.Uri()[0] > ' '
  {
    hide NoneOf;
    var s, b, k := loc.scheme, loc.bucket, loc.key;
    NoneOfConcat(s, "://", UNSAFE);
    NoneOfConcat(s + "://", b, UNSAFE);
    NoneOfConcat(s + "://" + b, "/", UNSAFE);
    NoneOfConcat(s + "://" + b + "/", k, UNSAFE);
    assert NoneOf("://", UNSAFE) && NoneOf("/", UNSAFE) by {
      PlainDelimiters();
    }
    if ValidScheme(s) {
      SchemeIsSafe(s);
    }
  }

  lemma PlainDelimiters()
    ensures NoneOf("://", UNSAFE) && NoneOf("/", UNSAFE)
  {
  }

  lemma SchemeIsSafe(scheme: string)
    requires ValidScheme(scheme)
    ensures NoneOf(scheme, UNSAFE)
  {
  }

  /** Nothing a parse returns is longer than what it was given. */
  lemma ParseFits(uri: string)
    ensures var p := UrlParse(uri);
            p.scheme != "" && p.netloc != "" && p.path != "" ==>
              && p.path[0] == '/'
              && |p.scheme| + 3 + |p.netloc| + |p.path| <= |Cleaned(uri)| <= |uri|
  {
    hide SplitScheme, SplitNetloc, PathOf, Cleaned;
    CleanedFits(uri);
    SplitSchemeFits(Cleaned(uri));
    var (scheme, rest) := SplitScheme(Cleaned(uri));
    SplitNetlocFits(rest);
    var (netloc, tail) := SplitNetloc(rest);
    PathOfFits(scheme, tail);
  }

  /** A parse as long as its URI has taken it apart as written. */
  lemma TightParse(uri: string)
    requires var p := UrlParse(uri);
             && p.scheme != "" && p.netloc != "" && p.path != ""
             && |p.scheme| + 3 + |p.netloc| + |p.path| >= |uri|
    ensures var p := UrlParse(uri);
            && NoneOf(uri, UNSAFE) && NoneOf(p.netloc, "/?#") && PlainPath(p.scheme, p.path)
            && exists head :: ValidScheme(head) && p.scheme == Lower(head) && |head| == |p.scheme|
                              && uri == head + ":" + ("//" + p.netloc + p.path)
  {
    hide SplitScheme, SplitNetloc, PathOf, Cleaned, PlainPath;
    CleanedFits(uri);
    SplitSchemeFits(Cleaned(uri));
    var (scheme, rest) := SplitScheme(Cleaned(uri));
    SplitNetlocFits(rest);
    var (netloc, tail) := SplitNetloc(rest);
    PathOfFits(scheme, tail);
    assert PathOf(scheme, tail) == tail;
  }

  /** Writing a location as a URI and reading it back gives the same location exactly when every part can
      stand in a URI and the key has clean ends. */
  lemma RoundTrip(scheme: string, bucket: string, key: string, accepts: string -> bool)
    requires Locate(scheme, bucket, key).Ok?
    ensures var loc := Locate(scheme, bucket, key).value;
            FromUri(loc.Uri(), accepts) == Ok(loc) <==> Writable(loc) && accepts(loc.bucket)
  {
    hide UrlParse, Locate, Writable, Strip;
    var loc := Locate(scheme, bucket, key).value;
    LocatedParts(scheme, bucket, key);
    if Writable(loc) && accepts(loc.bucket) {
      ParseOfUri(loc);
      CleanEndsOf(loc);
      LocateIsIdempotent(scheme, bucket, key);
    }
    if FromUri(loc.Uri(), accepts) == Ok(loc) {
      ReadBackIsWritable(loc, accepts);
    }
  }

  lemma CleanEndsOf(loc: Location)
    requires Writable(loc)
    ensures CleanEnds(loc.key)
  {
  }

  lemma ReadBackIsWritable(loc: Location, accepts: string -> bool)
    requires Strip(loc.scheme) == Lower(loc.scheme) == loc.scheme != ""
    requires loc.key != "" && loc.key[0] != '/'
    requires FromUri(loc.Uri(), accepts) == Ok(loc)
    ensures Writable(loc) && accepts(loc.bucket)
  {
    hide UrlParse, NormalKey, CleanEnds, PlainPath, NoneOf, ValidScheme, Strip;
    var p := UrlParse(loc.Uri());
    var given := DropSlashes(p.path);
    StripFixed(p.scheme);
    StripFixed(p.netloc);
    StripFixed(given);
    LowerTwice(Strip(p.scheme));
    NormalKeyIsShort(Strip(given));
    DropSlashesShortens(p.path);
    ParseFits(loc.Uri());
    TightParse(loc.Uri());
    var head :| ValidScheme(head) && p.scheme == Lower(head) && |head| == |p.scheme|
                && loc.Uri() == head + ":" + ("//" + p.netloc + p.path);
    UriParts(loc);
    assert "//" + loc.bucket + "/" + loc.key == "//" + loc.bucket + ("/" + loc.key);
    SameParts(head, p.netloc, p.path, loc.scheme, loc.bucket, "/" + loc.key);
    PlainAfterSlash(loc.scheme, loc.key);
    assert ("/" + loc.key)[1..] == loc.key && given == loc.key;
    KeyEnds(loc.key);
  }

  lemma SameParts(a: string, b: string, c: string, a': string, b': string, c': string)
    requires |a| == |a'| && |b| == |b'|
    requires a + ":" + ("//" + b + c) == a' + ":" + ("//" + b' + c')
    ensures a == a' && b == b' && c == c'
  {
    var u, u' := a + ":" + ("//" + b + c), a' + ":" + ("//" + b' + c');
    var n, m := |a| + 3, |a| + 3 + |b|;
    assert a == u[..|a|] && a' == u'[..|a|];
    assert b == u[n..m] && b' == u'[n..m];
    assert c == u[m..] && c' == u'[m..];
  }

  lemma KeyEnds(key: string)
    requires key != "" && Strip(key) == key
    ensures CleanEnds(key)
  {
    StripFixed(key);
  }

  // ---- Keys without white space

  predicate All(s: string, ok: char -> bool) {
    forall k | 0 <= k < |s| :: ok(s[k])
  }

  predicate AllPieces(pieces: seq<string>, ok: char -> bool) {
    forall k | 0 <= k < |pieces| :: All(pieces[k], ok)
  }

  lemma {:induction false} SplitAll(s: string, ok: char -> bool)
    requires All(s, ok)
    ensures AllPieces(Split(s), ok)
  {
    if s != "" {
      SplitAll(s[1..], ok);
    }
  }

  lemma {:induction false} RealOnesAll(pieces: seq<string>, ok: char -> bool)
    requires AllPieces(pieces, ok)
    ensures AllPieces(RealOnes(pieces), ok)
  {
    if pieces != [] {
      assert All(pieces[0], ok);
      RealOnesAll(pieces[1..], ok);
    }
  }

  lemma {:induction false} JoinAll(parts: seq<string>, ok: char -> bool)
    requires parts != [] && AllPieces(parts, ok) && ok('/')
    ensures All(Join(parts), ok)
  {
    assert All(parts[0], ok);
    if |parts| > 1 {
      JoinAll(parts[1..], ok);
    }
  }

  lemma {:induction false} DropSlashesAll(s: string, ok: char -> bool)
    requires All(s, ok)
    ensures All(DropSlashes(s), ok)
  {
    if s != "" && s[0] == '/' {
      DropSlashesAll(s[1..], ok);
    }
  }

  /** Normalising brings in no character but '.' and '/'. */
  lemma NormalKeyAll(key: string, ok: char -> bool)
    requires All(key, ok) && ok('/') && ok('.')
    ensures All(NormalKey(key), ok)
  {
    DropSlashesAll(key, ok);
    SplitAll(DropSlashes(key), ok);
    RealOnesAll(Split(DropSlashes(key)), ok);
    if Components(DropSlashes(key)) != [] {
      JoinAll(Components(DropSlashes(key)), ok);
    }
  }

  predicate Plain(c: char) {
    !IsSpace(c) && c !in "?#;"
  }

  /** A key of plain characters normalises once and for all, and reads back from its URI. */
  lemma PlainKeysRoundTrip(scheme: string, bucket: string, key: string, accepts: string -> bool)
    requires Locate(scheme, bucket, key).Ok? && All(Strip(key), Plain)
    requires var loc := Locate(scheme, bucket, key).value;
             ValidScheme(loc.scheme) && NoneOf(loc.bucket, "/?#") && NoneOf(loc.bucket, UNSAFE) && accepts(loc.bucket)
    ensures var loc := Locate(scheme, bucket, key).value;
            Locate(loc.scheme, loc.bucket, loc.key) == Ok(loc) && FromUri(loc.Uri(), accepts) == Ok(loc)
  {
    hide NormalKey, Strip, UsesParams, FromUri;
    var loc := Locate(scheme, bucket, key).value;
    NormalKeyAll(Strip(key), Plain);
    NormalKeyKeepsPath(Strip(key));
    PlainIsWritable(loc.scheme, loc.key);
    LocateIsIdempotent(scheme, bucket, key);
    RoundTrip(scheme, bucket, key, accepts);
  }

  lemma PlainIsWritable(scheme: string, key: string)
    requires key != "" && All(key, Plain)
    ensures CleanEnds(key) && NoneOf(key, UNSAFE) && PlainPath(scheme, key)
  {
    SegmentFits(key);
    var cut := |key| - |LastSegment(key)|;
    assert forall k | 0 <= k < |LastSegment(key)| :: LastSegment(key)[k] == key[cut + k];
  }

  /** White space behind a leading slash survives the first normalisation and not the second. */
  lemma SpaceAfterSlash()
    ensures NormalKey(Strip("/ a")) == " a" && NormalKey(Strip(" a")) == "a"
  {
    SplitPiece(" a", "");
    SplitPiece("a", "");
    JustOne(" a");
    JustOne("a");
    StripFixed("/ a");
    assert "/ a"[1..] == " a" && DropSlashes(" a") == " a";
    assert " a"[1..] == "a" && StripLeft("a") == "a" && StripRight("a") == "a";
  }

  /** A ';' in the last component is lost on the way back for schemes with parameters. */
  lemma ParametersAreCut(scheme: string, bucket: string, key: string, accepts: string -> bool)
    requires Locate(scheme, bucket, key).Ok?
    requires var loc := Locate(scheme, bucket, key).value;
             UsesParams(loc.scheme) && ';' in LastSegment(loc.key)
    ensures var loc := Locate(scheme, bucket, key).value;
            FromUri(loc.Uri(), accepts) != Ok(loc)
  {
    hide UsesParams, FromUri, Locate, LastSegment;
    RoundTrip(scheme, bucket, key, accepts);
  }

  // ---- What comes out, by what went in

  predicate Blank(s: string) {
    forall k | 0 <= k < |s| :: IsSpace(s[k])
  }

  /** White space is these characters and no others. */
  lemma SpacesAre(c: char)
    ensures IsSpace(c) <==>
            c in "\t\n\U{b}\U{c}\r\U{1c}\U{1d}\U{1e}\U{1f} \U{85}\U{a0}\U{1680}\U{2000}\U{2001}\U{2002}\U{2003}\U{2004}\U{2005}\U{2006}\U{2007}\U{2008}\U{2009}\U{200a}\U{2028}\U{2029}\U{202f}\U{205f}\U{3000}"
  {
  }

  lemma {:induction false} StripLeftTakes(s: string) returns (a: string)
    ensures Blank(a) && s == a + StripLeft(s)
  {
    a := "";
    if s != "" && IsSpace(s[0]) {
      var b := StripLeftTakes(s[1..]);
      a := [s[0]] + b;
      ConcatAssociates([s[0]], b, StripLeft(s));
      assert s == [s[0]] + s[1..];
    } else {
      assert "" + s == s;
    }
  }

  lemma {:induction false} StripRightTakes(s: string) returns (b: string)
    ensures Blank(b) && s == StripRight(s) + b
  {
    b := "";
    if s != "" && IsSpace(Last(s)) {
      var c := StripRightTakes(Init(s));
      b := c + [Last(s)];
      InitLast(s);
      ConcatAssociates(StripRight(s), c, [Last(s)]);
    } else {
      assert s + "" == s;
    }
  }

  /** Stripping takes white space off both ends, and leaves nothing exactly of a blank string. */
  lemma StripTakes(s: string) returns (a: string, b: string)
    ensures Blank(a) && Blank(b) && s == a + Strip(s) + b
    ensures Strip(s) == "" <==> Blank(s)
  {
    a := StripLeftTakes(s);
    b := StripRightTakes(StripLeft(s));
    ConcatAssociates(a, Strip(s), b);
    StripFixed(s);
    if Strip(s) == "" {
      assert s == a + b by {
        assert a + "" == a;
      }
    } else {
      assert s[|a|] == Strip(s)[0];
    }
  }

  /** A location is accepted exactly if none of its parts is blank, and otherwise the first blank one is named. */
  lemma LocateAccepts(scheme: string, bucket: string, key: string)
    ensures match Locate(scheme, bucket, key)
            case Ok(_) => !Blank(scheme) && !Blank(bucket) && !Blank(key)
            case Err(error) =>
              || (error == EMPTY_SCHEME && Blank(scheme))
              || (error == EMPTY_BUCKET && !Blank(scheme) && Blank(bucket))
              || (error == EMPTY_KEY && !Blank(scheme) && !Blank(bucket) && Blank(key))
  {
    hide Strip, Blank;
    var a, b := StripTakes(scheme);
    a, b := StripTakes(bucket);
    a, b := StripTakes(key);
  }

  /** The same letters, those from A to Z in lower case. */
  predicate LowerCaseOf(s: string, lower: string) {
    && |s| == |lower|
    && forall k | 0 <= k < |s| :: lower[k] == if 'A' <= s[k] <= 'Z' then (s[k] as int + 32) as char else s[k]
  }

  /** What a location is made of: the scheme given in lower case and the bucket given, without the white space
      around them, and the path of the key given. */
  lemma LocateKeeps(scheme: string, bucket: string, key: string) returns (given: string, a: seq<string>, b: seq<string>)
    requires Locate(scheme, bucket, key).Ok?
    ensures |a| == |b| == 3 && forall k | 0 <= k < 3 :: Blank(a[k]) && Blank(b[k])
    ensures var loc := Locate(scheme, bucket, key).value;
            && scheme == a[0] + given + b[0] && LowerCaseOf(given, loc.scheme)
            && bucket == a[1] + loc.bucket + b[1]
            && exists path :: key == a[2] + path + b[2] && Components(loc.key) == Components(path)
                              && EndsWithSlash(loc.key) == EndsWithSlash(DropSlashes(path))
  {
    hide Strip, Components, IsSpace;
    given := Strip(scheme);
    var a0, b0 := StripTakes(scheme);
    var a1, b1 := StripTakes(bucket);
    var a2, b2 := StripTakes(key);
    a, b := [a0, a1, a2], [b0, b1, b2];
    LowerTwice(given);
    NormalKeyKeepsPath(Strip(key));
  }

  /** Of the pieces of a path the empty ones and "." are no components; every other is, ".." too. */
  lemma OnlyDotsAreDropped(piece: string)
    ensures RealOnes([piece]) == if piece == "" || piece == "." then [] else [piece]
  {
    assert [piece][1..] == [];
  }

  lemma {:induction false} LastSegmentIs(a: string, b: string)
    requires NoSlash(b)
    ensures LastSegment(b) == b && LastSegment(a + "/" + b) == b
  {
    if b != "" {
      InitLast(b);
      assert Init(a + "/" + b) == a + "/" + Init(b);
      assert Last(b) in b && forall c | c in Init(b) :: c in b;
      LastSegmentIs(a, Init(b));
    }
  }

  /** What may be a scheme, in ASCII codes: it begins with a letter (65 to 90, 97 to 122) and goes on with letters,
      digits (48 to 57), '+', '-' and '.' (43, 45, 46). */
  lemma SchemesAre(s: string)
    ensures ValidScheme(s) <==>
            && s != "" && (65 <= s[0] as int <= 90 || 97 <= s[0] as int <= 122)
            && forall k | 0 <= k < |s| ::
                 65 <= s[k] as int <= 90 || 97 <= s[k] as int <= 122 || 48 <= s[k] as int <= 57 || s[k] as int in {43, 45, 46}
  {
    assert forall c: char :: c in "+-." <==> c as int in {43, 45, 46};
  }

  /** For the object stores' schemes a location survives the way through its URI exactly if bucket and key hold no
      delimiter, tab or line end, neither end of the key is white space, and the parser accepts the bucket; a ';'
      is a character like any other. */
  lemma ObjectStoreRoundTrip(scheme: string, bucket: string, key: string, accepts: string -> bool)
    requires Locate(scheme, bucket, key).Ok?
    requires Locate(scheme, bucket, key).value.scheme in ["s3", "s3a", "gs", "abfs", "abfss"]
    ensures var loc := Locate(scheme, bucket, key).value;
            FromUri(loc.Uri(), accepts) == Ok(loc) <==>
              && NoneOf(loc.bucket, "/?#\t\r\n") && accepts(loc.bucket)
              && NoneOf(loc.key, "?#\t\r\n") && loc.key != "" && !IsSpace(loc.key[0]) && !IsSpace(Last(loc.key))
  {
    hide Locate, FromUri, IsSpace;
    var loc := Locate(scheme, bucket, key).value;
    LocatedParts(scheme, bucket, key);
    RoundTrip(scheme, bucket, key, accepts);
    ObjectStores(loc.scheme);
    Delimiters(loc.bucket, loc.key);
  }

  lemma ObjectStores(scheme: string)
    requires scheme in ["s3", "s3a", "gs", "abfs", "abfss"]
    ensures ValidScheme(scheme) && !UsesParams(scheme)
  {
  }

  lemma Delimiters(bucket: string, key: string)
    ensures NoneOf(bucket, "/?#\t\r\n") <==> NoneOf(bucket, "/?#") && NoneOf(bucket, UNSAFE)
    ensures NoneOf(key, "?#\t\r\n") <==> NoneOf(key, "?#") && NoneOf(key, UNSAFE)
  {
  }

  /** For a web address the last segment must be free of ';', too. */
  lemma WebRoundTrip(scheme: string, bucket: string, path: string, name: string, accepts: string -> bool)
    requires Locate(scheme, bucket, path + "/" + name).Ok? && NoSlash(name)
    requires var loc := Locate(scheme, bucket, path + "/" + name).value;
             loc.scheme in ["http", "https", "ftp", "sftp"] && loc.key == path + "/" + name
    ensures var loc := Locate(scheme, bucket, path + "/" + name).value;
            FromUri(loc.Uri(), accepts) == Ok(loc) <==>
              && NoneOf(loc.bucket, "/?#\t\r\n") && accepts(loc.bucket)
              && NoneOf(loc.key, "?#\t\r\n") && loc.key != "" && !IsSpace(loc.key[0]) && !IsSpace(Last(loc.key)) && NoneOf(name, ";")
  {
    hide Locate, FromUri, IsSpace;
    var loc := Locate(scheme, bucket, path + "/" + name).value;
    LocatedParts(scheme, bucket, path + "/" + name);
    RoundTrip(scheme, bucket, path + "/" + name, accepts);
    LastSegmentIs(path, name);
    WebSchemes(loc.scheme);
    Delimiters(loc.bucket, loc.key);
  }

  lemma WebSchemes(scheme: string)
    requires scheme in ["http", "https", "ftp", "sftp"]
    ensures ValidScheme(scheme) && UsesParams(scheme)
  {
  }

  /** Control characters and spaces before a URI do not count. */
  lemma LeadingControlsDoNotCount(c: char, uri: string)
    requires c <= ' '
    ensures UrlParse([c] + uri) == UrlParse(uri)
  {
    assert ([c] + uri)[1..] == uri;
  }

  /** A URI without a scheme, and one without a bucket, are turned down as such. */
  lemma UriErrors(scheme: string, rest: string, accepts: string -> bool)
    requires rest != "" && rest[0] > ' ' && NoneOf(rest, UNSAFE) && NoneOf(rest, ":")
    ensures !("//" <= rest) ==> FromUri(rest, accepts) == Err(MISSING_SCHEME)
    ensures ValidScheme(scheme) && !("//" <= rest) ==> FromUri(scheme + ":" + rest, accepts) == Err(MISSING_BUCKET)
  {
    hide ValidScheme, PathOf;
    CleanedFits(rest);
    BeforeFits(rest, ":");
    if ValidScheme(scheme) && !("//" <= rest) {
      var uri := scheme + ":" + rest;
      SafeUri(scheme, rest);
      CleanedFits(uri);
      SplitSchemeOf(scheme, rest);
      LowerTwice(scheme);
      assert Lower(scheme) != "";
    }
  }

  lemma SafeUri(scheme: string, rest: string)
    requires ValidScheme(scheme) && NoneOf(rest, UNSAFE)
    ensures NoneOf(scheme + ":" + rest, UNSAFE) && (scheme + ":" + rest)[0] > ' ' && scheme != ""
  {
    SchemeIsSafe(scheme);
    NoneOfConcat(scheme, ":", UNSAFE);
    NoneOfConcat(scheme + ":", rest, UNSAFE);
  }
}
