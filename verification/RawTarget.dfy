/** Which raw request targets are accepted for a protected path, and what they stand for. */
module RawTarget {
  import opened History
  import opened PercentCoding
  import opened Paths

  datatype Marker = F | E

  function MarkerText(m: Marker): string {
    if m == F then "+f" else "+e"
  }

  /** Whether a character is in one of Unicode's "other" categories. */
  type Other = char -> bool

  predicate Unsafe(other: Other, s: string) {
    exists i :: 0 <= i < |s| && (s[i] == '%' || s[i] == '#' || s[i] == '\\' || other(s[i]))
  }

  predicate Dots(s: string) {
    s == "." || s == ".."
  }

  predicate ValidSegment(other: Other, s: string) {
    s != "" && !Dots(s) && '/' !in s && '+' !in s && !Unsafe(other, s)
  }

  predicate ValidTail(other: Other, tail: string) {
    && tail != "" && !Unsafe(other, tail)
    && forall i :: 0 <= i < |Split(tail)| ==> Split(tail)[i] != "" && !Dots(Split(tail)[i])
  }

  predicate ValidScriptName(other: Other, s: string) {
    s == "" || (s[0] == '/' && s[|s| - 1] != '/' && '?' !in s && !Unsafe(other, s)
                && forall i :: 0 <= i < |Split(s[1..])| ==> Split(s[1..])[i] != "" && !Dots(Split(s[1..])[i]))
  }

  // ----- classification -----

  datatype Protected = Protected(user: string, index: string, marker: Marker, tail: string)

  datatype Classified = Open | Refused | Guarded(path: Protected)

  function MarkerOf(part: string): Option<Marker> {
    if part == "+f" then Some(F) else if part == "+e" then Some(E) else None
  }

  function NonEmpty(parts: seq<string>): seq<string> {
    if parts == [] then []
    else if parts[0] == "" then NonEmpty(parts[1..])
    else [parts[0]] + NonEmpty(parts[1..])
  }

  /** The marker a path carries, in its place or where repeated slashes would put it. */
  function FoundMarker(path: string): Option<Marker> {
    var parts := Split(path);
    var present := NonEmpty(parts);
    if |parts| > 3 && MarkerOf(parts[3]).Some? then MarkerOf(parts[3])
    else if |present| > 2 then MarkerOf(present[2])
    else None
  }

  function Classify(other: Other, path: string): Classified {
    var parts, marker := Split(path), FoundMarker(path);
    if marker == None then Open
    else if |parts| < 5 || parts[0] != "" || parts[3] != MarkerText(marker.value) then Refused
    else
      var tail := Join(parts[4..]);
      if ValidSegment(other, parts[1]) && ValidSegment(other, parts[2]) && ValidTail(other, tail)
      then Guarded(Protected(parts[1], parts[2], marker.value, tail))
      else Refused
  }

  function Prefix(p: Protected): string {
    ['/'] + p.user + ['/'] + p.index
  }

  function CanonicalPath(p: Protected): string {
    Prefix(p) + (['/'] + MarkerText(p.marker) + ['/'] + p.tail)
  }

  /** A guarded path is its own canonical form: it names one user, index, marker and tail. */
  lemma GuardedIsCanonical(other: Other, path: string)
    requires Classify(other, path).Guarded?
    ensures var p := Classify(other, path).path;
            && path == CanonicalPath(p)
            && ValidSegment(other, p.user) && ValidSegment(other, p.index) && ValidTail(other, p.tail)
  {
    JoinSplit(path);
    JoinFive(Split(path));
  }

  lemma JoinFive(parts: seq<string>)
    requires |parts| >= 5
    ensures Join(parts)
         == parts[0]
            + (['/'] + (parts[1] + (['/'] + (parts[2] + (['/'] + (parts[3] + (['/'] + Join(parts[4..]))))))))
  {
    assert parts[1..][1..] == parts[2..] && parts[2..][1..] == parts[3..] && parts[3..][1..] == parts[4..];
    assert Join(parts[3..]) == parts[3] + (['/'] + Join(parts[4..]));
    assert Join(parts[2..]) == parts[2] + (['/'] + Join(parts[3..]));
    assert Join(parts[1..]) == parts[1] + (['/'] + Join(parts[2..]));
  }

  // ----- accepted raw forms -----

  predicate Ascii(s: string) {
    forall i :: 0 <= i < |s| ==> s[i] as nat < 0x80
  }

  predicate StartsWith(s: string, prefix: string) {
    |s| >= |prefix| && s[..|prefix|] == prefix
  }

  /** str.replace(old, new, 1). */
  function ReplaceFirst(s: string, was: string, now: string): string {
    if StartsWith(s, was) then now + s[|was|..]
    else if s == "" then s
    else [s[0]] + ReplaceFirst(s[1..], was, now)
  }

  function MarkerSegment(m: Marker): string {
    ['/'] + MarkerText(m) + ['/']
  }

  function EncodedSegment(m: Marker): string {
    ['/', '%', '2', 'B'] + MarkerText(m)[1..] + ['/']
  }

  function EncodedMarkerForm(path: string, m: Marker): string {
    ReplaceFirst(Quote(path), MarkerSegment(m), EncodedSegment(m))
  }

  predicate ValidRawForm(decoded: string, raw: string) {
    raw == Quote(decoded) || (Ascii(decoded) && raw == decoded)
  }

  /** Accepted forms of RAW_URI and REQUEST_URI, and, with no script name, of RAW_PATH_INFO. */
  predicate AcceptedForm(script: string, p: Protected, raw: string) {
    || ValidRawForm(script + CanonicalPath(p), raw)
    || raw == Quote(script) + EncodedMarkerForm(CanonicalPath(p), p.marker)
  }

  /** The part of a target before its query. */
  function PathPart(target: string): string {
    if target == "" || target[0] == '?' then "" else [target[0]] + PathPart(target[1..])
  }

  datatype Environ = Environ(
    scriptName: Option<string>,
    rawUri: Option<string>,
    requestUri: Option<string>,
    rawPathInfo: Option<string>)

  /** Every raw path the server gives must be an accepted form, and it must give one. */
  method RawPathsAreUnambiguous(other: Other, env: Environ, p: Protected) returns (ok: bool)
    ensures ok <==>
              && var script := if env.scriptName.Some? then env.scriptName.value else "";
              && ValidScriptName(other, script)
              && (env.rawUri.Some? ==> AcceptedForm(script, p, PathPart(env.rawUri.value)))
              && (env.requestUri.Some? ==> AcceptedForm(script, p, PathPart(env.requestUri.value)))
              && (env.rawPathInfo.Some? ==> AcceptedForm("", p, env.rawPathInfo.value))
              && (env.rawUri.Some? || env.requestUri.Some? || env.rawPathInfo.Some?)
  {
    var script := if env.scriptName.Some? then env.scriptName.value else "";
    if !ValidScriptName(other, script) { return false; }
    var seen := false;
    var targets := [env.rawUri, env.requestUri];
    for i := 0 to 2
      invariant seen <==> exists k :: 0 <= k < i && targets[k].Some?
      invariant forall k :: 0 <= k < i && targets[k].Some? ==> AcceptedForm(script, p, PathPart(targets[k].value))
    {
      if targets[i].Some? {
        seen := true;
        if !AcceptedForm(script, p, PathPart(targets[i].value)) { return false; }
      }
    }
    assert targets[0] == env.rawUri && targets[1] == env.requestUri;
    EmptyScript(p);
    if env.rawPathInfo == None { return seen; }
    return ValidRawForm(CanonicalPath(p), env.rawPathInfo.value)
        || env.rawPathInfo.value == EncodedMarkerForm(CanonicalPath(p), p.marker);
  }

  lemma EmptyScript(p: Protected)
    ensures "" + CanonicalPath(p) == CanonicalPath(p)
    ensures Quote("") + EncodedMarkerForm(CanonicalPath(p), p.marker) == EncodedMarkerForm(CanonicalPath(p), p.marker)
  {}

  // ----- the replacement hits the route marker -----

  lemma {:induction false} QuoteAvoids(s: string, c: char)
    requires c !in s && c != '%' && HexValue(c) == None
    ensures c !in Quote(s)
    decreases |s|
  {
    if s != "" {
      QuoteAvoids(s[1..], c);
      if !PathSafe(s[0]) { PercentAvoids(Utf8Char(s[0]), c); }
    }
  }

  lemma {:induction false} PercentAvoids(b: Octets, c: char)
    requires (forall i :: 0 <= i < |b| ==> b[i] < 256) && c != '%' && HexValue(c) == None
    ensures c !in PercentAll(b)
    decreases |b|
  {
    if b != [] {
      HexBack(b[0] / 16);
      HexBack(b[0] % 16);
      PercentAvoids(b[1..], c);
    }
  }

  /** The first occurrence is found behind a text in which it cannot begin. */
  lemma {:induction false} ReplaceBehind(front: string, was: string, rest: string, now: string)
    requires forall i :: 0 <= i < |front| ==> !StartsWith((front + was + rest)[i..], was)
    ensures ReplaceFirst(front + was + rest, was, now) == front + (now + rest)
    decreases |front|
  {
    var s := front + was + rest;
    if front == "" {
      assert s == was + rest && s[..|was|] == was && s[|was|..] == rest;
      assert "" + (now + rest) == now + rest;
    } else {
      assert s[0..] == s && s[1..] == front[1..] + was + rest;
      forall i | 0 <= i < |front| - 1 ensures !StartsWith((front[1..] + was + rest)[i..], was) {
        assert s[1..][i..] == s[i + 1..];
      }
      ReplaceBehind(front[1..], was, rest, now);
      assert [s[0]] + (front[1..] + (now + rest)) == front + (now + rest);
    }
  }

  lemma SecondCharacter(s: string, prefix: string)
    requires |s| >= 2 && |prefix| >= 2 && s[1] != prefix[1]
    ensures !StartsWith(s, prefix)
  {
    assert |s| >= |prefix| ==> s[..|prefix|][1] == s[1];
  }

  lemma NoEarlierMarker(front: string, m: Marker, rest: string)
    requires '+' !in front
    ensures forall i :: 0 <= i < |front| ==> !StartsWith((front + MarkerSegment(m) + rest)[i..], MarkerSegment(m))
  {
    var s, segment := front + MarkerSegment(m) + rest, MarkerSegment(m);
    assert segment[0] == '/' && segment[1] == '+';
    forall i | 0 <= i < |front| ensures !StartsWith(s[i..], segment) {
      if i + 1 < |front| {
        assert s[i..][1] == front[i + 1];
        assert front[i + 1] in front;
      } else {
        assert s[i..][1] == s[|front|] == '/';
      }
      SecondCharacter(s[i..], segment);
    }
  }

  lemma QuoteMarkerPath(p: Protected)
    ensures Quote(CanonicalPath(p)) == Quote(Prefix(p)) + MarkerSegment(p.marker) + Quote(p.tail)
  {
    var segment := MarkerSegment(p.marker);
    assert CanonicalPath(p) == Prefix(p) + (segment + p.tail);
    QuoteConcat(Prefix(p), segment + p.tail);
    QuoteConcat(segment, p.tail);
    assert Quote(segment) == segment by { SegmentIsSafe(p.marker); }
  }

  lemma SegmentIsSafe(m: Marker)
    ensures Quote(MarkerSegment(m)) == MarkerSegment(m)
  {
    AllSafe(MarkerSegment(m));
  }

  lemma {:induction false} AllSafe(s: string)
    requires forall i :: 0 <= i < |s| ==> PathSafe(s[i])
    ensures Quote(s) == s
    decreases |s|
  {
    if s != "" { AllSafe(s[1..]); }
  }

  /** The single replacement always hits the route marker. */
  lemma MarkerReplaced(other: Other, p: Protected)
    requires ValidSegment(other, p.user) && ValidSegment(other, p.index)
    ensures EncodedMarkerForm(CanonicalPath(p), p.marker)
            == Quote(Prefix(p)) + (EncodedSegment(p.marker) + Quote(p.tail))
  {
    QuoteMarkerPath(p);
    QuoteAvoids(Prefix(p), '+');
    NoEarlierMarker(Quote(Prefix(p)), p.marker, Quote(p.tail));
    ReplaceBehind(Quote(Prefix(p)), MarkerSegment(p.marker), Quote(p.tail), EncodedSegment(p.marker));
  }

  // ----- what accepted forms stand for -----

  lemma SegmentOctets(m: Marker)
    ensures Utf8(MarkerSegment(m)) == Utf8("/") + ([0x2B] + (Utf8(MarkerText(m)[1..]) + Utf8("/")))
  {
    var letter := MarkerText(m)[1..];
    assert MarkerSegment(m) == "/" + ("+" + (letter + "/"));
    Utf8Concat("/", "+" + (letter + "/"));
    Utf8Concat("+", letter + "/");
    Utf8Concat(letter, "/");
    assert Utf8("+") == [0x2B] by { assert "+"[1..] == ""; }
  }

  lemma EncodedSegmentParts(m: Marker)
    ensures EncodedSegment(m) == Quote("/") + (Percent(0x2B) + (Quote(MarkerText(m)[1..]) + Quote("/")))
  {
    AllSafe("/");
    AllSafe(MarkerText(m)[1..]);
  }

  lemma UnquoteThree(a: string, b: nat, c: string, d: string, rest: string)
    requires b < 256
    ensures Unquote(Quote(a) + (Percent(b) + (Quote(c) + (Quote(d) + rest))))
            == Prepend(Utf8(a) + ([b] + (Utf8(c) + Utf8(d))), Unquote(rest))
  {
    UnquoteQuote(a, Percent(b) + (Quote(c) + (Quote(d) + rest)));
    UnquotePercent(b, Quote(c) + (Quote(d) + rest));
    UnquoteQuote(c, Quote(d) + rest);
    UnquoteQuote(d, rest);
    PrependTwice(Utf8(c), Utf8(d), Unquote(rest));
    PrependTwice([b], Utf8(c) + Utf8(d), Unquote(rest));
    PrependTwice(Utf8(a), [b] + (Utf8(c) + Utf8(d)), Unquote(rest));
  }

  lemma UnquoteSegment(m: Marker, rest: string)
    ensures Unquote(EncodedSegment(m) + rest) == Prepend(Utf8(MarkerSegment(m)), Unquote(rest))
  {
    SegmentOctets(m);
    EncodedSegmentParts(m);
    UnquoteThree("/", 0x2B, MarkerText(m)[1..], "/", rest);
    Regroup(Quote("/"), Percent(0x2B), Quote(MarkerText(m)[1..]), Quote("/"), rest);
  }

  lemma Regroup(a: string, b: string, c: string, d: string, rest: string)
    ensures a + (b + (c + d)) + rest == a + (b + (c + (d + rest)))
  {}

  lemma PathOctets(script: string, p: Protected)
    ensures Utf8(script + CanonicalPath(p))
            == Utf8(script) + (Utf8(Prefix(p)) + (Utf8(MarkerSegment(p.marker)) + Utf8(p.tail)))
  {
    var marker := MarkerSegment(p.marker);
    assert CanonicalPath(p) == Prefix(p) + (marker + p.tail);
    Utf8Concat(script, CanonicalPath(p));
    Utf8Concat(Prefix(p), marker + p.tail);
    Utf8Concat(marker, p.tail);
  }

  lemma PrependFour(a: Octets, b: Octets, c: Octets, d: Octets)
    ensures Prepend(a, Prepend(b, Prepend(c, Prepend(d, Some([]))))) == Some(a + (b + (c + d)))
  {
    assert d + [] == d;
  }

  lemma UnquoteParts(script: string, prefix: string, m: Marker, tail: string)
    ensures Unquote(Quote(script) + (Quote(prefix) + (EncodedSegment(m) + Quote(tail))))
            == Some(Utf8(script) + (Utf8(prefix) + (Utf8(MarkerSegment(m)) + Utf8(tail))))
  {
    UnquoteQuote(script, Quote(prefix) + (EncodedSegment(m) + Quote(tail)));
    UnquoteQuote(prefix, EncodedSegment(m) + Quote(tail));
    UnquoteSegment(m, Quote(tail));
    UnquoteQuote(tail, "");
    assert Quote(tail) + "" == Quote(tail);
    PrependFour(Utf8(script), Utf8(prefix), Utf8(MarkerSegment(m)), Utf8(tail));
  }

  lemma UnquoteForm(script: string, p: Protected, form: string)
    requires form == Quote(Prefix(p)) + (EncodedSegment(p.marker) + Quote(p.tail))
    ensures Unquote(Quote(script) + form) == Some(Utf8(script + CanonicalPath(p)))
  {
    UnquoteParts(script, Prefix(p), p.marker, p.tail);
    PathOctets(script, p);
  }

  lemma UnquoteEncodedMarker(other: Other, script: string, p: Protected)
    requires ValidSegment(other, p.user) && ValidSegment(other, p.index)
    ensures Unquote(Quote(script) + EncodedMarkerForm(CanonicalPath(p), p.marker))
            == Some(Utf8(script + CanonicalPath(p)))
  {
    MarkerReplaced(other, p);
    UnquoteForm(script, p, EncodedMarkerForm(CanonicalPath(p), p.marker));
  }

  predicate NoPercent(p: Protected) {
    '%' !in CanonicalPath(p)
  }

  lemma GuardedHasNoPercent(other: Other, p: Protected)
    requires ValidSegment(other, p.user) && ValidSegment(other, p.index) && ValidTail(other, p.tail)
    ensures NoPercent(p)
  {
    SafeHasNoPercent(other, p.user);
    SafeHasNoPercent(other, p.index);
    SafeHasNoPercent(other, p.tail);
  }

  lemma SafeHasNoPercent(other: Other, s: string)
    requires !Unsafe(other, s)
    ensures '%' !in s
  {}

  /** Every accepted raw form percent-decodes to exactly the script name and the canonical path. */
  lemma AcceptedDecodes(other: Other, script: string, p: Protected, raw: string)
    requires ValidSegment(other, p.user) && ValidSegment(other, p.index) && ValidTail(other, p.tail)
    requires ValidScriptName(other, script) && AcceptedForm(script, p, raw)
    ensures Unquote(raw) == Some(Utf8(script + CanonicalPath(p)))
  {
    var path := script + CanonicalPath(p);
    GuardedHasNoPercent(other, p);
    if script != "" { SafeHasNoPercent(other, script); }
    if raw == Quote(path) {
      UnquoteQuote(path, "");
      assert Quote(path) + "" == Quote(path) && Utf8(path) + [] == Utf8(path);
    } else if Ascii(path) && raw == path {
      UnquoteLiteral(path);
    } else {
      UnquoteEncodedMarker(other, script, p);
    }
  }

  /** So one raw target is accepted for at most one path. */
  lemma OneRawOnePath(other: Other, script: string, p: Protected, q: Protected, raw: string)
    requires ValidSegment(other, p.user) && ValidSegment(other, p.index) && ValidTail(other, p.tail)
    requires ValidSegment(other, q.user) && ValidSegment(other, q.index) && ValidTail(other, q.tail)
    requires ValidScriptName(other, script) && AcceptedForm(script, p, raw) && AcceptedForm(script, q, raw)
    ensures CanonicalPath(p) == CanonicalPath(q)
  {
    AcceptedDecodes(other, script, p, raw);
    AcceptedDecodes(other, script, q, raw);
    Utf8Injective(script + CanonicalPath(p), script + CanonicalPath(q));
    assert CanonicalPath(p) == (script + CanonicalPath(p))[|script|..];
    assert CanonicalPath(q) == (script + CanonicalPath(q))[|script|..];
  }
}
