/** Raw request targets character by character: which paths are protected, and how each may be spelt. */
module RawForms {
  import opened History
  import opened Paths
  import opened PercentCoding
  import opened RawTarget

  // ----- which paths are protected -----

  /** A name a route takes for a user or an index. */
  ghost predicate RouteName(other: Other, s: string) {
    && s != "" && s != "." && s != ".."
    && forall c :: c in s ==> c !in "/+%#\\" && !other(c)
  }

  /** A path below the marker: nothing empty, no dots, nothing odd. */
  ghost predicate RouteTail(other: Other, s: string) {
    && s != "" && (forall c :: c in s ==> c !in "%#\\" && !other(c))
    && forall i: nat, j: nat :: PlainPieceAt(s, i, j) ==> s[i..j] != "" && s[i..j] != "." && s[i..j] != ".."
  }

  lemma SegmentExactly(other: Other, s: string)
    ensures ValidSegment(other, s) <==> RouteName(other, s)
  {
    UnsafeExactly(other, s);
    assert forall c :: c in "/+%#\\" <==> c == '/' || c == '+' || c in "%#\\";
  }

  lemma UnsafeExactly(other: Other, s: string)
    ensures !Unsafe(other, s) <==> forall c :: c in s ==> c !in "%#\\" && !other(c)
  {
    if !Unsafe(other, s) {
      forall c | c in s ensures c !in "%#\\" && !other(c) { var i :| 0 <= i < |s| && s[i] == c; }
    } else {
      var i :| 0 <= i < |s| && (s[i] == '%' || s[i] == '#' || s[i] == '\\' || other(s[i]));
      assert s[i] in s;
    }
  }

  lemma TailExactly(other: Other, s: string)
    ensures ValidTail(other, s) <==> RouteTail(other, s)
  {
    UnsafeExactly(other, s);
    forall x
      ensures x in Split(s) <==> exists i: nat, j: nat :: PlainPieceAt(s, i, j) && s[i..j] == x
    {
      SplitIsPlainPieces(s, x);
    }
    if ValidTail(other, s) {
      forall i: nat, j: nat | PlainPieceAt(s, i, j) ensures s[i..j] != "" && s[i..j] != "." && s[i..j] != ".." {
        assert s[i..j] in Split(s);
      }
    }
    if RouteTail(other, s) {
      forall k | 0 <= k < |Split(s)| ensures Split(s)[k] != "" && !Dots(Split(s)[k]) {
        assert Split(s)[k] in Split(s);
      }
    }
  }

  predicate MarkerComponent(part: string) {
    part == "+f" || part == "+e"
  }

  /** Some three components are the first that are not empty, and the third of them is a marker. */
  ghost predicate MarkedWithoutGaps(parts: seq<string>) {
    exists i: nat, j: nat, k: nat :: FirstThree(parts, i, j, k) && MarkerComponent(parts[k])
  }

  predicate FirstThree(parts: seq<string>, i: nat, j: nat, k: nat) {
    && i < j < k < |parts| && parts[i] != "" && parts[j] != "" && parts[k] != ""
    && forall m :: 0 <= m < k && m != i && m != j ==> parts[m] == ""
  }

  ghost predicate Marked(path: string) {
    var parts := Split(path);
    (|parts| > 3 && MarkerComponent(parts[3])) || MarkedWithoutGaps(parts)
  }

  lemma {:induction false} FirstPresent(parts: seq<string>, start: nat) returns (i: nat)
    requires start <= |parts| && NonEmpty(parts[start..]) != []
    ensures start <= i < |parts| && parts[i] != "" && parts[i] == NonEmpty(parts[start..])[0]
    ensures NonEmpty(parts[i + 1..]) == NonEmpty(parts[start..])[1..]
    ensures forall m :: start <= m < i ==> parts[m] == ""
    decreases |parts| - start
  {
    assert parts[start..][0] == parts[start] && parts[start..][1..] == parts[start + 1..];
    if parts[start] == "" { i := FirstPresent(parts, start + 1); } else { i := start; }
  }

  lemma {:induction false} SkipEmpty(parts: seq<string>, start: nat, i: nat)
    requires start <= i < |parts| && parts[i] != "" && forall m :: start <= m < i ==> parts[m] == ""
    ensures NonEmpty(parts[start..]) == [parts[i]] + NonEmpty(parts[i + 1..])
    decreases i - start
  {
    assert parts[start..][0] == parts[start] && parts[start..][1..] == parts[start + 1..];
    if start < i { SkipEmpty(parts, start + 1, i); }
  }

  lemma ThirdPresent(parts: seq<string>)
    requires |NonEmpty(parts)| > 2 && MarkerComponent(NonEmpty(parts)[2])
    ensures MarkedWithoutGaps(parts)
  {
    assert parts[0..] == parts;
    var i := FirstPresent(parts, 0);
    var j := FirstPresent(parts, i + 1);
    var k := FirstPresent(parts, j + 1);
    assert FirstThree(parts, i, j, k);
  }

  lemma GapsAreSkipped(parts: seq<string>, i: nat, j: nat, k: nat)
    requires FirstThree(parts, i, j, k)
    ensures |NonEmpty(parts)| > 2 && NonEmpty(parts)[2] == parts[k]
  {
    assert parts[0..] == parts;
    SkipEmpty(parts, 0, i);
    SkipEmpty(parts, i + 1, j);
    SkipEmpty(parts, j + 1, k);
  }

  lemma ThirdExactly(parts: seq<string>)
    ensures |NonEmpty(parts)| > 2 && MarkerComponent(NonEmpty(parts)[2]) <==> MarkedWithoutGaps(parts)
  {
    if |NonEmpty(parts)| > 2 && MarkerComponent(NonEmpty(parts)[2]) { ThirdPresent(parts); }
    if MarkedWithoutGaps(parts) {
      var i: nat, j: nat, k: nat :| FirstThree(parts, i, j, k) && MarkerComponent(parts[k]);
      GapsAreSkipped(parts, i, j, k);
    }
  }

  lemma MarkerIs(part: string)
    ensures MarkerOf(part).Some? <==> MarkerComponent(part)
  {}

  lemma MarkedExactly(path: string)
    ensures FoundMarker(path).Some? <==> Marked(path)
  {
    var parts := Split(path);
    ThirdExactly(parts);
    if |parts| > 3 { MarkerIs(parts[3]); }
    if |NonEmpty(parts)| > 2 { MarkerIs(NonEmpty(parts)[2]); }
  }

  /** A path is let through unchecked exactly when it carries no marker, not even behind empty components. */
  lemma OpenExactly(other: Other, path: string)
    ensures Classify(other, path) == Open <==> !Marked(path)
  {
    MarkedExactly(path);
  }

  /** The one spelling of a protected path. */
  ghost predicate Spells(path: string, p: Protected) {
    path == "/" + (p.user + ("/" + (p.index + ((if p.marker == F then "/+f/" else "/+e/") + p.tail))))
  }

  lemma SpellsExactly(path: string, p: Protected)
    ensures Spells(path, p) <==> path == CanonicalPath(p)
  {
    var marker := if p.marker == F then "/+f/" else "/+e/";
    assert ['/'] + MarkerText(p.marker) + ['/'] == marker;
    assert CanonicalPath(p) == "/" + (p.user + ("/" + (p.index + (marker + p.tail))));
  }

  lemma SplitOnce(a: string, rest: string)
    requires '/' !in a
    ensures Split(a + (['/'] + rest)) == [a] + Split(rest)
  {
    SplitAtSlash(a, rest);
    SplitPlain(a);
  }

  lemma SplitCanonical(p: Protected)
    requires '/' !in p.user && '/' !in p.index
    ensures Split(CanonicalPath(p)) == [""] + ([p.user] + ([p.index] + ([MarkerText(p.marker)] + Split(p.tail))))
  {
    var after := MarkerText(p.marker) + (['/'] + p.tail);
    var middle := p.index + (['/'] + after);
    var front := p.user + (['/'] + middle);
    SplitOnce(MarkerText(p.marker), p.tail);
    SplitOnce(p.index, after);
    SplitOnce(p.user, middle);
    SplitOnce("", front);
    assert "" + (['/'] + front) == CanonicalPath(p);
  }

  lemma CanonicalIsGuarded(other: Other, p: Protected)
    requires ValidSegment(other, p.user) && ValidSegment(other, p.index) && ValidTail(other, p.tail)
    ensures Classify(other, CanonicalPath(p)) == Guarded(p)
  {
    var parts := Split(CanonicalPath(p));
    SplitCanonical(p);
    assert parts[0] == "" && parts[1] == p.user && parts[2] == p.index && parts[3] == MarkerText(p.marker);
    assert parts[4..] == Split(p.tail);
    JoinSplit(p.tail);
  }

  /** A path is protected as a file exactly when it is that file's one spelling, with route names and a
      tail that mean nothing else. */
  lemma GuardedExactly(other: Other, path: string, p: Protected)
    ensures Classify(other, path) == Guarded(p) <==>
              Spells(path, p) && RouteName(other, p.user) && RouteName(other, p.index) && RouteTail(other, p.tail)
  {
    SpellsExactly(path, p);
    SegmentExactly(other, p.user);
    SegmentExactly(other, p.index);
    TailExactly(other, p.tail);
    if Classify(other, path) == Guarded(p) { GuardedIsCanonical(other, path); }
    if ValidSegment(other, p.user) && ValidSegment(other, p.index) && ValidTail(other, p.tail) {
      CanonicalIsGuarded(other, p);
    }
  }

  // ----- how it may be spelt -----

  const UNQUOTED := "/:@-._~!$&'()*+,;="

  const HEXADECIMAL := "0123456789ABCDEF"

  predicate Literal(c: char) {
    'a' <= c <= 'z' || 'A' <= c <= 'Z' || '0' <= c <= '9' || c in UNQUOTED
  }

  lemma SafeExactly(c: char)
    ensures PathSafe(c) <==> Literal(c)
  {}

  lemma HexExactly(d: nat)
    requires d < 16
    ensures HexDigit(d) == HEXADECIMAL[d]
  {}

  /** UTF-8 in its shortest form (section 3 of RFC 3629). */
  ghost predicate ShortestUtf8(c: char, r: Octets) {
    var n := c as nat;
    || (n < 0x80 && r == [n])
    || (0x80 <= n < 0x800 && |r| == 2 && 0xC0 <= r[0] < 0xE0 && Continues(r) && n == (r[0] - 0xC0) * 64 + (r[1] - 0x80))
    || (0x800 <= n < 0x1_0000 && |r| == 3 && 0xE0 <= r[0] < 0xF0 && Continues(r)
        && n == ((r[0] - 0xE0) * 64 + (r[1] - 0x80)) * 64 + (r[2] - 0x80))
    || (0x1_0000 <= n && |r| == 4 && 0xF0 <= r[0] < 0xF8 && Continues(r)
        && n == (((r[0] - 0xF0) * 64 + (r[1] - 0x80)) * 64 + (r[2] - 0x80)) * 64 + (r[3] - 0x80))
  }

  predicate Continues(r: Octets) {
    forall i :: 1 <= i < |r| ==> 0x80 <= r[i] < 0xC0
  }

  lemma Utf8Exactly(c: char)
    ensures ShortestUtf8(c, Utf8Char(c))
  {
    CodePoint(c);
  }

  /** A quoted character: itself, or a percent sign and two hexadecimal digits for each octet. */
  ghost predicate QuotedAs(c: char, q: string) {
    if Literal(c) then q == [c]
    else exists r: Octets ::
      && ShortestUtf8(c, r) && |q| == 3 * |r|
      && forall i :: 0 <= i < |r| ==> r[i] < 256 && q[3 * i..3 * i + 3]
                                                    == ['%', HEXADECIMAL[r[i] / 16], HEXADECIMAL[r[i] % 16]]
  }

  lemma {:induction false} PercentAllExactly(b: Octets)
    requires forall i :: 0 <= i < |b| ==> b[i] < 256
    ensures |PercentAll(b)| == 3 * |b|
    ensures forall i :: 0 <= i < |b| ==>
              PercentAll(b)[3 * i..3 * i + 3] == ['%', HEXADECIMAL[b[i] / 16], HEXADECIMAL[b[i] % 16]]
    decreases |b|
  {
    if b != [] {
      var q, rest := PercentAll(b), PercentAll(b[1..]);
      PercentAllExactly(b[1..]);
      HexExactly(b[0] / 16);
      HexExactly(b[0] % 16);
      forall i | 0 <= i < |b| ensures q[3 * i..3 * i + 3] == ['%', HEXADECIMAL[b[i] / 16], HEXADECIMAL[b[i] % 16]] {
        if i > 0 {
          assert q[3 * i..3 * i + 3] == rest[3 * (i - 1)..3 * (i - 1) + 3];
          assert b[i] == b[1..][i - 1];
        }
      }
    }
  }

  lemma QuoteCharExactly(c: char)
    ensures QuotedAs(c, QuoteChar(c))
  {
    SafeExactly(c);
    Utf8Exactly(c);
    PercentAllExactly(Utf8Char(c));
  }

  /** The spellings accepted for a path under a script name: all of it quoted, all of it as it is
      when that is plain ASCII, or quoted with the marker's plus sign encoded. */
  lemma AcceptedExactly(other: Other, script: string, p: Protected, raw: string)
    requires RouteName(other, p.user) && RouteName(other, p.index)
    ensures AcceptedForm(script, p, raw) <==>
              || raw == Quote(script + CanonicalPath(p))
              || (raw == script + CanonicalPath(p) && forall i :: 0 <= i < |raw| ==> raw[i] as int < 128)
              || raw == Quote(script) + (Quote("/" + p.user + "/" + p.index)
                                         + ((if p.marker == F then "/%2Bf/" else "/%2Be/") + Quote(p.tail)))
  {
    SegmentExactly(other, p.user);
    SegmentExactly(other, p.index);
    MarkerReplaced(other, p);
    var encoded := if p.marker == F then "/%2Bf/" else "/%2Be/";
    assert EncodedSegment(p.marker) == encoded;
    assert Prefix(p) == "/" + p.user + "/" + p.index;
  }

  /** Up to the first question mark. */
  lemma {:induction false} PathPartExactly(target: string)
    ensures PathPart(target) <= target && '?' !in PathPart(target)
    ensures |PathPart(target)| == |target| || target[|PathPart(target)|] == '?'
    decreases |target|
  {
    if target != "" && target[0] != '?' { PathPartExactly(target[1..]); }
  }

  lemma ScriptNameExactly(other: Other, s: string)
    ensures ValidScriptName(other, s) <==>
              s == "" || (s[0] == '/' && !other('/') && '?' !in s && RouteTail(other, s[1..]))
  {
    if s != "" {
      TailExactly(other, s[1..]);
      UnsafeExactly(other, s);
      UnsafeExactly(other, s[1..]);
      assert s == [s[0]] + s[1..];
      if s[1..] == "" || s[|s| - 1] == '/' { ScriptEnd(s[1..]); }
    }
  }

  /** A trailing slash leaves an empty last component. */
  lemma ScriptEnd(path: string)
    requires path == "" || path[|path| - 1] == '/'
    ensures exists k :: 0 <= k < |Split(path)| && Split(path)[k] == ""
  {
    if path == "" {
      assert Split(path)[0] == "";
    } else {
      var front := path[..|path| - 1];
      assert path == front + (['/'] + "");
      SplitAtSlash(front, "");
      assert Split(path)[|Split(path)| - 1] == "";
    }
  }
}
