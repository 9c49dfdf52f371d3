/** Unpadded base64url (section 5 of RFC 4648), with the decoder's habit of ignoring leftover bits. */
module Base64Url {
  import opened History

  type Bytes = seq<nat>

  predicate AreBytes(b: Bytes) {
    forall i :: 0 <= i < |b| ==> b[i] < 256
  }

  function Symbol(v: nat): char
    requires v < 64
  {
    if v < 26 then 'A' + v as char
    else if v < 52 then 'a' + (v - 26) as char
    else if v < 62 then '0' + (v - 52) as char
    else if v == 62 then '-' else '_'
  }

  predicate IsSymbol(c: char) {
    'A' <= c <= 'Z' || 'a' <= c <= 'z' || '0' <= c <= '9' || c == '-' || c == '_'
  }

  predicate AllSymbols(s: string) {
    forall i :: 0 <= i < |s| ==> IsSymbol(s[i])
  }

  function Value(c: char): (v: nat)
    requires IsSymbol(c)
    ensures v < 64 && Symbol(v) == c
  {
    if 'A' <= c <= 'Z' then (c - 'A') as nat
    else if 'a' <= c <= 'z' then (c - 'a') as nat + 26
    else if '0' <= c <= '9' then (c - '0') as nat + 52
    else if c == '-' then 62 else 63
  }

  lemma ValueOfSymbol(v: nat)
    requires v < 64
    ensures IsSymbol(Symbol(v)) && Value(Symbol(v)) == v
  {}

  // The four six-bit pieces of three bytes, and the bytes of four pieces.

  function Piece0(x: nat): (v: nat)
    requires x < 256
    ensures v < 64
  {
    x / 4
  }

  function Piece1(x: nat, y: nat): (v: nat)
    requires x < 256 && y < 256
    ensures v < 64
  {
    x % 4 * 16 + y / 16
  }

  function Piece2(y: nat, z: nat): (v: nat)
    requires y < 256 && z < 256
    ensures v < 64
  {
    y % 16 * 4 + z / 64
  }

  function Piece3(z: nat): (v: nat)
    requires z < 256
    ensures v < 64
  {
    z % 64
  }

  function Byte0(v0: nat, v1: nat): (x: nat)
    requires v0 < 64 && v1 < 64
    ensures x < 256
  {
    v0 * 4 + v1 / 16
  }

  function Byte1(v1: nat, v2: nat): (y: nat)
    requires v1 < 64 && v2 < 64
    ensures y < 256
  {
    v1 % 16 * 16 + v2 / 4
  }

  function Byte2(v2: nat, v3: nat): (z: nat)
    requires v2 < 64 && v3 < 64
    ensures z < 256
  {
    v2 % 4 * 64 + v3
  }

  lemma PiecesGiveBytes(x: nat, y: nat, z: nat)
    requires x < 256 && y < 256 && z < 256
    ensures Byte0(Piece0(x), Piece1(x, y)) == x
    ensures Byte1(Piece1(x, y), Piece2(y, z)) == y
    ensures Byte2(Piece2(y, z), Piece3(z)) == z
  {}

  type Pieces = seq<nat>

  predicate ArePieces(v: Pieces) {
    forall i :: 0 <= i < |v| ==> v[i] < 64
  }

  function Split(b: Bytes): (v: Pieces)
    requires AreBytes(b)
    ensures ArePieces(v)
  {
    if |b| == 0 then []
    else if |b| == 1 then [Piece0(b[0]), Piece1(b[0], 0)]
    else if |b| == 2 then [Piece0(b[0]), Piece1(b[0], b[1]), Piece2(b[1], 0)]
    else [Piece0(b[0]), Piece1(b[0], b[1]), Piece2(b[1], b[2]), Piece3(b[2])] + Split(b[3..])
  }

  /** A number of pieces some byte string splits into. */
  predicate Whole(n: nat) {
    if n < 4 then n != 1 else Whole(n - 4)
  }

  lemma {:induction false} WholeExactly(n: nat)
    ensures Whole(n) <==> n % 4 != 1
  {
    if n >= 4 { WholeExactly(n - 4); }
  }

  /** None for the lengths no byte string splits into. */
  function Join(v: Pieces): (b: Option<Bytes>)
    requires ArePieces(v)
    ensures b.Some? <==> Whole(|v|)
  {
    if |v| == 0 then Some([])
    else if |v| == 1 then None
    else if |v| == 2 then Some([Byte0(v[0], v[1])])
    else if |v| == 3 then Some([Byte0(v[0], v[1]), Byte1(v[1], v[2])])
    else
      var rest := Join(v[4..]);
      if rest == None then None else Some([Byte0(v[0], v[1]), Byte1(v[1], v[2]), Byte2(v[2], v[3])] + rest.value)
  }

  lemma {:induction false} JoinGivesBytes(v: Pieces)
    requires ArePieces(v) && Join(v).Some?
    ensures AreBytes(Join(v).value)
    decreases |v|
  {
    if |v| >= 4 {
      JoinGivesBytes(v[4..]);
      var first, second, third := Byte0(v[0], v[1]), Byte1(v[1], v[2]), Byte2(v[2], v[3]);
      assert Join(v).value == [first, second, third] + Join(v[4..]).value;
    }
  }

  lemma JoinStep(v0: nat, v1: nat, v2: nat, v3: nat, rest: Pieces, x: nat, y: nat, z: nat, tail: Bytes)
    requires v0 < 64 && v1 < 64 && v2 < 64 && v3 < 64 && ArePieces(rest)
    requires Byte0(v0, v1) == x && Byte1(v1, v2) == y && Byte2(v2, v3) == z && Join(rest) == Some(tail)
    ensures ArePieces([v0, v1, v2, v3] + rest) && Join([v0, v1, v2, v3] + rest) == Some([x, y, z] + tail)
  {
    var v := [v0, v1, v2, v3] + rest;
    assert v[4..] == rest && v[0] == v0 && v[1] == v1 && v[2] == v2 && v[3] == v3;
  }

  lemma JoinTwoOrThree(v0: nat, v1: nat, v2: nat, x: nat, y: nat)
    requires v0 < 64 && v1 < 64 && v2 < 64 && Byte0(v0, v1) == x
    ensures Join([v0, v1]) == Some([x])
    ensures Byte1(v1, v2) == y ==> Join([v0, v1, v2]) == Some([x, y])
  {}

  lemma JoinSplitOne(x: nat)
    requires x < 256
    ensures Join([Piece0(x), Piece1(x, 0)]) == Some([x])
  {
    PiecesGiveBytes(x, 0, 0);
    JoinTwoOrThree(Piece0(x), Piece1(x, 0), 0, x, 0);
  }

  lemma JoinSplitTwo(x: nat, y: nat)
    requires x < 256 && y < 256
    ensures Join([Piece0(x), Piece1(x, y), Piece2(y, 0)]) == Some([x, y])
  {
    PiecesGiveBytes(x, y, 0);
    JoinTwoOrThree(Piece0(x), Piece1(x, y), Piece2(y, 0), x, y);
  }

  lemma {:induction false} JoinSplit(b: Bytes)
    requires AreBytes(b)
    ensures Join(Split(b)) == Some(b)
    decreases |b|
  {
    if |b| == 1 {
      JoinSplitOne(b[0]);
      assert b == [b[0]];
    } else if |b| == 2 {
      JoinSplitTwo(b[0], b[1]);
      assert b == [b[0], b[1]];
    } else if |b| >= 3 {
      var x, y, z := b[0], b[1], b[2];
      PiecesGiveBytes(x, y, z);
      JoinSplit(b[3..]);
      JoinStep(Piece0(x), Piece1(x, y), Piece2(y, z), Piece3(z), Split(b[3..]), x, y, z, b[3..]);
      assert b == [x, y, z] + b[3..];
    }
  }

  function Symbols(v: Pieces): (s: string)
    requires ArePieces(v)
    ensures AllSymbols(s) && |s| == |v| && forall i :: 0 <= i < |v| ==> s[i] == Symbol(v[i])
  {
    if v == [] then "" else
      ValueOfSymbol(v[0]);
      [Symbol(v[0])] + Symbols(v[1..])
  }

  function Values(s: string): (v: Pieces)
    requires AllSymbols(s)
    ensures ArePieces(v) && |v| == |s| && forall i :: 0 <= i < |s| ==> v[i] == Value(s[i])
  {
    if s == "" then [] else [Value(s[0])] + Values(s[1..])
  }

  lemma ValuesOfSymbols(v: Pieces)
    requires ArePieces(v)
    ensures Values(Symbols(v)) == v
  {
    forall i | 0 <= i < |v| ensures Values(Symbols(v))[i] == v[i] { ValueOfSymbol(v[i]); }
  }

  function Encode(b: Bytes): (s: string)
    requires AreBytes(b)
    ensures AllSymbols(s)
  {
    Symbols(Split(b))
  }

  function Decode(s: string): (b: Option<Bytes>)
    requires AllSymbols(s)
    ensures b.Some? ==> AreBytes(b.value)
    ensures b.Some? <==> |s| % 4 != 1
  {
    WholeExactly(|s|);
    var joined := Join(Values(s));
    assert joined.Some? ==> AreBytes(joined.value) by { if joined.Some? { JoinGivesBytes(Values(s)); } }
    joined
  }

  /** Decoding an encoding gives the bytes back. */
  lemma RoundTrip(b: Bytes)
    requires AreBytes(b)
    ensures Decode(Encode(b)) == Some(b)
  {
    ValuesOfSymbols(Split(b));
    JoinSplit(b);
  }

  /** A text is the encoding of something exactly when encoding its decoding gives it back; most
      texts with leftover bits are not. */
  predicate Canonical(s: string) {
    AllSymbols(s) && Decode(s).Some? && Encode(Decode(s).value) == s
  }

  lemma CanonicalExactly(s: string)
    ensures Canonical(s) <==> exists b :: AreBytes(b) && Encode(b) == s
  {
    if b :| AreBytes(b) && Encode(b) == s { RoundTrip(b); }
    if Canonical(s) { assert AreBytes(Decode(s).value); }
  }

  /** Two pieces that differ only in leftover bits decode to the same byte; only one is canonical. */
  lemma LeftoverBitsRefused(x: nat, v: nat)
    requires x < 256 && v < 64 && Byte0(Piece0(x), v) == x
    ensures Decode(Symbols([Piece0(x), v])) == Some([x])
    ensures Canonical(Symbols([Piece0(x), v])) <==> v == Piece1(x, 0)
  {
    ValuesOfSymbols([Piece0(x), v]);
    ValuesOfSymbols([Piece0(x), Piece1(x, 0)]);
  }

  // ----- the encoding itself -----

  const UPPER := "ABCDEFGHIJKLMNOPQRSTUVWXYZ"
  const LOWER := "abcdefghijklmnopqrstuvwxyz"
  const OTHERS := "0123456789-_"

  /** The alphabet of section 5 of RFC 4648. */
  predicate Spells(c: char, v: nat)
    requires v < 64
  {
    c == if v < 26 then UPPER[v] else if v < 52 then LOWER[v - 26] else OTHERS[v - 52]
  }

  lemma UpperExactly(v: nat)
    requires v < 26
    ensures UPPER[v] as int == 'A' as int + v
  {}

  lemma LowerExactly(v: nat)
    requires v < 26
    ensures LOWER[v] as int == 'a' as int + v
  {}

  lemma SymbolExactly(v: nat)
    requires v < 64
    ensures Spells(Symbol(v), v)
  {
    if v < 26 { UpperExactly(v); } else if v < 52 { LowerExactly(v - 26); }
  }

  lemma PieceBits(x: nat, y: nat, z: nat)
    requires x < 256 && y < 256 && z < 256
    ensures ((Piece0(x) * 64 + Piece1(x, y)) * 64 + Piece2(y, z)) * 64 + Piece3(z) == (x * 256 + y) * 256 + z
    ensures (Piece0(x) * 64 + Piece1(x, y)) * 64 + Piece2(y, 0) == (x * 256 + y) * 4
    ensures Piece0(x) * 64 + Piece1(x, 0) == x * 16
  {}

  /** The bits of the bytes, six at a time: four symbols for three bytes, and zero bits behind a last
      one or two. */
  predicate SameBits(b: Bytes, v: Pieces)
    decreases |b|
  {
    if |b| == 0 then v == []
    else if |b| == 1 then |v| == 2 && v[0] * 64 + v[1] == b[0] * 16
    else if |b| == 2 then |v| == 3 && (v[0] * 64 + v[1]) * 64 + v[2] == (b[0] * 256 + b[1]) * 4
    else
      && |v| >= 4
      && ((v[0] * 64 + v[1]) * 64 + v[2]) * 64 + v[3] == (b[0] * 256 + b[1]) * 256 + b[2]
      && SameBits(b[3..], v[4..])
  }

  lemma {:induction false} SplitBits(b: Bytes)
    requires AreBytes(b)
    ensures SameBits(b, Split(b))
    decreases |b|
  {
    if |b| > 0 { PieceBits(b[0], if |b| > 1 then b[1] else 0, if |b| > 2 then b[2] else 0); }
    if |b| >= 3 {
      SplitBits(b[3..]);
      assert Split(b)[4..] == Split(b[3..]);
    }
  }

  /** An encoding spells the bits of the bytes. */
  lemma EncodeExactly(b: Bytes)
    requires AreBytes(b)
    ensures exists v: Pieces ::
              && SameBits(b, v) && |v| == |Encode(b)|
              && forall i :: 0 <= i < |v| ==> v[i] < 64 && Spells(Encode(b)[i], v[i])
  {
    SplitBits(b);
    forall i | 0 <= i < |Split(b)| ensures Spells(Encode(b)[i], Split(b)[i]) { SymbolExactly(Split(b)[i]); }
  }
}
