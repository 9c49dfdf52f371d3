/** Paths split at their slashes, empty components and all. */
module Paths {

  /** Backslashes separate components, too. */
  function Portable(raw: string): (r: string)
    ensures |r| == |raw| && forall i :: 0 <= i < |raw| ==> r[i] == if raw[i] == '\\' then '/' else raw[i]
  {
    if raw == "" then "" else [if raw[0] == '\\' then '/' else raw[0]] + Portable(raw[1..])
  }

  function Split(path: string): (r: seq<string>)
    ensures r != [] && forall i :: 0 <= i < |r| ==> '/' !in r[i]
  {
    if path == "" then [""]
    else
      var rest := Split(path[1..]);
      if path[0] == '/' then [""] + rest else [[path[0]] + rest[0]] + rest[1..]
  }

  function Join(parts: seq<string>): string
    requires parts != []
  {
    if |parts| == 1 then parts[0] else parts[0] + (['/'] + Join(parts[1..]))
  }

  lemma {:induction false} JoinSplit(path: string)
    ensures Join(Split(path)) == path
    decreases |path|
  {
    if path != "" {
      JoinSplit(path[1..]);
      var rest := Split(path[1..]);
      if path[0] == '/' {
        assert ([""] + rest)[1..] == rest;
        assert path == ['/'] + path[1..];
      } else {
        var parts := [[path[0]] + rest[0]] + rest[1..];
        assert parts[1..] == rest[1..];
        assert path == [path[0]] + path[1..];
      }
    }
  }

  lemma {:induction false} SplitAtSlash(a: string, b: string)
    ensures Split(a + (['/'] + b)) == Split(a) + Split(b)
    decreases |a|
  {
    var path := a + (['/'] + b);
    if a == "" {
      assert path == ['/'] + b && path[1..] == b;
    } else {
      assert path[0] == a[0] && path[1..] == a[1..] + (['/'] + b);
      SplitAtSlash(a[1..], b);
    }
  }

  lemma {:induction false} SplitPlain(a: string)
    requires '/' !in a
    ensures Split(a) == [a]
    decreases |a|
  {
    if a != "" {
      SplitPlain(a[1..]);
      assert a == [a[0]] + a[1..];
    }
  }

  lemma {:induction false} SplitJoin(parts: seq<string>)
    requires parts != [] && forall i :: 0 <= i < |parts| ==> '/' !in parts[i]
    ensures Split(Join(parts)) == parts
    decreases |parts|
  {
    SplitPlain(parts[0]);
    if |parts| == 1 {
      assert parts == [parts[0]];
    } else {
      SplitJoin(parts[1..]);
      SplitAtSlash(parts[0], Join(parts[1..]));
      assert parts == [parts[0]] + parts[1..];
    }
  }

  lemma {:induction false} SplitJoinConcat(a: seq<string>, b: seq<string>)
    requires a != [] && b != []
    ensures Split(Join(a + b)) == Split(Join(a)) + Split(Join(b))
    decreases |a|
  {
    if |a| == 1 {
      assert (a + b)[1..] == b;
      SplitAtSlash(a[0], Join(b));
    } else {
      assert (a + b)[1..] == a[1..] + b;
      SplitJoinConcat(a[1..], b);
      SplitAtSlash(a[0], Join(a[1..] + b));
      SplitAtSlash(a[0], Join(a[1..]));
    }
  }

  // ----- the components as pieces of the text -----

  predicate PlainPieceAt(path: string, i: nat, j: nat) {
    && i <= j <= |path| && (i == 0 || path[i - 1] == '/') && (j == |path| || path[j] == '/') && '/' !in path[i..j]
  }

  lemma FromPiece(path: string, i: nat, j: nat)
    requires i <= j <= |path| && (j == |path| || path[j] == '/') && '/' !in path[i..j]
    ensures path[i..j] in Split(path[i..])
  {
    var piece, after := path[i..j], path[i..];
    SplitPlain(piece);
    if j < |path| {
      assert after == piece + (['/'] + path[j + 1..]);
      SplitAtSlash(piece, path[j + 1..]);
    } else {
      assert after == piece;
    }
  }

  lemma PieceInSplit(path: string, i: nat, x: string)
    requires i <= |path| && (i == 0 || path[i - 1] == '/') && x in Split(path[i..])
    ensures x in Split(path)
  {
    if i > 0 {
      assert path == path[..i - 1] + (['/'] + path[i..]);
      SplitAtSlash(path[..i - 1], path[i..]);
    } else {
      assert path == path[i..];
    }
  }

  lemma Shifted(path: string, shift: nat, a: nat, b: nat)
    requires a <= b && shift + b <= |path|
    ensures path[a + shift..b + shift] == path[shift..][a..b]
  {}

  lemma PieceBehind(first: string, rest: string, a: nat, b: nat)
    requires PlainPieceAt(rest, a, b)
    ensures var path, shift := first + (['/'] + rest), |first| + 1;
            PlainPieceAt(path, a + shift, b + shift) && path[a + shift..b + shift] == rest[a..b]
  {
    var path, shift := first + (['/'] + rest), |first| + 1;
    assert path[shift..] == rest;
    Shifted(path, shift, a, b);
  }

  lemma FirstPiece(first: string, rest: string)
    requires '/' !in first
    ensures PlainPieceAt(first, 0, |first|) && first[0..|first|] == first
    ensures var path := first + (['/'] + rest); PlainPieceAt(path, 0, |first|) && path[0..|first|] == first
  {
    var path := first + (['/'] + rest);
    assert path[0..|first|] == first && first[0..|first|] == first;
  }

  lemma {:induction false} PieceOfJoin(parts: seq<string>, k: nat) returns (i: nat, j: nat)
    requires k < |parts| && forall m :: 0 <= m < |parts| ==> '/' !in parts[m]
    ensures PlainPieceAt(Join(parts), i, j) && Join(parts)[i..j] == parts[k]
    decreases |parts|
  {
    if k == 0 {
      i, j := 0, |parts[0]|;
      FirstPiece(parts[0], if |parts| > 1 then Join(parts[1..]) else "");
    } else {
      var a, b := PieceOfJoin(parts[1..], k - 1);
      PieceBehind(parts[0], Join(parts[1..]), a, b);
      i, j := a + (|parts[0]| + 1), b + (|parts[0]| + 1);
    }
  }

  /** The components of a path are the pieces between its slashes. */
  lemma SplitIsPlainPieces(path: string, x: string)
    ensures x in Split(path) <==> exists i: nat, j: nat :: PlainPieceAt(path, i, j) && path[i..j] == x
  {
    if i: nat, j: nat :| PlainPieceAt(path, i, j) && path[i..j] == x {
      FromPiece(path, i, j);
      PieceInSplit(path, i, x);
    }
    if x in Split(path) {
      JoinSplit(path);
      var k: nat :| k < |Split(path)| && Split(path)[k] == x;
      var i, j := PieceOfJoin(Split(path), k);
    }
  }
}
