/** Append-only tables in which each artifact has at most one current row: verdicts, manual
    overrides and baseline overrides.  A row's id is its position plus one. */
module History {

  /** The number 64 lower-case hexadecimal digits stand for; text order is numeric order. */
  type Digest = nat

  datatype Option<+T> = None | Some(value: T)

  datatype Row<T> = Row(sha256: Digest, data: T, isCurrent: bool)

  predicate CurrentAt<T>(rows: seq<Row<T>>, sha256: Digest, i: int) {
    0 <= i < |rows| && rows[i].isCurrent && rows[i].sha256 == sha256
  }

  /** Positions of an artifact's current rows, lowest first. */
  function Currents<T>(rows: seq<Row<T>>, sha256: Digest): (r: seq<nat>)
    ensures forall k :: 0 <= k < |r| ==> CurrentAt(rows, sha256, r[k])
    ensures forall i {:trigger CurrentAt(rows, sha256, i)} :: CurrentAt(rows, sha256, i) ==> i in r
    ensures r == [] || CurrentAt(rows, sha256, r[0])
    ensures |r| > 1 ==> r[0] < r[1] && CurrentAt(rows, sha256, r[1])
  {
    if rows == [] then []
    else
      var n := |rows| - 1;
      var rest := Currents(rows[..n], sha256);
      assert forall i :: CurrentAt(rows[..n], sha256, i) <==> CurrentAt(rows, sha256, i) && i != n;
      if rows[n].isCurrent && rows[n].sha256 == sha256 then rest + [n] else rest
  }

  ghost predicate OneCurrent<T>(rows: seq<Row<T>>) {
    forall sha256, i, j :: CurrentAt(rows, sha256, i) && CurrentAt(rows, sha256, j) ==> i == j
  }

  /** Rows are never removed or rewritten; the current mark is only ever taken away. */
  ghost predicate Extends<T>(before: seq<Row<T>>, after: seq<Row<T>>) {
    && |before| <= |after|
    && forall i :: 0 <= i < |before| ==>
         after[i] == before[i] || (before[i].isCurrent && after[i] == before[i].(isCurrent := false))
  }

  function Retire<T>(rows: seq<Row<T>>, i: nat): seq<Row<T>>
    requires i < |rows|
  {
    rows[i := rows[i].(isCurrent := false)]
  }

  function RetireAll<T>(rows: seq<Row<T>>, current: seq<nat>): seq<Row<T>>
    requires |current| <= 1 && (forall k :: 0 <= k < |current| ==> current[k] < |rows|)
  {
    if current == [] then rows else Retire(rows, current[0])
  }

  /** The current row gives way to a new one. */
  function Replace<T>(rows: seq<Row<T>>, sha256: Digest, data: T): seq<Row<T>>
    requires |Currents(rows, sha256)| <= 1
  {
    RetireAll(rows, Currents(rows, sha256)) + [Row(sha256, data, true)]
  }

  lemma AtMostOne<T>(rows: seq<Row<T>>, sha256: Digest)
    requires OneCurrent(rows)
    ensures |Currents(rows, sha256)| <= 1
  {
    var _ := Currents(rows, sha256);
  }

  lemma RetireAllCurrents<T>(rows: seq<Row<T>>, sha256: Digest)
    requires OneCurrent(rows)
    ensures |Currents(rows, sha256)| <= 1
    ensures var after := RetireAll(rows, Currents(rows, sha256));
            && OneCurrent(after) && Extends(rows, after) && |after| == |rows|
            && (forall i :: !CurrentAt(after, sha256, i))
            && (forall other, i :: other != sha256 ==> (CurrentAt(after, other, i) <==> CurrentAt(rows, other, i)))
            && (forall i :: 0 <= i < |rows| ==> after[i].data == rows[i].data && after[i].sha256 == rows[i].sha256)
  {
    AtMostOne(rows, sha256);
    var current := Currents(rows, sha256);
    var after := RetireAll(rows, current);
    forall i ensures !CurrentAt(after, sha256, i) {
      if CurrentAt(rows, sha256, i) { assert i in current; assert current == [i]; }
    }
    forall other, i | other != sha256 ensures CurrentAt(after, other, i) <==> CurrentAt(rows, other, i) {
      if current != [] { assert CurrentAt(rows, sha256, current[0]); }
    }
    forall d, i, j | CurrentAt(after, d, i) && CurrentAt(after, d, j) ensures i == j {
      assert CurrentAt(rows, d, i) && CurrentAt(rows, d, j);
    }
  }

  lemma AppendCurrents<T>(rows: seq<Row<T>>, row: Row<T>, sha256: Digest)
    requires row.isCurrent && row.sha256 == sha256 && forall i :: !CurrentAt(rows, sha256, i)
    ensures Currents(rows + [row], sha256) == [|rows|]
  {
    assert (rows + [row])[..|rows|] == rows;
    var _ := Currents(rows, sha256);
  }

  lemma ReplaceCurrents<T>(rows: seq<Row<T>>, sha256: Digest, data: T)
    requires OneCurrent(rows)
    ensures |Currents(rows, sha256)| <= 1
    ensures var after := Replace(rows, sha256, data);
            && OneCurrent(after) && Extends(rows, after) && |after| == |rows| + 1
            && after[|rows|] == Row(sha256, data, true)
            && Currents(after, sha256) == [|rows|]
            && (forall other, i :: other != sha256 ==> (CurrentAt(after, other, i) <==> CurrentAt(rows, other, i)))
            && (forall i :: 0 <= i < |rows| ==> after[i].data == rows[i].data && after[i].sha256 == rows[i].sha256)
  {
    RetireAllCurrents(rows, sha256);
    var retired := RetireAll(rows, Currents(rows, sha256));
    AppendCurrents(retired, Row(sha256, data, true), sha256);
    AppendedMarks(retired, Row(sha256, data, true), sha256);
    ExtendsAppend(rows, retired, Row(sha256, data, true));
  }

  lemma ExtendsAppend<T>(before: seq<Row<T>>, after: seq<Row<T>>, row: Row<T>)
    requires Extends(before, after)
    ensures Extends(before, after + [row])
  {}

  lemma AppendedMarks<T>(rows: seq<Row<T>>, row: Row<T>, sha256: Digest)
    requires OneCurrent(rows) && row.isCurrent && row.sha256 == sha256 && forall i :: !CurrentAt(rows, sha256, i)
    ensures var after := rows + [row];
            && OneCurrent(after)
            && (forall other, i :: other != sha256 ==> (CurrentAt(after, other, i) <==> CurrentAt(rows, other, i)))
  {
    var after := rows + [row];
    forall d, i ensures CurrentAt(after, d, i) <==> CurrentAt(rows, d, i) || (d == sha256 && i == |rows|) {}
  }

  /** The current row depends on nothing but which rows are current. */
  lemma SameCurrents<T>(before: seq<Row<T>>, after: seq<Row<T>>, sha256: Digest)
    requires OneCurrent(before) && OneCurrent(after)
    requires forall i :: CurrentAt(after, sha256, i) <==> CurrentAt(before, sha256, i)
    ensures Currents(after, sha256) == Currents(before, sha256)
  {
    AtMostOne(before, sha256);
    AtMostOne(after, sha256);
    var a, b := Currents(before, sha256), Currents(after, sha256);
    if a != [] { assert CurrentAt(after, sha256, a[0]); assert a[0] in b; }
    if b != [] { assert CurrentAt(before, sha256, b[0]); assert b[0] in a; }
  }

  lemma ExtendsTransitive<T>(a: seq<Row<T>>, b: seq<Row<T>>, c: seq<Row<T>>)
    requires Extends(a, b) && Extends(b, c)
    ensures Extends(a, c)
  {}
}
