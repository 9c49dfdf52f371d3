/** What an accepted RECORD guarantees about the files of a wheel, in terms of the text of its rows. */
module RecordTrust {
  import opened History
  import P = Paths
  import opened Base64Url
  import opened WheelRecord
  import T = TextOrder

  // ----- paths and sizes -----

  /** A row names a file by a relative path of ordinary components, slashes of either kind. */
  lemma PathExactly(raw: string, path: string)
    ensures RecordPath(raw) == Some(path) <==>
              && raw != "" && '\0' !in raw && path == P.Portable(raw)
              && forall part :: part in P.Split(path) ==> part != "" && part != "." && part != ".." && ':' !in part
  {
    var parts := P.Split(P.Portable(raw));
    if i :| 0 <= i < |parts| && BadPart(parts[i]) { assert parts[i] in parts; }
  }

  lemma {:induction false} DecimalDigits(n: nat, width: nat)
    ensures AllDigits(T.Numeral(n, width, 10))
    decreases width
  {
    if width > 0 { DecimalDigits(n / 10, width - 1); }
  }

  /** The size column is read as a decimal number. */
  lemma {:induction false} DecimalRead(n: nat, width: nat)
    requires n < T.Power(10, width)
    ensures AllDigits(T.Numeral(n, width, 10)) && ReadDecimal(T.Numeral(n, width, 10)) == n
    decreases width
  {
    DecimalDigits(n, width);
    if width > 0 {
      var q, d := T.Divided(n, width, 10);
      DecimalRead(q, width - 1);
      assert T.Numeral(n, width, 10)[..width - 1] == T.Numeral(q, width - 1, 10);
    }
  }

  /** A size column is empty or a decimal number of at most 4300 digits. */
  predicate SizeFits(column: string, size: nat) {
    column == ""
    || ((forall i :: 0 <= i < |column| ==> '0' <= column[i] <= '9') && |column| <= 4300 && ReadDecimal(column) == size)
  }

  // ----- digests -----

  /** The digest column names an algorithm and holds the canonical encoding of the file's digest under
      it, which has at least thirty-two bytes. */
  predicate DigestFits(a: Algorithms, t: Tree, path: string, column: string, name: string, digest: Bytes) {
    && name != "" && '=' !in name && AreBytes(digest) && column == name + "=" + Encode(digest)
    && a.size(a.lower(name)) == Some(|digest|) && |digest| >= 32
    && t.digest(path, a.lower(name)) == Some(digest)
  }

  lemma EncodesSomething(digest: Bytes)
    requires AreBytes(digest) && digest != []
    ensures Encode(digest) != ""
  {}

  lemma {:induction false} FoundFirst(s: string, c: char)
    ensures Find(s, c).Some? ==>
              var k := Find(s, c).value; k < |s| && s[k] == c && c !in s[..k] && s == s[..k] + [c] + s[k + 1..]
  {}

  lemma DigestIsSpec(a: Algorithms, t: Tree, path: string, column: string, name: string, digest: Bytes)
    requires DigestFits(a, t, path, column, name, digest)
    ensures column != "" && RecordHashSpec(a, column) == Some(HashSpec(a.lower(name), digest))
  {
    EncodesSomething(digest);
    HashSpecExactly(a, name, Encode(digest), HashSpec(a.lower(name), digest));
  }

  lemma SpecIsDigest(a: Algorithms, t: Tree, path: string, column: string) returns (name: string, digest: Bytes)
    requires RecordHashSpec(a, column).Some?
    requires var spec := RecordHashSpec(a, column).value; t.digest(path, spec.algorithm) == Some(spec.digest)
    ensures DigestFits(a, t, path, column, name, digest)
  {
    var k := Find(column, '=').value;
    FoundFirst(column, '=');
    name, digest := column[..k], RecordHashSpec(a, column).value.digest;
    var encoded := column[k + 1..];
    assert column == name + "=" + encoded;
    HashSpecExactly(a, name, encoded, RecordHashSpec(a, column).value);
  }

  /** A digest column is accepted exactly when it holds the digest of the file; only the RECORD itself
      may go without. */
  lemma ColumnExactly(a: Algorithms, t: Tree, path: string, column: string, isSelf: bool)
    ensures HashMatches(a, t, path, column, isSelf) <==>
              (column == "" && isSelf) || exists name, digest :: DigestFits(a, t, path, column, name, digest)
  {
    if column != "" && HashMatches(a, t, path, column, isSelf) {
      var name, digest := SpecIsDigest(a, t, path, column);
    }
    if name, digest :| DigestFits(a, t, path, column, name, digest) {
      DigestIsSpec(a, t, path, column, name, digest);
    }
  }

  // ----- the whole RECORD -----

  /** Row i names the file. */
  predicate RowNames(rows: Rows, i: nat, path: string) {
    i < |rows| && |rows[i]| == 3 && RecordPath(rows[i][0]) == Some(path)
  }

  /** The RECORD of one directory that ends in .dist-info, and the signatures that may lie beside it. */
  predicate Signs(path: string, record: string) {
    path == record + ".jws" || path == record + ".p7s"
  }

  ghost predicate Vouches(a: Algorithms, t: Tree, record: string, rows: Rows) {
    && (forall i :: 0 <= i < |rows| ==> |rows[i]| == 3 && RecordPath(rows[i][0]).Some?)
    && (forall i: nat, j: nat, path :: RowNames(rows, i, path) && RowNames(rows, j, path) ==> i == j)
    && (exists i: nat :: RowNames(rows, i, record))
    && (forall path :: path in t.files ==> Signs(path, record) || exists i: nat :: RowNames(rows, i, path))
    && forall i: nat, path :: RowNames(rows, i, path) ==>
         && path in t.files && t.files[path].regular && SizeFits(rows[i][2], t.files[path].size)
         && ((rows[i][1] == "" && path == record)
             || exists name, digest :: DigestFits(a, t, path, rows[i][1], name, digest))
  }

  lemma SignsExactly(path: string, record: string)
    requires IsRecord(record)
    ensures IsSignature(path, record) <==> Signs(path, record)
  {
    RecordEnds(record);
  }

  lemma {:induction false} LastComponent(path: string)
    ensures var parts := P.Split(path);
            |parts[|parts| - 1]| <= |path| && path[|path| - |parts[|parts| - 1]|..] == parts[|parts| - 1]
    decreases |path|
  {
    if path != "" {
      LastComponent(path[1..]);
      var rest := P.Split(path[1..]);
      var last := rest[|rest| - 1];
      assert path == [path[0]] + path[1..];
      assert path[1..][|path| - 1 - |last|..] == path[|path| - |last|..];
      if path[0] != '/' && |rest| == 1 { P.JoinSplit(path[1..]); }
    }
  }

  lemma RecordEnds(record: string)
    requires IsRecord(record)
    ensures EndsWith(record, "RECORD")
  {
    LastComponent(record);
  }

  lemma RowsExactly(rows: Rows)
    ensures RowsSound(rows) <==>
              && (forall i :: 0 <= i < |rows| ==> |rows[i]| == 3 && RecordPath(rows[i][0]).Some?)
              && (forall i: nat, j: nat, path :: RowNames(rows, i, path) && RowNames(rows, j, path) ==> i == j)
  {
    if !RowsSound(rows) && forall i :: 0 <= i < |rows| ==> |rows[i]| == 3 && RecordPath(rows[i][0]).Some? {
      assert forall i :: 0 <= i < |rows| ==> RowReadable(rows[i]);
      var i, j :| 0 <= i < j < |rows| && RecordPath(rows[i][0]) == RecordPath(rows[j][0]);
      assert RowNames(rows, i, RecordPath(rows[i][0]).value) && RowNames(rows, j, RecordPath(rows[i][0]).value);
    }
  }

  lemma ListsExactly(rows: Rows, path: string)
    ensures Lists(rows, path) <==> exists i: nat :: RowNames(rows, i, path)
  {
    if Lists(rows, path) {
      var i :| 0 <= i < |rows| && |rows[i]| == 3 && RecordPath(rows[i][0]) == Some(path);
      assert RowNames(rows, i, path);
    }
    if i: nat :| RowNames(rows, i, path) { assert RecordPath(rows[i][0]) == Some(path); }
  }

  lemma EntryExactly(a: Algorithms, t: Tree, path: string, row: seq<string>, record: string)
    requires |row| == 3
    ensures EntryMatches(a, t, path, ListingOf(row), record) <==>
              && path in t.files && t.files[path].regular && SizeFits(row[2], t.files[path].size)
              && ((row[1] == "" && path == record)
                  || exists name, digest :: DigestFits(a, t, path, row[1], name, digest))
  {
    ColumnExactly(a, t, path, row[1], path == record);
  }

  lemma EntriesExactly(a: Algorithms, t: Tree, record: string, rows: Rows)
    requires RowsSound(rows)
    ensures (forall i :: 0 <= i < |rows| ==>
               EntryMatches(a, t, RecordPath(rows[i][0]).value, ListingOf(rows[i]), record))
            <==> forall i: nat, path :: RowNames(rows, i, path) ==>
                   EntryMatches(a, t, path, ListingOf(rows[i]), record)
  {
    if forall i: nat, path :: RowNames(rows, i, path) ==> EntryMatches(a, t, path, ListingOf(rows[i]), record) {
      forall i | 0 <= i < |rows| ensures EntryMatches(a, t, RecordPath(rows[i][0]).value, ListingOf(rows[i]), record) {
        assert RowReadable(rows[i]);
        assert RowNames(rows, i, RecordPath(rows[i][0]).value);
      }
    }
  }

  lemma FilesExactly(t: Tree, record: string, rows: Rows)
    requires IsRecord(record)
    ensures (forall path :: path in t.files && !Lists(rows, path) ==> IsSignature(path, record))
            <==> forall path :: path in t.files ==> Signs(path, record) || exists i: nat :: RowNames(rows, i, path)
  {
    forall path ensures Lists(rows, path) <==> exists i: nat :: RowNames(rows, i, path) { ListsExactly(rows, path); }
    forall path ensures IsSignature(path, record) <==> Signs(path, record) { SignsExactly(path, record); }
  }

  /** The RECORD is accepted exactly when it vouches for the tree: every file but its own signatures has
      its one row, and every row but its own holds the digest of an existing file. */
  lemma SoundExactly(a: Algorithms, t: Tree, record: string, rows: Rows)
    requires IsRecord(record)
    ensures RecordSound(a, t, record, rows) <==> Vouches(a, t, record, rows)
  {
    RowsExactly(rows);
    ListsExactly(rows, record);
    FilesExactly(t, record, rows);
    if RowsSound(rows) {
      EntriesExactly(a, t, record, rows);
      forall i: nat, path | RowNames(rows, i, path)
        ensures EntryMatches(a, t, path, ListingOf(rows[i]), record) <==>
                  && path in t.files && t.files[path].regular && SizeFits(rows[i][2], t.files[path].size)
                  && ((rows[i][1] == "" && path == record)
                      || exists name, digest :: DigestFits(a, t, path, rows[i][1], name, digest))
      {
        EntryExactly(a, t, path, rows[i], record);
      }
    }
  }

  /** Two wheels accepted with the same RECORD have the same files, apart from signatures, and of each
      but the RECORD the same digest, and the same size where it is given. */
  lemma SameRecordSameFiles(a: Algorithms, t: Tree, u: Tree, record: string, rows: Rows, path: string)
    requires IsRecord(record) && RecordSound(a, t, record, rows) && RecordSound(a, u, record, rows)
    requires path in t.files && !Signs(path, record)
    ensures path in u.files
    ensures exists i: nat ::
              RowNames(rows, i, path) && (rows[i][2] != "" ==> t.files[path].size == u.files[path].size)
    ensures path != record ==>
              exists algorithm, digest ::
                |digest| >= 32 && t.digest(path, algorithm) == Some(digest) == u.digest(path, algorithm)
  {
    SoundExactly(a, t, record, rows);
    SoundExactly(a, u, record, rows);
    var i: nat :| RowNames(rows, i, path);
    if path != record {
      var n, x :| DigestFits(a, t, path, rows[i][1], n, x);
      var m, y :| DigestFits(a, u, path, rows[i][1], m, y);
      DigestIsSpec(a, t, path, rows[i][1], n, x);
      DigestIsSpec(a, u, path, rows[i][1], m, y);
    }
  }

  // ----- which file the RECORD is -----

  lemma EndsLater(x: string, suffix: string)
    requires EndsWith(x, suffix) && |x| > |suffix|
    ensures EndsWith(x[1..], suffix)
  {
    assert x[1..][|x| - 1 - |suffix|..] == x[|x| - |suffix|..];
  }

  lemma EndsEarlier(c: char, x: string, suffix: string)
    requires EndsWith(x, suffix)
    ensures EndsWith([c] + x, suffix)
  {
    assert ([c] + x)[|x| + 1 - |suffix|..] == x[|x| - |suffix|..];
  }

  lemma {:induction false} LastEnds(path: string, suffix: string)
    requires EndsWith(path, suffix) && '/' !in suffix
    ensures var parts := P.Split(path); EndsWith(parts[|parts| - 1], suffix)
    decreases |path|
  {
    if |path| == |suffix| {
      assert path[0..] == path;
      P.SplitPlain(path);
    } else {
      EndsLater(path, suffix);
      LastEnds(path[1..], suffix);
      var rest := P.Split(path[1..]);
      if |rest| == 1 { EndsEarlier(path[0], rest[0], suffix); }
    }
  }

  /** The RECORD is the file of that name in a directory whose name ends in .dist-info. */
  lemma RecordExactly(path: string)
    ensures IsRecord(path) <==> EndsWith(path, ".dist-info/RECORD")
  {
    if EndsWith(path, ".dist-info/RECORD") {
      var front := path[..|path| - 17];
      assert path == (front + ".dist-info") + (['/'] + "RECORD");
      P.SplitAtSlash(front + ".dist-info", "RECORD");
      P.SplitPlain("RECORD");
      assert EndsWith(front + ".dist-info", ".dist-info");
      LastEnds(front + ".dist-info", ".dist-info");
    }
    if IsRecord(path) { IsRecordEnds(path); }
  }

  lemma SuffixExtends(x: string, suffix: string, more: string)
    requires EndsWith(x, suffix)
    ensures EndsWith(x + more, suffix + more)
  {
    var at := |x| - |suffix|;
    assert (x + more)[at..] == x[at..] + more;
  }

  lemma SuffixOfSuffix(x: string, tail: string, suffix: string)
    requires EndsWith(x, tail) && EndsWith(tail, suffix)
    ensures EndsWith(x, suffix)
  {
    assert x[|x| - |suffix|..] == x[|x| - |tail|..][|tail| - |suffix|..];
  }

  lemma IsRecordEnds(path: string)
    requires IsRecord(path)
    ensures EndsWith(path, ".dist-info/RECORD")
  {
    var parts := P.Split(path);
    var folder, tail := parts[|parts| - 2], parts[|parts| - 2] + (['/'] + "RECORD");
    P.JoinSplit(path);
    JoinEnds(parts);
    SuffixExtends(folder, ".dist-info", ['/'] + "RECORD");
    assert ".dist-info" + (['/'] + "RECORD") == ".dist-info/RECORD";
    SuffixOfSuffix(path, tail, ".dist-info/RECORD");
  }

  lemma {:induction false} JoinEnds(parts: seq<string>)
    requires |parts| >= 2
    ensures var tail, path := parts[|parts| - 2] + (['/'] + parts[|parts| - 1]), P.Join(parts);
            |tail| <= |path| && path[|path| - |tail|..] == tail
    decreases |parts|
  {
    if |parts| == 2 {
      assert parts[1..] == [parts[1]];
    } else {
      JoinEnds(parts[1..]);
      var rest := P.Join(parts[1..]);
      var path, tail := P.Join(parts), parts[|parts| - 2] + (['/'] + parts[|parts| - 1]);
      assert path == (parts[0] + ['/']) + rest;
      assert path[|path| - |tail|..] == rest[|rest| - |tail|..];
    }
  }
}
