/** Checking a wheel's RECORD against the files that were extracted. */
module WheelRecord {
  import opened History
  import P = Paths
  import opened Base64Url

  // ----- paths -----

  predicate BadPart(part: string) {
    part == "" || part == "." || part == ".." || ':' in part
  }

  /** The path a RECORD row names, or None for one that could point elsewhere. */
  function RecordPath(raw: string): Option<string> {
    if raw == "" || '\0' in raw then None
    else
      var parts := P.Split(P.Portable(raw));
      if exists i :: 0 <= i < |parts| && BadPart(parts[i]) then None else Some(P.Portable(raw))
  }

  predicate EndsWith(s: string, suffix: string) {
    |s| >= |suffix| && s[|s| - |suffix|..] == suffix
  }

  predicate IsRecord(path: string) {
    var parts := P.Split(path);
    |parts| >= 2 && parts[|parts| - 1] == "RECORD" && EndsWith(parts[|parts| - 2], ".dist-info")
  }

  /** The two signature files that may stand beside a RECORD unlisted. */
  predicate IsSignature(path: string, record: string) {
    EndsWith(record, "RECORD") && (path == record + ".jws" || path == record + ".p7s")
  }

  // ----- digests -----

  /** hashlib: the digest size of an algorithm it knows, by lower-case name. */
  datatype Algorithms = Algorithms(lower: string -> string, size: string -> Option<nat>)

  datatype HashSpec = HashSpec(algorithm: string, digest: Bytes)

  function Find(s: string, c: char): (r: Option<nat>)
    ensures r.Some? ==> r.value < |s| && s[r.value] == c && c !in s[..r.value]
    ensures r.None? ==> c !in s
  {
    if s == "" then None
    else if s[0] == c then Some(0)
    else
      var rest := Find(s[1..], c);
      if rest == None then None else Some(rest.value + 1)
  }

  const MIN_DIGEST := 32

  function HashSpecOf(a: Algorithms, name: string, encoded: string): Option<HashSpec> {
    if name == "" || encoded == "" || !AllSymbols(encoded) then None
    else
      var algorithm := a.lower(name);
      var size := a.size(algorithm);
      if size == None || size.value < MIN_DIGEST then None
      else if |encoded| % 4 == 1 then None
      else
        var digest := Decode(encoded).value;
        if |digest| != size.value then None
        else if Encode(digest) != encoded then None
        else Some(HashSpec(algorithm, digest))
  }

  function RecordHashSpec(a: Algorithms, value: string): Option<HashSpec> {
    var at := Find(value, '=');
    if at == None then None else HashSpecOf(a, value[..at.value], value[at.value + 1..])
  }

  // ----- the check -----

  datatype FileInfo = FileInfo(regular: bool, size: nat)

  /** The extracted files, and each file's digest by algorithm when it can be read. */
  datatype Tree = Tree(files: map<string, FileInfo>, digest: (string, string) -> Option<Bytes>)

  datatype Listing = Listing(hash: string, size: string)

  predicate AllDigits(s: string) {
    forall i :: 0 <= i < |s| ==> '0' <= s[i] <= '9'
  }

  function ReadDecimal(s: string): nat
    requires AllDigits(s)
  {
    if s == "" then 0 else 10 * ReadDecimal(s[..|s| - 1]) + (s[|s| - 1] - '0') as nat
  }

  /** int() refuses longer digit strings. */
  const MAX_DIGITS := 4300

  predicate SizeMatches(size: string, actual: nat) {
    size == "" || (AllDigits(size) && |size| <= MAX_DIGITS && ReadDecimal(size) == actual)
  }

  predicate HashMatches(a: Algorithms, t: Tree, path: string, hash: string, isSelf: bool) {
    if hash == "" then isSelf
    else
      var spec := RecordHashSpec(a, hash);
      spec.Some? && t.digest(path, spec.value.algorithm) == Some(spec.value.digest)
  }

  predicate EntryMatches(a: Algorithms, t: Tree, path: string, l: Listing, record: string) {
    && path in t.files && t.files[path].regular
    && SizeMatches(l.size, t.files[path].size)
    && HashMatches(a, t, path, l.hash, path == record)
  }

  type Rows = seq<seq<string>>

  predicate RowReadable(row: seq<string>) {
    |row| == 3 && RecordPath(row[0]).Some?
  }

  /** Every row has three columns and a safe path, and no path comes twice. */
  predicate RowsSound(rows: Rows) {
    && (forall i :: 0 <= i < |rows| ==> RowReadable(rows[i]))
    && forall i, j :: 0 <= i < j < |rows| ==> RecordPath(rows[i][0]) != RecordPath(rows[j][0])
  }

  function ListingOf(row: seq<string>): Listing
    requires |row| == 3
  {
    Listing(row[1], row[2])
  }

  predicate Lists(rows: Rows, path: string) {
    exists i :: 0 <= i < |rows| && |rows[i]| == 3 && RecordPath(rows[i][0]) == Some(path)
  }

  /** What a good RECORD says about a tree. */
  predicate RecordSound(a: Algorithms, t: Tree, record: string, rows: Rows) {
    && RowsSound(rows)
    && Lists(rows, record)
    && (forall path :: path in t.files && !Lists(rows, path) ==> IsSignature(path, record))
    && forall i :: 0 <= i < |rows| ==>
         EntryMatches(a, t, RecordPath(rows[i][0]).value, ListingOf(rows[i]), record)
  }

  datatype Finding =
    | RecordMissing
    | SeveralRecords
    | ParseFailed
    | BadColumns(row: nat)
    | BadPath(row: nat)
    | RepeatedPath(row: nat)
    | NotSelfListed
    | Unlisted(path: string)
    | BadEntry(path: string)

  type Seen = map<string, Listing>

  /** The row that counts for a path: the first good one that names it. */
  predicate FirstFor(rows: Rows, path: string, i: nat) {
    && i < |rows| && |rows[i]| == 3 && RecordPath(rows[i][0]) == Some(path)
    && forall j :: 0 <= j < i && |rows[j]| == 3 ==> RecordPath(rows[j][0]) != Some(path)
  }

  /** What there is to report about the rows on their own. */
  predicate RowFault(rows: Rows, f: Finding) {
    match f
    case BadColumns(i) => i < |rows| && |rows[i]| != 3
    case BadPath(i) => i < |rows| && |rows[i]| == 3 && RecordPath(rows[i][0]) == None
    case RepeatedPath(i) =>
      i < |rows| && |rows[i]| == 3 && RecordPath(rows[i][0]).Some? && Lists(rows[..i], RecordPath(rows[i][0]).value)
    case _ => false
  }

  /** Each path with the row that counts for it. */
  ghost predicate FirstRows(rows: Rows, seen: Seen) {
    && (forall path :: path in seen <==> Lists(rows, path))
    && forall path, i: nat :: FirstFor(rows, path, i) ==> path in seen && seen[path] == ListingOf(rows[i])
  }

  lemma FaultsAppended(rows: Rows, row: seq<string>, f: Finding)
    ensures RowFault(rows + [row], f) <==>
              RowFault(rows, f)
              || (if |row| != 3 then f == BadColumns(|rows|)
                  else if RecordPath(row[0]) == None then f == BadPath(|rows|)
                  else Lists(rows, RecordPath(row[0]).value) && f == RepeatedPath(|rows|))
  {
    var after := rows + [row];
    assert after[|rows|] == row && forall i :: 0 <= i < |rows| ==> after[i] == rows[i];
    assert forall i :: 0 <= i <= |rows| ==> after[..i] == rows[..i];
    assert rows[..|rows|] == rows;
  }

  lemma ListsAppended(rows: Rows, row: seq<string>, path: string)
    ensures Lists(rows + [row], path) <==> Lists(rows, path) || (|row| == 3 && RecordPath(row[0]) == Some(path))
  {
    var after := rows + [row];
    assert after[|rows|] == row && forall i :: 0 <= i < |rows| ==> after[i] == rows[i];
    if Lists(rows, path) {
      var i :| 0 <= i < |rows| && |rows[i]| == 3 && RecordPath(rows[i][0]) == Some(path);
      assert after[i] == rows[i];
    }
  }

  lemma FirstAppended(rows: Rows, row: seq<string>, path: string, i: nat)
    ensures FirstFor(rows + [row], path, i) <==>
              FirstFor(rows, path, i)
              || (i == |rows| && |row| == 3 && RecordPath(row[0]) == Some(path) && !Lists(rows, path))
  {
    var after := rows + [row];
    assert after[|rows|] == row && forall j :: 0 <= j < |rows| ==> after[j] == rows[j];
  }

  lemma FirstRowsAppended(rows: Rows, row: seq<string>, seen: Seen)
    requires FirstRows(rows, seen)
    ensures FirstRows(rows + [row],
                      if |row| == 3 && RecordPath(row[0]).Some? && RecordPath(row[0]).value !in seen
                      then seen[RecordPath(row[0]).value := ListingOf(row)] else seen)
  {
    var after := rows + [row];
    assert after[|rows|] == row && forall i :: 0 <= i < |rows| ==> after[i] == rows[i];
    forall path ensures Lists(after, path) <==> Lists(rows, path) || (|row| == 3 && RecordPath(row[0]) == Some(path)) {
      ListsAppended(rows, row, path);
    }
    forall path, i: nat
      ensures FirstFor(after, path, i) <==>
                FirstFor(rows, path, i)
                || (i == |rows| && |row| == 3 && RecordPath(row[0]) == Some(path) && !Lists(rows, path))
    {
      FirstAppended(rows, row, path, i);
    }
  }

  /** The findings so far are the faults of the rows so far, and the table is theirs. */
  ghost predicate ReadSoFar(rows: Rows, seen: Seen, findings: seq<Finding>) {
    FirstRows(rows, seen) && forall f :: f in findings <==> RowFault(rows, f)
  }

  /** The finding about a row, given the paths named before it. */
  function FoundIn(row: seq<string>, i: nat, seen: Seen): Option<Finding> {
    if |row| != 3 then Some(BadColumns(i))
    else if RecordPath(row[0]) == None then Some(BadPath(i))
    else if RecordPath(row[0]).value in seen then Some(RepeatedPath(i))
    else None
  }

  lemma ReadMore(rows: Rows, row: seq<string>, seen: Seen, findings: seq<Finding>)
    requires ReadSoFar(rows, seen, findings)
    ensures var found := FoundIn(row, |rows|, seen);
            if found.Some? then ReadSoFar(rows + [row], seen, findings + [found.value])
            else |row| == 3 && RecordPath(row[0]).Some?
                 && ReadSoFar(rows + [row], seen[RecordPath(row[0]).value := ListingOf(row)], findings)
  {
    FirstRowsAppended(rows, row, seen);
    var found := FoundIn(row, |rows|, seen);
    forall f ensures RowFault(rows + [row], f) <==> f in findings || found == Some(f) {
      FaultsAppended(rows, row, f);
    }
  }

  lemma FaultlessExactly(rows: Rows)
    ensures RowsSound(rows) <==> forall f :: !RowFault(rows, f)
  {
    if forall f :: !RowFault(rows, f) {
      forall i | 0 <= i < |rows| ensures RowReadable(rows[i]) {
        assert !RowFault(rows, BadColumns(i)) && !RowFault(rows, BadPath(i));
      }
      forall i, j | 0 <= i < j < |rows| ensures RecordPath(rows[i][0]) != RecordPath(rows[j][0]) {
        assert !RowFault(rows, RepeatedPath(j));
        assert rows[..j][i] == rows[i];
      }
    }
    if RowsSound(rows) {
      forall f ensures !RowFault(rows, f) {
        if f.RepeatedPath? && f.row < |rows| {
          forall i | 0 <= i < f.row ensures RecordPath(rows[..f.row][i][0]) != RecordPath(rows[f.row][0]) {}
        }
      }
    }
  }

  method ReadRows(rows: Rows) returns (seen: Seen, findings: seq<Finding>)
    ensures ReadSoFar(rows, seen, findings)
    ensures findings == [] <==> RowsSound(rows)
  {
    seen, findings := map[], [];
    for i := 0 to |rows|
      invariant ReadSoFar(rows[..i], seen, findings)
    {
      var row := rows[i];
      assert rows[..i + 1] == rows[..i] + [row];
      ReadMore(rows[..i], row, seen, findings);
      if |row| != 3 {
        findings := findings + [BadColumns(i)];
      } else {
        var path := RecordPath(row[0]);
        if path == None {
          findings := findings + [BadPath(i)];
        } else if path.value in seen {
          findings := findings + [RepeatedPath(i)];
        } else {
          seen := seen[path.value := ListingOf(row)];
        }
      }
    }
    assert rows[..|rows|] == rows;
    FaultlessExactly(rows);
    assert findings != [] ==> findings[0] in findings;
  }

  method CheckUnlisted(t: Tree, record: string, seen: Seen) returns (findings: seq<Finding>)
    ensures forall f :: f in findings <==>
              f.Unlisted? && f.path in t.files && f.path !in seen && !IsSignature(f.path, record)
  {
    findings := [];
    var rest := t.files.Keys - seen.Keys;
    while rest != {}
      invariant rest <= t.files.Keys - seen.Keys
      invariant forall f :: f in findings <==>
                  f.Unlisted? && f.path in t.files && f.path !in seen && f.path !in rest && !IsSignature(f.path, record)
      decreases |rest|
    {
      var path: string :| path in rest;
      rest := rest - {path};
      if !IsSignature(path, record) { findings := findings + [Unlisted(path)]; }
    }
  }

  method CheckListed(a: Algorithms, t: Tree, record: string, seen: Seen) returns (findings: seq<Finding>)
    ensures forall f :: f in findings <==>
              f.BadEntry? && f.path in seen && !EntryMatches(a, t, f.path, seen[f.path], record)
  {
    findings := [];
    var rest := seen.Keys;
    while rest != {}
      invariant rest <= seen.Keys
      invariant forall f :: f in findings <==>
                  f.BadEntry? && f.path in seen && f.path !in rest && !EntryMatches(a, t, f.path, seen[f.path], record)
      decreases |rest|
    {
      var path: string :| path in rest;
      rest := rest - {path};
      if !EntryMatches(a, t, path, seen[path], record) { findings := findings + [BadEntry(path)]; }
    }
  }

  /** The RECORD files of a tree. */
  function Records(t: Tree): set<string> {
    set path | path in t.files && IsRecord(path)
  }

  /** What there is to report about a tree with one RECORD that can be parsed. */
  ghost predicate Fault(a: Algorithms, t: Tree, record: string, rows: Rows, f: Finding) {
    match f
    case NotSelfListed => !Lists(rows, record)
    case Unlisted(path) => path in t.files && !Lists(rows, path) && !IsSignature(path, record)
    case BadEntry(path) =>
      exists i: nat :: FirstFor(rows, path, i) && !EntryMatches(a, t, path, ListingOf(rows[i]), record)
    case _ => RowFault(rows, f)
  }

  lemma {:induction false} FirstUpTo(rows: Rows, path: string, k: nat) returns (i: nat)
    requires k < |rows| && |rows[k]| == 3 && RecordPath(rows[k][0]) == Some(path)
    ensures FirstFor(rows, path, i)
    decreases k
  {
    i := k;
    if j: nat :| j < k && |rows[j]| == 3 && RecordPath(rows[j][0]) == Some(path) { i := FirstUpTo(rows, path, j); }
  }

  lemma EntryFault(a: Algorithms, t: Tree, record: string, rows: Rows, seen: Seen, path: string)
    requires FirstRows(rows, seen)
    ensures Fault(a, t, record, rows, BadEntry(path))
       <==> path in seen && !EntryMatches(a, t, path, seen[path], record)
  {
    if path in seen {
      var k: nat :| k < |rows| && |rows[k]| == 3 && RecordPath(rows[k][0]) == Some(path);
      var i := FirstUpTo(rows, path, k);
    }
  }

  lemma FaultsByTable(a: Algorithms, t: Tree, record: string, rows: Rows, seen: Seen, f: Finding)
    requires FirstRows(rows, seen)
    ensures Fault(a, t, record, rows, f) <==>
              || RowFault(rows, f)
              || (f == NotSelfListed && record !in seen)
              || (f.Unlisted? && f.path in t.files && f.path !in seen && !IsSignature(f.path, record))
              || (f.BadEntry? && f.path in seen && !EntryMatches(a, t, f.path, seen[f.path], record))
  {
    if f.BadEntry? { EntryFault(a, t, record, rows, seen, f.path); }
  }

  /** There is nothing to report exactly when what the RECORD says is so. */
  lemma SoundExactly(a: Algorithms, t: Tree, record: string, rows: Rows)
    ensures RecordSound(a, t, record, rows) <==> forall f :: !Fault(a, t, record, rows, f)
  {
    FaultlessExactly(rows);
    if forall f :: !Fault(a, t, record, rows, f) {
      forall f ensures !RowFault(rows, f) { assert RowFault(rows, f) ==> Fault(a, t, record, rows, f); }
      assert !Fault(a, t, record, rows, NotSelfListed);
      forall path | path in t.files && !Lists(rows, path) ensures IsSignature(path, record) {
        assert !Fault(a, t, record, rows, Unlisted(path));
      }
      forall i | 0 <= i < |rows|
        ensures EntryMatches(a, t, RecordPath(rows[i][0]).value, ListingOf(rows[i]), record)
      {
        assert FirstFor(rows, RecordPath(rows[i][0]).value, i);
        assert !Fault(a, t, record, rows, BadEntry(RecordPath(rows[i][0]).value));
      }
    }
  }

  method RowsAndFiles(a: Algorithms, t: Tree, record: string, rows: Rows) returns (findings: seq<Finding>)
    ensures findings == [] <==> RecordSound(a, t, record, rows)
    ensures forall f :: f in findings <==> Fault(a, t, record, rows, f)
  {
    var seen, found := ReadRows(rows);
    var self := if record !in seen then [NotSelfListed] else [];
    var unlisted := CheckUnlisted(t, record, seen);
    var listed := CheckListed(a, t, record, seen);
    findings := found + self + unlisted + listed;
    forall f ensures f in findings <==> Fault(a, t, record, rows, f) {
      FaultsByTable(a, t, record, rows, seen, f);
    }
    SoundExactly(a, t, record, rows);
    assert findings != [] ==> findings[0] in findings;
  }

  /** What the CSV reader yields: the rows up to the end, or up to where it fails. */
  datatype Parsed = Parsed(rows: Rows, failed: bool)

  /** The rows of a file that cannot be read to its end are only looked at for their columns. */
  method CheckColumns(rows: Rows) returns (findings: seq<Finding>)
    ensures forall f :: f in findings <==> f.BadColumns? && RowFault(rows, f)
  {
    findings := [];
    for i := 0 to |rows|
      invariant forall f :: f in findings <==> f.BadColumns? && f.row < i && RowFault(rows, f)
    {
      if |rows[i]| != 3 { findings := findings + [BadColumns(i)]; }
    }
  }

  /** Exactly the faults are reported: one RECORD is missing, there are several, it cannot be parsed, or
      else what its rows, the files and its word about them show. */
  method WheelRecordFindings(a: Algorithms, t: Tree, parse: string -> Parsed) returns (findings: seq<Finding>)
    ensures Records(t) == {} ==> findings == [RecordMissing]
    ensures (exists x, y :: x in Records(t) && y in Records(t) && x != y) ==> findings == [SeveralRecords]
    ensures forall record :: Records(t) == {record} ==>
              var rows := parse(record).rows;
              if parse(record).failed
              then forall f :: f in findings <==> f == ParseFailed || (f.BadColumns? && RowFault(rows, f))
              else forall f :: f in findings <==> Fault(a, t, record, rows, f)
    ensures findings == [] <==>
              exists record ::
                Records(t) == {record} && !parse(record).failed && RecordSound(a, t, record, parse(record).rows)
  {
    var candidates := Records(t);
    if candidates == {} { return [RecordMissing]; }
    var record: string :| record in candidates;
    if candidates != {record} {
      assert forall other :: candidates == {other} ==> other == record;
      return [SeveralRecords];
    }
    assert forall other :: candidates == {other} ==> other == record;
    var parsed := parse(record);
    if parsed.failed {
      findings := CheckColumns(parsed.rows);
      findings := findings + [ParseFailed];
    } else {
      findings := RowsAndFiles(a, t, record, parsed.rows);
    }
  }

  // ----- laws -----

  lemma {:induction false} FindsFirst(name: string, rest: string, c: char)
    requires c !in name
    ensures Find(name + ([c] + rest), c) == Some(|name|)
    decreases |name|
  {
    if name == "" {
      assert name + ([c] + rest) == [c] + rest;
    } else {
      FindsFirst(name[1..], rest, c);
      assert (name + ([c] + rest))[1..] == name[1..] + ([c] + rest);
    }
  }

  lemma Partition(name: string, encoded: string)
    requires '=' !in name
    ensures var value := name + "=" + encoded;
            && Find(value, '=') == Some(|name|) && value[..|name|] == name && value[|name| + 1..] == encoded
  {
    FindsFirst(name, encoded, '=');
    assert name + "=" + encoded == name + (['='] + encoded);
  }

  lemma AcceptedDigest(a: Algorithms, name: string, encoded: string)
    requires HashSpecOf(a, name, encoded).Some?
    ensures var spec := HashSpecOf(a, name, encoded).value;
            && spec.algorithm == a.lower(name) && AreBytes(spec.digest) && Encode(spec.digest) == encoded
            && a.size(spec.algorithm) == Some(|spec.digest|) && |spec.digest| >= MIN_DIGEST
  {}

  lemma DigestAccepted(a: Algorithms, name: string, digest: Bytes)
    requires name != "" && AreBytes(digest) && Encode(digest) != ""
    requires a.size(a.lower(name)) == Some(|digest|) && |digest| >= MIN_DIGEST
    ensures HashSpecOf(a, name, Encode(digest)) == Some(HashSpec(a.lower(name), digest))
  {
    RoundTrip(digest);
  }

  /** Accepted hash columns are exactly the canonical encodings of digests of the right length. */
  lemma HashSpecExactly(a: Algorithms, name: string, encoded: string, spec: HashSpec)
    requires name != "" && '=' !in name && encoded != ""
    ensures RecordHashSpec(a, name + "=" + encoded) == Some(spec) <==>
              && spec.algorithm == a.lower(name) && a.size(spec.algorithm) == Some(|spec.digest|)
              && |spec.digest| >= MIN_DIGEST && AreBytes(spec.digest) && Encode(spec.digest) == encoded
  {
    Partition(name, encoded);
    if HashSpecOf(a, name, encoded).Some? { AcceptedDigest(a, name, encoded); }
    if AreBytes(spec.digest) && Encode(spec.digest) == encoded && |spec.digest| >= MIN_DIGEST
       && a.size(a.lower(name)) == Some(|spec.digest|)
    {
      DigestAccepted(a, name, spec.digest);
    }
  }

  /** So a digest has one accepted spelling for each way to write the algorithm. */
  lemma OneSpelling(a: Algorithms, name: string, x: string, y: string)
    requires name != "" && '=' !in name && x != "" && y != ""
    requires var p, q := RecordHashSpec(a, name + "=" + x), RecordHashSpec(a, name + "=" + y);
             p.Some? && q.Some? && p.value.digest == q.value.digest
    ensures x == y
  {
    HashSpecExactly(a, name, x, RecordHashSpec(a, name + "=" + x).value);
    HashSpecExactly(a, name, y, RecordHashSpec(a, name + "=" + y).value);
  }

  /** An accepted path is its own normal form. */
  lemma RecordPathIdempotent(raw: string)
    requires RecordPath(raw).Some?
    ensures RecordPath(RecordPath(raw).value) == RecordPath(raw)
  {
    var p := RecordPath(raw).value;
    assert P.Portable(p) == p;
    assert '\0' !in p by {
      forall i | 0 <= i < |p| ensures p[i] != '\0' { assert raw[i] in raw; }
    }
  }
}
