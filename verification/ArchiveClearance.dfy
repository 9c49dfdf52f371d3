/** What a cleared archive is, member by member and character by character: plain files and folders
    under portable relative names, within the bounds all along. */
module ArchiveClearance {
  import opened History
  import opened ArchivePaths
  import opened Paths
  import opened Preflight

  // ----- names -----

  const DIRECTION_MARKS: seq<char> :=
    ['\U{061c}', '\U{200e}', '\U{200f}', '\U{202a}', '\U{202b}', '\U{202c}', '\U{202d}', '\U{202e}',
     '\U{2066}', '\U{2067}', '\U{2068}', '\U{2069}']

  const DEVICES: seq<string> := ["con", "prn", "aux", "nul"] + Numbered("com") + Numbered("lpt")

  function Numbered(port: string): (r: seq<string>)
    ensures |r| == 9
  {
    [port + "1", port + "2", port + "3", port + "4", port + "5", port + "6", port + "7", port + "8", port + "9"]
  }

  /** x is what the text begins with, up to its first dot. */
  predicate UpToDot(x: string, part: string) {
    x <= part && '.' !in x && (|x| == |part| || part[|x|] == '.')
  }

  /** A name that means the same on every file system. */
  ghost predicate PortableName(n: Naming, part: string) {
    && part != "" && part != "." && part != ".."
    && (forall c :: c in part ==> c != '/' && c != ':' && c !in DIRECTION_MARKS)
    && part[|part| - 1] != ' ' && part[|part| - 1] != '.'
    && (forall x :: UpToDot(x, part) ==> n.casefold(x) !in DEVICES)
  }

  lemma MarkExactly(c: char)
    ensures IsBidi(c) <==> c in DIRECTION_MARKS
  {}

  lemma PortExactly(s: string, port: string)
    requires |port| == 3
    ensures s in Numbered(port) <==> |s| == 4 && s[..3] == port && '1' <= s[3] <= '9'
  {
    var r := Numbered(port);
    if |s| == 4 && s[..3] == port && '1' <= s[3] <= '9' {
      var i := s[3] as int - '1' as int;
      assert s == port + [s[3]];
      assert r[i] == port + [s[3]];
    }
  }

  lemma DeviceExactly(s: string)
    ensures IsDevice(s) <==> s in DEVICES
  {
    PortExactly(s, "com");
    PortExactly(s, "lpt");
  }

  lemma {:induction false} StemExactly(part: string)
    ensures UpToDot(Stem(part), part)
    ensures forall x :: UpToDot(x, part) ==> x == Stem(part)
    decreases |part|
  {
    if part != "" && part[0] != '.' {
      StemExactly(part[1..]);
      var stem := Stem(part[1..]);
      assert UpToDot([part[0]] + stem, part);
      forall x | UpToDot(x, part) ensures x == [part[0]] + stem {
        assert x != "" && x[0] == part[0];
        assert UpToDot(x[1..], part[1..]);
        assert x == [x[0]] + x[1..];
      }
    }
  }

  lemma NoMarks(part: string)
    ensures (exists i :: 0 <= i < |part| && IsBidi(part[i])) <==> exists c :: c in part && c in DIRECTION_MARKS
  {
    if i :| 0 <= i < |part| && IsBidi(part[i]) {
      MarkExactly(part[i]);
      assert part[i] in part && part[i] in DIRECTION_MARKS;
    }
    if c :| c in part && c in DIRECTION_MARKS {
      MarkExactly(c);
      var i :| 0 <= i < |part| && part[i] == c;
    }
  }

  lemma FlawlessExactly(n: Naming, part: string)
    requires part != ""
    ensures Flaw(n, part) == [] <==>
              && !(exists c :: c in part && c in DIRECTION_MARKS) && ':' !in part
              && part[|part| - 1] != ' ' && part[|part| - 1] != '.'
              && n.casefold(Stem(part)) !in DEVICES
  {
    var device := n.casefold(Stem(part)) in DEVICES;
    DeviceExactly(n.casefold(Stem(part)));
    NoMarks(part);
    TrimmedSame(part);
    FlawIf(n, part, exists c :: c in part && c in DIRECTION_MARKS, device);
  }

  lemma FlawIf(n: Naming, part: string, marked: bool, device: bool)
    requires part != ""
    requires marked <==> exists i :: 0 <= i < |part| && IsBidi(part[i])
    requires device <==> IsDevice(n.casefold(Stem(part)))
    ensures Flaw(n, part) == [] <==> !marked && ':' !in part && Trimmed(part) == part && !device
  {}

  lemma {:induction false} TrimmedShorter(part: string)
    ensures |Trimmed(part)| <= |part|
    decreases |part|
  {
    if part != "" && part[|part| - 1] in [' ', '.'] { TrimmedShorter(part[..|part| - 1]); }
  }

  lemma TrimmedSame(part: string)
    requires part != ""
    ensures Trimmed(part) == part <==> part[|part| - 1] != ' ' && part[|part| - 1] != '.'
  {
    if part[|part| - 1] in [' ', '.'] { TrimmedShorter(part[..|part| - 1]); }
  }

  lemma GoodExactly(n: Naming, part: string)
    ensures GoodName(n, part) <==> PortableName(n, part)
  {
    if part != "" {
      FlawlessExactly(n, part);
      StemExactly(part);
    }
  }

  /** The text between two slashes, forward or backward, or an end. */
  predicate PieceAt(raw: string, i: nat, j: nat) {
    && i <= j <= |raw| && (i == 0 || raw[i - 1] in ['/', '\\']) && (j == |raw| || raw[j] in ['/', '\\'])
    && forall k :: i <= k < j ==> raw[k] !in ['/', '\\']
  }

  ghost predicate IsPiece(raw: string, x: string) {
    exists i: nat, j: nat :: PieceAt(raw, i, j) && raw[i..j] == x
  }

  /** Relative, naming something, never going up, and portable in every component. */
  ghost predicate PortablePath(n: Naming, raw: string) {
    && raw != "" && '\0' !in raw && raw[0] != '/' && raw[0] != '\\' && (|raw| >= 2 ==> raw[1] != ':')
    && (exists x :: IsPiece(raw, x) && x != "" && x != ".")
    && (forall x :: IsPiece(raw, x) && x != "" && x != "." ==> PortableName(n, x))
  }

  lemma PieceSplits(raw: string, i: nat, j: nat)
    requires PieceAt(raw, i, j)
    ensures raw[i..j] in Split(Portable(raw))
  {
    var path := Portable(raw);
    assert path[i..j] == raw[i..j];
    FromPiece(path, i, j);
    PieceInSplit(path, i, raw[i..j]);
  }

  lemma PieceOfSplit(raw: string, x: string)
    requires x in Split(Portable(raw))
    ensures IsPiece(raw, x)
  {
    var path := Portable(raw);
    JoinSplit(path);
    var k: nat :| k < |Split(path)| && Split(path)[k] == x;
    var i, j := PieceOfJoin(Split(path), k);
    PlainIsPiece(raw, i, j);
  }

  lemma PlainIsPiece(raw: string, i: nat, j: nat)
    requires PlainPieceAt(Portable(raw), i, j)
    ensures PieceAt(raw, i, j) && raw[i..j] == Portable(raw)[i..j]
  {
    var path := Portable(raw);
    forall m | i <= m < j ensures raw[m] !in ['/', '\\'] { assert path[i..j][m - i] == path[m]; }
  }

  lemma SplitIsPieces(raw: string, x: string)
    ensures IsPiece(raw, x) <==> x in Split(Portable(raw))
  {
    if IsPiece(raw, x) {
      var i: nat, j: nat :| PieceAt(raw, i, j) && raw[i..j] == x;
      PieceSplits(raw, i, j);
    }
    if x in Split(Portable(raw)) { PieceOfSplit(raw, x); }
  }

  /** A member name is accepted exactly when it is a portable path. */
  lemma AcceptedExactly(n: Naming, raw: string)
    ensures SafePath(n, raw).Safe? <==> PortablePath(n, raw)
  {
    var parts := Named(Split(Portable(raw)));
    forall x ensures x in parts <==> IsPiece(raw, x) && x != "" && x != "." {
      NamedExactly(Split(Portable(raw)), x);
      SplitIsPieces(raw, x);
    }
    forall x ensures GoodName(n, x) <==> PortableName(n, x) { GoodExactly(n, x); }
    SafeExactly(n, raw, parts);
    if SafePath(n, raw).Safe? {
      NamedAreGood(n, raw);
      assert parts[0] in parts;
      assert PortablePath(n, raw);
    }
    if PortablePath(n, raw) {
      forall i | 0 <= i < |parts| ensures GoodName(n, parts[i]) { assert parts[i] in parts; }
    }
  }

  // ----- members -----

  /** A plain file or folder under a portable name. */
  ghost predicate PlainMember(n: Naming, e: Entry) {
    PortablePath(n, e.name) && !e.encrypted && e.kind in {Untyped, Regular, Directory}
  }

  lemma DefectIf(n: Naming, e: Entry)
    ensures DefectOf(n, e) == None
       <==> SafePath(n, e.name).Safe? && !e.encrypted && e.kind in {Untyped, Regular, Directory}
  {}

  lemma DefectExactly(n: Naming, e: Entry)
    ensures DefectOf(n, e) == None <==> PlainMember(n, e)
  {
    DefectIf(n, e);
    AcceptedExactly(n, e.name);
  }

  // ----- why a member is refused -----

  /** Some component of the path has the property. */
  ghost predicate SomePiece(raw: string, has: string -> bool) {
    exists x :: IsPiece(raw, x) && x != "" && has(x)
  }

  predicate Rooted(raw: string) {
    raw != "" && (raw[0] == '/' || raw[0] == '\\' || (|raw| >= 2 && raw[1] == ':'))
  }

  /** The reason given for a name is true of it. */
  ghost predicate Deserved(n: Naming, raw: string, why: Rejection) {
    match why
    case NoName => raw == "" || '\0' in raw
    case AbsolutePath => Rooted(raw)
    case NoComponents => forall x :: IsPiece(raw, x) && x != "" && x != "." ==> SomePiece(raw, y => y == "..")
    case Parent => SomePiece(raw, x => x == "..")
    case Bidirectional => SomePiece(raw, x => exists i :: 0 <= i < |x| && x[i] in DIRECTION_MARKS)
    case Colon => SomePiece(raw, x => ':' in x)
    case Trailing => SomePiece(raw, x => x != "" && (x[|x| - 1] == ' ' || x[|x| - 1] == '.'))
    case Device => SomePiece(raw, x => n.casefold(Stem(x)) in DEVICES)
  }

  /** Normalising makes no component up. */
  lemma {:induction false} NormalFrom(stack: seq<string>, parts: seq<string>, x: string)
    requires x in Normal(stack, parts)
    ensures x in stack || (x in parts && x != "" && x != ".")
    decreases |parts|
  {
    if parts != [] {
      if parts[0] == "" || parts[0] == "." {
        NormalFrom(stack, parts[1..], x);
      } else if parts[0] != ".." || stack == [] || stack[|stack| - 1] == ".." {
        NormalFrom(stack + [parts[0]], parts[1..], x);
      } else {
        NormalFrom(stack[..|stack| - 1], parts[1..], x);
      }
    }
  }

  lemma {:induction false} FirstFlaw(n: Naming, parts: seq<string>) returns (x: string)
    requires Flaws(n, parts) != []
    ensures x in parts && Flaw(n, x) == [Flaws(n, parts)[0]]
    decreases |parts|
  {
    if Flaw(n, parts[0]) != [] { x := parts[0]; } else { x := FirstFlaw(n, parts[1..]); }
  }

  lemma FlawDeserved(n: Naming, raw: string, x: string)
    requires IsPiece(raw, x) && x != "" && Flaw(n, x) != []
    ensures Deserved(n, raw, Flaw(n, x)[0])
  {
    NoMarks(x);
    TrimmedSame(x);
    DeviceExactly(n.casefold(Stem(x)));
    if c :| c in x && c in DIRECTION_MARKS { var i :| 0 <= i < |x| && x[i] == c; }
  }

  lemma NowhereDeserved(n: Naming, raw: string)
    requires Normal([], Split(Portable(raw))) == []
    ensures Deserved(n, raw, NoComponents)
  {
    var parts := Split(Portable(raw));
    SplitIsPieces(raw, "..");
    if ".." !in parts {
      NamedExactly(parts, "..");
      NormalIsNamed([], parts);
      assert [] + Named(parts) == Named(parts);
      forall x ensures !(IsPiece(raw, x) && x != "" && x != ".") {
        SplitIsPieces(raw, x);
        NamedExactly(parts, x);
      }
    }
  }

  lemma UpDeserved(n: Naming, raw: string)
    requires var parts := Split(Portable(raw)); ".." in Named(parts) || ".." in Normal([], parts)
    ensures Deserved(n, raw, Parent)
  {
    var parts := Split(Portable(raw));
    NamedExactly(parts, "..");
    if ".." in Normal([], parts) { NormalFrom([], parts, ".."); }
    SplitIsPieces(raw, "..");
  }

  lemma PieceFlawDeserved(n: Naming, raw: string)
    requires Flaws(n, Normal([], Split(Portable(raw)))) != []
    ensures Deserved(n, raw, Flaws(n, Normal([], Split(Portable(raw))))[0])
    ensures Flaws(n, Normal([], Split(Portable(raw))))[0] !in {NoName, AbsolutePath}
  {
    var parts := Normal([], Split(Portable(raw)));
    var x := FirstFlaw(n, parts);
    NormalFrom([], Split(Portable(raw)), x);
    SplitIsPieces(raw, x);
    FlawDeserved(n, raw, x);
    FlawKinds(n, x);
  }

  /** A refused name is refused for a reason that is true of it; a name that is none and a path from the
      root are refused as such. */
  lemma WhyExactly(n: Naming, raw: string)
    ensures SafePath(n, raw) == Unsafe(NoName) <==> raw == "" || '\0' in raw
    ensures SafePath(n, raw) == Unsafe(AbsolutePath) <==> raw != "" && '\0' !in raw && Rooted(raw)
    ensures SafePath(n, raw).Unsafe? ==> Deserved(n, raw, SafePath(n, raw).why)
  {
    RootedExactly(raw);
    if raw != "" && '\0' !in raw && !Rooted(raw) { RelativeWhy(n, raw); }
  }

  lemma RootedExactly(raw: string)
    ensures IsAbsolute(Portable(raw)) <==> Rooted(raw)
  {}

  lemma RelativeWhy(n: Naming, raw: string)
    requires raw != "" && '\0' !in raw && !IsAbsolute(Portable(raw))
    ensures SafePath(n, raw).Unsafe? ==>
              SafePath(n, raw).why !in {NoName, AbsolutePath} && Deserved(n, raw, SafePath(n, raw).why)
  {
    var parts := Split(Portable(raw));
    var normal := Normal([], parts);
    if normal == [] {
      NowhereDeserved(n, raw);
    } else if ".." in Named(parts) || ".." in normal {
      UpDeserved(n, raw);
    } else if Flaws(n, normal) != [] {
      PieceFlawDeserved(n, raw);
    }
  }

  lemma FlawKinds(n: Naming, part: string)
    ensures Flaw(n, part) != [] ==> Flaw(n, part)[0] !in {NoName, AbsolutePath}
  {}

  /** What is said to be wrong with a member is what is wrong with it. */
  lemma DefectNamed(n: Naming, e: Entry)
    ensures DefectOf(n, e) == Some(Encrypted) <==> PortablePath(n, e.name) && e.encrypted
    ensures DefectOf(n, e) == Some(Link)
       <==> PortablePath(n, e.name) && !e.encrypted && (e.kind == SymbolicLink || e.kind == HardLink)
    ensures DefectOf(n, e) == Some(SparseFile) <==> PortablePath(n, e.name) && !e.encrypted && e.kind == Sparse
    ensures DefectOf(n, e) == Some(SpecialFile) <==> PortablePath(n, e.name) && !e.encrypted && e.kind == Special
    ensures !PortablePath(n, e.name)
       <==> DefectOf(n, e).Some? && DefectOf(n, e).value.BadPath? && Deserved(n, e.name, DefectOf(n, e).value.why)
  {
    AcceptedExactly(n, e.name);
    WhyExactly(n, e.name);
  }

  /** The promised bytes of the first members; a negative size promises none. */
  function Promise(entries: seq<Entry>, k: nat): nat
    requires k <= |entries|
  {
    if k == 0 then 0 else Promise(entries, k - 1) + (if entries[k - 1].size > 0 then entries[k - 1].size else 0)
  }

  function Packed(entries: seq<Entry>, k: nat): nat
    requires k <= |entries|
  {
    if k == 0 then 0
    else Packed(entries, k - 1) + (if entries[k - 1].compressed > 0 then entries[k - 1].compressed else 0)
  }

  /** At most ten thousand members, a billion bytes and a hundredfold of the packed size, a byte
      counting as packed in any case; the packed size of a tar is that of the whole file. */
  predicate BoundedAt(entries: seq<Entry>, archive: Option<nat>, k: nat)
    requires k <= |entries|
  {
    var packed := if archive.Some? then archive.value else Packed(entries, k);
    && k <= 10000 && Promise(entries, k) <= 1000000000
    && Promise(entries, k) <= 100 * packed + (if packed == 0 then 100 else 0)
  }

  predicate Bounded(entries: seq<Entry>, archive: Option<nat>) {
    forall k :: 1 <= k <= |entries| ==> BoundedAt(entries, archive, k)
  }

  lemma HeaderSizes(n: Naming, e: Entry, archive: Option<nat>)
    ensures HeaderOf(n, e, archive).size == e.size && HeaderOf(n, e, archive).compressed == e.compressed
  {}

  lemma {:induction false} SumsExactly(n: Naming, entries: seq<Entry>, archive: Option<nat>, k: nat)
    requires k <= |entries|
    ensures Sizes(HeadersOf(n, entries, archive)[..k]) == Promise(entries, k)
    ensures Compressed(HeadersOf(n, entries, archive)[..k]) == Packed(entries, k)
    decreases k
  {
    if k > 0 {
      SumsNext(HeadersOf(n, entries, archive), k - 1);
      HeaderSizes(n, entries[k - 1], archive);
      SumsExactly(n, entries, archive, k - 1);
    }
  }

  lemma BoundsExactly(n: Naming, entries: seq<Entry>, archive: Option<nat>)
    ensures Within(HeadersOf(n, entries, archive), archive) <==> Bounded(entries, archive)
  {
    var headers := HeadersOf(n, entries, archive);
    forall k | 1 <= k <= |entries| ensures WithinAt(headers, archive, k) <==> BoundedAt(entries, archive, k) {
      SumsExactly(n, entries, archive, k);
    }
  }

  // ----- paths that meet -----

  /** What a file system that ignores case and trailing spaces and dots makes of the components. */
  function Careless(n: Naming, parts: seq<string>): (r: seq<string>)
    ensures |r| == |parts|
  {
    seq(|parts|, i requires 0 <= i < |parts| => n.casefold(n.compose(parts[i])))
  }

  lemma FoldedExactly(n: Naming, part: string)
    requires GoodName(n, part)
    ensures Folded(n, part) == n.casefold(n.compose(part))
  {}

  lemma KeyExactly(n: Naming, raw: string)
    requires SafePath(n, raw).Safe?
    ensures CollisionKey(n, SafePath(n, raw).parts) == Split(Join(Careless(n, SafePath(n, raw).parts)))
  {
    NamedAreGood(n, raw);
    FoldedAllExactly(n, SafePath(n, raw).parts);
  }

  lemma FoldedAllExactly(n: Naming, parts: seq<string>)
    requires GoodNames(n, parts)
    ensures FoldedAll(n, parts) == Careless(n, parts)
  {
    forall i | 0 <= i < |parts| ensures FoldedAll(n, parts)[i] == Careless(n, parts)[i] {
      assert GoodName(n, parts[i]);
      FoldedExactly(n, parts[i]);
    }
  }

  /** Where a careless file system puts a member. */
  function PlaceOf(n: Naming, e: Entry): (r: seq<string>) {
    var parts := Named(Split(Portable(e.name)));
    if parts == [] then [] else Split(Join(Careless(n, parts)))
  }

  /** A zip says it by a slash at the end of the name, a tar by the type. */
  predicate Folder(e: Entry, archive: Option<nat>) {
    match archive
    case None => exists stem :: 0 <= stem < |e.name| && e.name == e.name[..stem] + "/"
    case Some(_) => e.kind == Directory
  }

  /** No two members at one place, and nothing below a file. */
  ghost predicate Treelike(n: Naming, entries: seq<Entry>, archive: Option<nat>) {
    forall i, j :: 0 <= i < |entries| && 0 <= j < |entries| && i != j ==>
      && PlaceOf(n, entries[i]) != PlaceOf(n, entries[j])
      && !(PlaceOf(n, entries[i]) < PlaceOf(n, entries[j]) && !Folder(entries[i], archive))
  }

  lemma FolderExactly(e: Entry, archive: Option<nat>)
    ensures IsFolder(e, archive) <==> Folder(e, archive)
  {
    if archive == None {
      if e.name != "" && e.name[|e.name| - 1] == '/' {
        assert e.name == e.name[..|e.name| - 1] + "/";
      }
      if stem :| 0 <= stem < |e.name| && e.name == e.name[..stem] + "/" {
        assert e.name[|e.name| - 1] == '/';
      }
    }
  }

  lemma PlainHeader(n: Naming, e: Entry, archive: Option<nat>)
    requires PlainMember(n, e)
    ensures HeaderOf(n, e, archive).key == PlaceOf(n, e)
    ensures HeaderOf(n, e, archive).isDirectory <==> Folder(e, archive)
  {
    AcceptedExactly(n, e.name);
    SafeExactly(n, e.name, SafePath(n, e.name).parts);
    KeyExactly(n, e.name);
    FolderExactly(e, archive);
  }

  lemma PrefixExactly(a: Key, b: Key)
    ensures ProperPrefix(a, b) <==> a < b
  {
    if |a| < |b| && b[..|a|] == a { assert a <= b; }
  }

  lemma TreeExactly(n: Naming, entries: seq<Entry>, archive: Option<nat>)
    requires forall i :: 0 <= i < |entries| ==> PlainMember(n, entries[i])
    ensures IsTree(HeadersOf(n, entries, archive)) <==> Treelike(n, entries, archive)
  {
    var headers := HeadersOf(n, entries, archive);
    forall i | 0 <= i < |entries|
      ensures headers[i].key == PlaceOf(n, entries[i]) && (headers[i].isDirectory <==> Folder(entries[i], archive))
    {
      PlainHeader(n, entries[i], archive);
    }
    forall i, j | 0 <= i < |entries| && 0 <= j < |entries|
      ensures Clash(headers[i], headers[j]) <==>
                || PlaceOf(n, entries[i]) == PlaceOf(n, entries[j])
                || (PlaceOf(n, entries[i]) < PlaceOf(n, entries[j]) && !Folder(entries[i], archive))
                || (PlaceOf(n, entries[j]) < PlaceOf(n, entries[i]) && !Folder(entries[j], archive))
    {
      PrefixExactly(headers[i].key, headers[j].key);
      PrefixExactly(headers[j].key, headers[i].key);
    }
    ClashesAreSymmetric(headers);
  }

  lemma ClashesAreSymmetric(headers: Headers)
    ensures IsTree(headers) <==>
              forall i, j :: 0 <= i < |headers| && 0 <= j < |headers| && i != j ==> !Clash(headers[i], headers[j])
  {
    if IsTree(headers) {
      forall i, j | 0 <= i < |headers| && 0 <= j < |headers| && i != j ensures !Clash(headers[i], headers[j]) {
        if i > j { assert !Clash(headers[j], headers[i]); }
      }
    }
  }

  /** An archive is cleared exactly when every member is a plain one, the bounds hold all along and the
      paths form a tree. */
  lemma ClearedExactly(n: Naming, entries: seq<Entry>, archive: Option<nat>)
    ensures Cleared(HeadersOf(n, entries, archive), archive) <==>
              && (forall i :: 0 <= i < |entries| ==> PlainMember(n, entries[i]))
              && Bounded(entries, archive) && Treelike(n, entries, archive)
  {
    forall i | 0 <= i < |entries| ensures DefectOf(n, entries[i]) == None <==> PlainMember(n, entries[i]) {
      DefectExactly(n, entries[i]);
    }
    BoundsExactly(n, entries, archive);
    if forall i :: 0 <= i < |entries| ==> PlainMember(n, entries[i]) { TreeExactly(n, entries, archive); }
  }
}
