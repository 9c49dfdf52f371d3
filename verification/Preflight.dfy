/** Checking archive headers before anything is extracted. */
module Preflight {
  import opened History
  import opened ArchivePaths

  /** The file type bits of a zip member, or the type of a tar member. */
  datatype Kind = Untyped | Regular | Directory | SymbolicLink | HardLink | Sparse | Special

  /** A member as the archive describes it; its sizes may be nonsense. */
  datatype Entry = Entry(name: string, encrypted: bool, kind: Kind, size: int, compressed: int)

  datatype Defect = BadPath(why: Rejection) | Encrypted | Link | SparseFile | SpecialFile

  /** What is wrong with a member on its own: the first of the tests on its header that fails. */
  function DefectOf(n: Naming, e: Entry): Option<Defect> {
    var path := SafePath(n, e.name);
    if path.Unsafe? then Some(BadPath(path.why))
    else if e.encrypted then Some(Encrypted)
    else if e.kind.SymbolicLink? || e.kind.HardLink? then Some(Link)
    else if e.kind.Sparse? then Some(SparseFile)
    else if e.kind.Special? then Some(SpecialFile)
    else None
  }

  /** A zip says it in the name, a tar (`archive` given) in the type. */
  predicate IsFolder(e: Entry, archive: Option<nat>) {
    if archive.Some? then e.kind.Directory? else e.name != "" && e.name[|e.name| - 1] == '/'
  }

  /** A path as its collision key's components; there is at least one. */
  type Key = k: seq<string> | |k| > 0 witness [""]

  /** What the tests on several members look at; an unsafe member has no key. */
  datatype Header = Header(safe: bool, key: Key, isDirectory: bool, size: int, compressed: int)

  type Headers = seq<Header>

  function HeaderOf(n: Naming, e: Entry, archive: Option<nat>): Header {
    var path := SafePath(n, e.name);
    Header(DefectOf(n, e) == None, if path.Safe? then CollisionKey(n, path.parts) else [""], IsFolder(e, archive),
           e.size, e.compressed)
  }

  function HeadersOf(n: Naming, entries: seq<Entry>, archive: Option<nat>): (r: Headers)
    ensures |r| == |entries| && forall i :: 0 <= i < |entries| ==> r[i] == HeaderOf(n, entries[i], archive)
  {
    seq(|entries|, i requires 0 <= i < |entries| => HeaderOf(n, entries[i], archive))
  }

  const MAX_MEMBERS := 10_000
  const MAX_UNCOMPRESSED := 1_000_000_000
  const MAX_RATIO := 100

  function AtLeast0(n: int): nat {
    if n < 0 then 0 else n
  }

  // ----- the directory tree -----

  predicate ProperPrefix(a: Key, b: Key) {
    |a| < |b| && b[..|a|] == a
  }

  /** Two members that cannot both be extracted: the same path, or a file where a directory is needed. */
  predicate Clash(a: Header, b: Header) {
    || a.key == b.key
    || (ProperPrefix(a.key, b.key) && !a.isDirectory)
    || (ProperPrefix(b.key, a.key) && !b.isDirectory)
  }

  /** Distinct paths, and no file above another path. */
  predicate IsTree(headers: Headers) {
    forall i, j :: 0 <= i < j < |headers| ==> !Clash(headers[i], headers[j])
  }

  type Seen = map<Key, bool>

  /** A path that conflicts with those accepted before it. */
  ghost predicate Conflicts(key: Key, isDirectory: bool, seen: Seen) {
    || key in seen
    || (exists k :: k in seen && ProperPrefix(k, key) && !seen[k])
    || (!isDirectory && exists k :: k in seen && ProperPrefix(key, k))
  }

  method PathTypeConflict(key: Key, isDirectory: bool, seen: Seen) returns (conflict: bool)
    ensures conflict <==> Conflicts(key, isDirectory, seen)
  {
    if key in seen { return true; }
    var index := 1;
    while index < |key|
      invariant 1 <= index
      invariant forall i :: 1 <= i < index && i < |key| ==> key[..i] in seen ==> seen[key[..i]]
    {
      var ancestor := key[..index];
      if ancestor in seen && !seen[ancestor] {
        assert ProperPrefix(ancestor, key);
        return true;
      }
      index := index + 1;
    }
    forall k | k in seen && ProperPrefix(k, key) ensures seen[k] {
      assert k == key[..|k|];
    }
    return !isDirectory && exists k :: k in seen && ProperPrefix(key, k);
  }

  /** The table of the members seen so far. */
  ghost predicate TableOf(headers: Headers, seen: Seen) {
    && (forall i :: 0 <= i < |headers| ==> headers[i].key in seen && seen[headers[i].key] == headers[i].isDirectory)
    && forall k :: k in seen ==> exists i :: 0 <= i < |headers| && headers[i].key == k
  }

  ghost predicate ClashesWithSome(headers: Headers, next: Header) {
    exists i :: 0 <= i < |headers| && Clash(headers[i], next)
  }

  lemma ConflictIsClash(headers: Headers, seen: Seen, next: Header)
    requires TableOf(headers, seen)
    ensures Conflicts(next.key, next.isDirectory, seen) <==> ClashesWithSome(headers, next)
  {
    if Conflicts(next.key, next.isDirectory, seen) {
      var k :| k in seen && (k == next.key || (ProperPrefix(k, next.key) && !seen[k])
                             || (!next.isDirectory && ProperPrefix(next.key, k)));
      var i :| 0 <= i < |headers| && headers[i].key == k;
      assert Clash(headers[i], next);
    }
    if i :| 0 <= i < |headers| && Clash(headers[i], next) {
      assert headers[i].key in seen;
    }
  }

  lemma TreeAppended(headers: Headers, next: Header)
    ensures IsTree(headers + [next]) <==> IsTree(headers) && !ClashesWithSome(headers, next)
  {
    var after := headers + [next];
    assert after[|headers|] == next && forall i :: 0 <= i < |headers| ==> after[i] == headers[i];
    if IsTree(after) {
      forall i, j | 0 <= i < j < |headers| ensures !Clash(headers[i], headers[j]) { assert !Clash(after[i], after[j]); }
      forall i | 0 <= i < |headers| ensures !Clash(headers[i], next) { assert !Clash(after[i], after[|headers|]); }
    }
  }

  lemma TableAppended(headers: Headers, seen: Seen, next: Header)
    requires TableOf(headers, seen) && next.key !in seen
    ensures TableOf(headers + [next], seen[next.key := next.isDirectory])
  {
    var after, table := headers + [next], seen[next.key := next.isDirectory];
    assert after[|headers|] == next && forall i :: 0 <= i < |headers| ==> after[i] == headers[i];
    forall k {:trigger k in table} | k in table ensures exists i :: 0 <= i < |after| && after[i].key == k {
      if k != next.key { var i :| 0 <= i < |headers| && headers[i].key == k; assert after[i].key == k; }
    }
  }

  // ----- size limits -----

  function Sizes(headers: Headers): nat {
    if headers == [] then 0 else Sizes(headers[..|headers| - 1]) + AtLeast0(headers[|headers| - 1].size)
  }

  function Compressed(headers: Headers): nat {
    if headers == [] then 0 else Compressed(headers[..|headers| - 1]) + AtLeast0(headers[|headers| - 1].compressed)
  }

  /** total / max(compressed, 1) compared with the ratio, without the division: sizes this small make
      the floating-point comparison exact. */
  predicate IsBomb(count: nat, total: nat, compressed: nat) {
    count > MAX_MEMBERS || total > MAX_UNCOMPRESSED || total > MAX_RATIO * (if compressed == 0 then 1 else compressed)
  }

  /** The bounds hold when the first n headers have been read. */
  predicate WithinAt(headers: Headers, archive: Option<nat>, n: nat)
    requires n <= |headers|
  {
    !IsBomb(n, Sizes(headers[..n]), if archive.Some? then archive.value else Compressed(headers[..n]))
  }

  predicate WithinUpTo(headers: Headers, archive: Option<nat>, end: nat)
    requires end <= |headers|
  {
    forall n :: 1 <= n <= end ==> WithinAt(headers, archive, n)
  }

  predicate Within(headers: Headers, archive: Option<nat>) {
    WithinUpTo(headers, archive, |headers|)
  }

  lemma WithinNext(headers: Headers, archive: Option<nat>, i: nat)
    requires i < |headers| && WithinUpTo(headers, archive, i)
    ensures WithinAt(headers, archive, i + 1) <==> WithinUpTo(headers, archive, i + 1)
    ensures !WithinAt(headers, archive, i + 1) ==> !Within(headers, archive)
  {}

  predicate AllSafe(headers: Headers) {
    forall i :: 0 <= i < |headers| ==> headers[i].safe
  }

  ghost predicate Clean(headers: Headers) {
    AllSafe(headers) && IsTree(headers)
  }

  lemma NextVerdict(front: Headers, h: Header, seen: Seen, clean: bool)
    requires (clean <==> Clean(front)) && (clean ==> TableOf(front, seen))
    ensures var accepted := clean && h.safe && !Conflicts(h.key, h.isDirectory, seen);
            && (accepted <==> Clean(front + [h]))
            && (accepted ==> TableOf(front + [h], seen[h.key := h.isDirectory]))
  {
    TreeAppended(front, h);
    SafeAppended(front, h);
    if clean {
      ConflictIsClash(front, seen, h);
      if h.key !in seen { TableAppended(front, seen, h); }
    }
  }

  datatype Finding = ArchiveBomb | UnsafeMember(index: nat, defect: Defect) | ConflictingMember(index: nat)

  /** A member to extract. */
  datatype Member = Member(parts: seq<string>, isDirectory: bool, size: int)

  function MemberOf(n: Naming, e: Entry, archive: Option<nat>): Member {
    var path := SafePath(n, e.name);
    Member(if path.Safe? then path.parts else [], IsFolder(e, archive), e.size)
  }

  function MembersOf(n: Naming, entries: seq<Entry>, archive: Option<nat>): (r: seq<Member>)
    ensures |r| == |entries| && forall i :: 0 <= i < |entries| ==> r[i] == MemberOf(n, entries[i], archive)
  {
    seq(|entries|, i requires 0 <= i < |entries| => MemberOf(n, entries[i], archive))
  }

  /** Every member is safe on its own, the bounds hold all along, and the paths form a tree. */
  predicate Cleared(headers: Headers, archive: Option<nat>) {
    AllSafe(headers) && Within(headers, archive) && IsTree(headers)
  }

  /** What is known after the first i headers: the sums, the bounds, and whether they are clean. */
  ghost predicate SoFar(headers: Headers, archive: Option<nat>, i: nat, total: nat, compressed: nat, seen: Seen,
                        clean: bool)
  {
    && i <= |headers| && total == Sizes(headers[..i]) && compressed == Compressed(headers[..i])
    && WithinUpTo(headers, archive, i) && (clean <==> Clean(headers[..i])) && (clean ==> TableOf(headers[..i], seen))
  }

  lemma SumsNext(headers: Headers, i: nat)
    requires i < |headers|
    ensures Sizes(headers[..i + 1]) == Sizes(headers[..i]) + AtLeast0(headers[i].size)
    ensures Compressed(headers[..i + 1]) == Compressed(headers[..i]) + AtLeast0(headers[i].compressed)
  {
    assert headers[..i + 1] == headers[..i] + [headers[i]];
    SizesAppended(headers[..i], headers[i]);
  }

  lemma SoFarNext(headers: Headers, archive: Option<nat>, i: nat, total: nat, compressed: nat, seen: Seen, clean: bool)
    requires SoFar(headers, archive, i, total, compressed, seen, clean) && i < |headers|
    ensures var h := headers[i];
            var t, c := total + AtLeast0(h.size), compressed + AtLeast0(h.compressed);
            var accepted := clean && h.safe && !Conflicts(h.key, h.isDirectory, seen);
            if IsBomb(i + 1, t, if archive.Some? then archive.value else c) then !Within(headers, archive)
            else SoFar(headers, archive, i + 1, t, c, if accepted then seen[h.key := h.isDirectory] else seen, accepted)
  {
    SumsNext(headers, i);
    WithinNext(headers, archive, i);
    assert headers[..i + 1] == headers[..i] + [headers[i]];
    NextVerdict(headers[..i], headers[i], seen, clean);
  }

  lemma SoFarAll(headers: Headers, archive: Option<nat>, total: nat, compressed: nat, seen: Seen, clean: bool)
    requires SoFar(headers, archive, |headers|, total, compressed, seen, clean)
    ensures clean <==> Cleared(headers, archive)
  {
    assert headers[..|headers|] == headers;
  }

  lemma SoFarUnclean(headers: Headers, archive: Option<nat>, i: nat, total: nat, compressed: nat, seen: Seen,
                     other: Seen)
    requires SoFar(headers, archive, i, total, compressed, seen, false)
    ensures SoFar(headers, archive, i, total, compressed, other, false)
  {}

  lemma OneMore<T>(s: seq<T>, i: nat)
    requires i < |s|
    ensures s[..i + 1] == s[..i] + [s[i]]
  {}

  /** A member is kept when it is safe and clashes with none kept before it. */
  ghost predicate Kept(headers: Headers, i: nat)
    requires i < |headers|
    decreases i
  {
    headers[i].safe && forall j :: 0 <= j < i && Kept(headers, j) ==> !Clash(headers[j], headers[i])
  }

  ghost function KeptBefore(headers: Headers, i: nat): set<nat>
    requires i <= |headers|
  {
    set j: nat | 0 <= j < i && Kept(headers, j)
  }

  ghost predicate SomeKey(headers: Headers, kept: set<nat>, k: Key) {
    exists j :: j in kept && j < |headers| && headers[j].key == k
  }

  /** The table of the members with the given positions. */
  ghost predicate TableFor(headers: Headers, kept: set<nat>, seen: Seen) {
    && (forall j :: j in kept && j < |headers| ==>
          headers[j].key in seen && seen[headers[j].key] == headers[j].isDirectory)
    && forall k :: k in seen ==> SomeKey(headers, kept, k)
  }

  ghost predicate KeptTable(headers: Headers, i: nat, seen: Seen)
    requires i <= |headers|
  {
    TableFor(headers, KeptBefore(headers, i), seen)
  }

  lemma TableGains(headers: Headers, kept: set<nat>, seen: Seen, i: nat)
    requires i < |headers| && TableFor(headers, kept, seen) && headers[i].key !in seen
    ensures TableFor(headers, kept + {i}, seen[headers[i].key := headers[i].isDirectory])
  {
    var after, more := seen[headers[i].key := headers[i].isDirectory], kept + {i};
    forall k | k in after ensures SomeKey(headers, more, k) {
      if k == headers[i].key {
        assert i in more;
      } else {
        assert SomeKey(headers, kept, k);
        var j :| j in kept && j < |headers| && headers[j].key == k;
        assert j in more;
      }
    }
  }

  lemma KeptConflict(headers: Headers, i: nat, seen: Seen)
    requires i < |headers| && KeptTable(headers, i, seen)
    ensures Conflicts(headers[i].key, headers[i].isDirectory, seen)
       <==> exists j :: j in KeptBefore(headers, i) && Clash(headers[j], headers[i])
  {
    var h, kept := headers[i], KeptBefore(headers, i);
    if Conflicts(h.key, h.isDirectory, seen) {
      var k :| k in seen && (k == h.key || (ProperPrefix(k, h.key) && !seen[k])
                             || (!h.isDirectory && ProperPrefix(h.key, k)));
      assert SomeKey(headers, kept, k);
      var j :| j in kept && j < |headers| && headers[j].key == k;
      assert Clash(headers[j], h);
    }
    if j :| j in kept && Clash(headers[j], h) {
      assert headers[j].key in seen;
    }
  }

  lemma KeptExactly(headers: Headers, i: nat, seen: Seen)
    requires i < |headers| && KeptTable(headers, i, seen)
    ensures Kept(headers, i)
       <==> headers[i].safe && !Conflicts(headers[i].key, headers[i].isDirectory, seen)
  {
    KeptConflict(headers, i, seen);
    assert (exists j :: j in KeptBefore(headers, i) && Clash(headers[j], headers[i]))
      <==> (exists j :: 0 <= j < i && Kept(headers, j) && Clash(headers[j], headers[i])) by {
      if j :| 0 <= j < i && Kept(headers, j) && Clash(headers[j], headers[i]) { assert j in KeptBefore(headers, i); }
    }
  }

  lemma KeptMore(headers: Headers, i: nat)
    requires i < |headers|
    ensures KeptBefore(headers, i + 1) == KeptBefore(headers, i) + if Kept(headers, i) then {i} else {}
  {}

  lemma KeptNext(headers: Headers, i: nat, seen: Seen)
    requires i < |headers| && KeptTable(headers, i, seen)
    ensures var h := headers[i];
            var kept := h.safe && !Conflicts(h.key, h.isDirectory, seen);
            && (kept <==> Kept(headers, i))
            && KeptTable(headers, i + 1, if kept then seen[h.key := h.isDirectory] else seen)
  {
    KeptExactly(headers, i, seen);
    KeptMore(headers, i);
    if Kept(headers, i) {
      TableGains(headers, KeptBefore(headers, i), seen, i);
    } else {
      assert KeptBefore(headers, i) + {} == KeptBefore(headers, i);
    }
  }

  /** What there is to report about a member. */
  ghost predicate Fault(n: Naming, entries: seq<Entry>, headers: Headers, f: Finding)
    requires |headers| == |entries|
  {
    match f
    case ArchiveBomb => false
    case UnsafeMember(i, defect) => i < |entries| && DefectOf(n, entries[i]) == Some(defect)
    case ConflictingMember(i) => i < |entries| && DefectOf(n, entries[i]) == None && !Kept(headers, i)
  }

  function IndexOf(f: Finding): nat {
    if f.ArchiveBomb? then 0 else f.index
  }

  /** The findings so far are the faults of the first i members, no more and no less. */
  ghost predicate Reported(n: Naming, entries: seq<Entry>, headers: Headers, i: nat, findings: seq<Finding>)
    requires |headers| == |entries| && i <= |entries|
  {
    forall f :: f in findings <==> IndexOf(f) < i && Fault(n, entries, headers, f)
  }

  /** The finding about a member with the given defect, if it is the i-th. */
  function FindingAt(i: nat, defect: Option<Defect>, kept: bool): Option<Finding> {
    if defect.Some? then Some(UnsafeMember(i, defect.value)) else if !kept then Some(ConflictingMember(i)) else None
  }

  method CheckMember(n: Naming, e: Entry, i: nat, h: Header, seen: Seen) returns (found: Option<Finding>)
    requires h.safe <==> DefectOf(n, e) == None
    ensures found == FindingAt(i, DefectOf(n, e), !Conflicts(h.key, h.isDirectory, seen))
  {
    if !h.safe { return Some(UnsafeMember(i, DefectOf(n, e).value)); }
    var conflict := PathTypeConflict(h.key, h.isDirectory, seen);
    return if conflict then Some(ConflictingMember(i)) else None;
  }

  lemma FaultHere(n: Naming, entries: seq<Entry>, headers: Headers, i: nat, f: Finding)
    requires |headers| == |entries| && i < |entries|
    ensures FindingAt(i, DefectOf(n, entries[i]), Kept(headers, i)) == Some(f)
       <==> !f.ArchiveBomb? && f.index == i && Fault(n, entries, headers, f)
  {}

  lemma ReportedNext(n: Naming, entries: seq<Entry>, headers: Headers, i: nat, findings: seq<Finding>,
                     found: Option<Finding>)
    requires |headers| == |entries| && i < |entries| && Reported(n, entries, headers, i, findings)
    requires found == FindingAt(i, DefectOf(n, entries[i]), Kept(headers, i))
    ensures Reported(n, entries, headers, i + 1, if found.Some? then findings + [found.value] else findings)
  {
    var after := if found.Some? then findings + [found.value] else findings;
    forall f ensures f in after <==> IndexOf(f) < i + 1 && Fault(n, entries, headers, f) {
      FaultHere(n, entries, headers, i, f);
      assert f in after <==> f in findings || found == Some(f);
    }
  }

  /** Exactly the faults are reported, unless a bound is broken: then no more than the faults, and that. */
  ghost predicate Told(n: Naming, entries: seq<Entry>, headers: Headers, within: bool, findings: seq<Finding>)
    requires |headers| == |entries|
  {
    if within then forall f :: f in findings <==> Fault(n, entries, headers, f)
    else ArchiveBomb in findings && forall f :: f in findings && f != ArchiveBomb ==> Fault(n, entries, headers, f)
  }

  lemma ToldBomb(n: Naming, entries: seq<Entry>, headers: Headers, i: nat, findings: seq<Finding>)
    requires |headers| == |entries| && i <= |entries| && Reported(n, entries, headers, i, findings)
    ensures Told(n, entries, headers, false, findings + [ArchiveBomb])
  {}

  lemma ToldAll(n: Naming, entries: seq<Entry>, headers: Headers, findings: seq<Finding>)
    requires |headers| == |entries| && Reported(n, entries, headers, |entries|, findings)
    ensures Told(n, entries, headers, true, findings)
  {}

  /** No findings exactly when the headers are cleared, and then every member is accepted, in order;
      otherwise exactly the faults of the members are reported, up to the first bound that is broken. */
  ghost predicate IsVerdict(n: Naming, entries: seq<Entry>, archive: Option<nat>, members: seq<Member>,
                            findings: seq<Finding>)
  {
    var headers := HeadersOf(n, entries, archive);
    && (findings == [] <==> Cleared(headers, archive))
    && (findings == [] ==> members == MembersOf(n, entries, archive))
    && Told(n, entries, headers, Within(headers, archive), findings)
    && (!Within(headers, archive) ==> members == [])
  }

  /** What is known after the first i members. */
  ghost predicate Looped(n: Naming, entries: seq<Entry>, archive: Option<nat>, i: nat, total: nat, compressed: nat,
                         seen: Seen, members: seq<Member>, findings: seq<Finding>)
  {
    var headers := HeadersOf(n, entries, archive);
    && i <= |entries| && SoFar(headers, archive, i, total, compressed, seen, findings == [])
    && Reported(n, entries, headers, i, findings) && KeptTable(headers, i, seen)
    && (findings == [] ==> members == MembersOf(n, entries, archive)[..i])
  }

  lemma LoopedNone(n: Naming, entries: seq<Entry>, archive: Option<nat>)
    ensures Looped(n, entries, archive, 0, 0, 0, map[], [], [])
  {}

  lemma LoopedBomb(n: Naming, entries: seq<Entry>, archive: Option<nat>, i: nat, total: nat, compressed: nat,
                   seen: Seen, members: seq<Member>, findings: seq<Finding>)
    requires Looped(n, entries, archive, i, total, compressed, seen, members, findings) && i < |entries|
    requires var t, c := total + AtLeast0(entries[i].size), compressed + AtLeast0(entries[i].compressed);
             IsBomb(i + 1, t, if archive.Some? then archive.value else c)
    ensures IsVerdict(n, entries, archive, [], findings + [ArchiveBomb])
  {
    var headers := HeadersOf(n, entries, archive);
    SoFarNext(headers, archive, i, total, compressed, seen, findings == []);
    ToldBomb(n, entries, headers, i, findings);
  }

  lemma LoopedNext(n: Naming, entries: seq<Entry>, archive: Option<nat>, i: nat, total: nat, compressed: nat,
                   seen: Seen, members: seq<Member>, findings: seq<Finding>)
    requires Looped(n, entries, archive, i, total, compressed, seen, members, findings) && i < |entries|
    requires var t, c := total + AtLeast0(entries[i].size), compressed + AtLeast0(entries[i].compressed);
             !IsBomb(i + 1, t, if archive.Some? then archive.value else c)
    ensures var h := HeaderOf(n, entries[i], archive);
            var t, c := total + AtLeast0(entries[i].size), compressed + AtLeast0(entries[i].compressed);
            var found := FindingAt(i, DefectOf(n, entries[i]), !Conflicts(h.key, h.isDirectory, seen));
            if found.Some? then Looped(n, entries, archive, i + 1, t, c, seen, members, findings + [found.value])
            else Looped(n, entries, archive, i + 1, t, c, seen[h.key := h.isDirectory],
                        members + [MemberOf(n, entries[i], archive)], findings)
  {
    var headers, h := HeadersOf(n, entries, archive), HeaderOf(n, entries[i], archive);
    SoFarNext(headers, archive, i, total, compressed, seen, findings == []);
    KeptNext(headers, i, seen);
    var found := FindingAt(i, DefectOf(n, entries[i]), !Conflicts(h.key, h.isDirectory, seen));
    ReportedNext(n, entries, headers, i, findings, found);
    OneMore(MembersOf(n, entries, archive), i);
    if findings != [] {
      SoFarUnclean(headers, archive, i + 1, total + AtLeast0(h.size), compressed + AtLeast0(h.compressed), seen,
                   seen[h.key := h.isDirectory]);
    }
  }

  lemma LoopedAll(n: Naming, entries: seq<Entry>, archive: Option<nat>, total: nat, compressed: nat, seen: Seen,
                  members: seq<Member>, findings: seq<Finding>)
    requires Looped(n, entries, archive, |entries|, total, compressed, seen, members, findings)
    ensures IsVerdict(n, entries, archive, members, findings)
  {
    var headers := HeadersOf(n, entries, archive);
    SoFarAll(headers, archive, total, compressed, seen, findings == []);
    ToldAll(n, entries, headers, findings);
    assert MembersOf(n, entries, archive)[..|entries|] == MembersOf(n, entries, archive);
  }

  /** One member, the bounds being met: it is kept, or there is a finding about it. */
  method NextMember(n: Naming, entries: seq<Entry>, archive: Option<nat>, i: nat, ghost total: nat,
                    ghost compressed: nat, seen: Seen, members: seq<Member>, findings: seq<Finding>)
    returns (seen': Seen, members': seq<Member>, findings': seq<Finding>)
    requires Looped(n, entries, archive, i, total, compressed, seen, members, findings) && i < |entries|
    requires var t, c := total + AtLeast0(entries[i].size), compressed + AtLeast0(entries[i].compressed);
             !IsBomb(i + 1, t, if archive.Some? then archive.value else c)
    ensures var t, c := total + AtLeast0(entries[i].size), compressed + AtLeast0(entries[i].compressed);
            Looped(n, entries, archive, i + 1, t, c, seen', members', findings')
  {
    var e, h := entries[i], HeaderOf(n, entries[i], archive);
    LoopedNext(n, entries, archive, i, total, compressed, seen, members, findings);
    var found := CheckMember(n, e, i, h, seen);
    if found.Some? { return seen, members, findings + [found.value]; }
    return seen[h.key := h.isDirectory], members + [MemberOf(n, e, archive)], findings;
  }

  /** One loop for both formats: a zip counts each member's compressed size, a tar (`archive` given)
      the size of the whole file. */
  method Preflight(n: Naming, entries: seq<Entry>, archive: Option<nat>)
    returns (members: seq<Member>, findings: seq<Finding>)
    ensures IsVerdict(n, entries, archive, members, findings)
  {
    members, findings := [], [];
    var seen: Seen := map[];
    var total: nat, compressed: nat := 0, 0;
    LoopedNone(n, entries, archive);
    for i := 0 to |entries|
      invariant Looped(n, entries, archive, i, total, compressed, seen, members, findings)
    {
      var t, c := total + AtLeast0(entries[i].size), compressed + AtLeast0(entries[i].compressed);
      if IsBomb(i + 1, t, if archive.Some? then archive.value else c) {
        LoopedBomb(n, entries, archive, i, total, compressed, seen, members, findings);
        return [], findings + [ArchiveBomb];
      }
      seen, members, findings := NextMember(n, entries, archive, i, total, compressed, seen, members, findings);
      total, compressed := t, c;
    }
    LoopedAll(n, entries, archive, total, compressed, seen, members, findings);
  }

  lemma SafeAppended(headers: Headers, h: Header)
    ensures AllSafe(headers + [h]) <==> AllSafe(headers) && h.safe
  {
    var after := headers + [h];
    assert after[|headers|] == h && forall i :: 0 <= i < |headers| ==> after[i] == headers[i];
  }

  lemma SizesAppended(front: Headers, h: Header)
    ensures Sizes(front + [h]) == Sizes(front) + AtLeast0(h.size)
    ensures Compressed(front + [h]) == Compressed(front) + AtLeast0(h.compressed)
  {
    assert (front + [h])[..|front|] == front;
  }

  // ----- order -----

  /** The tree condition without positions. */
  ghost predicate TreeBag(bag: multiset<Header>) {
    forall a, b :: a in bag && b in bag && (a != b || bag[a] > 1) ==> !Clash(a, b)
  }

  lemma {:induction false} TreeIsABag(headers: Headers)
    ensures IsTree(headers) <==> TreeBag(multiset(headers))
    decreases |headers|
  {
    if headers != [] {
      var n := |headers| - 1;
      var front, last := headers[..n], headers[n];
      assert headers == front + [last];
      assert multiset(headers) == multiset(front) + multiset{last};
      TreeIsABag(front);
      TreeAppended(front, last);
      if IsTree(front) { LastInBag(front, last); } else { FrontInBag(front, last); }
    }
  }

  lemma FrontInBag(front: Headers, last: Header)
    requires !TreeBag(multiset(front))
    ensures !TreeBag(multiset(front) + multiset{last})
  {
    var bag := multiset(front);
    var a, b :| a in bag && b in bag && (a != b || bag[a] > 1) && Clash(a, b);
    assert a in bag + multiset{last} && b in bag + multiset{last};
  }

  lemma LastInBag(front: Headers, last: Header)
    requires IsTree(front) && TreeBag(multiset(front))
    ensures IsTree(front + [last]) <==> TreeBag(multiset(front) + multiset{last})
  {
    var bag, after := multiset(front) + multiset{last}, front + [last];
    assert after[|front|] == last && forall i :: 0 <= i < |front| ==> after[i] == front[i];
    if IsTree(after) {
      forall a, b | a in bag && b in bag && (a != b || bag[a] > 1) ensures !Clash(a, b) {
        forall x | x in multiset(front) ensures !Clash(x, last) && !Clash(last, x) {
          var i :| 0 <= i < |front| && front[i] == x;
          assert !Clash(after[i], after[|front|]);
        }
      }
    } else {
      var i, j :| 0 <= i < j < |after| && Clash(after[i], after[j]);
      assert j == |front| && after[i] in multiset(front);
      assert bag[last] > 1 || after[i] != last;
    }
  }

  /** The tree condition does not depend on the order of the members. */
  lemma TreeIgnoresOrder(a: Headers, b: Headers)
    requires multiset(a) == multiset(b)
    ensures IsTree(a) <==> IsTree(b)
  {
    TreeIsABag(a);
    TreeIsABag(b);
  }

  lemma {:induction false} SizesConcat(a: Headers, b: Headers)
    ensures Sizes(a + b) == Sizes(a) + Sizes(b)
    decreases |b|
  {
    if b == [] {
      assert a + b == a;
    } else {
      var n := |b| - 1;
      assert a + b == a + b[..n] + [b[n]];
      SizesAppended(a + b[..n], b[n]);
      SizesConcat(a, b[..n]);
    }
  }

  lemma SizesGrow(headers: Headers, n: nat)
    requires n <= |headers|
    ensures Sizes(headers[..n]) <= Sizes(headers)
  {
    assert headers == headers[..n] + headers[n..];
    SizesConcat(headers[..n], headers[n..]);
  }

  /** For a tar the bounds at the end are the bounds all along. */
  lemma TarBoundsAtEnd(headers: Headers, archive: nat)
    ensures Within(headers, Some(archive)) <==> headers == [] || WithinAt(headers, Some(archive), |headers|)
  {
    forall n | 1 <= n <= |headers| ensures Sizes(headers[..n]) <= Sizes(headers) { SizesGrow(headers, n); }
    assert headers[..|headers|] == headers;
  }

  /** Taking out one occurrence of a member. */
  lemma TakeOut(b: Headers, x: Header) returns (rest: Headers)
    requires x in multiset(b)
    ensures multiset(b) == multiset(rest) + multiset{x} && |b| == |rest| + 1
    ensures Sizes(b) == Sizes(rest) + AtLeast0(x.size)
  {
    var k :| 0 <= k < |b| && b[k] == x;
    var left, right := b[..k], b[k + 1..];
    assert b == left + [x] + right;
    rest := left + right;
    SizesAppended(left, x);
    SizesConcat(left + [x], right);
    SizesConcat(left, right);
    assert multiset(b) == multiset(left) + multiset{x} + multiset(right);
  }

  lemma CancelOne(a: Headers, b: Headers, x: Header)
    requires multiset(a) + multiset{x} == multiset(b) + multiset{x}
    ensures multiset(a) == multiset(b)
  {
    assert multiset(a) == multiset(a) + multiset{x} - multiset{x};
    assert multiset(b) == multiset(b) + multiset{x} - multiset{x};
  }

  lemma {:induction false} SameSizes(a: Headers, b: Headers)
    requires multiset(a) == multiset(b)
    ensures Sizes(a) == Sizes(b) && |a| == |b|
    decreases |a|
  {
    if a == [] {
      assert |multiset(b)| == 0;
    } else {
      var x, front := a[|a| - 1], a[..|a| - 1];
      assert a == front + [x] && multiset(a) == multiset(front) + multiset{x};
      assert x in multiset(b);
      var rest := TakeOut(b, x);
      CancelOne(front, rest, x);
      SameSizes(front, rest);
    }
  }

  /** For a tar the whole verdict does not depend on the order of the members. */
  lemma TarIgnoresOrder(a: Headers, b: Headers, archive: nat)
    requires multiset(a) == multiset(b)
    ensures Cleared(a, Some(archive)) <==> Cleared(b, Some(archive))
  {
    TreeIgnoresOrder(a, b);
    TarBoundsAtEnd(a, archive);
    TarBoundsAtEnd(b, archive);
    SameSizes(a, b);
    assert a[..|a|] == a && b[..|b|] == b;
    if AllSafe(a) { SafeIgnoresOrder(a, b); }
    if AllSafe(b) { SafeIgnoresOrder(b, a); }
  }

  lemma SafeIgnoresOrder(a: Headers, b: Headers)
    requires multiset(a) == multiset(b) && AllSafe(a)
    ensures AllSafe(b)
  {
    forall i | 0 <= i < |b| ensures b[i].safe { assert b[i] in multiset(a); }
  }

  /** For a zip it does: a member that expands well must not come before its ballast. */
  lemma ZipOrderMatters()
    ensures var big, ballast := Header(true, ["a"], false, 1000, 1), Header(true, ["b"], false, 0, 1000);
            && !Within([big, ballast], None) && Within([ballast, big], None)
            && IsTree([big, ballast]) && IsTree([ballast, big])
  {
    var big, ballast := Header(true, ["a"], false, 1000, 1), Header(true, ["b"], false, 0, 1000);
    SizesAppended([], big);
    SizesAppended([], ballast);
    SizesAppended([ballast], big);
    assert [big, ballast][..1] == [] + [big] && [ballast, big][..1] == [] + [ballast];
    assert [ballast, big][..2] == [ballast] + [big] && [ballast] == [] + [ballast];
    assert !WithinAt([big, ballast], None, 1);
  }

  lemma SizesSmall(headers: Headers, archive: Option<nat>)
    requires Within(headers, archive)
    ensures Sizes(headers) <= MAX_UNCOMPRESSED
  {
    if headers != [] {
      assert WithinAt(headers, archive, |headers|);
      assert headers[..|headers|] == headers;
    }
  }
}
