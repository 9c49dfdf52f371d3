/** Extracting the members of an archive into an empty directory. */
module Extraction {
  import opened History
  import opened Paths
  import opened ArchivePaths
  import opened Preflight

  // ----- the file system -----

  /** Where a member lands below the destination: its components as the file system compares them. */
  type Place = p: seq<string> | |p| > 0 witness [""]

  datatype Node = Folder | File(member: nat)

  type Files = map<Place, Node>

  /** mkdir(parents=True, exist_ok=True); the destination itself is there. */
  function MakeFolders(fs: Files, path: seq<string>): Option<Files>
    decreases |path|
  {
    if path == [] then Some(fs)
    else
      var above := MakeFolders(fs, path[..|path| - 1]);
      if above == None then None
      else if path in above.value then (if above.value[path].Folder? then above else None)
      else Some(above.value[path := Folder])
  }

  /** open("xb"), which refuses whatever is already there, after making the folder. */
  function MakeFile(fs: Files, place: Place, member: nat): Option<Files> {
    var above := MakeFolders(fs, place[..|place| - 1]);
    if above == None || place in above.value then None else Some(above.value[place := File(member)])
  }

  datatype Item = Item(place: Place, isDirectory: bool)

  function Put(fs: Files, item: Item, member: nat): Option<Files> {
    if item.isDirectory then MakeFolders(fs, item.place) else MakeFile(fs, item.place, member)
  }

  // ----- when it works, and what is there then -----

  /** The same path, or one above it. */
  predicate AtOrAbove(a: seq<string>, b: seq<string>) {
    |a| <= |b| && b[..|a|] == a
  }

  /** Two members that cannot both be put in place, in whatever order. */
  predicate Obstruct(a: Item, b: Item) {
    || (AtOrAbove(a.place, b.place) && !a.isDirectory)
    || (AtOrAbove(b.place, a.place) && !b.isDirectory)
  }

  predicate Placeable(items: seq<Item>) {
    forall i, j :: 0 <= i < j < |items| ==> !Obstruct(items[i], items[j])
  }

  ghost predicate Covered(items: seq<Item>, p: Place) {
    exists i :: 0 <= i < |items| && AtOrAbove(p, items[i].place)
  }

  /** Exactly the members and the folders above them, and every file its own. */
  ghost predicate Laid(items: seq<Item>, fs: Files) {
    && (forall p :: p in fs <==> Covered(items, p))
    && (forall p :: p in fs && fs[p].File? ==>
          fs[p].member < |items| && items[fs[p].member] == Item(p, false))
    && (forall i :: 0 <= i < |items| && !items[i].isDirectory ==>
          items[i].place in fs && fs[items[i].place] == File(i))
  }

  /** No file is at the path or above it. */
  ghost predicate Open(fs: Files, path: seq<string>) {
    forall p: Place :: p in fs && AtOrAbove(p, path) ==> fs[p].Folder?
  }

  ghost predicate WithFolders(fs: Files, path: seq<string>, after: Files) {
    && (forall p: Place :: p in after <==> p in fs || AtOrAbove(p, path))
    && (forall p: Place :: p in after ==> after[p] == if p in fs then fs[p] else Folder)
  }

  lemma {:induction false} FoldersMade(fs: Files, path: seq<string>)
    ensures MakeFolders(fs, path).Some? <==> Open(fs, path)
    ensures MakeFolders(fs, path).Some? ==> WithFolders(fs, path, MakeFolders(fs, path).value)
    decreases |path|
  {
    if path != [] {
      var front := path[..|path| - 1];
      FoldersMade(fs, front);
      forall p: Place ensures AtOrAbove(p, path) <==> p == path || AtOrAbove(p, front) {
        if |p| <= |front| { assert path[..|p|] == front[..|p|]; }
      }
    }
  }

  ghost predicate ObstructsSome(items: seq<Item>, next: Item) {
    exists i :: 0 <= i < |items| && Obstruct(items[i], next)
  }

  lemma PlaceableAppended(items: seq<Item>, next: Item)
    ensures Placeable(items + [next]) <==> Placeable(items) && !ObstructsSome(items, next)
  {
    var after := items + [next];
    assert after[|items|] == next && forall i :: 0 <= i < |items| ==> after[i] == items[i];
    if Placeable(after) {
      forall i, j | 0 <= i < j < |items| ensures !Obstruct(items[i], items[j]) { assert !Obstruct(after[i], after[j]); }
      forall i | 0 <= i < |items| ensures !Obstruct(items[i], next) { assert !Obstruct(after[i], after[|items|]); }
    }
  }

  /** Files are only at members that are files. */
  lemma OpenExactly(items: seq<Item>, fs: Files, path: seq<string>)
    requires Laid(items, fs)
    ensures Open(fs, path) <==>
              forall i :: 0 <= i < |items| && !items[i].isDirectory ==> !AtOrAbove(items[i].place, path)
  {
    if Open(fs, path) {
      forall i | 0 <= i < |items| && !items[i].isDirectory ensures !AtOrAbove(items[i].place, path) {
        assert items[i].place in fs;
      }
    }
  }

  lemma LaidFurther(items: seq<Item>, fs: Files, next: Item, after: Files)
    requires Laid(items, fs)
    requires forall p: Place :: p in after <==> p in fs || AtOrAbove(p, next.place)
    requires forall p: Place :: p in after && p in fs ==> after[p] == fs[p]
    requires forall p: Place :: p in after && p !in fs ==>
               after[p] == if p == next.place && !next.isDirectory then File(|items|) else Folder
    requires !next.isDirectory ==> next.place !in fs
    ensures Laid(items + [next], after)
  {
    var all := items + [next];
    assert all[|items|] == next && forall i :: 0 <= i < |items| ==> all[i] == items[i];
    forall p: Place ensures p in after <==> Covered(all, p) {
      if p in fs { var i :| 0 <= i < |items| && AtOrAbove(p, items[i].place); assert AtOrAbove(p, all[i].place); }
      if AtOrAbove(p, next.place) { assert AtOrAbove(p, all[|items|].place); }
      if Covered(all, p) && p !in fs { assert !Covered(items, p); }
    }
  }

  lemma FolderPut(items: seq<Item>, fs: Files, next: Item)
    requires Laid(items, fs) && next.isDirectory
    ensures Put(fs, next, |items|).Some? <==> !ObstructsSome(items, next)
    ensures Put(fs, next, |items|).Some? ==> Laid(items + [next], Put(fs, next, |items|).value)
  {
    FoldersMade(fs, next.place);
    OpenExactly(items, fs, next.place);
    if Put(fs, next, |items|).Some? { LaidFurther(items, fs, next, Put(fs, next, |items|).value); }
  }

  lemma AboveFront(path: Place, p: seq<string>)
    ensures AtOrAbove(p, path) <==> p == path || AtOrAbove(p, path[..|path| - 1])
  {
    if |p| < |path| { assert path[..|p|] == path[..|path| - 1][..|p|]; }
  }

  lemma FileObstructed(items: seq<Item>, fs: Files, next: Item)
    requires Laid(items, fs) && !next.isDirectory
    ensures ObstructsSome(items, next) <==> next.place in fs || !Open(fs, next.place[..|next.place| - 1])
  {
    var front := next.place[..|next.place| - 1];
    OpenExactly(items, fs, front);
    forall i | 0 <= i < |items|
      ensures AtOrAbove(items[i].place, next.place) <==>
                items[i].place == next.place || AtOrAbove(items[i].place, front)
    {
      AboveFront(next.place, items[i].place);
    }
    if next.place in fs {
      var i :| 0 <= i < |items| && AtOrAbove(next.place, items[i].place);
      assert Obstruct(items[i], next);
    }
    if i :| 0 <= i < |items| && Obstruct(items[i], next) && AtOrAbove(next.place, items[i].place) {
      assert Covered(items, next.place);
    }
  }

  lemma FilePut(items: seq<Item>, fs: Files, next: Item)
    requires Laid(items, fs) && !next.isDirectory
    ensures Put(fs, next, |items|).Some? <==> !ObstructsSome(items, next)
    ensures Put(fs, next, |items|).Some? ==> Laid(items + [next], Put(fs, next, |items|).value)
  {
    var front := next.place[..|next.place| - 1];
    FoldersMade(fs, front);
    FileObstructed(items, fs, next);
    forall p: seq<string> ensures AtOrAbove(p, next.place) <==> p == next.place || AtOrAbove(p, front) {
      AboveFront(next.place, p);
    }
    if Put(fs, next, |items|).Some? { LaidFurther(items, fs, next, Put(fs, next, |items|).value); }
  }

  function PutAll(items: seq<Item>): Option<Files>
    decreases |items|
  {
    if items == [] then Some(map[])
    else
      var n := |items| - 1;
      var before := PutAll(items[..n]);
      if before == None then None else Put(before.value, items[n], n)
  }

  /** Members can be put in place in their order exactly when no two of them obstruct each other; and
      then the directory holds exactly these files and the folders they call for. */
  lemma {:induction false} PutAllExactly(items: seq<Item>)
    ensures PutAll(items).Some? <==> Placeable(items)
    ensures PutAll(items).Some? ==> Laid(items, PutAll(items).value)
    decreases |items|
  {
    if items != [] {
      var n := |items| - 1;
      var front, last := items[..n], items[n];
      PutAllExactly(front);
      assert items == front + [last];
      PlaceableAppended(front, last);
      if PutAll(front).Some? {
        var before := PutAll(front).value;
        if last.isDirectory { FolderPut(front, before, last); } else { FilePut(front, before, last); }
      }
    }
  }

  // ----- the data -----

  function Total(chunks: seq<nat>): nat {
    if chunks == [] then 0 else Total(chunks[..|chunks| - 1]) + chunks[|chunks| - 1]
  }

  lemma {:induction false} TotalGrows(chunks: seq<nat>, n: nat)
    requires n <= |chunks|
    ensures Total(chunks[..n]) <= Total(chunks)
    decreases |chunks|
  {
    if n == |chunks| {
      assert chunks[..n] == chunks;
    } else {
      assert chunks[..|chunks| - 1][..n] == chunks[..n];
      TotalGrows(chunks[..|chunks| - 1], n);
    }
  }

  /** Copies a member's data, never more than its header promised. */
  method CopyLimited(chunks: seq<nat>, expected: int) returns (written: nat, ok: bool)
    ensures written <= AtLeast0(expected) && written <= MAX_UNCOMPRESSED
    ensures ok <==> Total(chunks) == expected && expected <= MAX_UNCOMPRESSED
    ensures ok ==> written == expected
  {
    written := 0;
    for i := 0 to |chunks|
      invariant written == Total(chunks[..i])
      invariant written <= AtLeast0(expected) && written <= MAX_UNCOMPRESSED
    {
      var copied := written + chunks[i];
      assert chunks[..i + 1][..i] == chunks[..i];
      if copied > expected || copied > MAX_UNCOMPRESSED {
        TotalGrows(chunks, i + 1);
        return written, false;
      }
      written := copied;
    }
    assert chunks[..|chunks|] == chunks;
    return written, written == expected;
  }


  predicate Sized(m: Member, chunks: seq<nat>) {
    m.isDirectory || (Total(chunks) == m.size && m.size <= MAX_UNCOMPRESSED)
  }

  predicate AllSized(members: seq<Member>, data: seq<seq<nat>>)
    requires |data| == |members|
  {
    forall i :: 0 <= i < |members| ==> Sized(members[i], data[i])
  }

  /** The names a file system compares instead of the given ones. */
  function Each(at: string -> string, parts: seq<string>): (r: seq<string>)
    ensures |r| == |parts| && forall i :: 0 <= i < |parts| ==> r[i] == at(parts[i])
  {
    seq(|parts|, i requires 0 <= i < |parts| => at(parts[i]))
  }

  function ItemOf(at: string -> string, m: Member): Item
    requires m.parts != []
  {
    Item(Each(at, m.parts), m.isDirectory)
  }

  predicate HavePaths(members: seq<Member>) {
    forall i :: 0 <= i < |members| ==> members[i].parts != []
  }

  function ItemsOf(at: string -> string, members: seq<Member>): (r: seq<Item>)
    requires HavePaths(members)
    ensures |r| == |members| && forall i :: 0 <= i < |members| ==> r[i] == ItemOf(at, members[i])
  {
    seq(|members|, i requires 0 <= i < |members| => ItemOf(at, members[i]))
  }

  function Promised(members: seq<Member>): nat {
    if members == [] then 0 else Promised(members[..|members| - 1]) + AtLeast0(members[|members| - 1].size)
  }

  lemma {:induction false} PromisedGrows(members: seq<Member>, n: nat)
    requires n <= |members|
    ensures Promised(members[..n]) <= Promised(members)
    decreases |members|
  {
    if n == |members| {
      assert members[..n] == members;
    } else {
      assert members[..|members| - 1][..n] == members[..n];
      PromisedGrows(members[..|members| - 1], n);
    }
  }

  lemma {:induction false} NothingLater(items: seq<Item>, n: nat)
    requires n <= |items| && PutAll(items[..n]) == None
    ensures PutAll(items) == None
    decreases |items|
  {
    if n == |items| {
      assert items[..n] == items;
    } else {
      assert items[..|items| - 1][..n] == items[..n];
      NothingLater(items[..|items| - 1], n);
    }
  }

  lemma PutNext(items: seq<Item>, i: nat, fs: Files)
    requires i < |items| && PutAll(items[..i]) == Some(fs)
    ensures PutAll(items[..i + 1]) == Put(fs, items[i], i)
    ensures Put(fs, items[i], i) == None ==> PutAll(items) == None
  {
    assert items[..i + 1][..i] == items[..i];
    if Put(fs, items[i], i) == None { NothingLater(items, i + 1); }
  }

  /** The first i members are in place with their data, and no more was written than they promised. */
  ghost predicate Underway(items: seq<Item>, members: seq<Member>, data: seq<seq<nat>>, i: nat, fs: Files,
                           written: nat)
  {
    && i <= |members| && |items| == |data| == |members|
    && PutAll(items[..i]) == Some(fs) && written <= Promised(members[..i])
    && forall k :: 0 <= k < i ==> Sized(members[k], data[k])
  }

  lemma UnderwayNext(items: seq<Item>, members: seq<Member>, data: seq<seq<nat>>, i: nat, fs: Files, written: nat,
                     copied: nat)
    requires Underway(items, members, data, i, fs, written) && i < |members| && copied <= AtLeast0(members[i].size)
    ensures written + copied <= Promised(members)
    ensures Put(fs, items[i], i) == None ==> PutAll(items) == None
    ensures Put(fs, items[i], i).Some? && Sized(members[i], data[i]) ==>
              Underway(items, members, data, i + 1, Put(fs, items[i], i).value, written + copied)
  {
    PutNext(items, i, fs);
    PromisedGrows(members, i + 1);
    assert members[..i + 1][..i] == members[..i];
  }

  lemma UnderwayAll(items: seq<Item>, members: seq<Member>, data: seq<seq<nat>>, fs: Files, written: nat)
    requires Underway(items, members, data, |members|, fs, written)
    ensures Placeable(items) && AllSized(members, data) && Laid(items, fs) && written <= Promised(members)
  {
    PutAllExactly(items);
    assert items[..|members|] == items && members[..|members|] == members;
  }

  /** Puts every member in place and copies its data, and gives up at the first that fails. */
  method ExtractAll(at: string -> string, members: seq<Member>, data: seq<seq<nat>>)
    returns (tree: Option<Files>, written: nat)
    requires |data| == |members| && HavePaths(members)
    ensures tree.Some? <==> Placeable(ItemsOf(at, members)) && AllSized(members, data)
    ensures tree.Some? ==> Laid(ItemsOf(at, members), tree.value)
    ensures written <= Promised(members)
  {
    ghost var items := ItemsOf(at, members);
    var fs: Files := map[];
    written := 0;
    for i := 0 to |members|
      invariant Underway(items, members, data, i, fs, written)
    {
      var m := members[i];
      var placed := Put(fs, ItemOf(at, m), i);
      UnderwayNext(items, members, data, i, fs, written, 0);
      if placed == None {
        PutAllExactly(items);
        return None, written;
      }
      var copied, ok := 0, true;
      if !m.isDirectory { copied, ok := CopyLimited(data[i], m.size); }
      UnderwayNext(items, members, data, i, fs, written, copied);
      fs, written := placed.value, written + copied;
      if !ok {
        assert !Sized(members[i], data[i]);
        return None, written;
      }
    }
    UnderwayAll(items, members, data, fs, written);
    return Some(fs), written;
  }

  // ----- what the checks of the headers are worth -----

  /** Two names the file system cannot tell apart have one collision key. */
  ghost predicate Finer(at: string -> string, n: Naming) {
    forall a, b :: at(a) == at(b) ==> Folded(n, a) == Folded(n, b)
  }

  lemma SamePlaceSameKey(at: string -> string, n: Naming, a: seq<string>, b: seq<string>)
    requires Finer(at, n) && a != [] && b != [] && Each(at, a) == Each(at, b)
    ensures CollisionKey(n, a) == CollisionKey(n, b)
  {
    assert |Each(at, a)| == |a| && |Each(at, b)| == |b|;
    forall i | 0 <= i < |a| ensures FoldedAll(n, a)[i] == FoldedAll(n, b)[i] {
      assert Each(at, a)[i] == at(a[i]) && Each(at, b)[i] == at(b[i]);
    }
    assert FoldedAll(n, a) == FoldedAll(n, b);
  }

  lemma KeyOfPrefix(n: Naming, parts: seq<string>, k: nat)
    requires 0 < k < |parts|
    ensures CollisionKey(n, parts[..k]) != CollisionKey(n, parts)
    ensures AtOrAbove(CollisionKey(n, parts[..k]), CollisionKey(n, parts))
  {
    var front, back := FoldedAll(n, parts[..k]), FoldedAll(n, parts[k..]);
    assert FoldedAll(n, parts) == front + back;
    SplitJoinConcat(front, back);
  }

  lemma AbovePlaceAboveKey(at: string -> string, n: Naming, a: seq<string>, b: seq<string>)
    requires Finer(at, n) && a != [] && b != [] && AtOrAbove(Each(at, a), Each(at, b))
    ensures AtOrAbove(CollisionKey(n, a), CollisionKey(n, b))
  {
    var front := b[..|a|];
    assert Each(at, front) == Each(at, b)[..|a|];
    SamePlaceSameKey(at, n, a, front);
    if |a| < |b| { KeyOfPrefix(n, b, |a|); } else { assert front == b; }
  }

  lemma ObstructIsClash(at: string -> string, n: Naming, a: Entry, b: Entry, archive: Option<nat>)
    requires Finer(at, n) && HeaderOf(n, a, archive).safe && HeaderOf(n, b, archive).safe
    requires MemberOf(n, a, archive).parts != [] && MemberOf(n, b, archive).parts != []
    requires Obstruct(ItemOf(at, MemberOf(n, a, archive)), ItemOf(at, MemberOf(n, b, archive)))
    ensures Clash(HeaderOf(n, a, archive), HeaderOf(n, b, archive))
  {
    var x, y := MemberOf(n, a, archive).parts, MemberOf(n, b, archive).parts;
    if AtOrAbove(Each(at, x), Each(at, y)) { AbovePlaceAboveKey(at, n, x, y); }
    if AtOrAbove(Each(at, y), Each(at, x)) { AbovePlaceAboveKey(at, n, y, x); }
  }

  lemma SafeHasPath(n: Naming, e: Entry, archive: Option<nat>)
    requires HeaderOf(n, e, archive).safe
    ensures MemberOf(n, e, archive).parts != []
  {}

  lemma SafeHavePaths(n: Naming, entries: seq<Entry>, archive: Option<nat>)
    requires AllSafe(HeadersOf(n, entries, archive))
    ensures HavePaths(MembersOf(n, entries, archive))
  {
    forall i | 0 <= i < |entries| ensures MembersOf(n, entries, archive)[i].parts != [] {
      assert HeadersOf(n, entries, archive)[i].safe;
      SafeHasPath(n, entries[i], archive);
    }
  }

  /** Cleared members never obstruct each other, on any file system that tells apart at least what the
      collision keys tell apart: one that compares names as they are, or one that folds case. */
  lemma ClearedIsPlaceable(at: string -> string, n: Naming, entries: seq<Entry>, archive: Option<nat>)
    requires Finer(at, n) && Cleared(HeadersOf(n, entries, archive), archive)
    ensures HavePaths(MembersOf(n, entries, archive)) && Placeable(ItemsOf(at, MembersOf(n, entries, archive)))
  {
    SafeHavePaths(n, entries, archive);
    var headers, items := HeadersOf(n, entries, archive), ItemsOf(at, MembersOf(n, entries, archive));
    forall i, j | 0 <= i < j < |items| ensures !Obstruct(items[i], items[j]) {
      assert !Clash(headers[i], headers[j]) && headers[i].safe && headers[j].safe;
      if Obstruct(items[i], items[j]) { ObstructIsClash(at, n, entries[i], entries[j], archive); }
    }
  }

  /** Folding a component gives one component. */
  ghost predicate FoldsComponents(n: Naming) {
    forall s :: '/' !in s ==> '/' !in Folded(n, s)
  }

  /** The file system that tells apart exactly what the collision keys tell apart. */
  function Coarsest(n: Naming): string -> string {
    part => Folded(n, part)
  }

  lemma KeyIsPlace(n: Naming, raw: string)
    requires FoldsComponents(n) && SafePath(n, raw).Safe?
    ensures CollisionKey(n, SafePath(n, raw).parts) == Each(Coarsest(n), SafePath(n, raw).parts)
  {
    NamedAreGood(n, raw);
    var parts := SafePath(n, raw).parts;
    forall i | 0 <= i < |parts| ensures '/' !in FoldedAll(n, parts)[i] { assert GoodName(n, parts[i]); }
    SplitJoin(FoldedAll(n, parts));
    assert FoldedAll(n, parts) == Each(Coarsest(n), parts);
  }

  ghost predicate SameFolder(a: Header, b: Header) {
    a.key == b.key && a.isDirectory && b.isDirectory
  }

  lemma ClashExactly(n: Naming, a: Entry, b: Entry, archive: Option<nat>)
    requires FoldsComponents(n) && HeaderOf(n, a, archive).safe && HeaderOf(n, b, archive).safe
    requires MemberOf(n, a, archive).parts != [] && MemberOf(n, b, archive).parts != []
    ensures var x, y := HeaderOf(n, a, archive), HeaderOf(n, b, archive);
            Clash(x, y) <==> SameFolder(x, y) || Obstruct(ItemOf(Coarsest(n), MemberOf(n, a, archive)),
                                                          ItemOf(Coarsest(n), MemberOf(n, b, archive)))
  {
    KeyIsPlace(n, a.name);
    KeyIsPlace(n, b.name);
  }

  /** On that file system the tree test refuses exactly what could not be extracted, and folders that
      are named twice. */
  lemma TreeExactly(n: Naming, entries: seq<Entry>, archive: Option<nat>)
    requires FoldsComponents(n) && AllSafe(HeadersOf(n, entries, archive))
    ensures HavePaths(MembersOf(n, entries, archive))
    ensures var headers := HeadersOf(n, entries, archive);
            IsTree(headers) <==>
              && PutAll(ItemsOf(Coarsest(n), MembersOf(n, entries, archive))).Some?
              && forall i, j :: 0 <= i < j < |headers| ==> !SameFolder(headers[i], headers[j])
  {
    SafeHavePaths(n, entries, archive);
    var headers, items := HeadersOf(n, entries, archive), ItemsOf(Coarsest(n), MembersOf(n, entries, archive));
    PutAllExactly(items);
    forall i, j | 0 <= i < j < |headers|
      ensures Clash(headers[i], headers[j]) <==> SameFolder(headers[i], headers[j]) || Obstruct(items[i], items[j])
    {
      assert headers[i].safe && headers[j].safe;
      SafeHasPath(n, entries[i], archive);
      SafeHasPath(n, entries[j], archive);
      ClashExactly(n, entries[i], entries[j], archive);
    }
  }

  lemma {:induction false} PromisedIsSizes(n: Naming, entries: seq<Entry>, archive: Option<nat>)
    ensures Promised(MembersOf(n, entries, archive)) == Sizes(HeadersOf(n, entries, archive))
    decreases |entries|
  {
    if entries != [] {
      var k := |entries| - 1;
      PromisedIsSizes(n, entries[..k], archive);
      assert MembersOf(n, entries, archive)[..k] == MembersOf(n, entries[..k], archive);
      assert HeadersOf(n, entries, archive)[..k] == HeadersOf(n, entries[..k], archive);
    }
  }

  /** The data has the promised sizes. */
  predicate Honest(entries: seq<Entry>, archive: Option<nat>, data: seq<seq<nat>>)
    requires |data| == |entries|
  {
    forall i :: 0 <= i < |entries| ==> IsFolder(entries[i], archive) || Total(data[i]) == entries[i].size
  }

  lemma {:induction false} SizeInSizes(headers: Headers, i: nat)
    requires i < |headers|
    ensures headers[i].size <= Sizes(headers)
    decreases |headers|
  {
    var n := |headers| - 1;
    if i < n { SizeInSizes(headers[..n], i); }
  }

  lemma HonestIsSized(n: Naming, entries: seq<Entry>, archive: Option<nat>, data: seq<seq<nat>>)
    requires |data| == |entries| && Within(HeadersOf(n, entries, archive), archive)
    ensures AllSized(MembersOf(n, entries, archive), data) <==> Honest(entries, archive, data)
  {
    var headers, members := HeadersOf(n, entries, archive), MembersOf(n, entries, archive);
    SizesSmall(headers, archive);
    forall i | 0 <= i < |entries|
      ensures Sized(members[i], data[i]) <==> IsFolder(entries[i], archive) || Total(data[i]) == entries[i].size
    {
      SizeInSizes(headers, i);
    }
  }

  /** The whole extraction: nothing is written unless every header is cleared; then, whatever the data
      is, at most a gigabyte is written; and on a file system no coarser than the collision keys it
      succeeds exactly for honest data, and leaves exactly the members and their folders. */
  method Unpack(n: Naming, at: string -> string, entries: seq<Entry>, archive: Option<nat>, data: seq<seq<nat>>)
    returns (tree: Option<Files>, written: nat, findings: seq<Finding>)
    requires |data| == |entries|
    ensures findings == [] <==> Cleared(HeadersOf(n, entries, archive), archive)
    ensures var headers := HeadersOf(n, entries, archive);
            Told(n, entries, headers, Within(headers, archive), findings)
    ensures findings != [] ==> tree == None && written == 0
    ensures written <= MAX_UNCOMPRESSED
    ensures Finer(at, n) && findings == [] ==> (tree.Some? <==> Honest(entries, archive, data))
    ensures tree.Some? ==>
              var members := MembersOf(n, entries, archive);
              HavePaths(members) && Laid(ItemsOf(at, members), tree.value)
  {
    var members;
    members, findings := Preflight.Preflight(n, entries, archive);
    if findings != [] { return None, 0, findings; }
    SafeHavePaths(n, entries, archive);
    PromisedIsSizes(n, entries, archive);
    SizesSmall(HeadersOf(n, entries, archive), archive);
    HonestIsSized(n, entries, archive, data);
    if Finer(at, n) { ClearedIsPlaceable(at, n, entries, archive); }
    tree, written := ExtractAll(at, members, data);
  }
}
