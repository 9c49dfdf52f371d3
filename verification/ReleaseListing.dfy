/** The public listing of a project's allowed releases: the project's mappings, filtered and sorted. */
module ReleaseListing {
  import opened History
  import opened Text
  import opened TextOrder
  import opened PersistedState
  import opened VerdictTables
  import opened VerdictInvariants
  import opened Gates

  // ----- the order -----

  /** Tuples of texts compare at the first place where they differ. */
  predicate TupleLess(a: seq<string>, b: seq<string>)
    requires |a| == |b|
  {
    a != [] && (TextLess(a[0], b[0]) || (a[0] == b[0] && TupleLess(a[1..], b[1..])))
  }

  /** The sort key; digests compare as their sixty-four digits. */
  function SortKey(r: Release): (k: seq<string>)
    ensures |k| == 5
  {
    [r.stage, r.version, r.filename, Numeral(r.sha256, 64, 16), r.originUrl]
  }

  predicate Before(a: Release, b: Release) {
    TupleLess(SortKey(a), SortKey(b))
  }

  /** By stage, then by version, file name, digest and origin. */
  lemma BeforeExactly(a: Release, b: Release)
    requires a.sha256 < Power(16, 64) && b.sha256 < Power(16, 64)
    ensures Before(a, b) <==>
              || TextLess(a.stage, b.stage)
              || (a.stage == b.stage && TextLess(a.version, b.version))
              || (a.stage == b.stage && a.version == b.version && TextLess(a.filename, b.filename))
              || (a.stage == b.stage && a.version == b.version && a.filename == b.filename && a.sha256 < b.sha256)
              || (a.stage == b.stage && a.version == b.version && a.filename == b.filename && a.sha256 == b.sha256
                  && TextLess(a.originUrl, b.originUrl))
  {
    DigestOrder(a.sha256, b.sha256);
    var x, y := SortKey(a), SortKey(b);
    assert x[1..][1..] == x[2..] && x[2..][1..] == x[3..] && x[3..][1..] == x[4..] && x[4..][1..] == [];
    assert y[1..][1..] == y[2..] && y[2..][1..] == y[3..] && y[3..][1..] == y[4..] && y[4..][1..] == [];
    assert TupleLess(x[4..], y[4..]) <==> TextLess(a.originUrl, b.originUrl);
    assert TupleLess(x[3..], y[3..]) <==>
             TextLess(Numeral(a.sha256, 64, 16), Numeral(b.sha256, 64, 16))
             || (Numeral(a.sha256, 64, 16) == Numeral(b.sha256, 64, 16) && TupleLess(x[4..], y[4..]));
    assert TupleLess(x[2..], y[2..]) <==>
             TextLess(a.filename, b.filename) || (a.filename == b.filename && TupleLess(x[3..], y[3..]));
    assert TupleLess(x[1..], y[1..]) <==>
             TextLess(a.version, b.version) || (a.version == b.version && TupleLess(x[2..], y[2..]));
  }

  lemma {:induction false} TupleTotal(a: seq<string>, b: seq<string>)
    requires |a| == |b|
    ensures a == b || TupleLess(a, b) || TupleLess(b, a)
    decreases |a|
  {
    if a != [] {
      TextTotal(a[0], b[0]);
      TupleTotal(a[1..], b[1..]);
      assert a == [a[0]] + a[1..] && b == [b[0]] + b[1..];
    }
  }

  lemma {:induction false} TupleTransitive(a: seq<string>, b: seq<string>, c: seq<string>)
    requires |a| == |b| == |c| && TupleLess(a, b) && TupleLess(b, c)
    ensures TupleLess(a, c)
    decreases |a|
  {
    if TextLess(a[0], b[0]) && TextLess(b[0], c[0]) {
      TextTransitive(a[0], b[0], c[0]);
    } else if a[0] == b[0] && b[0] == c[0] {
      TupleTransitive(a[1..], b[1..], c[1..]);
    }
  }

  lemma {:induction false} TupleIrreflexive(a: seq<string>)
    ensures !TupleLess(a, a)
    decreases |a|
  {
    if a != [] {
      Irreflexive(a[0]);
      TupleIrreflexive(a[1..]);
    }
  }

  /** Not after: what a sorted list promises of two neighbours. */
  lemma NotAfterTransitive(a: Release, b: Release, c: Release)
    requires !Before(b, a) && !Before(c, b)
    ensures !Before(c, a)
  {
    var x, y, z := SortKey(a), SortKey(b), SortKey(c);
    if TupleLess(z, x) {
      TupleTotal(x, y);
      TupleTotal(y, z);
      if TupleLess(x, y) && TupleLess(y, z) {
        TupleTransitive(x, y, z);
        TupleTransitive(x, z, x);
        TupleIrreflexive(x);
      }
    }
  }

  predicate Sorted(s: seq<Release>) {
    forall i, j :: 0 <= i < j < |s| ==> !Before(s[j], s[i])
  }

  // ----- sorting -----

  lemma Inserted(front: seq<Release>, back: seq<Release>, r: Release)
    requires Sorted(front + back)
    requires front == [] || !Before(r, front[|front| - 1])
    requires back == [] || Before(r, back[0])
    ensures Sorted(front + [r] + back)
  {
    var all, s := front + back, front + [r] + back;
    forall i | 0 <= i < |front| ensures !Before(r, front[i]) {
      if i < |front| - 1 {
        assert all[i] == front[i] && all[|front| - 1] == front[|front| - 1];
        NotAfterTransitive(front[i], front[|front| - 1], r);
      }
    }
    forall j | 0 <= j < |back| ensures !Before(back[j], r) {
      Ahead(r, back[0]);
      if j > 0 {
        assert all[|front|] == back[0] && all[|front| + j] == back[j];
        NotAfterTransitive(r, back[0], back[j]);
      }
    }
    Spread(front, back, r);
  }

  lemma Ahead(a: Release, b: Release)
    requires Before(a, b)
    ensures !Before(b, a)
  {
    if Before(b, a) {
      TupleTransitive(SortKey(a), SortKey(b), SortKey(a));
      TupleIrreflexive(SortKey(a));
    }
  }

  lemma Spread(front: seq<Release>, back: seq<Release>, r: Release)
    requires Sorted(front + back)
    requires forall i :: 0 <= i < |front| ==> !Before(r, front[i])
    requires forall j :: 0 <= j < |back| ==> !Before(back[j], r)
    ensures Sorted(front + [r] + back)
  {
    var all, s, n := front + back, front + [r] + back, |front|;
    forall i, j | 0 <= i < j < |s| ensures !Before(s[j], s[i]) {
      assert s[i] == if i < n then front[i] else if i == n then r else back[i - n - 1];
      assert s[j] == if j < n then front[j] else if j == n then r else back[j - n - 1];
      if i != n && j != n {
        assert s[i] == all[if i < n then i else i - 1] && s[j] == all[if j < n then j else j - 1];
      }
    }
  }

  lemma InsertedBag(s: seq<Release>, n: nat, r: Release)
    requires n <= |s|
    ensures s[..n] + s[n..] == s && multiset(s[..n] + [r] + s[n..]) == multiset(s) + multiset{r}
  {
    assert s == s[..n] + s[n..];
    assert multiset(s) == multiset(s[..n]) + multiset(s[n..]);
  }

  lemma InsertedAt(s: seq<Release>, n: nat, r: Release)
    requires Sorted(s) && n <= |s|
    requires n > 0 ==> !Before(r, s[n - 1])
    requires n < |s| ==> Before(r, s[n])
    ensures Sorted(s[..n] + [r] + s[n..])
  {
    InsertedBag(s, n, r);
    Inserted(s[..n], s[n..], r);
  }

  method Insert(s: seq<Release>, r: Release) returns (t: seq<Release>)
    requires Sorted(s)
    ensures Sorted(t) && multiset(t) == multiset(s) + multiset{r}
  {
    var n := |s|;
    while n > 0 && Before(r, s[n - 1])
      invariant 0 <= n <= |s|
      invariant n < |s| ==> Before(r, s[n])
    {
      n := n - 1;
    }
    InsertedAt(s, n, r);
    InsertedBag(s, n, r);
    t := s[..n] + [r] + s[n..];
  }

  method Sort(s: seq<Release>) returns (t: seq<Release>)
    ensures Sorted(t) && multiset(t) == multiset(s)
  {
    t := [];
    for i := 0 to |s|
      invariant Sorted(t) && multiset(t) == multiset(s[..i])
    {
      assert s[..i + 1] == s[..i] + [s[i]];
      t := Insert(t, s[i]);
    }
    assert s[..|s|] == s;
  }

  /** What is sorted is determined by its elements when no two of them have the same key. */
  ghost predicate KeysDistinct(s: seq<Release>) {
    forall i, j :: 0 <= i < j < |s| ==> SortKey(s[i]) != SortKey(s[j])
  }

  lemma FirstIsLeast(s: seq<Release>, r: Release)
    requires Sorted(s) && r in s
    ensures s != [] && !Before(r, s[0])
  {
    var i :| 0 <= i < |s| && s[i] == r;
    if i == 0 { TupleIrreflexive(SortKey(r)); }
  }

  lemma {:induction false} SortedUnique(a: seq<Release>, b: seq<Release>)
    requires Sorted(a) && Sorted(b) && multiset(a) == multiset(b) && KeysDistinct(a)
    ensures a == b
    decreases |a|
  {
    if a == [] {
      assert |multiset(b)| == 0;
    } else {
      assert a[0] in multiset(b);
      FirstIsLeast(b, a[0]);
      assert b[0] in multiset(a);
      FirstIsLeast(a, b[0]);
      TupleTotal(SortKey(a[0]), SortKey(b[0]));
      var i :| 0 <= i < |a| && a[i] == b[0];
      assert i == 0;
      RestOf(a, b);
      SortedUnique(a[1..], b[1..]);
      assert a == [a[0]] + a[1..] && b == [b[0]] + b[1..];
    }
  }

  lemma RestOf(a: seq<Release>, b: seq<Release>)
    requires a != [] && b != [] && a[0] == b[0] && multiset(a) == multiset(b)
    ensures multiset(a[1..]) == multiset(b[1..])
  {
    assert a == [a[0]] + a[1..] && b == [b[0]] + b[1..];
    assert multiset(a) == multiset{a[0]} + multiset(a[1..]);
    assert multiset(b) == multiset{b[0]} + multiset(b[1..]);
    assert multiset(a[1..]) == multiset(a) - multiset{a[0]};
    assert multiset(b[1..]) == multiset(b) - multiset{b[0]};
  }

  // ----- the listing -----

  /** WHERE project = ?, in the order of the ids. */
  function OfProject(releases: seq<Release>, project: string): seq<Release> {
    if releases == [] then []
    else
      var n := |releases| - 1;
      OfProject(releases[..n], project) + if releases[n].project == project then [releases[n]] else []
  }

  lemma {:induction false} OfProjectExactly(releases: seq<Release>, project: string, r: Release)
    ensures r in OfProject(releases, project) <==> r in releases && r.project == project
    decreases |releases|
  {
    if releases != [] {
      var n := |releases| - 1;
      OfProjectExactly(releases[..n], project, r);
      assert releases == releases[..n] + [releases[n]];
    }
  }

  lemma {:induction false} ListingExactly(rows: Decisions, marks: Marks, mapped: seq<Release>, r: Release)
    ensures r in Listing(rows, marks, mapped) <==> r in mapped && Listed(rows, marks, r)
    decreases |mapped|
  {
    if mapped != [] {
      var n := |mapped| - 1;
      ListingExactly(rows, marks, mapped[..n], r);
      assert mapped == mapped[..n] + [mapped[n]];
    }
  }

  /** A listing of the releases of a project that are allowed, sorted, each as often as it is mapped;
      nothing when one of its mappings is corrupt. */
  ghost predicate IsListing(rows: Decisions, marks: Marks, releases: seq<Release>, project: string,
                            r: Option<seq<Release>>)
  {
    && (r.Some? <==> AllListable(rows, marks, OfProject(releases, project)))
    && (r.Some? ==>
          Sorted(r.value) && multiset(r.value) == multiset(Listing(rows, marks, OfProject(releases, project))))
  }

  method AllowedReleases(rows: Decisions, marks: Marks, releases: seq<Release>, project: string)
    returns (r: Option<seq<Release>>)
    ensures IsListing(rows, marks, releases, project, r)
    ensures r.Some? ==> forall x :: x in r.value <==> x in releases && x.project == project && Listed(rows, marks, x)
  {
    var mapped := OfProject(releases, project);
    r := ListAllowedReleases(rows, marks, mapped);
    if r == None { return; }
    var sorted := Sort(r.value);
    forall x ensures x in sorted <==> x in releases && x.project == project && Listed(rows, marks, x) {
      assert x in sorted <==> x in multiset(sorted);
      ListingExactly(rows, marks, mapped, x);
      OfProjectExactly(releases, project, x);
    }
    return Some(sorted);
  }

  // ----- the order of discovery -----

  lemma {:induction false} CountOfProject(releases: seq<Release>, project: string, r: Release)
    ensures multiset(OfProject(releases, project))[r] == if r.project == project then multiset(releases)[r] else 0
    decreases |releases|
  {
    if releases != [] {
      var n := |releases| - 1;
      CountOfProject(releases[..n], project, r);
      assert releases == releases[..n] + [releases[n]];
    }
  }

  lemma {:induction false} CountListed(rows: Decisions, marks: Marks, mapped: seq<Release>, r: Release)
    ensures multiset(Listing(rows, marks, mapped))[r] == if Listed(rows, marks, r) then multiset(mapped)[r] else 0
    decreases |mapped|
  {
    if mapped != [] {
      var n := |mapped| - 1;
      CountListed(rows, marks, mapped[..n], r);
      assert mapped == mapped[..n] + [mapped[n]];
    }
  }

  lemma SameListed(rows: Decisions, marks: Marks, a: seq<Release>, b: seq<Release>, project: string)
    requires multiset(a) == multiset(b)
    ensures multiset(Listing(rows, marks, OfProject(a, project)))
         == multiset(Listing(rows, marks, OfProject(b, project)))
  {
    var x, y := Listing(rows, marks, OfProject(a, project)), Listing(rows, marks, OfProject(b, project));
    forall r ensures multiset(x)[r] == multiset(y)[r] {
      CountListed(rows, marks, OfProject(a, project), r);
      CountListed(rows, marks, OfProject(b, project), r);
      CountOfProject(a, project, r);
      CountOfProject(b, project, r);
    }
  }

  lemma ListableElsewhere(rows: Decisions, marks: Marks, a: seq<Release>, b: seq<Release>, project: string)
    requires multiset(a) == multiset(b) && AllListable(rows, marks, OfProject(a, project))
    ensures AllListable(rows, marks, OfProject(b, project))
  {
    var x, y := OfProject(a, project), OfProject(b, project);
    forall k | 0 <= k < |y| ensures Listable(rows, marks, y[k]) {
      OfProjectExactly(b, project, y[k]);
      assert y[k] in multiset(a);
      OfProjectExactly(a, project, y[k]);
    }
  }

  /** Digests have sixty-four hexadecimal digits. */
  ghost predicate DigestsFit(releases: seq<Release>) {
    forall i :: 0 <= i < |releases| ==> releases[i].sha256 < Power(16, 64)
  }

  lemma {:induction false} MappedOnce(releases: seq<Release>, r: Release)
    requires DistinctReleases(releases)
    ensures multiset(releases)[r] <= 1
    decreases |releases|
  {
    if releases != [] {
      var n := |releases| - 1;
      MappedOnce(releases[..n], r);
      assert releases == releases[..n] + [releases[n]];
      assert SameRelease(r, r);
    }
  }

  lemma SameKeySameRelease(releases: seq<Release>, r: Release, q: Release)
    requires DistinctReleases(releases) && DigestsFit(releases) && r in releases && q in releases
    requires r.project == q.project && SortKey(r) == SortKey(q)
    ensures r == q
  {
    assert SortKey(r)[0] == SortKey(q)[0] && SortKey(r)[1] == SortKey(q)[1] && SortKey(r)[2] == SortKey(q)[2];
    assert SortKey(r)[3] == SortKey(q)[3];
    DigestOrder(r.sha256, q.sha256);
    var i :| 0 <= i < |releases| && releases[i] == r;
    var j :| 0 <= j < |releases| && releases[j] == q;
    assert SameRelease(releases[i], releases[j]) && SameRelease(releases[j], releases[i]);
  }

  /** In a sound store no two listed releases of a project have the same key. */
  lemma ListedKeysDistinct(rows: Decisions, marks: Marks, releases: seq<Release>, project: string, x: seq<Release>)
    requires DistinctReleases(releases) && DigestsFit(releases)
    requires multiset(x) == multiset(Listing(rows, marks, OfProject(releases, project)))
    ensures KeysDistinct(x)
  {
    var mapped := OfProject(releases, project);
    forall i, j | 0 <= i < j < |x| ensures SortKey(x[i]) != SortKey(x[j]) {
      ListedIsMapped(rows, marks, releases, project, x, i);
      ListedIsMapped(rows, marks, releases, project, x, j);
      if SortKey(x[i]) == SortKey(x[j]) {
        SameKeySameRelease(releases, x[i], x[j]);
        Twice(x, i, j);
        CountListed(rows, marks, mapped, x[i]);
        CountOfProject(releases, project, x[i]);
        MappedOnce(releases, x[i]);
        assert false;
      }
    }
  }

  lemma ListedIsMapped(rows: Decisions, marks: Marks, releases: seq<Release>, project: string, x: seq<Release>, i: nat)
    requires multiset(x) == multiset(Listing(rows, marks, OfProject(releases, project))) && i < |x|
    ensures x[i] in releases && x[i].project == project
  {
    assert x[i] in multiset(x);
    ListingExactly(rows, marks, OfProject(releases, project), x[i]);
    OfProjectExactly(releases, project, x[i]);
  }

  lemma Twice(x: seq<Release>, i: nat, j: nat)
    requires i < j < |x| && x[i] == x[j]
    ensures multiset(x)[x[i]] >= 2
  {
    assert x == x[..j] + [x[j]] + x[j + 1..] && x[..j][i] == x[j];
    assert x[j] in multiset(x[..j]);
  }

  /** Whatever the order in which the mappings of a sound store were discovered, a project has one
      listing. */
  lemma DiscoveryOrderHidden(db: Db, releases: seq<Release>, rows: Decisions, marks: Marks, project: string,
                             x: Option<seq<Release>>, y: Option<seq<Release>>)
    requires Inv(db) && DigestsFit(db.releases) && multiset(releases) == multiset(db.releases)
    requires IsListing(rows, marks, db.releases, project, x) && IsListing(rows, marks, releases, project, y)
    ensures x == y
  {
    if x.Some? { ListableElsewhere(rows, marks, db.releases, releases, project); }
    if y.Some? { ListableElsewhere(rows, marks, releases, db.releases, project); }
    if x.Some? {
      SameListed(rows, marks, db.releases, releases, project);
      ListedKeysDistinct(rows, marks, db.releases, project, x.value);
      SortedUnique(x.value, y.value);
    }
  }
}
