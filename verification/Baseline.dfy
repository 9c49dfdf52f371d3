/** Choosing the earlier release a new artifact is compared with. */
module Baseline {
  import opened History
  import TextOrder

  datatype Kind = Wheel | SourceDist | UnknownKind

  datatype Tier = SameTag | UniversalWheel | Sdist

  datatype Tag = Tag(text: string, universal: bool)

  datatype Release = Release(project: string, version: string, filename: string, sha256: Digest, size: nat)

  /** What names mean: file kinds, wheel tags, normalised project names (PEP 503, Normalized Names)
      and versions by their rank in the PEP 440 order, None when they do not parse. */
  datatype Naming = Naming(
    kind: string -> Kind,
    tag: string -> Option<Tag>,
    project: string -> string,
    version: string -> Option<int>)

  function TierChain(n: Naming, target: Release): seq<Tier> {
    match n.kind(target.filename)
    case SourceDist => [Sdist]
    case UnknownKind => []
    case Wheel => if n.tag(target.filename) == None then [UniversalWheel, Sdist] else [SameTag, UniversalWheel, Sdist]
  }

  /** A wheel whose tag cannot be read belongs to no tier. */
  predicate MatchesTier(n: Naming, tier: Tier, target: Release, candidate: Release) {
    match tier
    case Sdist => n.kind(candidate.filename) == SourceDist
    case UniversalWheel => n.kind(candidate.filename) == Wheel && n.tag(candidate.filename).Some?
                           && n.tag(candidate.filename).value.universal
    case SameTag => n.kind(candidate.filename) == Wheel && n.tag(candidate.filename).Some?
                    && n.tag(target.filename).Some?
                    && n.tag(candidate.filename).value.text == n.tag(target.filename).value.text
  }

  /** Another artifact of the same project that is strictly older. */
  predicate Eligible(n: Naming, target: Release, candidate: Release) {
    var older, newer := n.version(candidate.version), n.version(target.version);
    && n.project(candidate.project) == n.project(target.project)
    && candidate.sha256 != target.sha256
    && older.Some? && newer.Some? && older.value < newer.value
  }

  predicate Before(a: Release, b: Release) {
    TextOrder.TextLess(a.filename, b.filename) || (a.filename == b.filename && a.sha256 < b.sha256)
  }

  datatype Selection = Selection(release: Release, tier: Tier, version: int)

  predicate Matching(n: Naming, target: Release, tier: Tier, r: Release) {
    Eligible(n, target, r) && MatchesTier(n, tier, target, r)
  }

  /** The best of a tier: of the newest matching version, a file with the least name and digest. */
  predicate BestInTier(n: Naming, target: Release, releases: seq<Release>, tier: Tier, s: Selection) {
    && s.tier == tier && s.release in releases && Matching(n, target, tier, s.release)
    && n.version(s.release.version) == Some(s.version)
    && forall r :: r in releases && Matching(n, target, tier, r) ==>
         && n.version(r.version).value <= s.version
         && (n.version(r.version).value == s.version ==> !Before(r, s.release))
  }

  predicate EmptyTier(n: Naming, target: Release, releases: seq<Release>, tier: Tier) {
    forall r :: r in releases ==> !Matching(n, target, tier, r)
  }

  /** The best of the first tier of the chain that has any candidate. */
  ghost predicate Selects(n: Naming, target: Release, releases: seq<Release>, s: Option<Selection>) {
    var chain := TierChain(n, target);
    match s
    case None => forall k :: 0 <= k < |chain| ==> EmptyTier(n, target, releases, chain[k])
    case Some(best) =>
      exists k :: 0 <= k < |chain| && BestInTier(n, target, releases, chain[k], best)
                  && forall j :: 0 <= j < k ==> EmptyTier(n, target, releases, chain[j])
  }

  method EligibleCandidates(n: Naming, target: Release, releases: seq<Release>) returns (eligible: seq<Release>)
    ensures forall r :: r in eligible <==> r in releases && Eligible(n, target, r)
  {
    eligible := [];
    if n.version(target.version) == None { return; }
    for i := 0 to |releases|
      invariant forall r :: r in eligible <==> r in releases[..i] && Eligible(n, target, r)
    {
      assert releases[..i + 1] == releases[..i] + [releases[i]];
      if Eligible(n, target, releases[i]) { eligible := eligible + [releases[i]]; }
    }
    assert releases[..|releases|] == releases;
  }

  lemma BeforeTransitive(a: Release, b: Release, c: Release)
    requires !Before(a, b) && Before(c, b)
    ensures !Before(a, c)
  {
    if Before(a, c) {
      if TextOrder.TextLess(a.filename, c.filename) && TextOrder.TextLess(c.filename, b.filename) {
        TextOrder.TextTransitive(a.filename, c.filename, b.filename);
      }
      assert false;
    }
  }

  method PickBest(n: Naming, target: Release, candidates: seq<Release>, tier: Tier) returns (best: Option<Selection>)
    requires forall r :: r in candidates ==> Eligible(n, target, r)
    ensures best == None ==> EmptyTier(n, target, candidates, tier)
    ensures best.Some? ==> BestInTier(n, target, candidates, tier, best.value)
  {
    best := None;
    for i := 0 to |candidates|
      invariant best == None ==> EmptyTier(n, target, candidates[..i], tier)
      invariant best.Some? ==> BestInTier(n, target, candidates[..i], tier, best.value)
    {
      var r := candidates[i];
      assert r in candidates && candidates[..i + 1] == candidates[..i] + [r];
      if MatchesTier(n, tier, target, r) {
        var version := n.version(r.version).value;
        if best == None || version > best.value.version {
          TextOrder.Irreflexive(r.filename);
          best := Some(Selection(r, tier, version));
        } else if version == best.value.version && Before(r, best.value.release) {
          forall q | q in candidates[..i] && Matching(n, target, tier, q) && n.version(q.version).value == version
            ensures !Before(q, r)
          {
            BeforeTransitive(q, best.value.release, r);
          }
          TextOrder.Irreflexive(r.filename);
          best := Some(Selection(r, tier, version));
        }
      }
    }
    assert candidates[..|candidates|] == candidates;
  }

  lemma SameTier(n: Naming, target: Release, candidates: seq<Release>, releases: seq<Release>, tier: Tier)
    requires forall r :: r in candidates <==> r in releases && Eligible(n, target, r)
    ensures EmptyTier(n, target, candidates, tier) <==> EmptyTier(n, target, releases, tier)
    ensures forall s :: BestInTier(n, target, candidates, tier, s) <==> BestInTier(n, target, releases, tier, s)
  {
    forall s ensures BestInTier(n, target, candidates, tier, s) <==> BestInTier(n, target, releases, tier, s) {}
  }

  method SelectBaseline(n: Naming, target: Release, releases: seq<Release>) returns (s: Option<Selection>)
    ensures Selects(n, target, releases, s)
  {
    var chain := TierChain(n, target);
    if chain == [] { return None; }
    var candidates := EligibleCandidates(n, target, releases);
    var k := 0;
    while k < |chain|
      invariant 0 <= k <= |chain|
      invariant forall j :: 0 <= j < k ==> EmptyTier(n, target, releases, chain[j])
    {
      SameTier(n, target, candidates, releases, chain[k]);
      s := PickBest(n, target, candidates, chain[k]);
      if s.Some? { return; }
      k := k + 1;
    }
    return None;
  }

  // ----- laws -----

  lemma SameReleases(n: Naming, target: Release, a: seq<Release>, b: seq<Release>, tier: Tier)
    requires forall r :: r in a <==> r in b
    ensures EmptyTier(n, target, a, tier) <==> EmptyTier(n, target, b, tier)
    ensures forall s :: BestInTier(n, target, a, tier, s) ==> BestInTier(n, target, b, tier, s)
  {}

  lemma BestAgree(n: Naming, target: Release, releases: seq<Release>, tier: Tier, s: Selection, t: Selection)
    requires BestInTier(n, target, releases, tier, s) && BestInTier(n, target, releases, tier, t)
    ensures s.release.sha256 == t.release.sha256 && s.tier == t.tier && s.version == t.version
    ensures s.release.filename == t.release.filename
  {
    TextOrder.TextTotal(s.release.filename, t.release.filename);
  }

  /** The chosen digest, tier and version do not depend on the order or repetition of the releases;
      only the spelling of a release listed twice can. */
  lemma OrderIrrelevant(n: Naming, target: Release, a: seq<Release>, b: seq<Release>, s: Option<Selection>,
                        t: Option<Selection>)
    requires (forall r :: r in a <==> r in b) && Selects(n, target, a, s) && Selects(n, target, b, t)
    ensures s.Some? == t.Some?
    ensures s.Some? ==> s.value.release.sha256 == t.value.release.sha256 && s.value.tier == t.value.tier
                        && s.value.version == t.value.version
  {
    var chain := TierChain(n, target);
    forall k | 0 <= k < |chain| ensures EmptyTier(n, target, a, chain[k]) <==> EmptyTier(n, target, b, chain[k]) {
      SameReleases(n, target, a, b, chain[k]);
    }
    if s.Some? { SomeTier(n, target, a, s.value); }
    if t.Some? { SomeTier(n, target, b, t.value); }
    if s.Some? && t.Some? {
      SameReleases(n, target, a, b, s.value.tier);
      BestAgree(n, target, b, s.value.tier, s.value, t.value);
    }
  }

  /** The tier chosen is the first one that is not empty. */
  lemma SomeTier(n: Naming, target: Release, releases: seq<Release>, s: Selection)
    requires Selects(n, target, releases, Some(s))
    ensures !EmptyTier(n, target, releases, s.tier) && BestInTier(n, target, releases, s.tier, s)
    ensures exists k :: 0 <= k < |TierChain(n, target)| && TierChain(n, target)[k] == s.tier
                        && forall j :: 0 <= j < k ==> EmptyTier(n, target, releases, TierChain(n, target)[j])
  {}

  /** The choice is a different artifact of the same project and strictly older; nothing eligible
      matches an earlier tier, and nothing eligible in its tier is newer. */
  lemma ChoiceIsSound(n: Naming, target: Release, releases: seq<Release>, s: Selection, r: Release)
    requires Selects(n, target, releases, Some(s)) && r in releases && Eligible(n, target, r)
    ensures s.release in releases && s.release.sha256 != target.sha256
    ensures n.project(s.release.project) == n.project(target.project)
    ensures n.version(target.version).Some? && s.version < n.version(target.version).value
    ensures MatchesTier(n, s.tier, target, r) ==> n.version(r.version).value <= s.version
    ensures exists k :: 0 <= k < |TierChain(n, target)| && TierChain(n, target)[k] == s.tier
                        && forall j :: 0 <= j < k ==> !MatchesTier(n, TierChain(n, target)[j], target, r)
  {
    SomeTier(n, target, releases, s);
    assert Matching(n, target, s.tier, s.release);
    assert MatchesTier(n, s.tier, target, r) ==> Matching(n, target, s.tier, r);
  }

  // ----- the choice without tiers and chains -----

  predicate Older(n: Naming, target: Release, r: Release) {
    && n.project(r.project) == n.project(target.project)
    && r.sha256 != target.sha256
    && n.version(r.version).Some? && n.version(target.version).Some?
    && n.version(r.version).value < n.version(target.version).value
  }

  /** How close a release is to the target: a wheel of the same tag, a universal wheel, a source
      distribution; nothing else is comparable, and a source distribution only with another one. */
  function Closeness(n: Naming, target: Release, r: Release): Option<nat> {
    if n.kind(target.filename) == SourceDist then
      if n.kind(r.filename) == SourceDist then Some(2) else None
    else if n.kind(target.filename) == Wheel then
      if n.kind(r.filename) == SourceDist then Some(2)
      else if n.kind(r.filename) != Wheel || n.tag(r.filename) == None then None
      else
        var mine, other := n.tag(target.filename), n.tag(r.filename).value;
        if mine.Some? && mine.value.text == other.text then Some(0) else if other.universal then Some(1) else None
    else None
  }

  function Distance(tier: Tier): nat {
    match tier
    case SameTag => 0
    case UniversalWheel => 1
    case Sdist => 2
  }

  /** Closer, or newer, or earlier by name and then by digest. */
  predicate Better(n: Naming, target: Release, a: Release, b: Release)
    requires Older(n, target, a) && Older(n, target, b)
    requires Closeness(n, target, a).Some? && Closeness(n, target, b).Some?
  {
    var i, j, v, w := Closeness(n, target, a).value, Closeness(n, target, b).value, n.version(a.version).value,
                      n.version(b.version).value;
    i < j || (i == j && (v > w || (v == w && (TextOrder.TextLess(a.filename, b.filename)
                                              || (a.filename == b.filename && a.sha256 < b.sha256)))))
  }

  predicate Comparable(n: Naming, target: Release, r: Release) {
    Older(n, target, r) && Closeness(n, target, r).Some?
  }

  ghost predicate BestOfAll(n: Naming, target: Release, releases: seq<Release>, s: Selection) {
    && s.release in releases && Comparable(n, target, s.release)
    && Closeness(n, target, s.release) == Some(Distance(s.tier))
    && n.version(s.release.version) == Some(s.version)
    && forall r :: r in releases && Comparable(n, target, r) ==> !Better(n, target, r, s.release)
  }

  /** The tiers by distance, from the first that the target can have. */
  lemma ChainExactly(n: Naming, target: Release)
    ensures var chain := TierChain(n, target);
            && (forall j, k :: 0 <= j < k < |chain| ==> Distance(chain[j]) < Distance(chain[k]))
            && (forall k :: 0 <= k < |chain| ==> chain[k] in chain)
            && (Sdist in chain <==> n.kind(target.filename) != UnknownKind)
            && (UniversalWheel in chain <==> n.kind(target.filename) == Wheel)
            && (SameTag in chain <==> n.kind(target.filename) == Wheel && n.tag(target.filename).Some?)
  {}

  lemma TierMeans(n: Naming, target: Release, r: Release, tier: Tier)
    requires tier in TierChain(n, target)
    ensures Closeness(n, target, r) == Some(Distance(tier)) ==> MatchesTier(n, tier, target, r)
    ensures MatchesTier(n, tier, target, r)
        ==> Closeness(n, target, r).Some? && Closeness(n, target, r).value <= Distance(tier)
  {
    ChainExactly(n, target);
  }

  lemma ClosenessHasTier(n: Naming, target: Release, r: Release) returns (k: nat)
    requires Closeness(n, target, r).Some?
    ensures k < |TierChain(n, target)| && Distance(TierChain(n, target)[k]) == Closeness(n, target, r).value
  {
    ChainExactly(n, target);
    var tier := match Closeness(n, target, r).value case 0 => SameTag case 1 => UniversalWheel case _ => Sdist;
    assert tier in TierChain(n, target);
    k :| 0 <= k < |TierChain(n, target)| && TierChain(n, target)[k] == tier;
  }

  /** A tier is empty together with all before it exactly when nothing comparable is that close. */
  lemma EmptyUpTo(n: Naming, target: Release, releases: seq<Release>, k: nat)
    requires k < |TierChain(n, target)|
    ensures (forall j :: 0 <= j <= k ==> EmptyTier(n, target, releases, TierChain(n, target)[j]))
       <==> forall r :: r in releases && Comparable(n, target, r)
                        ==> Closeness(n, target, r).value > Distance(TierChain(n, target)[k])
  {
    var chain := TierChain(n, target);
    ChainExactly(n, target);
    if forall j :: 0 <= j <= k ==> EmptyTier(n, target, releases, chain[j]) {
      forall r | r in releases && Comparable(n, target, r)
        ensures Closeness(n, target, r).value > Distance(chain[k])
      {
        var i := ClosenessHasTier(n, target, r);
        TierMeans(n, target, r, chain[i]);
        assert Matching(n, target, chain[i], r);
      }
    }
    if forall r :: r in releases && Comparable(n, target, r) ==> Closeness(n, target, r).value > Distance(chain[k]) {
      forall j, r | 0 <= j <= k && r in releases ensures !Matching(n, target, chain[j], r) {
        TierMeans(n, target, r, chain[j]);
      }
    }
  }

  lemma NothingEarlier(n: Naming, target: Release, releases: seq<Release>, k: nat)
    requires k < |TierChain(n, target)|
    ensures (forall j :: 0 <= j < k ==> EmptyTier(n, target, releases, TierChain(n, target)[j]))
       <==> forall r :: r in releases && Comparable(n, target, r)
                        ==> Closeness(n, target, r).value >= Distance(TierChain(n, target)[k])
  {
    var chain := TierChain(n, target);
    ChainExactly(n, target);
    if k > 0 {
      EmptyUpTo(n, target, releases, k - 1);
    }
    forall r | r in releases && Comparable(n, target, r)
      ensures k > 0 ==>
                (Closeness(n, target, r).value > Distance(chain[k - 1])
                 <==> Closeness(n, target, r).value >= Distance(chain[k]))
      ensures k == 0 ==> Closeness(n, target, r).value >= Distance(chain[k])
    {
      var i := ClosenessHasTier(n, target, r);
    }
  }

  /** With nothing closer, the best of a tier is the best of all. */
  lemma BestIsBest(n: Naming, target: Release, releases: seq<Release>, tier: Tier, s: Selection)
    requires tier in TierChain(n, target)
    requires forall r :: r in releases && Comparable(n, target, r) ==> Closeness(n, target, r).value >= Distance(tier)
    ensures BestInTier(n, target, releases, tier, s) <==> BestOfAll(n, target, releases, s) && s.tier == tier
  {
    forall r | r in releases
      ensures Matching(n, target, tier, r)
         <==> Comparable(n, target, r) && Closeness(n, target, r).value == Distance(tier)
    {
      TierMeans(n, target, r, tier);
    }
  }

  /** The tiered search finds the best comparable release of all, and nothing only when there is none. */
  lemma SelectsExactly(n: Naming, target: Release, releases: seq<Release>, s: Option<Selection>)
    ensures Selects(n, target, releases, s)
       <==> match s
            case None => forall r :: r in releases ==> !Comparable(n, target, r)
            case Some(best) => BestOfAll(n, target, releases, best)
  {
    match s
    case None => NoneExactly(n, target, releases);
    case Some(best) => SomeExactly(n, target, releases, best);
  }

  lemma NoneExactly(n: Naming, target: Release, releases: seq<Release>)
    ensures Selects(n, target, releases, None) <==> forall r :: r in releases ==> !Comparable(n, target, r)
  {
    var chain := TierChain(n, target);
    ChainExactly(n, target);
    if chain == [] {
      forall r | r in releases ensures !Comparable(n, target, r) {}
    } else {
      EmptyUpTo(n, target, releases, |chain| - 1);
      forall r | r in releases && Comparable(n, target, r)
        ensures Closeness(n, target, r).value <= Distance(chain[|chain| - 1])
      {
        var i := ClosenessHasTier(n, target, r);
      }
    }
  }

  lemma SomeExactly(n: Naming, target: Release, releases: seq<Release>, best: Selection)
    ensures Selects(n, target, releases, Some(best)) <==> BestOfAll(n, target, releases, best)
  {
    var chain := TierChain(n, target);
    if Selects(n, target, releases, Some(best)) {
      var k :| 0 <= k < |chain| && BestInTier(n, target, releases, chain[k], best)
               && forall j :: 0 <= j < k ==> EmptyTier(n, target, releases, chain[j]);
      NothingEarlier(n, target, releases, k);
      BestIsBest(n, target, releases, chain[k], best);
    }
    if BestOfAll(n, target, releases, best) {
      var k := ClosenessHasTier(n, target, best.release);
      assert chain[k] == best.tier;
      forall r | r in releases && Comparable(n, target, r) ensures Closeness(n, target, r).value >= Distance(chain[k]) {
        assert !Better(n, target, r, best.release);
      }
      NothingEarlier(n, target, releases, k);
      BestIsBest(n, target, releases, chain[k], best);
    }
  }
}
