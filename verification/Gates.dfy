/** The readers of the verdict database: the batched lookup, the index filter, the listing of
    allowed releases and the download gate, which must all agree. */
module Gates {
  import opened History
  import opened Text
  import opened PersistedState
  import opened VerdictTables

  datatype Decided = Decided(
    sha256: Digest,
    allowed: bool,
    effective: Decision,
    source: Source,
    state: Option<ArtifactState>,
    policyVersion: Option<string>,
    cooldownUntil: Option<Time>,
    cooldownFinished: bool)

  function Unknown(d: Digest): Decided {
    Decided(d, false, Deny, Missing, None, None, None, true)
  }

  function FromContext(d: Digest, c: Context): Decided {
    Decided(d, c.effective == Allow && c.cooldownFinished, c.effective, c.source, Some(c.state), c.policyVersion,
            c.cooldownUntil, c.cooldownFinished)
  }

  /** Everything the tables say at one moment: for each digest with rows, the decision in force, or
      None when its rows are corrupt. */
  type Decisions = map<Digest, Option<Decided>>

  function DecisionOf(db: Db, d: Digest, asOf: Time): Option<Decided> {
    var verdict, manual := CurrentRow(db.verdicts, d), CurrentRow(db.overrides, d);
    if verdict.Several? || manual.Several? then None
    else if d !in db.artifacts then Some(Unknown(d))
    else
      var context := Validate(d, db.artifacts[d], verdict, manual, asOf);
      if context == None then None else Some(FromContext(d, context.value))
  }

  function Joined(db: Db, asOf: Time): Decisions {
    map d | d in db.artifacts.Keys + (set i | 0 <= i < |db.verdicts| :: db.verdicts[i].sha256)
                 + (set i | 0 <= i < |db.overrides| :: db.overrides[i].sha256)
      :: DecisionOf(db, d, asOf)
  }

  /** One digest looked up on its own: None for corrupt rows, unknown without rows. */
  function Look(rows: Decisions, d: Digest): Option<Decided> {
    if d in rows then rows[d] else Some(Unknown(d))
  }

  // ----- the download gate -----

  predicate PolicyNamed(policyVersion: Option<string>) {
    policyVersion.Some? && NonBlank(policyVersion.value)
  }

  /** The tween trusts no flag on its own: it looks at the whole record again. */
  predicate ExactAllow(d: Decided, sha256: Digest) {
    && d.sha256 == sha256 && d.allowed && d.effective == Allow
    && match d.source {
         case Automated => d.state == Some(Judged(Allow)) && PolicyNamed(d.policyVersion)
         case ManualOverride =>
           if d.state == Some(Errored) then d.policyVersion == None || PolicyNamed(d.policyVersion)
           else d.state.Some? && d.state.value.Judged? && PolicyNamed(d.policyVersion)
         case Missing => false
       }
  }

  lemma ContextAgrees(d: Digest, a: Artifact, verdict: Lookup<Verdict>, manual: Lookup<Override>, asOf: Time)
    requires Validate(d, a, verdict, manual, asOf).Some?
    ensures var decided := FromContext(d, Validate(d, a, verdict, manual, asOf).value);
            ExactAllow(decided, d) <==> decided.allowed
  {
    assert verdict.One? ==> StoredText(verdict.row.data.policyVersion);
  }

  /** The gate and the reader agree on every artifact whose rows the persisted-state rule accepts,
      and on every unknown one. */
  lemma GatesAgree(db: Db, d: Digest, asOf: Time)
    requires Look(Joined(db, asOf), d).Some?
    ensures var decided := Look(Joined(db, asOf), d).value;
            ExactAllow(decided, d) <==> decided.allowed
  {
    if d in Joined(db, asOf) && d in db.artifacts {
      ContextAgrees(d, db.artifacts[d], CurrentRow(db.verdicts, d), CurrentRow(db.overrides, d), asOf);
    }
  }

  // ----- the batched lookup -----

  const CHUNK := 400

  /** One digest asked for, decided independently of the rest. */
  predicate Entry(rows: Decisions, results: map<Digest, Decided>, d: Digest) {
    d in results && Look(rows, d) == Some(results[d])
  }

  /** Every digest looked up on its own; None when any lookup fails. */
  function Lookups(rows: Decisions, requested: seq<Digest>): (r: Option<map<Digest, Decided>>)
    ensures r.Some? ==> forall d :: d in requested ==> Entry(rows, r.value, d)
  {
    if forall d :: d in requested ==> Look(rows, d).Some?
    then Some(map d | d in requested :: Look(rows, d).value)
    else None
  }

  /** The rows a chunk's queries return, each decided. */
  method ReadChunk(rows: Decisions, chunk: seq<Digest>, results: map<Digest, Decided>)
    returns (r: Option<map<Digest, Decided>>)
    requires forall d :: d in chunk ==> d in results
    requires forall d :: d in chunk && d !in rows ==> results[d] == Unknown(d)
    ensures r.Some? <==> forall d :: d in chunk ==> Look(rows, d).Some?
    ensures r.Some? ==> r.value.Keys == results.Keys && forall d :: d in results ==>
                          if d in chunk then Entry(rows, r.value, d) else r.value[d] == results[d]
  {
    var found := set d | d in chunk && d in rows;
    var decided := results;
    while found != {}
      invariant found <= rows.Keys && forall d :: d in found ==> d in chunk
      invariant decided.Keys == results.Keys
      invariant forall d :: d in results ==>
                  if d in chunk && d !in found then Entry(rows, decided, d) else decided[d] == results[d]
      decreases |found|
    {
      var d :| d in found;
      if rows[d] == None {
        assert Look(rows, d) == None;
        return None;
      }
      decided := decided[d := rows[d].value];
      found := found - {d};
    }
    return Some(decided);
  }

  /** Reading in chunks of four hundred equals reading digest by digest, duplicates and all. */
  method ReadEffectiveDecisions(rows: Decisions, requested: seq<Digest>) returns (r: Option<map<Digest, Decided>>)
    ensures r == Lookups(rows, requested)
  {
    var results := map d | d in requested :: Unknown(d);
    var offset := 0;
    while offset < |requested|
      invariant 0 <= offset <= |requested|
      invariant results.Keys == set d | d in requested
      invariant forall d :: d in requested[..offset] ==> Entry(rows, results, d)
      invariant forall d :: d in requested && d !in requested[..offset] ==> results[d] == Unknown(d)
    {
      var end := if offset + CHUNK < |requested| then offset + CHUNK else |requested|;
      var chunk := requested[offset..end];
      assert requested[..end] == requested[..offset] + chunk;
      assert forall d :: d in chunk ==> d in requested[..end] && d in requested;
      var read := ReadChunk(rows, chunk, results);
      if read == None { return None; }
      results := read.value;
      offset := end;
    }
    assert requested[..offset] == requested;
    assert results == map d | d in requested :: Look(rows, d).value;
    return Some(results);
  }

  lemma SameLookups(rows: Decisions, a: seq<Digest>, b: seq<Digest>)
    requires forall d :: d in a <==> d in b
    ensures Lookups(rows, a) == Lookups(rows, b)
  {
    if Lookups(rows, a).Some? {
      assert (map d | d in a :: Look(rows, d).value) == (map d | d in b :: Look(rows, d).value);
    }
  }

  /** The public lookup drops repeated digests first; that too makes no difference. */
  method GetEffectiveDecisions(rows: Decisions, sha256s: seq<Digest>) returns (r: Option<map<Digest, Decided>>)
    ensures r == Lookups(rows, sha256s)
  {
    var requested: seq<Digest> := [];
    for i := 0 to |sha256s|
      invariant forall d :: d in requested <==> d in sha256s[..i]
    {
      if sha256s[i] !in requested { requested := requested + [sha256s[i]]; }
    }
    assert sha256s[..|sha256s|] == sha256s;
    SameLookups(rows, requested, sha256s);
    r := ReadEffectiveDecisions(rows, requested);
  }

  // ----- the index filter -----

  predicate Allowed(rows: Decisions, d: Digest) {
    Look(rows, d).Some? && Look(rows, d).value.allowed
  }

  method RequestedDigests(links: seq<Option<Digest>>) returns (requested: seq<Digest>)
    ensures forall k :: 0 <= k < |links| && links[k].Some? ==> links[k].value in requested
    ensures forall d :: d in requested ==> exists k :: 0 <= k < |links| && links[k] == Some(d)
  {
    requested := [];
    for i := 0 to |links|
      invariant forall k :: 0 <= k < i && links[k].Some? ==> links[k].value in requested
      invariant forall d :: d in requested ==> exists k :: 0 <= k < i && links[k] == Some(d)
    {
      if links[i].Some? {
        requested := requested + [links[i].value];
        assert links[i] == Some(links[i].value);
      }
    }
  }

  predicate Increasing(s: seq<nat>) {
    forall a, b :: 0 <= a < b < |s| ==> s[a] < s[b]
  }

  /** No row of the page is corrupt. */
  predicate Readable(rows: Decisions, links: seq<Option<Digest>>) {
    forall k :: 0 <= k < |links| && links[k].Some? ==> Look(rows, links[k].value).Some?
  }

  /** Which links of an index page stay, in order, and which are put up for discovery, which happens
      only on the page of a named project.  A link without a usable digest is dropped.  One corrupt row
      makes the whole page unavailable, and so does a discovery queue that refuses what is put up. */
  method FilterLinks(rows: Decisions, links: seq<Option<Digest>>, named: bool, discover: seq<nat> -> bool)
    returns (r: Option<seq<bool>>, missing: seq<nat>)
    ensures r.Some? <==> Readable(rows, links) && (missing == [] || discover(missing))
    ensures r.Some? ==> |r.value| == |links|
    ensures r.Some? ==> forall k :: 0 <= k < |links| ==>
                          (r.value[k] <==> links[k].Some? && Allowed(rows, links[k].value))
    ensures Readable(rows, links) ==> forall k :: k in missing <==>
                                        && named && 0 <= k < |links| && links[k].Some?
                                        && Look(rows, links[k].value).value.source == Missing
    ensures !Readable(rows, links) ==> missing == []
    ensures Increasing(missing)
  {
    missing := [];
    var requested := RequestedDigests(links);
    var decisions := GetEffectiveDecisions(rows, requested);
    if decisions == None { return None, []; }
    var kept: seq<bool> := [];
    for i := 0 to |links|
      invariant |kept| == i
      invariant forall k :: 0 <= k < i ==> (kept[k] <==> links[k].Some? && Allowed(rows, links[k].value))
      invariant forall k :: k in missing <==>
                  named && 0 <= k < i && links[k].Some? && Look(rows, links[k].value).value.source == Missing
      invariant Increasing(missing)
    {
      if links[i].Some? {
        var d := links[i].value;
        assert Entry(rows, decisions.value, d);
        if named && decisions.value[d].source == Missing {
          assert forall a :: 0 <= a < |missing| ==> missing[a] in missing;
          missing := missing + [i];
        }
        kept := kept + [decisions.value[d].allowed];
      } else {
        kept := kept + [false];
      }
    }
    if missing != [] && !discover(missing) { return None, missing; }
    return Some(kept), missing;
  }

  // ----- the listing of allowed releases -----

  /** Each digest's current baseline marks: whether enabled, or None for several. */
  type Marks = map<Digest, Option<bool>>

  function MarksOf(db: Db): Marks {
    map i | 0 <= i < |db.baselines| && !CurrentRow(db.baselines, db.baselines[i].sha256).Absent?
      :: db.baselines[i].sha256 := var mark := CurrentRow(db.baselines, db.baselines[i].sha256);
                                   if mark.One? then Some(mark.row.data.enabled) else None
  }

  /** A release the listing shows: its artifact allowed and not withdrawn as a baseline. */
  predicate Listed(rows: Decisions, marks: Marks, release: Release) {
    var d := release.sha256;
    Allowed(rows, d) && (d in marks ==> marks[d] == Some(true))
  }

  predicate Listable(rows: Decisions, marks: Marks, release: Release) {
    var d := release.sha256;
    && Look(rows, d).Some? && Look(rows, d).value.source != Missing
    && (d in marks ==> marks[d].Some?)
  }

  predicate AllListable(rows: Decisions, marks: Marks, mapped: seq<Release>) {
    forall k :: 0 <= k < |mapped| ==> Listable(rows, marks, mapped[k])
  }

  function Listing(rows: Decisions, marks: Marks, mapped: seq<Release>): seq<Release> {
    if mapped == [] then []
    else
      var n := |mapped| - 1;
      Listing(rows, marks, mapped[..n]) + if Listed(rows, marks, mapped[n]) then [mapped[n]] else []
  }

  lemma {:induction false} ListingConcat(rows: Decisions, marks: Marks, a: seq<Release>, b: seq<Release>)
    ensures Listing(rows, marks, a + b) == Listing(rows, marks, a) + Listing(rows, marks, b)
  {
    if b == [] {
      assert a + b == a;
    } else {
      var n := |b| - 1;
      assert (a + b)[..|a| + n] == a + b[..n];
      ListingConcat(rows, marks, a, b[..n]);
    }
  }

  method FilterChunk(rows: Decisions, marks: Marks, mapped: seq<Release>, decisions: map<Digest, Decided>)
    returns (r: Option<seq<Release>>)
    requires forall k :: 0 <= k < |mapped| ==> Entry(rows, decisions, mapped[k].sha256)
    ensures r.Some? <==> AllListable(rows, marks, mapped)
    ensures r.Some? ==> r.value == Listing(rows, marks, mapped)
  {
    var results: seq<Release> := [];
    for k := 0 to |mapped|
      invariant forall j :: 0 <= j < k ==> Listable(rows, marks, mapped[j])
      invariant results == Listing(rows, marks, mapped[..k])
    {
      var d := mapped[k].sha256;
      assert mapped[..k + 1][..k] == mapped[..k];
      if decisions[d].source == Missing || (d in marks && marks[d] == None) {
        assert !Listable(rows, marks, mapped[k]);
        return None;
      }
      if decisions[d].allowed && (d in marks ==> marks[d] == Some(true)) { results := results + [mapped[k]]; }
    }
    assert mapped[..|mapped|] == mapped;
    return Some(results);
  }

  method ListChunk(rows: Decisions, marks: Marks, mapped: seq<Release>) returns (r: Option<seq<Release>>)
    ensures r.Some? <==> AllListable(rows, marks, mapped)
    ensures r.Some? ==> r.value == Listing(rows, marks, mapped)
  {
    var requested := seq(|mapped|, i requires 0 <= i < |mapped| => mapped[i].sha256);
    assert forall k :: 0 <= k < |mapped| ==> requested[k] == mapped[k].sha256 && requested[k] in requested;
    var decisions := GetEffectiveDecisions(rows, requested);
    if decisions == None {
      var d :| d in requested && Look(rows, d) == None;
      var k :| 0 <= k < |requested| && requested[k] == d;
      assert !Listable(rows, marks, mapped[k]);
      return None;
    }
    r := FilterChunk(rows, marks, mapped, decisions.value);
  }

  lemma AllListableConcat(rows: Decisions, marks: Marks, a: seq<Release>, b: seq<Release>)
    ensures AllListable(rows, marks, a + b) <==> AllListable(rows, marks, a) && AllListable(rows, marks, b)
  {
    assert forall k :: 0 <= k < |a| ==> (a + b)[k] == a[k];
    assert forall k :: 0 <= k < |b| ==> (a + b)[|a| + k] == b[k];
  }

  /** Reading a project's mappings four hundred at a time gives what filtering them one by one
      does; any corrupt or orphaned mapping fails the whole listing. */
  method ListAllowedReleases(rows: Decisions, marks: Marks, mapped: seq<Release>) returns (r: Option<seq<Release>>)
    ensures r.Some? <==> AllListable(rows, marks, mapped)
    ensures r.Some? ==> r.value == Listing(rows, marks, mapped)
  {
    var results: seq<Release> := [];
    var offset := 0;
    while offset < |mapped|
      invariant 0 <= offset <= |mapped|
      invariant AllListable(rows, marks, mapped[..offset])
      invariant results == Listing(rows, marks, mapped[..offset])
    {
      var end := if offset + CHUNK < |mapped| then offset + CHUNK else |mapped|;
      var before, chunk := mapped[..offset], mapped[offset..end];
      var listed := ListChunk(rows, marks, chunk);
      assert mapped[..end] == before + chunk;
      assert mapped == mapped[..end] + mapped[end..];
      AllListableConcat(rows, marks, before, chunk);
      AllListableConcat(rows, marks, mapped[..end], mapped[end..]);
      if listed == None { return None; }
      ListingConcat(rows, marks, before, chunk);
      results := results + listed.value;
      offset := end;
    }
    assert mapped[..offset] == mapped;
    return Some(results);
  }
}
