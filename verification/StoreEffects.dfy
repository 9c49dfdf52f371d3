/** What each operation of the verdict store does, row by row and column by column, and exactly when
    it is done at all. */
module StoreEffects {
  import opened History
  import opened Text
  import opened PersistedState
  import opened VerdictTables
  import opened VerdictStore
  import opened VerdictInvariants
  import opened VerdictRuns

  // ----- history tables -----

  /** A new row at the end, the only current one of its artifact; the rest of the table is as it was. */
  ghost predicate Superseded<T>(before: seq<Row<T>>, after: seq<Row<T>>, d: Digest, data: T) {
    && |after| == |before| + 1
    && after[|before|].sha256 == d && after[|before|].data == data && after[|before|].isCurrent
    && forall i :: 0 <= i < |before| ==>
         && after[i].sha256 == before[i].sha256 && after[i].data == before[i].data
         && (after[i].isCurrent <==> before[i].isCurrent && before[i].sha256 != d)
  }

  /** No row of the artifact is current any more; the rest of the table is as it was. */
  ghost predicate Retired<T>(before: seq<Row<T>>, after: seq<Row<T>>, d: Digest) {
    && |after| == |before|
    && forall i :: 0 <= i < |before| ==>
         && after[i].sha256 == before[i].sha256 && after[i].data == before[i].data
         && (after[i].isCurrent <==> before[i].isCurrent && before[i].sha256 != d)
  }

  lemma RetireWrites<T>(rows: seq<Row<T>>, d: Digest)
    requires OneCurrent(rows)
    ensures |Currents(rows, d)| <= 1 && Retired(rows, RetireAll(rows, Currents(rows, d)), d)
  {
    RetireAllCurrents(rows, d);
    var after := RetireAll(rows, Currents(rows, d));
    forall i | 0 <= i < |rows| ensures after[i].isCurrent <==> rows[i].isCurrent && rows[i].sha256 != d {
      assert CurrentAt(after, rows[i].sha256, i) <==> after[i].isCurrent;
      assert CurrentAt(rows, rows[i].sha256, i) <==> rows[i].isCurrent;
    }
  }

  lemma ReplaceWrites<T>(rows: seq<Row<T>>, d: Digest, data: T)
    requires OneCurrent(rows)
    ensures |Currents(rows, d)| <= 1 && Superseded(rows, Replace(rows, d, data), d, data)
  {
    RetireWrites(rows, d);
  }

  /** The given event ends the log. */
  predicate Logged(before: Db, after: Db, e: Event) {
    after.audit == before.audit + [e]
  }

  // ----- discovery -----

  predicate DiscoveryFormed(x: Discovery) {
    && x.sha256 == x.release.sha256 && 0 <= x.size <= 0x7fff_ffff_ffff_ffff
    && NonBlank(x.release.stage) && NonBlank(x.release.project) && NonBlank(x.release.version)
    && NonBlank(x.release.filename) && NonBlank(x.release.originUrl)
  }

  ghost predicate DiscoveryFits(db: Db, x: Discovery) {
    && (x.sha256 in db.artifacts ==> db.artifacts[x.sha256].size == x.size)
    && forall i :: 0 <= i < |db.releases| && SameRelease(db.releases[i], x.release) ==>
         db.releases[i].originUrl == x.release.originUrl
  }

  lemma SameReleaseOnce(releases: seq<Release>, i: nat, j: nat, release: Release)
    requires DistinctReleases(releases) && i < |releases| && j < |releases|
    requires SameRelease(releases[i], release) && SameRelease(releases[j], release)
    ensures i == j
  {
    assert SameRelease(releases[i], releases[j]) && SameRelease(releases[j], releases[i]);
  }

  ghost predicate Mapped(db: Db, release: Release) {
    exists i :: 0 <= i < |db.releases| && SameRelease(db.releases[i], release)
  }

  lemma MappedExactly(db: Db, release: Release)
    requires Inv(db)
    ensures Mapped(db, release) <==> FindRelease(db.releases, release).Some?
    ensures Mapped(db, release) ==> release.sha256 in db.artifacts
  {
    var found := FindRelease(db.releases, release);
    if found.Some? {
      ReleaseCounted(db.releases, found.value);
      assert SliceSound(release.sha256, SliceOf(db, release.sha256));
    }
  }

  /** A discovery is refused exactly for unfit input, a size or an origin that contradicts what is
      stored, or an event that cannot be logged; discovering a known release again logs nothing. */
  lemma DiscoverDone(db: Db, env: Env, x: Discovery)
    requires Inv(db)
    ensures Discover(db, env, x).Done? <==>
              DiscoveryFormed(x) && DiscoveryFits(db, x) && (Mapped(db, x.release) || env.auditUp)
    ensures Discover(db, env, x) == Refused(InvalidInput) <==> !DiscoveryFormed(x)
    ensures Discover(db, env, x) == Refused(Conflict) <==> DiscoveryFormed(x) && !DiscoveryFits(db, x)
    ensures Discover(db, env, x) != Refused(NotFound)
  {
    MappedExactly(db, x.release);
    var found := FindRelease(db.releases, x.release);
    if found.Some? {
      forall i | 0 <= i < |db.releases| && SameRelease(db.releases[i], x.release) ensures i == found.value {
        SameReleaseOnce(db.releases, i, found.value, x.release);
      }
    }
  }

  lemma DiscoverWrites(db: Db, env: Env, x: Discovery)
    requires Inv(db) && Discover(db, env, x).Done? && !Mapped(db, x.release)
    ensures var after := Discover(db, env, x).db;
            && after.releases == db.releases + [x.release]
            && x.sha256 in after.artifacts
            && after.artifacts == db.artifacts[x.sha256 := after.artifacts[x.sha256]]
            && (if x.sha256 in db.artifacts then after.artifacts == db.artifacts
                else
                  var a := after.artifacts[x.sha256];
                  && a.size == x.size && a.state == ArtifactState.Discovered
                  && a.discoveredAt == a.updatedAt == x.discoveredAt
                  && a.leaseOwner == None && a.leaseExpiresAt == None && a.leaseToken == None && a.lastError == None
                  && a.cooldownStartedAt == None && a.cooldownUntil == None)
            && after.verdicts == db.verdicts && after.evidence == db.evidence
            && after.overrides == db.overrides && after.baselines == db.baselines
            && Logged(db, after,
                      Event(Standard, ArtifactDiscovered, x.sha256, Deny, Deny, Standard, None, None, env.now))
  {
    MappedExactly(db, x.release);
  }

  // ----- leases -----

  lemma ClaimDone(db: Db, env: Env, worker: string, until: Time)
    ensures ClaimNext(db, env, worker, until).Done? <==>
              && StoredText(worker) && env.now < until
              && ((forall d :: d in db.artifacts ==> db.artifacts[d].state != ArtifactState.Discovered)
                  || (AuditText(worker, 4096) && env.auditUp))
  {
    if Ready(db) == map[] {
      forall d | d in db.artifacts ensures db.artifacts[d].state != ArtifactState.Discovered { assert d !in Ready(db); }
    } else {
      var d :| d in Ready(db);
      assert db.artifacts[d].state == ArtifactState.Discovered;
    }
  }

  /** The claimed artifact was discovered before every other waiting one, ties going to the lesser
      digest; its row holds the lease that the claim names. */
  lemma ClaimWrites(db: Db, env: Env, worker: string, until: Time)
    requires ClaimNext(db, env, worker, until).Done? && ClaimNext(db, env, worker, until).value.Some?
    ensures var after, c := ClaimNext(db, env, worker, until).db, ClaimNext(db, env, worker, until).value.value;
            && c.sha256 in db.artifacts && c.sha256 in after.artifacts
            && var a, b := db.artifacts[c.sha256], after.artifacts[c.sha256];
            && a.state == ArtifactState.Discovered
            && (forall e :: e in db.artifacts && db.artifacts[e].state == ArtifactState.Discovered ==>
                  a.discoveredAt < db.artifacts[e].discoveredAt
                  || (a.discoveredAt == db.artifacts[e].discoveredAt && c.sha256 <= e))
            && c.size == a.size && c.worker == worker && c.expiresAt == until && c.token == env.token
            && b.state == Scanning && b.leaseOwner == Some(worker) && b.leaseExpiresAt == Some(until)
            && b.leaseToken == Some(env.token) && b.updatedAt == env.now && b.lastError == None
            && b.size == a.size && b.discoveredAt == a.discoveredAt
            && b.cooldownStartedAt == a.cooldownStartedAt && b.cooldownUntil == a.cooldownUntil
            && after.artifacts == db.artifacts[c.sha256 := b]
            && after.releases == db.releases && after.verdicts == db.verdicts && after.evidence == db.evidence
            && after.overrides == db.overrides && after.baselines == db.baselines
            && Logged(db, after,
                      Event(Given(worker), ArtifactClaimed, c.sha256, Deny, Deny, Standard, None, None, env.now))
  {
    var d := Earliest(Ready(db));
    forall e | e in db.artifacts && db.artifacts[e].state == ArtifactState.Discovered
      ensures db.artifacts[d].discoveredAt < db.artifacts[e].discoveredAt
              || (db.artifacts[d].discoveredAt == db.artifacts[e].discoveredAt && d <= e)
    {
      assert e in Ready(db);
    }
    assert d in Ready(db);
  }

  /** Recovery frees a lease exactly when it has run out, an instant of expiry included. */
  lemma RecoverWrites(db: Db, env: Env, d: Digest)
    requires Inv(db) && Recover(db, env).Done? && d in db.artifacts
    ensures d in Recover(db, env).db.artifacts
    ensures var a, b := db.artifacts[d], Recover(db, env).db.artifacts[d];
            if a.state == Scanning && a.leaseExpiresAt.Some? && a.leaseExpiresAt.value <= env.now then
              && b.state == ArtifactState.Discovered && b.leaseOwner == None && b.leaseExpiresAt == None
              && b.leaseToken == None && b.updatedAt == env.now && b.lastError == None
              && b.size == a.size && b.discoveredAt == a.discoveredAt
              && b.cooldownStartedAt == a.cooldownStartedAt && b.cooldownUntil == a.cooldownUntil
            else b == a
  {
    RecoverTransacts(db, env);
    var lapsed, after := Lapsed(db, env.now), Recover(db, env).db;
    if d !in lapsed { assert SliceOf(after, d) == SliceOf(db, d); }
  }

  // ----- results -----

  /** The claim is the lease in force: every column of it matches. */
  predicate LeaseInForce(db: Db, claim: Claim, now: Time) {
    && claim.sha256 in db.artifacts && db.artifacts[claim.sha256].state == Scanning
    && db.artifacts[claim.sha256].size == claim.size
    && db.artifacts[claim.sha256].leaseOwner == Some(claim.worker)
    && db.artifacts[claim.sha256].leaseExpiresAt == Some(claim.expiresAt)
    && db.artifacts[claim.sha256].leaseToken == Some(claim.token)
    && now < claim.expiresAt
  }

  predicate ClaimFits(claim: Claim) {
    StoredText(claim.worker) && 0 <= claim.size <= 0x7fff_ffff_ffff_ffff
  }

  predicate VersionFits(s: string) {
    StoredText(s) && AuditText(s, 4096)
  }

  predicate ResultFits(x: VerdictInput) {
    && x.verdict.score.Finite? && VersionFits(x.verdict.policyVersion) && VersionFits(x.verdict.analyzerVersion)
    && (x.verdict.baseline.Some? <==> x.verdict.baselineTier.Some?)
    && (x.verdict.baselineTier.Some? ==> x.verdict.baselineTier.value in ["same_tag", "universal_wheel", "sdist"])
    && (x.cooldownUntil.Some? ==> x.verdict.decision == Allow && x.verdict.createdAt < x.cooldownUntil.value)
  }

  predicate ItemFits(e: Evidence) {
    && StoredText(e.ruleId) && Utf8Length(e.detailsJson) <= 0x10_0000
    && (e.line.Some? ==> 1 <= e.line.value <= 0x7fff_ffff_ffff_ffff)
  }

  lemma RecordDone(db: Db, env: Env, claim: Claim, x: VerdictInput, evidence: seq<Evidence>)
    requires Inv(db) && env.auditUp
    ensures RecordVerdict(db, env, claim, x, evidence).Done? <==>
              && ClaimFits(claim) && ResultFits(x) && (forall i :: 0 <= i < |evidence| ==> ItemFits(evidence[i]))
              && x.sha256 == claim.sha256 && LeaseInForce(db, claim, env.now)
              && (x.verdict.baseline.Some? ==> x.verdict.baseline.value in db.artifacts)
  {
    AtMostOne(db.verdicts, x.sha256);
  }

  /** The artifact row after a result: judged, its lease gone, a cooldown only set if none was. */
  predicate JudgedRow(a: Artifact, b: Artifact, x: VerdictInput, now: Time) {
    && b.state == Judged(x.verdict.decision) && b.updatedAt == now && b.lastError == None
    && b.leaseOwner == None && b.leaseExpiresAt == None && b.leaseToken == None
    && b.size == a.size && b.discoveredAt == a.discoveredAt
    && (a.cooldownUntil.Some? ==> b.cooldownUntil == a.cooldownUntil)
    && (a.cooldownUntil == None ==> b.cooldownUntil == x.cooldownUntil)
    && (a.cooldownStartedAt.Some? ==> b.cooldownStartedAt == a.cooldownStartedAt)
    && (a.cooldownStartedAt == None ==>
          b.cooldownStartedAt == if x.cooldownUntil.Some? then Some(x.verdict.createdAt) else None)
  }

  /** The new evidence rows hold the items in order and the id of the given verdict row. */
  predicate EvidenceAdded(before: Db, after: Db, items: seq<Evidence>, id: nat) {
    && |after.evidence| == |before.evidence| + |items|
    && (forall i :: 0 <= i < |before.evidence| ==> after.evidence[i] == before.evidence[i])
    && forall i :: 0 <= i < |items| ==>
         after.evidence[|before.evidence| + i].item == items[i]
         && after.evidence[|before.evidence| + i].verdictId == id
  }

  lemma RecordRows(db: Db, env: Env, claim: Claim, x: VerdictInput, evidence: seq<Evidence>)
    requires RecordVerdict(db, env, claim, x, evidence).Done?
    ensures |Currents(db.verdicts, x.sha256)| <= 1 && x.sha256 in db.artifacts
    ensures var after := RecordVerdict(db, env, claim, x, evidence).db;
            && after.artifacts == db.artifacts[x.sha256 := Concluded(db.artifacts[x.sha256], x, env.now)]
            && after.verdicts == Replace(db.verdicts, x.sha256, x.verdict)
            && EvidenceAdded(db, after, evidence, |db.verdicts| + 1)
            && after.releases == db.releases && after.overrides == db.overrides && after.baselines == db.baselines
            && Logged(db, after, Event(Standard, VerdictRecorded, x.sha256, Deny,
                                       if x.verdict.decision == Allow then Allow else Deny, Standard,
                                       Some(x.verdict.policyVersion), Some(x.verdict.analyzerVersion), env.now))
  {}

  lemma ConcludedIsJudged(a: Artifact, x: VerdictInput, now: Time)
    ensures JudgedRow(a, Concluded(a, x, now), x, now)
  {}

  /** A result writes one verdict row, which is then the current one of its artifact, links all its
      evidence to that row, ends the lease and logs who may use the artifact. */
  lemma RecordWrites(db: Db, env: Env, claim: Claim, x: VerdictInput, evidence: seq<Evidence>)
    requires Inv(db) && RecordVerdict(db, env, claim, x, evidence).Done?
    ensures var after := RecordVerdict(db, env, claim, x, evidence).db;
            && x.sha256 in db.artifacts && x.sha256 in after.artifacts
            && JudgedRow(db.artifacts[x.sha256], after.artifacts[x.sha256], x, env.now)
            && after.artifacts == db.artifacts[x.sha256 := after.artifacts[x.sha256]]
            && Superseded(db.verdicts, after.verdicts, x.sha256, x.verdict)
            && CurrentRow(after.verdicts, x.sha256) == One(|after.verdicts|, Row(x.sha256, x.verdict, true))
            && EvidenceAdded(db, after, evidence, |after.verdicts|)
            && after.releases == db.releases && after.overrides == db.overrides && after.baselines == db.baselines
            && Logged(db, after, Event(Standard, VerdictRecorded, x.sha256, Deny,
                                       if x.verdict.decision == Allow then Allow else Deny, Standard,
                                       Some(x.verdict.policyVersion), Some(x.verdict.analyzerVersion), env.now))
  {
    RecordRows(db, env, claim, x, evidence);
    ConcludedIsJudged(db.artifacts[x.sha256], x, env.now);
    ReplaceCurrents(db.verdicts, x.sha256, x.verdict);
    ReplaceWrites(db.verdicts, x.sha256, x.verdict);
  }

  // ----- evidence over runs -----

  /** The items linked to a verdict row, in order. */
  function EvidenceOf(rows: seq<EvidenceRow>, id: nat): seq<Evidence> {
    if rows == [] then []
    else
      var last := rows[|rows| - 1];
      EvidenceOf(rows[..|rows| - 1], id) + if last.verdictId == id then [last.item] else []
  }

  lemma {:induction false} EvidenceAppended(before: seq<EvidenceRow>, after: seq<EvidenceRow>, items: seq<Evidence>,
                                            id: nat, other: nat)
    requires |after| == |before| + |items| && after[..|before|] == before
    requires forall i :: 0 <= i < |items| ==> after[|before| + i] == EvidenceRow(id, items[i])
    ensures EvidenceOf(after, other) == EvidenceOf(before, other) + if other == id then items else []
    decreases |items|
  {
    if items == [] {
      assert after == before;
    } else {
      var n := |items| - 1;
      assert after[..|after| - 1][..|before|] == before;
      EvidenceAppended(before, after[..|after| - 1], items[..n], id, other);
      assert items == items[..n] + [items[n]];
    }
  }

  lemma {:induction false} NoneLinked(rows: seq<EvidenceRow>, id: nat)
    requires forall i :: 0 <= i < |rows| ==> rows[i].verdictId != id
    ensures EvidenceOf(rows, id) == []
    decreases |rows|
  {
    if rows != [] { NoneLinked(rows[..|rows| - 1], id); }
  }

  lemma AddedLinks(before: Db, after: Db, items: seq<Evidence>, id: nat, other: nat)
    requires EvidenceAdded(before, after, items, id)
    requires forall i :: 0 <= i < |before.evidence| ==> before.evidence[i].verdictId < id
    ensures EvidenceOf(after.evidence, id) == items
    ensures other != id ==> EvidenceOf(after.evidence, other) == EvidenceOf(before.evidence, other)
  {
    assert after.evidence[..|before.evidence|] == before.evidence;
    EvidenceAppended(before.evidence, after.evidence, items, id, id);
    EvidenceAppended(before.evidence, after.evidence, items, id, other);
    NoneLinked(before.evidence, id);
  }

  lemma LinkedBefore(db: Db, i: nat)
    requires Inv(db) && i < |db.evidence|
    ensures db.evidence[i].verdictId <= |db.verdicts|
  {}

  /** Exactly the recorded items are linked to the new verdict row; every other row's stay. */
  lemma RecordLinks(db: Db, env: Env, claim: Claim, x: VerdictInput, evidence: seq<Evidence>, other: nat)
    requires Inv(db) && RecordVerdict(db, env, claim, x, evidence).Done?
    ensures var after := RecordVerdict(db, env, claim, x, evidence).db;
            && EvidenceOf(after.evidence, |after.verdicts|) == evidence
            && (other != |after.verdicts| ==> EvidenceOf(after.evidence, other) == EvidenceOf(db.evidence, other))
  {
    RecordWrites(db, env, claim, x, evidence);
    var after := RecordVerdict(db, env, claim, x, evidence).db;
    forall i | 0 <= i < |db.evidence| ensures db.evidence[i].verdictId < |after.verdicts| { LinkedBefore(db, i); }
    AddedLinks(db, after, evidence, |after.verdicts|, other);
  }

  lemma {:induction false} RecoveryLinksNothing(db: Db, lapsed: map<Digest, Time>, env: Env, count: nat)
    requires lapsed.Keys <= db.artifacts.Keys
    ensures After(db, RecoverAll(db, lapsed, env, count)).evidence == db.evidence
    ensures After(db, RecoverAll(db, lapsed, env, count)).verdicts == db.verdicts
    decreases |lapsed|
  {
    if lapsed != map[] {
      var d := Earliest(lapsed);
      var one := RecoverOne(db, d, env, count);
      assert (lapsed - {d}).Keys == lapsed.Keys - {d};
      if one.Done? { RecoveryLinksNothing(one.db, lapsed - {d}, env, one.value); }
    }
  }

  lemma OthersLinkNothing(db: Db, env: Env, c: Command)
    requires !c.DoRecord?
    ensures Next(db, env, c).evidence == db.evidence && Next(db, env, c).verdicts == db.verdicts
  {
    match c
    case DoRecover => RecoveryLinksNothing(db, Lapsed(db, env.now), env, 0);
    case DoDiscover(x) => DiscoveryLinksNothing(db, env, x);
    case DoClaim(worker, until) => ClaimLinksNothing(db, env, worker, until);
    case DoMarkError(claim, message) =>
    case _ => AdministrationLinksNothing(db, env, c);
  }

  lemma DiscoveryLinksNothing(db: Db, env: Env, x: Discovery)
    ensures After(db, Discover(db, env, x)).evidence == db.evidence
    ensures After(db, Discover(db, env, x)).verdicts == db.verdicts
  {}

  lemma ClaimLinksNothing(db: Db, env: Env, worker: string, until: Time)
    ensures After(db, ClaimNext(db, env, worker, until)).evidence == db.evidence
    ensures After(db, ClaimNext(db, env, worker, until)).verdicts == db.verdicts
  {}

  lemma AdministrationLinksNothing(db: Db, env: Env, c: Command)
    requires c.DoSetOverride? || c.DoRevoke? || c.DoRescan? || c.DoBaseline?
    ensures Next(db, env, c).evidence == db.evidence && Next(db, env, c).verdicts == db.verdicts
  {}

  lemma NextLinks(db: Db, env: Env, c: Command, id: nat)
    requires Inv(db) && id <= |db.verdicts|
    ensures EvidenceOf(Next(db, env, c).evidence, id) == EvidenceOf(db.evidence, id)
    ensures |db.verdicts| <= |Next(db, env, c).verdicts|
  {
    if !c.DoRecord? {
      OthersLinkNothing(db, env, c);
    } else if RecordVerdict(db, env, c.claim, c.result, c.evidence).Done? {
      RecordWrites(db, env, c.claim, c.result, c.evidence);
      RecordLinks(db, env, c.claim, c.result, c.evidence, id);
    }
  }

  /** The evidence of a verdict is never added to, taken away or handed to another verdict. */
  lemma {:induction false} EvidenceStays(w: World, steps: seq<Step>, id: nat)
    requires WorldInv(w) && FreshRun(w, steps) && id <= |w.db.verdicts|
    ensures EvidenceOf(Run(w, steps).db.evidence, id) == EvidenceOf(w.db.evidence, id)
    decreases |steps|
  {
    if steps != [] {
      var next := Advance(w, steps[0].env, steps[0].command);
      AdvanceKeeps(w, steps[0].env, steps[0].command);
      NextLinks(w.db, steps[0].env, steps[0].command, id);
      EvidenceStays(next, steps[1..], id);
    }
  }

  /** In every state after a verdict was recorded, its evidence is what was recorded with it. */
  lemma EvidenceIsRecorded(w: World, env: Env, claim: Claim, x: VerdictInput, evidence: seq<Evidence>, steps: seq<Step>)
    requires WorldInv(w) && RecordVerdict(w.db, env, claim, x, evidence).Done?
    requires FreshRun(Advance(w, env, DoRecord(claim, x, evidence)), steps)
    ensures var last := Run(Advance(w, env, DoRecord(claim, x, evidence)), steps).db;
            EvidenceOf(last.evidence, |w.db.verdicts| + 1) == evidence
  {
    var next := Advance(w, env, DoRecord(claim, x, evidence));
    AdvanceKeeps(w, env, DoRecord(claim, x, evidence));
    RecordWrites(w.db, env, claim, x, evidence);
    RecordLinks(w.db, env, claim, x, evidence, 0);
    EvidenceStays(next, steps, |w.db.verdicts| + 1);
  }

  // ----- failures -----

  lemma MarkErrorDone(db: Db, env: Env, claim: Claim, message: Diagnostic)
    ensures MarkError(db, env, claim, message).Done? <==>
              ClaimFits(claim) && LeaseInForce(db, claim, env.now) && env.auditUp
  {}

  lemma MarkErrorWrites(db: Db, env: Env, claim: Claim, message: Diagnostic)
    requires MarkError(db, env, claim, message).Done?
    ensures var after, d := MarkError(db, env, claim, message).db, claim.sha256;
            && d in db.artifacts && d in after.artifacts
            && var a, b := db.artifacts[d], after.artifacts[d];
            && b.state == Errored && b.lastError == Some(message) && b.updatedAt == env.now
            && b.leaseOwner == None && b.leaseExpiresAt == None && b.leaseToken == None
            && b.size == a.size && b.discoveredAt == a.discoveredAt
            && b.cooldownStartedAt == a.cooldownStartedAt && b.cooldownUntil == a.cooldownUntil
            && after == db.(artifacts := db.artifacts[d := b], audit := after.audit)
            && Logged(db, after, Event(Standard, AnalysisFailed, d, Deny, Deny, Standard, None, None, env.now))
  {}

  // ----- administration -----

  predicate Finished(db: Db, d: Digest) {
    d in db.artifacts && (db.artifacts[d].state.Judged? || db.artifacts[d].state == Errored)
  }

  predicate SignedBy(actor: string, reason: string) {
    StoredText(actor) && StoredText(reason) && AuditText(actor, 4096) && AuditText(reason, 4096)
  }

  /** The versions of the current verdict, which every administrator's event names. */
  function VersionsOf(db: Db, d: Digest): (Option<string>, Option<string>) {
    var verdict := CurrentRow(db.verdicts, d);
    if verdict.One? then (Some(verdict.row.data.policyVersion), Some(verdict.row.data.analyzerVersion))
    else (None, None)
  }

  predicate VersionsLoggable(db: Db, d: Digest) {
    && (VersionsOf(db, d).0.Some? ==> AuditText(VersionsOf(db, d).0.value, 4096))
    && (VersionsOf(db, d).1.Some? ==> AuditText(VersionsOf(db, d).1.value, 4096))
  }

  lemma ContextOf(db: Db, d: Digest, now: Time)
    requires Inv(db) && d in db.artifacts
    ensures AdminContext(db, d, now).Granted?
    ensures var c := AdminContext(db, d, now).value;
            && c.state == db.artifacts[d].state && c.effective == Effective(db, d, now)
            && (c.policyVersion, c.analyzerVersion) == VersionsOf(db, d)
            && (c.fallback == Allow <==> db.artifacts[d].state == Judged(Allow)) && c.fallback != Review
  {
    assert SliceSound(d, SliceOf(db, d));
  }

  lemma OverrideDone(db: Db, env: Env, d: Digest, o: Override)
    requires Inv(db) && env.auditUp
    ensures SetOverride(db, env, d, o).Done? <==>
              && Finished(db, d) && SignedBy(o.actor, o.reason) && VersionsLoggable(db, d)
              && (o.decision == Allow || o.decision == Deny)
              && (o.expiresAt.Some? ==> o.createdAt < o.expiresAt.value && env.now < o.expiresAt.value)
    ensures SetOverride(db, env, d, o) == Refused(NotFound) <==> OverrideAccepted(o, env.now) && d !in db.artifacts
    ensures SetOverride(db, env, d, o) == Refused(Conflict)
            <==> OverrideAccepted(o, env.now) && d in db.artifacts && !Finished(db, d)
  {
    if d in db.artifacts { ContextOf(db, d, env.now); }
  }

  lemma OverrideWrites(db: Db, env: Env, d: Digest, o: Override)
    requires Inv(db) && SetOverride(db, env, d, o).Done?
    ensures var after := SetOverride(db, env, d, o).db;
            && Superseded(db.overrides, after.overrides, d, o)
            && after == db.(overrides := after.overrides, audit := after.audit)
            && Logged(db, after, Event(Given(o.actor), OverrideSet, d, Effective(db, d, env.now), o.decision,
                                       Given(o.reason), VersionsOf(db, d).0, VersionsOf(db, d).1, env.now))
  {
    ContextOf(db, d, env.now);
    ReplaceWrites(db.overrides, d, o);
  }

  predicate Overridden(db: Db, d: Digest) {
    exists i :: 0 <= i < |db.overrides| && db.overrides[i].isCurrent && db.overrides[i].sha256 == d
  }

  lemma OverriddenExactly(db: Db, d: Digest)
    requires Inv(db)
    ensures Overridden(db, d) <==> CurrentRow(db.overrides, d) != Absent
  {
    AtMostOne(db.overrides, d);
    if i :| 0 <= i < |db.overrides| && db.overrides[i].isCurrent && db.overrides[i].sha256 == d {
      assert CurrentAt(db.overrides, d, i);
    }
    if Currents(db.overrides, d) != [] { assert CurrentAt(db.overrides, d, Currents(db.overrides, d)[0]); }
  }

  lemma RevokeDone(db: Db, env: Env, d: Digest, actor: string, reason: string)
    requires Inv(db) && env.auditUp
    ensures RevokeOverride(db, env, d, actor, reason).Done? <==>
              Finished(db, d) && Overridden(db, d) && SignedBy(actor, reason) && VersionsLoggable(db, d)
    ensures RevokeOverride(db, env, d, actor, reason) == Refused(NotFound)
            <==> StoredText(actor) && StoredText(reason) && d !in db.artifacts
    ensures RevokeOverride(db, env, d, actor, reason) == Refused(Conflict)
            <==> StoredText(actor) && StoredText(reason) && d in db.artifacts && !(Finished(db, d) && Overridden(db, d))
  {
    OverriddenExactly(db, d);
    if d in db.artifacts { ContextOf(db, d, env.now); }
  }

  lemma RevokeWrites(db: Db, env: Env, d: Digest, actor: string, reason: string)
    requires Inv(db) && RevokeOverride(db, env, d, actor, reason).Done?
    ensures d in db.artifacts
    ensures var after := RevokeOverride(db, env, d, actor, reason).db;
            && Retired(db.overrides, after.overrides, d)
            && after == db.(overrides := after.overrides, audit := after.audit)
            && Logged(db, after, Event(Given(actor), OverrideRevoked, d, Effective(db, d, env.now),
                                       if db.artifacts[d].state == Judged(Allow) then Allow else Deny, Given(reason),
                                       VersionsOf(db, d).0, VersionsOf(db, d).1, env.now))
  {
    ContextOf(db, d, env.now);
    RetireWrites(db.overrides, d);
  }

  lemma RescanDone(db: Db, env: Env, d: Digest, actor: string, reason: string)
    requires Inv(db) && env.auditUp
    ensures RequestRescan(db, env, d, actor, reason).Done? <==>
              Finished(db, d) && SignedBy(actor, reason) && VersionsLoggable(db, d)
    ensures RequestRescan(db, env, d, actor, reason) == Refused(NotFound)
            <==> StoredText(actor) && StoredText(reason) && d !in db.artifacts
    ensures RequestRescan(db, env, d, actor, reason) == Refused(Conflict)
            <==> StoredText(actor) && StoredText(reason) && d in db.artifacts && !Finished(db, d)
  {
    if d in db.artifacts { ContextOf(db, d, env.now); }
  }

  /** The artifact waits for analysis again, without override; its cooldown and verdicts stay. */
  lemma RescanWrites(db: Db, env: Env, d: Digest, actor: string, reason: string)
    requires Inv(db) && RequestRescan(db, env, d, actor, reason).Done?
    ensures var after := RequestRescan(db, env, d, actor, reason).db;
            && d in db.artifacts && d in after.artifacts
            && var a, b := db.artifacts[d], after.artifacts[d];
            && b.state == ArtifactState.Discovered && b.updatedAt == env.now && b.lastError == None
            && b.leaseOwner == None && b.leaseExpiresAt == None && b.leaseToken == None
            && b.size == a.size && b.discoveredAt == a.discoveredAt
            && b.cooldownStartedAt == a.cooldownStartedAt && b.cooldownUntil == a.cooldownUntil
            && Retired(db.overrides, after.overrides, d)
            && after == db.(artifacts := db.artifacts[d := b], overrides := after.overrides, audit := after.audit)
            && Logged(db, after, Event(Given(actor), RescanRequested, d, Effective(db, d, env.now), Deny, Given(reason),
                                       VersionsOf(db, d).0, VersionsOf(db, d).1, env.now))
  {
    ContextOf(db, d, env.now);
    RetireWrites(db.overrides, d);
  }

  /** What the gates let through: an unexpired manual ALLOW, or with no override in force an ALLOW whose
      cooldown is over. */
  predicate ServedAt(db: Db, d: Digest, t: Time) {
    && d in db.artifacts
    && var manual := CurrentRow(db.overrides, d);
    if manual.One? && (manual.row.data.expiresAt == None || t < manual.row.data.expiresAt.value)
    then manual.row.data.decision == Allow
    else
      db.artifacts[d].state == Judged(Allow)
      && (db.artifacts[d].cooldownUntil == None || db.artifacts[d].cooldownUntil.value <= t)
  }

  predicate MarkedAs(db: Db, d: Digest, enabled: bool) {
    exists i :: 0 <= i < |db.baselines| && db.baselines[i].isCurrent && db.baselines[i].sha256 == d
                && db.baselines[i].data.enabled == enabled
  }

  lemma MarkedExactly(db: Db, d: Digest, enabled: bool)
    requires Inv(db)
    ensures var current := CurrentRow(db.baselines, d);
            !current.Several? && (MarkedAs(db, d, enabled) <==> current.One? && current.row.data.enabled == enabled)
  {
    AtMostOne(db.baselines, d);
    if i :| 0 <= i < |db.baselines| && db.baselines[i].isCurrent && db.baselines[i].sha256 == d
            && db.baselines[i].data.enabled == enabled {
      assert CurrentAt(db.baselines, d, i);
    }
    if Currents(db.baselines, d) != [] { assert CurrentAt(db.baselines, d, Currents(db.baselines, d)[0]); }
  }

  lemma ServedIsContext(db: Db, d: Digest, now: Time)
    requires Inv(db) && d in db.artifacts
    ensures AdminContext(db, d, now).Granted?
    ensures var c := AdminContext(db, d, now).value;
            c.effective == Allow && c.cooldownFinished <==> ServedAt(db, d, now)
  {
    assert SliceSound(d, SliceOf(db, d));
  }

  /** A mark is turned on only while the artifact is served, and turned off at any time; setting it to
      what it is logs nothing. */
  lemma BaselineDone(db: Db, env: Env, d: Digest, enabled: bool, actor: string, reason: string)
    requires Inv(db) && env.auditUp
    ensures SetBaseline(db, env, d, enabled, actor, reason).Done? <==>
              && d in db.artifacts && (enabled ==> ServedAt(db, d, env.now)) && StoredText(actor) && StoredText(reason)
              && (MarkedAs(db, d, enabled) || (SignedBy(actor, reason) && VersionsLoggable(db, d)))
    ensures SetBaseline(db, env, d, enabled, actor, reason) == Refused(NotFound)
            <==> StoredText(actor) && StoredText(reason) && d !in db.artifacts
    ensures SetBaseline(db, env, d, enabled, actor, reason) == Refused(Conflict)
            <==> StoredText(actor) && StoredText(reason) && d in db.artifacts && enabled && !ServedAt(db, d, env.now)
  {
    MarkedExactly(db, d, enabled);
    if d in db.artifacts {
      ServedIsContext(db, d, env.now);
      ContextOf(db, d, env.now);
    }
  }

  lemma BaselineWrites(db: Db, env: Env, d: Digest, enabled: bool, actor: string, reason: string)
    requires Inv(db) && SetBaseline(db, env, d, enabled, actor, reason).Done?
    ensures var after := SetBaseline(db, env, d, enabled, actor, reason).db;
            if MarkedAs(db, d, enabled) then after == db
            else
              && Superseded(db.baselines, after.baselines, d, BaselineMark(enabled, actor, reason, env.now))
              && after == db.(baselines := after.baselines, audit := after.audit)
              && Logged(db, after, Event(Given(actor), if enabled then BaselineAdded else BaselineRemoved, d,
                                         Effective(db, d, env.now), Effective(db, d, env.now), Given(reason),
                                         VersionsOf(db, d).0, VersionsOf(db, d).1, env.now))
  {
    MarkedExactly(db, d, enabled);
    ContextOf(db, d, env.now);
    ReplaceWrites(db.baselines, d, BaselineMark(enabled, actor, reason, env.now));
  }

  /** The decision in force is ALLOW exactly under an unexpired manual ALLOW or, with no override in
      force, for an artifact judged ALLOW; otherwise it is DENY. */
  lemma EffectiveExactly(db: Db, d: Digest, t: Time)
    requires Inv(db)
    ensures var manual := CurrentRow(db.overrides, d);
            Effective(db, d, t) == Allow <==>
              && d in db.artifacts
              && if manual.One? && (manual.row.data.expiresAt == None || t < manual.row.data.expiresAt.value)
                 then manual.row.data.decision == Allow
                 else db.artifacts[d].state == Judged(Allow)
    ensures Effective(db, d, t) == Allow || Effective(db, d, t) == Deny
  {
    assert SliceSound(d, SliceOf(db, d));
  }
}
