/** What every transaction of the verdict store keeps: the persisted-state rule for every artifact
    at every time, the conservation of claims, and an audit log that tells the truth. */
module VerdictInvariants {
  import opened History
  import opened Text
  import opened PersistedState
  import opened VerdictTables
  import opened VerdictStore

  /** Every claim has ended in one recorded verdict, one error or one expiry, or is still running. */
  predicate ClaimsConserved(t: Tallies, scanning: bool) {
    t.claimed == t.recorded + t.failed + t.expired + if scanning then 1 else 0
  }

  predicate SliceSound(sha256: Digest, s: Slice) {
    match s.artifact
    case None => s.verdict == Absent && s.manual == Absent && s.releases == 0 && s.tallies == Tallies(0, 0, 0, 0, 0)
    case Some(a) =>
      && ArtifactSound(a) && VerdictSound(sha256, a.state, s.verdict) && OverrideSound(sha256, a.state, s.manual)
      && s.tallies.discovered == s.releases
      && ClaimsConserved(s.tallies, a.state == Scanning)
      && (a.state == Scanning ==> AuditText(a.leaseOwner.value, 4096))
  }

  ghost predicate DistinctReleases(releases: seq<Release>) {
    forall i, j :: 0 <= i < j < |releases| ==> !SameRelease(releases[i], releases[j])
  }

  ghost predicate EvidenceLinked(db: Db) {
    forall i :: 0 <= i < |db.evidence| ==> 1 <= db.evidence[i].verdictId <= |db.verdicts|
  }

  ghost predicate Inv(db: Db) {
    && Unique(db) && DistinctReleases(db.releases) && EvidenceLinked(db)
    && forall d {:trigger SliceSound(d, SliceOf(db, d))} :: SliceSound(d, SliceOf(db, d))
  }

  /** The decision in force for an artifact: DENY when it is unknown. */
  function EffectiveIn(sha256: Digest, s: Slice, asOf: Time): Decision {
    if s.artifact == None then Deny
    else
      var context := Validate(sha256, s.artifact.value, s.verdict, s.manual, asOf);
      if context == None then Deny else context.value.effective
  }

  function Effective(db: Db, sha256: Digest, asOf: Time): Decision {
    EffectiveIn(sha256, SliceOf(db, sha256), asOf)
  }

  /** The event's decisions are the decisions in force before and after the transaction. */
  predicate Truthful(before: Db, after: Db, e: Event, now: Time) {
    && e.occurredAt == now
    && e.previous == Effective(before, e.sha256, now)
    && e.new_ == Effective(after, e.sha256, now)
  }

  /** The contract of a transaction on one artifact that appends `events` to the log. */
  ghost predicate Transacts(before: Db, after: Db, sha256: Digest, events: seq<Event>) {
    && Inv(after) && Grows(before, after) && OnlyTouches(before, after, sha256)
    && after.audit == before.audit + events
    && forall i :: 0 <= i < |events| ==> events[i].sha256 == sha256
  }

  /** A transaction on one artifact whose only event is truthful. */
  ghost predicate Logs(before: Db, after: Db, sha256: Digest, action: Action, now: Time) {
    exists e :: Transacts(before, after, sha256, [e]) && Truthful(before, after, e, now) && e.action == action
  }

  lemma SoundAlways(db: Db, sha256: Digest, asOf: Time)
    requires Inv(db) && sha256 in db.artifacts
    ensures Validate(sha256, db.artifacts[sha256], CurrentRow(db.verdicts, sha256), CurrentRow(db.overrides, sha256),
                     asOf).Some?
  {
    assert SliceSound(sha256, SliceOf(db, sha256));
  }

  lemma EmptySound()
    ensures Inv(EMPTY)
  {
    forall d ensures SliceSound(d, SliceOf(EMPTY, d)) {
      NoneCurrent(EMPTY.verdicts, d);
      NoneCurrent(EMPTY.overrides, d);
    }
  }

  lemma Preserved(before: Db, after: Db, sha256: Digest)
    requires Inv(before) && Unique(after) && DistinctReleases(after.releases) && EvidenceLinked(after)
    requires OnlyTouches(before, after, sha256) && SliceSound(sha256, SliceOf(after, sha256))
    ensures Inv(after)
  {
    forall d ensures SliceSound(d, SliceOf(after, d)) {
      assert SliceSound(d, SliceOf(before, d));
    }
  }

  lemma TouchesTransitive(a: Db, b: Db, c: Db, sha256: Digest)
    requires OnlyTouches(a, b, sha256) && OnlyTouches(b, c, sha256) && Grows(a, b) && Grows(b, c)
    ensures OnlyTouches(a, c, sha256) && Grows(a, c)
  {
    GrowsTransitive(a, b, c);
    forall d | d != sha256 ensures SliceOf(c, d) == SliceOf(a, d) {
      assert SliceOf(b, d) == SliceOf(a, d);
    }
  }

  /** Appending the event of a change to one artifact. */
  lemma EventAppended(before: Db, changed: Db, e: Event)
    requires Inv(before) && Unique(changed) && DistinctReleases(changed.releases) && EvidenceLinked(changed)
    requires Grows(before, changed) && OnlyTouches(before, changed, e.sha256) && changed.audit == before.audit
    requires var s := SliceOf(changed, e.sha256);
             SliceSound(e.sha256, s.(tallies := Counted(s.tallies, e.action)))
    ensures var after := AddEvent(changed, e);
            && Transacts(before, after, e.sha256, [e])
            && forall t :: Effective(after, e.sha256, t) == Effective(changed, e.sha256, t)
  {
    AddEventSlices(changed, e);
    var after := AddEvent(changed, e);
    TouchesTransitive(before, changed, after, e.sha256);
    Preserved(before, after, e.sha256);
  }

  // ----- one artifact's rows through each transaction -----

  lemma ClaimSlice(d: Digest, s: Slice, worker: string, until: Time, token: Digest, now: Time)
    requires SliceSound(d, s) && s.artifact.Some? && s.artifact.value.state == Discovered
    requires StoredText(worker) && AuditText(worker, 4096) && now < until
    ensures var after := s.(artifact := Some(Leased(s.artifact.value, worker, until, token, now)));
            && SliceSound(d, after.(tallies := Counted(s.tallies, ArtifactClaimed)))
            && EffectiveIn(d, s, now) == Deny == EffectiveIn(d, after, now)
  {}

  lemma ReleaseSlice(d: Digest, s: Slice, now: Time)
    requires SliceSound(d, s) && s.artifact.Some? && s.artifact.value.state == Scanning
    ensures var after := s.(artifact := Some(Released(s.artifact.value, Discovered, None, now)));
            && SliceSound(d, after.(tallies := Counted(s.tallies, LeaseExpired)))
            && EffectiveIn(d, s, now) == Deny == EffectiveIn(d, after, now)
  {}

  lemma ErrorSlice(d: Digest, s: Slice, message: Diagnostic, now: Time)
    requires SliceSound(d, s) && s.artifact.Some? && s.artifact.value.state == Scanning
    ensures var after := s.(artifact := Some(Released(s.artifact.value, Errored, Some(message), now)));
            && SliceSound(d, after.(tallies := Counted(s.tallies, AnalysisFailed)))
            && EffectiveIn(d, s, now) == Deny == EffectiveIn(d, after, now)
  {
    assert Storable(message);
  }

  lemma JudgedSlice(d: Digest, s: Slice, x: VerdictInput, id: nat, now: Time)
    requires SliceSound(d, s) && s.artifact.Some? && s.artifact.value.state == Scanning
    requires VerdictAccepted(x)
    ensures var after := s.(artifact := Some(Concluded(s.artifact.value, x, now)),
                            verdict := One(id, Row(d, x.verdict, true)));
            && SliceSound(d, after.(tallies := Counted(s.tallies, VerdictRecorded)))
            && EffectiveIn(d, s, now) == Deny
            && EffectiveIn(d, after, now) == if x.verdict.decision == Allow then Allow else Deny
  {}

  lemma RescanSlice(d: Digest, s: Slice, now: Time)
    requires SliceSound(d, s) && s.artifact.Some? && Terminal(s.artifact.value.state)
    ensures var after := s.(artifact := Some(Released(s.artifact.value, Discovered, None, now)), manual := Absent);
            && SliceSound(d, after)
            && EffectiveIn(d, after, now) == Deny
  {}

  lemma RevokedSlice(d: Digest, s: Slice, now: Time)
    requires SliceSound(d, s) && s.artifact.Some?
    ensures var after := s.(manual := Absent);
            && SliceSound(d, after)
            && Validate(d, s.artifact.value, s.verdict, s.manual, now).Some?
            && EffectiveIn(d, after, now) == Validate(d, s.artifact.value, s.verdict, s.manual, now).value.fallback
  {}

  lemma OverriddenSlice(d: Digest, s: Slice, o: Override, id: nat, now: Time)
    requires SliceSound(d, s) && s.artifact.Some? && Terminal(s.artifact.value.state)
    requires OverrideAccepted(o, now)
    ensures var after := s.(manual := One(id, Row(d, o, true)));
            SliceSound(d, after) && EffectiveIn(d, after, now) == o.decision
  {}

  // ----- the transactions -----

  /** A transaction that rewrites one artifact row and logs it. */
  lemma RowRewritten(db: Db, d: Digest, a: Artifact, e: Event)
    requires Inv(db) && d in db.artifacts && ArtifactGrows(db.artifacts[d], a) && e.sha256 == d
    requires var s := SliceOf(db, d);
             SliceSound(d, s.(artifact := Some(a)).(tallies := Counted(s.tallies, e.action)))
    ensures var after := AddEvent(PutArtifact(db, d, a), e);
            && Transacts(db, after, d, [e])
            && forall t :: Effective(after, d, t) == EffectiveIn(d, SliceOf(db, d).(artifact := Some(a)), t)
  {
    PutArtifactSlices(db, d, a);
    EventAppended(db, PutArtifact(db, d, a), e);
  }

  lemma {:induction false} ReleaseCounted(releases: seq<Release>, i: nat)
    requires i < |releases|
    ensures ReleasesOf(releases, releases[i].sha256) > 0
  {
    if i < |releases| - 1 { ReleaseCounted(releases[..|releases| - 1], i); }
  }

  /** The artifact row a discovery finds or makes. */
  function Stored(db: Db, x: Discovery): Db {
    if x.sha256 in db.artifacts then db else PutArtifact(db, x.sha256, NewArtifact(x.size, x.discoveredAt))
  }

  lemma StoredSlices(db: Db, x: Discovery)
    requires Inv(db) && DiscoveryAccepted(x)
    ensures var stored := Stored(db, x);
            && Unique(stored) && Grows(db, stored) && OnlyTouches(db, stored, x.sha256)
            && var s := SliceOf(stored, x.sha256);
            && SliceSound(x.sha256, s)
            && forall t :: EffectiveIn(x.sha256, s, t) == Effective(db, x.sha256, t)
  {
    assert SliceSound(x.sha256, SliceOf(db, x.sha256));
    if x.sha256 !in db.artifacts { PutArtifactSlices(db, x.sha256, NewArtifact(x.size, x.discoveredAt)); }
  }

  lemma ReleaseAdded(db: Db, x: Discovery, now: Time)
    requires Inv(db) && DiscoveryAccepted(x) && FindRelease(db.releases, x.release) == None
    ensures var after := AddEvent(AddRelease(Stored(db, x), x.release), DiscoveredEvent(x.sha256, now));
            && Transacts(db, after, x.sha256, [DiscoveredEvent(x.sha256, now)])
            && forall t :: Effective(after, x.sha256, t) == Effective(db, x.sha256, t)
  {
    StoredSlices(db, x);
    AddReleaseSlices(Stored(db, x), x.release);
    var mapped := AddRelease(Stored(db, x), x.release);
    TouchesTransitive(db, Stored(db, x), mapped, x.sha256);
    EventAppended(db, mapped, DiscoveredEvent(x.sha256, now));
  }

  /** Either nothing was new, or a release was, perhaps with its artifact, and one event says so. */
  lemma DiscoverTransacts(db: Db, env: Env, x: Discovery)
    requires Inv(db) && Discover(db, env, x).Done?
    ensures var after := Discover(db, env, x).db;
            if FindRelease(db.releases, x.release).Some?
            then after == db
            else
              && Transacts(db, after, x.sha256, [DiscoveredEvent(x.sha256, env.now)])
              && after.releases == db.releases + [x.release] && after.verdicts == db.verdicts
              && x.sha256 in after.artifacts && after.artifacts[x.sha256].size == x.size
              && after.artifacts == (if x.sha256 in db.artifacts then db.artifacts
                                     else db.artifacts[x.sha256 := NewArtifact(x.size, x.discoveredAt)])
              && forall t :: Effective(after, x.sha256, t) == Effective(db, x.sha256, t)
  {
    var d := x.sha256;
    var mapped := FindRelease(db.releases, x.release);
    if mapped.Some? {
      ReleaseCounted(db.releases, mapped.value);
      assert SliceSound(d, SliceOf(db, d));
    } else {
      ReleaseAdded(db, x, env.now);
    }
  }

  lemma ClaimTransacts(db: Db, env: Env, worker: string, until: Time)
    requires Inv(db) && ClaimNext(db, env, worker, until).Done?
    ensures var r := ClaimNext(db, env, worker, until);
            if r.value == None then r.db == db && forall d :: d in db.artifacts ==> db.artifacts[d].state != Discovered
            else
              var c := r.value.value;
              && Ready(db) != map[] && c.sha256 == Earliest(Ready(db)) && c.token == env.token
              && Holds(r.db, c, env.now)
              && r.db.artifacts == db.artifacts[c.sha256 := r.db.artifacts[c.sha256]]
              && Transacts(db, r.db, c.sha256, [ClaimedEvent(c.sha256, worker, env.now)])
              && Truthful(db, r.db, ClaimedEvent(c.sha256, worker, env.now), env.now)
  {
    if Ready(db) == map[] {
      forall d | d in db.artifacts ensures db.artifacts[d].state != Discovered { assert d !in Ready(db); }
    } else {
      var d := Earliest(Ready(db));
      ClaimSlice(d, SliceOf(db, d), worker, until, env.token, env.now);
      RowRewritten(db, d, Leased(db.artifacts[d], worker, until, env.token, env.now), ClaimedEvent(d, worker, env.now));
    }
  }

  /** Recovering a lease cannot fail on its own account: its owner already passed the audit rule. */
  lemma RecoverOneSucceeds(db: Db, d: Digest, env: Env, count: nat)
    requires Inv(db) && d in db.artifacts && db.artifacts[d].state == Scanning
    ensures RecoverOne(db, d, env, count).Done? <==> env.auditUp
  {
    assert SliceSound(d, SliceOf(db, d));
  }

  lemma RecoverOneTransacts(db: Db, d: Digest, env: Env, count: nat)
    requires Inv(db) && d in db.artifacts && db.artifacts[d].state == Scanning
    requires RecoverOne(db, d, env, count).Done?
    ensures var r := RecoverOne(db, d, env, count);
            && r.value == count + 1 && db.artifacts[d].leaseOwner.Some?
            && r.db.artifacts == db.artifacts[d := Released(db.artifacts[d], Discovered, None, env.now)]
            && Transacts(db, r.db, d, [ExpiredEvent(d, db.artifacts[d].leaseOwner.value, env.now)])
            && Truthful(db, r.db, ExpiredEvent(d, db.artifacts[d].leaseOwner.value, env.now), env.now)
  {
    var a := db.artifacts[d];
    var s := SliceOf(db, d);
    assert SliceSound(d, s);
    assert a.leaseOwner.Some? && a.leaseToken.Some? && a.lastError == None;
    ReleaseSlice(d, s, env.now);
    RowRewritten(db, d, Released(a, Discovered, None, env.now), ExpiredEvent(d, a.leaseOwner.value, env.now));
  }

  lemma MarkErrorTransacts(db: Db, env: Env, claim: Claim, message: Diagnostic)
    requires Inv(db) && MarkError(db, env, claim, message).Done?
    ensures var after := MarkError(db, env, claim, message).db;
            && Holds(db, claim, env.now)
            && after.artifacts == db.artifacts[claim.sha256 :=
                                    Released(db.artifacts[claim.sha256], Errored, Some(message), env.now)]
            && Transacts(db, after, claim.sha256, [FailedEvent(claim.sha256, env.now)])
            && Truthful(db, after, FailedEvent(claim.sha256, env.now), env.now)
  {
    var d := claim.sha256;
    ErrorSlice(d, SliceOf(db, d), message, env.now);
    RowRewritten(db, d, Released(db.artifacts[d], Errored, Some(message), env.now), FailedEvent(d, env.now));
  }

  lemma VerdictWritten(db: Db, x: VerdictInput, evidence: seq<Evidence>, now: Time)
    requires Inv(db) && x.sha256 in db.artifacts && db.artifacts[x.sha256].state == Scanning && VerdictAccepted(x)
    ensures |Currents(db.verdicts, x.sha256)| <= 1
    ensures var judged := AddEvidence(PutVerdict(db, x.sha256, x.verdict), |db.verdicts| + 1, evidence);
            var changed := PutArtifact(judged, x.sha256, Concluded(db.artifacts[x.sha256], x, now));
            && Unique(changed) && EvidenceLinked(changed) && Grows(db, changed) && OnlyTouches(db, changed, x.sha256)
            && SliceOf(changed, x.sha256) == SliceOf(db, x.sha256).(
                  artifact := Some(Concluded(db.artifacts[x.sha256], x, now)),
                  verdict := One(|db.verdicts| + 1, Row(x.sha256, x.verdict, true)))
  {
    var d, n := x.sha256, |db.verdicts|;
    PutVerdictSlices(db, d, x.verdict);
    var put := PutVerdict(db, d, x.verdict);
    AddEvidenceSlices(put, n + 1, evidence);
    var judged := AddEvidence(put, n + 1, evidence);
    var a := Concluded(db.artifacts[d], x, now);
    PutArtifactSlices(judged, d, a);
    TouchesTransitive(db, put, judged, d);
    TouchesTransitive(db, judged, PutArtifact(judged, d, a), d);
  }

  lemma RecordTransacts(db: Db, env: Env, claim: Claim, x: VerdictInput, evidence: seq<Evidence>)
    requires Inv(db) && RecordVerdict(db, env, claim, x, evidence).Done?
    ensures var after := RecordVerdict(db, env, claim, x, evidence).db;
            && Holds(db, claim, env.now) && x.sha256 == claim.sha256
            && after.artifacts == db.artifacts[x.sha256 := Concluded(db.artifacts[x.sha256], x, env.now)]
            && CurrentRow(after.verdicts, x.sha256) == One(|db.verdicts| + 1, Row(x.sha256, x.verdict, true))
            && Transacts(db, after, x.sha256, [RecordedEvent(x, env.now)])
            && Truthful(db, after, RecordedEvent(x, env.now), env.now)
  {
    var d, n := x.sha256, |db.verdicts|;
    VerdictWritten(db, x, evidence, env.now);
    JudgedSlice(d, SliceOf(db, d), x, n + 1, env.now);
    var judged := AddEvidence(PutVerdict(db, d, x.verdict), n + 1, evidence);
    EventAppended(db, PutArtifact(judged, d, Concluded(db.artifacts[d], x, env.now)), RecordedEvent(x, env.now));
  }

  lemma ContextInForce(db: Db, d: Digest, now: Time)
    requires AdminContext(db, d, now).Granted?
    ensures Effective(db, d, now) == AdminContext(db, d, now).value.effective
    ensures d in db.artifacts && db.artifacts[d].state == AdminContext(db, d, now).value.state
    ensures var s := SliceOf(db, d);
            s.artifact.Some? && Validate(d, s.artifact.value, s.verdict, s.manual, now)
                                == Some(AdminContext(db, d, now).value)
  {}

  /** An administrator's change, logged with the decision in force before it. */
  lemma Administered(db: Db, changed: Db, e: Event, now: Time)
    requires Inv(db) && Unique(changed) && Grows(db, changed) && OnlyTouches(db, changed, e.sha256)
    requires changed.releases == db.releases && changed.audit == db.audit
    requires changed.verdicts == db.verdicts && changed.evidence == db.evidence
    requires forall t :: Counted(t, e.action) == t
    requires SliceSound(e.sha256, SliceOf(changed, e.sha256))
    requires e.occurredAt == now
    requires e.previous == Effective(db, e.sha256, now) && e.new_ == Effective(changed, e.sha256, now)
    ensures var after := AddEvent(changed, e);
            Logs(db, after, e.sha256, e.action, now)
  {
    assert Counted(SliceOf(changed, e.sha256).tallies, e.action) == SliceOf(changed, e.sha256).tallies;
    EventAppended(db, changed, e);
  }

  lemma OverridePut(db: Db, d: Digest, o: Override, now: Time)
    requires Inv(db) && d in db.artifacts && Terminal(db.artifacts[d].state) && OverrideAccepted(o, now)
    ensures |Currents(db.overrides, d)| <= 1
    ensures var changed := PutOverride(db, d, o);
            && Unique(changed) && Grows(db, changed) && OnlyTouches(db, changed, d)
            && SliceSound(d, SliceOf(changed, d)) && Effective(changed, d, now) == o.decision
  {
    OverriddenSlice(d, SliceOf(db, d), o, |db.overrides| + 1, now);
    PutOverrideSlices(db, d, o);
  }

  lemma SetOverrideDone(db: Db, env: Env, d: Digest, o: Override) returns (c: Context)
    requires SetOverride(db, env, d, o).Done?
    ensures |Currents(db.overrides, d)| <= 1
    ensures SetOverride(db, env, d, o).db
            == AddEvent(PutOverride(db, d, o), AdminEvent(o.actor, OverrideSet, d, c, o.decision, o.reason, env.now))
    ensures d in db.artifacts && Terminal(db.artifacts[d].state) && OverrideAccepted(o, env.now)
    ensures c.effective == Effective(db, d, env.now)
  {
    ContextInForce(db, d, env.now);
    c := AdminContext(db, d, env.now).value;
  }

  lemma SetOverrideTransacts(db: Db, env: Env, sha256: Digest, o: Override)
    requires Inv(db) && SetOverride(db, env, sha256, o).Done?
    ensures Logs(db, SetOverride(db, env, sha256, o).db, sha256, OverrideSet, env.now)
  {
    var c := SetOverrideDone(db, env, sha256, o);
    OverridePut(db, sha256, o, env.now);
    Administered(db, PutOverride(db, sha256, o),
                 AdminEvent(o.actor, OverrideSet, sha256, c, o.decision, o.reason, env.now), env.now);
  }

  lemma OverrideDropped(db: Db, d: Digest, now: Time)
    requires Inv(db) && AdminContext(db, d, now).Granted?
    ensures |Currents(db.overrides, d)| <= 1
    ensures var changed := DropOverride(db, d);
            && Unique(changed) && Grows(db, changed) && OnlyTouches(db, changed, d)
            && SliceSound(d, SliceOf(changed, d))
            && Effective(changed, d, now) == AdminContext(db, d, now).value.fallback
  {
    ContextInForce(db, d, now);
    RevokedSlice(d, SliceOf(db, d), now);
    DropOverrideSlices(db, d);
  }

  lemma RevokeDone(db: Db, env: Env, d: Digest, actor: string, reason: string) returns (c: Context)
    requires RevokeOverride(db, env, d, actor, reason).Done?
    ensures AdminContext(db, d, env.now) == Granted(c)
    ensures RevokeOverride(db, env, d, actor, reason).db
            == AddEvent(DropOverride(db, d), AdminEvent(actor, OverrideRevoked, d, c, c.fallback, reason, env.now))
    ensures c.effective == Effective(db, d, env.now)
  {
    ContextInForce(db, d, env.now);
    c := AdminContext(db, d, env.now).value;
  }

  lemma RevokeTransacts(db: Db, env: Env, sha256: Digest, actor: string, reason: string)
    requires Inv(db) && RevokeOverride(db, env, sha256, actor, reason).Done?
    ensures Logs(db, RevokeOverride(db, env, sha256, actor, reason).db, sha256, OverrideRevoked, env.now)
  {
    var c := RevokeDone(db, env, sha256, actor, reason);
    OverrideDropped(db, sha256, env.now);
    Administered(db, DropOverride(db, sha256),
                 AdminEvent(actor, OverrideRevoked, sha256, c, c.fallback, reason, env.now), env.now);
  }

  lemma RescanWritten(db: Db, d: Digest, now: Time)
    requires Inv(db) && d in db.artifacts && Terminal(db.artifacts[d].state)
    ensures |Currents(db.overrides, d)| <= 1
    ensures var a := Released(db.artifacts[d], Discovered, None, now);
            var changed := DropOverride(PutArtifact(db, d, a), d);
            && Unique(changed) && Grows(db, changed) && OnlyTouches(db, changed, d)
            && SliceSound(d, SliceOf(changed, d)) && Effective(changed, d, now) == Deny
  {
    var a := Released(db.artifacts[d], Discovered, None, now);
    RescanSlice(d, SliceOf(db, d), now);
    PutArtifactSlices(db, d, a);
    var reset := PutArtifact(db, d, a);
    DropOverrideSlices(reset, d);
    TouchesTransitive(db, reset, DropOverride(reset, d), d);
  }

  lemma RescanDone(db: Db, env: Env, d: Digest, actor: string, reason: string) returns (c: Context)
    requires RequestRescan(db, env, d, actor, reason).Done?
    ensures |Currents(db.overrides, d)| <= 1
    ensures d in db.artifacts && Terminal(db.artifacts[d].state)
    ensures RequestRescan(db, env, d, actor, reason).db
            == AddEvent(DropOverride(PutArtifact(db, d, Released(db.artifacts[d], Discovered, None, env.now)), d),
                        AdminEvent(actor, RescanRequested, d, c, Deny, reason, env.now))
    ensures c.effective == Effective(db, d, env.now)
  {
    ContextInForce(db, d, env.now);
    c := AdminContext(db, d, env.now).value;
  }

  lemma RescanTransacts(db: Db, env: Env, sha256: Digest, actor: string, reason: string)
    requires Inv(db) && RequestRescan(db, env, sha256, actor, reason).Done?
    ensures Logs(db, RequestRescan(db, env, sha256, actor, reason).db, sha256, RescanRequested, env.now)
  {
    var c := RescanDone(db, env, sha256, actor, reason);
    RescanWritten(db, sha256, env.now);
    var reset := PutArtifact(db, sha256, Released(db.artifacts[sha256], Discovered, None, env.now));
    Administered(db, DropOverride(reset, sha256),
                 AdminEvent(actor, RescanRequested, sha256, c, Deny, reason, env.now), env.now);
  }

  lemma BaselineMarked(db: Db, c: Context, mark: BaselineMark, e: Event, now: Time)
    requires Inv(db) && AdminContext(db, e.sha256, now) == Granted(c)
    requires e.action.BaselineAdded? || e.action.BaselineRemoved?
    requires e.occurredAt == now && e.previous == e.new_ == c.effective
    ensures |Currents(db.baselines, e.sha256)| <= 1
    ensures var after := AddEvent(PutBaseline(db, e.sha256, mark), e);
            Logs(db, after, e.sha256, e.action, now)
  {
    ContextInForce(db, e.sha256, now);
    PutBaselineSlices(db, e.sha256, mark);
    assert SliceSound(e.sha256, SliceOf(db, e.sha256));
    Administered(db, PutBaseline(db, e.sha256, mark), e, now);
  }

  lemma SetBaselineDone(db: Db, env: Env, d: Digest, enabled: bool, actor: string, reason: string)
    requires Inv(db) && SetBaseline(db, env, d, enabled, actor, reason).Done?
    requires SetBaseline(db, env, d, enabled, actor, reason).db != db
    ensures AdminContext(db, d, env.now).Granted? && |Currents(db.baselines, d)| <= 1
    ensures var c := AdminContext(db, d, env.now).value;
            SetBaseline(db, env, d, enabled, actor, reason).db
            == AddEvent(PutBaseline(db, d, BaselineMark(enabled, actor, reason, env.now)),
                        AdminEvent(actor, if enabled then BaselineAdded else BaselineRemoved, d, c, c.effective, reason,
                                   env.now))
  {}

  lemma SetBaselineTransacts(db: Db, env: Env, sha256: Digest, enabled: bool, actor: string, reason: string)
    requires Inv(db) && SetBaseline(db, env, sha256, enabled, actor, reason).Done?
    ensures var after := SetBaseline(db, env, sha256, enabled, actor, reason).db;
            after == db || Logs(db, after, sha256, if enabled then BaselineAdded else BaselineRemoved, env.now)
  {
    if SetBaseline(db, env, sha256, enabled, actor, reason).db != db {
      SetBaselineDone(db, env, sha256, enabled, actor, reason);
      var c := AdminContext(db, sha256, env.now).value;
      var e := AdminEvent(actor, if enabled then BaselineAdded else BaselineRemoved, sha256, c, c.effective, reason,
                          env.now);
      BaselineMarked(db, c, BaselineMark(enabled, actor, reason, env.now), e, env.now);
    }
  }

  // ----- what an administrator's command leaves in force -----

  lemma EventDecidesNothing(db: Db, e: Event, d: Digest, t: Time)
    ensures Effective(AddEvent(db, e), d, t) == Effective(db, d, t)
  {}

  lemma WithoutOverride(db: Db, d: Digest, t: Time)
    requires Inv(db) && CurrentRow(db.overrides, d) == Absent
    ensures Effective(db, d, t) == if d in db.artifacts && db.artifacts[d].state == Judged(Allow) then Allow else Deny
  {
    assert SliceSound(d, SliceOf(db, d));
  }

  /** After a revocation the automated decision is in force, now and later: ALLOW exactly for an
      artifact judged ALLOW.  Its rows and verdicts are as before. */
  lemma RevokeRestores(db: Db, env: Env, d: Digest, actor: string, reason: string, t: Time)
    requires Inv(db) && RevokeOverride(db, env, d, actor, reason).Done?
    ensures AdminContext(db, d, env.now).Granted? && d in db.artifacts
    ensures var after := RevokeOverride(db, env, d, actor, reason).db;
            && after.artifacts == db.artifacts && after.verdicts == db.verdicts
            && CurrentRow(after.overrides, d) == Absent
            && Effective(after, d, t) == AdminContext(db, d, env.now).value.fallback
            && (Effective(after, d, t) == Allow <==> db.artifacts[d].state == Judged(Allow))
  {
    var c := RevokeDone(db, env, d, actor, reason);
    ContextInForce(db, d, env.now);
    DropOverrideSlices(db, d);
    RevokeTransacts(db, env, d, actor, reason);
    LogsKeep(db, RevokeOverride(db, env, d, actor, reason).db, d, OverrideRevoked, env.now);
    WithoutOverride(RevokeOverride(db, env, d, actor, reason).db, d, t);
  }

  lemma LogsKeep(before: Db, after: Db, d: Digest, action: Action, now: Time)
    requires Logs(before, after, d, action, now)
    ensures Inv(after)
  {}

  /** After a rescan request DENY is in force until the next verdict; verdicts and cooldown are kept. */
  lemma RescanResets(db: Db, env: Env, d: Digest, actor: string, reason: string, t: Time)
    requires Inv(db) && RequestRescan(db, env, d, actor, reason).Done?
    ensures var after := RequestRescan(db, env, d, actor, reason).db;
            && d in db.artifacts && after.verdicts == db.verdicts
            && after.artifacts == db.artifacts[d := Released(db.artifacts[d], Discovered, None, env.now)]
            && after.artifacts[d].cooldownStartedAt == db.artifacts[d].cooldownStartedAt
            && after.artifacts[d].cooldownUntil == db.artifacts[d].cooldownUntil
            && CurrentRow(after.overrides, d) == Absent && Effective(after, d, t) == Deny
  {
    var c := RescanDone(db, env, d, actor, reason);
    var reset := PutArtifact(db, d, Released(db.artifacts[d], Discovered, None, env.now));
    PutArtifactSlices(db, d, Released(db.artifacts[d], Discovered, None, env.now));
    DropOverrideSlices(reset, d);
    RescanTransacts(db, env, d, actor, reason);
    LogsKeep(db, RequestRescan(db, env, d, actor, reason).db, d, RescanRequested, env.now);
    WithoutOverride(RequestRescan(db, env, d, actor, reason).db, d, t);
  }

  /** A baseline mark changes no decision, of any artifact, at any time. */
  lemma BaselineDecidesNothing(db: Db, env: Env, sha256: Digest, enabled: bool, actor: string, reason: string,
                               d: Digest, t: Time)
    requires Inv(db) && SetBaseline(db, env, sha256, enabled, actor, reason).Done?
    ensures Effective(SetBaseline(db, env, sha256, enabled, actor, reason).db, d, t) == Effective(db, d, t)
  {
    if SetBaseline(db, env, sha256, enabled, actor, reason).db != db {
      SetBaselineDone(db, env, sha256, enabled, actor, reason);
      var c := AdminContext(db, sha256, env.now).value;
      var marked := PutBaseline(db, sha256, BaselineMark(enabled, actor, reason, env.now));
      EventDecidesNothing(marked, AdminEvent(actor, if enabled then BaselineAdded else BaselineRemoved, sha256, c,
                                             c.effective, reason, env.now), d, t);
    }
  }
}
