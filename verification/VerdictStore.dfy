/** The nine transactions of the verdict store, each a function from the database before it to the
    database after it, or to the error it raises after rolling everything back. */
module VerdictStore {
  import opened History
  import opened Text
  import opened PersistedState
  import opened VerdictTables

  datatype Error = InvalidInput | NotFound | Conflict | Unavailable

  datatype Outcome<T> = Done(db: Db, value: T) | Refused(error: Error)

  /** What a transaction meets from outside: the clock, the next lease token, and whether the audit
      writer finds the event table intact. */
  datatype Env = Env(now: Time, token: Digest, auditUp: bool)

  function Audited<T>(db: Db, e: Event, auditUp: bool, value: T): Outcome<T> {
    if !EventAccepted(e) then Refused(InvalidInput)
    else if !auditUp then Refused(Unavailable)
    else Done(AddEvent(db, e), value)
  }

  // ----- rows in (time, digest) order -----

  predicate IsEarliest(keys: map<Digest, Time>, d: Digest) {
    d in keys && forall e :: e in keys ==> keys[d] < keys[e] || (keys[d] == keys[e] && d <= e)
  }

  lemma {:induction false} EarliestExists(keys: map<Digest, Time>)
    requires keys != map[]
    ensures exists d :: IsEarliest(keys, d)
    decreases |keys|
  {
    var d :| d in keys;
    var rest := keys - {d};
    assert |rest| < |keys| by { assert rest.Keys == keys.Keys - {d}; }
    if rest == map[] {
      forall e | e in keys ensures e == d { assert e == d || e in rest; }
      assert IsEarliest(keys, d);
    } else {
      EarliestExists(rest);
      var least :| IsEarliest(rest, least);
      forall e | e in keys && e != d ensures e in rest {}
      var best := if keys[d] < keys[least] || (keys[d] == keys[least] && d < least) then d else least;
      assert IsEarliest(keys, best);
    }
  }

  ghost function Earliest(keys: map<Digest, Time>): (d: Digest)
    requires keys != map[]
    ensures IsEarliest(keys, d)
  {
    EarliestExists(keys);
    var d :| IsEarliest(keys, d);
    d
  }

  // ----- discovery -----

  datatype Discovery = Discovery(sha256: Digest, size: int, discoveredAt: Time, release: Release)

  predicate DiscoveryAccepted(x: Discovery) {
    && x.sha256 == x.release.sha256 && 0 <= x.size <= MAX_SQLITE_INTEGER
    && NonBlank(x.release.stage) && NonBlank(x.release.project) && NonBlank(x.release.version)
    && NonBlank(x.release.filename) && NonBlank(x.release.originUrl)
  }

  function NewArtifact(size: int, discoveredAt: Time): Artifact {
    Artifact(size, Discovered, discoveredAt, discoveredAt, None, None, None, None, None, None)
  }

  function FindRelease(releases: seq<Release>, release: Release): (r: Option<nat>)
    ensures r.Some? ==> r.value < |releases| && SameRelease(releases[r.value], release)
    ensures r.None? ==> forall i :: 0 <= i < |releases| ==> !SameRelease(releases[i], release)
  {
    if releases == [] then None
    else if SameRelease(releases[|releases| - 1], release) then Some(|releases| - 1)
    else FindRelease(releases[..|releases| - 1], release)
  }

  function DiscoveredEvent(sha256: Digest, now: Time): Event {
    Event(Standard, ArtifactDiscovered, sha256, Deny, Deny, Standard, None, None, now)
  }

  function Discover(db: Db, env: Env, x: Discovery): Outcome<()> {
    if !DiscoveryAccepted(x) then Refused(InvalidInput)
    else
      var unknown := x.sha256 !in db.artifacts;
      var stored := if unknown then PutArtifact(db, x.sha256, NewArtifact(x.size, x.discoveredAt)) else db;
      var mapped := FindRelease(db.releases, x.release);
      if stored.artifacts[x.sha256].size != x.size then Refused(Conflict)
      else if mapped.Some? && db.releases[mapped.value].originUrl != x.release.originUrl then Refused(Conflict)
      else if mapped.Some? && !unknown then Done(db, ())
      else
        var after := if mapped.Some? then stored else AddRelease(stored, x.release);
        Audited(after, DiscoveredEvent(x.sha256, env.now), env.auditUp, ())
  }

  // ----- leases -----

  datatype Claim = Claim(sha256: Digest, size: int, worker: string, expiresAt: Time, token: Digest)

  function Ready(db: Db): map<Digest, Time> {
    map d | d in db.artifacts && db.artifacts[d].state == Discovered :: db.artifacts[d].discoveredAt
  }

  function Leased(a: Artifact, worker: string, until: Time, token: Digest, now: Time): Artifact {
    a.(state := Scanning, leaseOwner := Some(worker), leaseExpiresAt := Some(until), leaseToken := Some(token),
       updatedAt := now, lastError := None)
  }

  function Released(a: Artifact, state: ArtifactState, error: Option<string>, now: Time): Artifact {
    a.(state := state, leaseOwner := None, leaseExpiresAt := None, leaseToken := None,
       updatedAt := now, lastError := error)
  }

  function ClaimedEvent(sha256: Digest, worker: string, now: Time): Event {
    Event(Given(worker), ArtifactClaimed, sha256, Deny, Deny, Standard, None, None, now)
  }

  ghost function ClaimNext(db: Db, env: Env, worker: string, until: Time): Outcome<Option<Claim>> {
    if !StoredText(worker) || until <= env.now then Refused(InvalidInput)
    else if Ready(db) == map[] then Done(db, None)
    else
      var d := Earliest(Ready(db));
      var a := db.artifacts[d];
      Audited(PutArtifact(db, d, Leased(a, worker, until, env.token, env.now)), ClaimedEvent(d, worker, env.now),
              env.auditUp, Some(Claim(d, a.size, worker, until, env.token)))
  }

  function Lapsed(db: Db, now: Time): map<Digest, Time> {
    map d | d in db.artifacts && db.artifacts[d].state == Scanning && db.artifacts[d].leaseExpiresAt.Some?
            && db.artifacts[d].leaseExpiresAt.value <= now :: db.artifacts[d].leaseExpiresAt.value
  }

  function ExpiredEvent(sha256: Digest, owner: string, now: Time): Event {
    Event(Given(owner), LeaseExpired, sha256, Deny, Deny, Standard, None, None, now)
  }

  /** One row of the recovery loop; a row whose lease columns hold NULL matches no update. */
  function RecoverOne(db: Db, d: Digest, env: Env, count: nat): Outcome<nat>
    requires d in db.artifacts
  {
    var a := db.artifacts[d];
    if a.leaseOwner == None || a.leaseToken == None then Done(db, count)
    else
      Audited(PutArtifact(db, d, Released(a, Discovered, a.lastError, env.now)),
              ExpiredEvent(d, a.leaseOwner.value, env.now), env.auditUp, count + 1)
  }

  ghost function RecoverAll(db: Db, lapsed: map<Digest, Time>, env: Env, count: nat): Outcome<nat>
    requires lapsed.Keys <= db.artifacts.Keys
    decreases |lapsed|
  {
    if lapsed == map[] then Done(db, count)
    else
      var d := Earliest(lapsed);
      var one := RecoverOne(db, d, env, count);
      assert (lapsed - {d}).Keys == lapsed.Keys - {d};
      if one.Refused? then one else RecoverAll(one.db, lapsed - {d}, env, one.value)
  }

  ghost function Recover(db: Db, env: Env): Outcome<nat> {
    RecoverAll(db, Lapsed(db, env.now), env, 0)
  }

  // ----- results -----

  predicate ClaimAccepted(claim: Claim) {
    StoredText(claim.worker) && 0 <= claim.size <= MAX_SQLITE_INTEGER
  }

  /** The claim is the lease the row holds, and it has not run out. */
  predicate Holds(db: Db, claim: Claim, now: Time) {
    && now < claim.expiresAt
    && claim.sha256 in db.artifacts
    && var a := db.artifacts[claim.sha256];
    && a.size == claim.size && a.state == Scanning && a.leaseOwner == Some(claim.worker)
    && a.leaseExpiresAt == Some(claim.expiresAt) && a.leaseToken == Some(claim.token)
  }

  datatype VerdictInput = VerdictInput(sha256: Digest, verdict: Verdict, cooldownUntil: Option<Time>)

  predicate VerdictAccepted(x: VerdictInput) {
    var v := x.verdict;
    && v.score.Finite? && StoredText(v.policyVersion) && StoredText(v.analyzerVersion)
    && v.baseline.Some? == v.baselineTier.Some?
    && (v.baselineTier.Some? ==> KnownTier(v.baselineTier.value))
    && (x.cooldownUntil.Some? ==> v.decision == Allow && v.createdAt < x.cooldownUntil.value)
  }

  const MAX_DETAILS := 1024 * 1024

  predicate EvidenceAccepted(e: Evidence) {
    && StoredText(e.ruleId) && Utf8Length(e.detailsJson) <= MAX_DETAILS
    && (e.line.Some? ==> 0 < e.line.value <= MAX_SQLITE_INTEGER)
  }

  function Coalesce<T>(stored: Option<T>, offered: Option<T>): Option<T> {
    if stored.Some? then stored else offered
  }

  function Concluded(a: Artifact, x: VerdictInput, now: Time): Artifact {
    Released(a, Judged(x.verdict.decision), None, now).(
    cooldownStartedAt := Coalesce(a.cooldownStartedAt,
                                  if x.cooldownUntil.Some? then Some(x.verdict.createdAt) else None),
    cooldownUntil := Coalesce(a.cooldownUntil, x.cooldownUntil))
  }

  function RecordedEvent(x: VerdictInput, now: Time): Event {
    Event(Standard, VerdictRecorded, x.sha256, Deny, if x.verdict.decision == Allow then Allow else Deny, Standard,
          Some(x.verdict.policyVersion), Some(x.verdict.analyzerVersion), now)
  }

  function RecordVerdict(db: Db, env: Env, claim: Claim, x: VerdictInput, evidence: seq<Evidence>): Outcome<()> {
    if !ClaimAccepted(claim) || !VerdictAccepted(x) then Refused(InvalidInput)
    else if x.sha256 != claim.sha256 then Refused(Conflict)
    else if exists i :: 0 <= i < |evidence| && !EvidenceAccepted(evidence[i]) then Refused(InvalidInput)
    else if !Holds(db, claim, env.now) then Refused(Conflict)
    else if x.verdict.baseline.Some? && x.verdict.baseline.value !in db.artifacts then Refused(NotFound)
    else if |Currents(db.verdicts, x.sha256)| > 1 then Refused(Conflict)
    else
      var judged := AddEvidence(PutVerdict(db, x.sha256, x.verdict), |db.verdicts| + 1, evidence);
      Audited(PutArtifact(judged, x.sha256, Concluded(db.artifacts[x.sha256], x, env.now)),
              RecordedEvent(x, env.now), env.auditUp, ())
  }

  function FailedEvent(sha256: Digest, now: Time): Event {
    Event(Standard, AnalysisFailed, sha256, Deny, Deny, Standard, None, None, now)
  }

  function MarkError(db: Db, env: Env, claim: Claim, message: Diagnostic): Outcome<()> {
    if !ClaimAccepted(claim) then Refused(InvalidInput)
    else if !Holds(db, claim, env.now) then Refused(Conflict)
    else
      Audited(PutArtifact(db, claim.sha256, Released(db.artifacts[claim.sha256], Errored, Some(message), env.now)),
              FailedEvent(claim.sha256, env.now), env.auditUp, ())
  }

  // ----- administration -----

  datatype Answer<T> = Granted(value: T) | Denied(error: Error)

  function AdminContext(db: Db, sha256: Digest, now: Time): (r: Answer<Context>)
    ensures r.Granted? ==> |Currents(db.verdicts, sha256)| <= 1 && |Currents(db.overrides, sha256)| <= 1
  {
    if sha256 !in db.artifacts then Denied(NotFound)
    else
      var context := Validate(sha256, db.artifacts[sha256], CurrentRow(db.verdicts, sha256),
                              CurrentRow(db.overrides, sha256), now);
      if context == None then Denied(Unavailable) else Granted(context.value)
  }

  function AdminEvent(actor: string, action: Action, sha256: Digest, c: Context, new_: Decision, reason: string,
                      now: Time): Event
  {
    Event(Given(actor), action, sha256, c.effective, new_, Given(reason), c.policyVersion, c.analyzerVersion, now)
  }

  predicate OverrideAccepted(o: Override, now: Time) {
    && o.decision != Review && StoredText(o.actor) && StoredText(o.reason)
    && (o.expiresAt.Some? ==> o.createdAt < o.expiresAt.value && now < o.expiresAt.value)
  }

  function SetOverride(db: Db, env: Env, sha256: Digest, o: Override): Outcome<()> {
    if !OverrideAccepted(o, env.now) then Refused(InvalidInput)
    else
      var context := AdminContext(db, sha256, env.now);
      if context.Denied? then Refused(context.error)
      else if !Terminal(context.value.state) then Refused(Conflict)
      else
        Audited(PutOverride(db, sha256, o),
                AdminEvent(o.actor, OverrideSet, sha256, context.value, o.decision, o.reason, env.now), env.auditUp, ())
  }

  function RevokeOverride(db: Db, env: Env, sha256: Digest, actor: string, reason: string): Outcome<()> {
    if !StoredText(actor) || !StoredText(reason) then Refused(InvalidInput)
    else
      var context := AdminContext(db, sha256, env.now);
      if context.Denied? then Refused(context.error)
      else if !Terminal(context.value.state) || CurrentRow(db.overrides, sha256) == Absent then Refused(Conflict)
      else
        Audited(DropOverride(db, sha256),
                AdminEvent(actor, OverrideRevoked, sha256, context.value, context.value.fallback, reason, env.now),
                env.auditUp, ())
  }

  function RequestRescan(db: Db, env: Env, sha256: Digest, actor: string, reason: string): Outcome<()> {
    if !StoredText(actor) || !StoredText(reason) then Refused(InvalidInput)
    else
      var context := AdminContext(db, sha256, env.now);
      if context.Denied? then Refused(context.error)
      else if !Terminal(context.value.state) then Refused(Conflict)
      else
        var reset := PutArtifact(db, sha256, Released(db.artifacts[sha256], Discovered, None, env.now));
        Audited(DropOverride(reset, sha256),
                AdminEvent(actor, RescanRequested, sha256, context.value, Deny, reason, env.now), env.auditUp, ())
  }

  function SetBaseline(db: Db, env: Env, sha256: Digest, enabled: bool, actor: string, reason: string): Outcome<()> {
    if !StoredText(actor) || !StoredText(reason) then Refused(InvalidInput)
    else
      var context := AdminContext(db, sha256, env.now);
      if context.Denied? then Refused(context.error)
      else if enabled && !(context.value.effective == Allow && context.value.cooldownFinished) then Refused(Conflict)
      else
        var current := CurrentRow(db.baselines, sha256);
        if current.Several? then Refused(Conflict)
        else if current.One? && current.row.data.enabled == enabled then Done(db, ())
        else
          Audited(PutBaseline(db, sha256, BaselineMark(enabled, actor, reason, env.now)),
                  AdminEvent(actor, if enabled then BaselineAdded else BaselineRemoved, sha256, context.value,
                             context.value.effective, reason, env.now),
                  env.auditUp, ())
  }
}
