/** The rows of one artifact and the executable rule that accepts them and derives the decision
    everyone else enforces. */
module PersistedState {
  import opened History
  import opened Text

  type Time = int  // microseconds since an epoch, UTC; TextOrder relates this to the stored text

  datatype Decision = Allow | Review | Deny

  datatype ArtifactState = Discovered | Scanning | Judged(verdict: Decision) | Errored

  predicate Terminal(s: ArtifactState) {
    s.Judged? || s.Errored?
  }

  datatype Artifact = Artifact(
    size: int,
    state: ArtifactState,
    discoveredAt: Time,
    updatedAt: Time,
    leaseOwner: Option<string>,
    leaseExpiresAt: Option<Time>,
    leaseToken: Option<Digest>,
    lastError: Option<string>,
    cooldownStartedAt: Option<Time>,
    cooldownUntil: Option<Time>)

  datatype Score = Finite(value: real) | NotFinite

  datatype Verdict = Verdict(
    decision: Decision,
    score: Score,
    policyVersion: string,
    analyzerVersion: string,
    baseline: Option<Digest>,
    baselineTier: Option<string>,
    createdAt: Time)

  datatype Override = Override(
    decision: Decision,
    actor: string,
    reason: string,
    createdAt: Time,
    expiresAt: Option<Time>)

  /** What a query for an artifact's current row of one table finds. */
  datatype Lookup<T> = Absent | One(id: nat, row: Row<T>) | Several

  function CurrentRow<T>(rows: seq<Row<T>>, sha256: Digest): Lookup<T> {
    var current := Currents(rows, sha256);
    if current == [] then Absent
    else if |current| == 1 then One(current[0] + 1, rows[current[0]])
    else Several
  }

  const MAX_SQLITE_INTEGER := 0x7fff_ffff_ffff_ffff

  predicate KnownTier(tier: string) {
    tier == "same_tag" || tier == "universal_wheel" || tier == "sdist"
  }

  /** Exactly the scanning artifacts hold a lease, exactly the failed ones an error, and the
      cooldown is a pair. */
  predicate ArtifactSound(a: Artifact) {
    && 0 <= a.size <= MAX_SQLITE_INTEGER
    && (if a.state == Scanning then
          && a.leaseOwner.Some? && StoredText(a.leaseOwner.value)
          && a.leaseExpiresAt.Some? && a.updatedAt < a.leaseExpiresAt.value
          && a.leaseToken.Some?
        else a.leaseOwner == None && a.leaseExpiresAt == None && a.leaseToken == None)
    && (if a.state == Errored then a.lastError.Some? && Storable(a.lastError.value) else a.lastError == None)
    && a.cooldownStartedAt.Some? == a.cooldownUntil.Some?
    && (a.cooldownStartedAt.Some? ==> a.cooldownStartedAt.value < a.cooldownUntil.value)
  }

  predicate VerdictSound(sha256: Digest, state: ArtifactState, found: Lookup<Verdict>) {
    match found
    case Several => false
    case Absent => !state.Judged?
    case One(_, row) =>
      var v := row.data;
      && row.sha256 == sha256 && row.isCurrent
      && v.score.Finite? && StoredText(v.policyVersion) && StoredText(v.analyzerVersion)
      && (v.baselineTier.Some? ==> KnownTier(v.baselineTier.value) && v.baseline.Some?)
      && (state.Judged? ==> state.verdict == v.decision)
  }

  predicate OverrideSound(sha256: Digest, state: ArtifactState, found: Lookup<Override>) {
    match found
    case Several => false
    case Absent => true
    case One(_, row) =>
      var o := row.data;
      && Terminal(state)
      && row.sha256 == sha256 && row.isCurrent
      && o.decision != Review && StoredText(o.actor) && StoredText(o.reason)
      && (o.expiresAt.Some? ==> o.createdAt < o.expiresAt.value)
  }

  datatype Source = Automated | ManualOverride | Missing

  datatype Context = Context(
    state: ArtifactState,
    effective: Decision,
    fallback: Decision,
    source: Source,
    policyVersion: Option<string>,
    analyzerVersion: Option<string>,
    cooldownUntil: Option<Time>,
    cooldownFinished: bool)

  predicate ManualActive(found: Lookup<Override>, asOf: Time) {
    found.One? && (found.row.data.expiresAt == None || asOf < found.row.data.expiresAt.value)
  }

  /** None when the rows are corrupt. */
  function Validate(sha256: Digest, a: Artifact, verdict: Lookup<Verdict>, manual: Lookup<Override>, asOf: Time)
    : (r: Option<Context>)
    ensures r.Some? ==> r.value.effective != Review && r.value.fallback != Review
    ensures r.Some? && r.value.effective == Allow ==>
              ManualActive(manual, asOf)
              || (a.state == Judged(Allow) && verdict.One? && verdict.row.data.decision == Allow)
  {
    if !ArtifactSound(a) || !VerdictSound(sha256, a.state, verdict) || !OverrideSound(sha256, a.state, manual) then None
    else
      var automated := if verdict.One? then Some(verdict.row.data) else None;
      var fallback :=
        if a.state == Judged(Allow) && automated.Some? && automated.value.decision == Allow then Allow else Deny;
      var active := ManualActive(manual, asOf);
      Some(Context(
        a.state,
        if active then manual.row.data.decision else fallback,
        fallback,
        if active then ManualOverride else Automated,
        if automated.Some? then Some(automated.value.policyVersion) else None,
        if automated.Some? then Some(automated.value.analyzerVersion) else None,
        a.cooldownUntil,
        active || a.cooldownUntil == None || a.cooldownUntil.value <= asOf))
  }
}
