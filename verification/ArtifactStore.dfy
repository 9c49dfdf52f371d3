/** The store as it runs: tables updated statement by statement inside a transaction that is rolled
    back on any refusal.  Each operation is proved to be the transaction VerdictStore specifies. */
module ArtifactStore {
  import opened History
  import opened Text
  import opened PersistedState
  import opened VerdictTables
  import opened VerdictStore

  datatype Result<T> = Ok(value: T) | Err(error: Error)

  ghost predicate Agrees<T>(before: Db, spec: Outcome<T>, after: Db, r: Result<T>) {
    match spec
    case Done(db, value) => after == db && r == Ok(value)
    case Refused(error) => after == before && r == Err(error)
  }

  lemma EarliestUnique(keys: map<Digest, Time>, d: Digest)
    requires IsEarliest(keys, d)
    ensures d == Earliest(keys)
  {}

  /** ORDER BY time, digest LIMIT 1. */
  method FirstRow(keys: map<Digest, Time>) returns (d: Digest)
    requires keys != map[]
    ensures d == Earliest(keys)
  {
    d :| d in keys;
    var rest := keys.Keys - {d};
    while rest != {}
      invariant rest <= keys.Keys && d in keys && d !in rest
      invariant forall e :: e in keys.Keys - rest ==> keys[d] < keys[e] || (keys[d] == keys[e] && d <= e)
      decreases |rest|
    {
      var e :| e in rest;
      if keys[e] < keys[d] || (keys[e] == keys[d] && e < d) { d := e; }
      rest := rest - {e};
    }
    assert IsEarliest(keys, d);
    EarliestUnique(keys, d);
  }

  class Store {
    var artifacts: map<Digest, Artifact>
    var releases: seq<Release>
    var verdicts: seq<Row<Verdict>>
    var evidence: seq<EvidenceRow>
    var overrides: seq<Row<Override>>
    var baselines: seq<Row<BaselineMark>>
    var audit: seq<Event>

    function State(): Db
      reads this
    {
      Db(artifacts, releases, verdicts, evidence, overrides, baselines, audit)
    }

    constructor ()
      ensures State() == EMPTY
    {
      artifacts, releases, verdicts, evidence, overrides, baselines, audit := map[], [], [], [], [], [], [];
    }

    method Rollback(start: Db)
      modifies this
      ensures State() == start
    {
      artifacts, releases, verdicts := start.artifacts, start.releases, start.verdicts;
      evidence, overrides, baselines, audit := start.evidence, start.overrides, start.baselines, start.audit;
    }

    /** Appends the event and commits, or rolls the transaction back to its start. */
    method Commit<T>(e: Event, auditUp: bool, value: T, start: Db) returns (r: Result<T>)
      modifies this
      ensures var spec := Audited(old(State()), e, auditUp, value);
              if spec.Done? then State() == spec.db && r == Ok(value) else State() == start && r == Err(spec.error)
    {
      if !EventAccepted(e) {
        Rollback(start);
        return Err(InvalidInput);
      }
      if !auditUp {
        Rollback(start);
        return Err(Unavailable);
      }
      audit := audit + [e];
      return Ok(value);
    }

    method DiscoverArtifact(env: Env, x: Discovery) returns (r: Result<()>)
      modifies this
      ensures Agrees(old(State()), Discover(old(State()), env, x), State(), r)
    {
      if !DiscoveryAccepted(x) { return Err(InvalidInput); }
      var start := State();
      var inserted := x.sha256 !in artifacts;
      if inserted { artifacts := artifacts[x.sha256 := NewArtifact(x.size, x.discoveredAt)]; }
      if artifacts[x.sha256].size != x.size {
        Rollback(start);
        return Err(Conflict);
      }
      var mapped := FindRelease(releases, x.release);
      if mapped.Some? {
        if releases[mapped.value].originUrl != x.release.originUrl {
          Rollback(start);
          return Err(Conflict);
        }
      } else {
        releases := releases + [x.release];
      }
      if inserted || mapped.None? {
        r := Commit(DiscoveredEvent(x.sha256, env.now), env.auditUp, (), start);
      } else {
        r := Ok(());
      }
    }

    method ClaimNextArtifact(env: Env, worker: string, until: Time) returns (r: Result<Option<Claim>>)
      modifies this
      ensures Agrees(old(State()), ClaimNext(old(State()), env, worker, until), State(), r)
    {
      if !StoredText(worker) || until <= env.now { return Err(InvalidInput); }
      var start := State();
      var ready := Ready(start);
      if ready == map[] { return Ok(None); }
      var d := FirstRow(ready);
      var a := artifacts[d];
      artifacts := artifacts[d := Leased(a, worker, until, env.token, env.now)];
      r := Commit(ClaimedEvent(d, worker, env.now), env.auditUp, Some(Claim(d, a.size, worker, until, env.token)),
                  start);
    }

    method RecoverExpiredClaims(env: Env) returns (r: Result<nat>)
      modifies this
      ensures Agrees(old(State()), Recover(old(State()), env), State(), r)
    {
      var start := State();
      var rows := Lapsed(start, env.now);
      var count := 0;
      while rows != map[]
        invariant rows.Keys <= artifacts.Keys
        invariant RecoverAll(State(), rows, env, count) == Recover(start, env)
        decreases |rows|
      {
        var d := FirstRow(rows);
        var a := artifacts[d];
        ghost var before := State();
        ghost var one := RecoverOne(before, d, env, count);
        assert (rows - {d}).Keys == rows.Keys - {d};
        if a.leaseOwner.Some? && a.leaseToken.Some? {
          artifacts := artifacts[d := Released(a, Discovered, a.lastError, env.now)];
          r := Commit(ExpiredEvent(d, a.leaseOwner.value, env.now), env.auditUp, count + 1, start);
          if r.Err? { return; }
          count := count + 1;
        }
        rows := rows - {d};
      }
      return Ok(count);
    }

    method RecordVerdict(env: Env, claim: Claim, x: VerdictInput, items: seq<Evidence>) returns (r: Result<()>)
      modifies this
      ensures Agrees(old(State()), VerdictStore.RecordVerdict(old(State()), env, claim, x, items), State(), r)
    {
      if !ClaimAccepted(claim) || !VerdictAccepted(x) { return Err(InvalidInput); }
      if x.sha256 != claim.sha256 { return Err(Conflict); }
      if exists i :: 0 <= i < |items| && !EvidenceAccepted(items[i]) { return Err(InvalidInput); }
      var start := State();
      if !Holds(start, claim, env.now) { return Err(Conflict); }
      if x.verdict.baseline.Some? && x.verdict.baseline.value !in artifacts { return Err(NotFound); }
      var current := Currents(verdicts, x.sha256);
      if |current| > 1 { return Err(Conflict); }
      var id := |verdicts| + 1;
      verdicts := RetireAll(verdicts, current) + [Row(x.sha256, x.verdict, true)];
      evidence := evidence + seq(|items|, i requires 0 <= i < |items| => EvidenceRow(id, items[i]));
      artifacts := artifacts[x.sha256 := Concluded(artifacts[x.sha256], x, env.now)];
      r := Commit(RecordedEvent(x, env.now), env.auditUp, (), start);
    }

    method MarkAnalysisError(env: Env, claim: Claim, message: Diagnostic) returns (r: Result<()>)
      modifies this
      ensures Agrees(old(State()), MarkError(old(State()), env, claim, message), State(), r)
    {
      if !ClaimAccepted(claim) { return Err(InvalidInput); }
      var start := State();
      if !Holds(start, claim, env.now) { return Err(Conflict); }
      artifacts := artifacts[claim.sha256 := Released(artifacts[claim.sha256], Errored, Some(message), env.now)];
      r := Commit(FailedEvent(claim.sha256, env.now), env.auditUp, (), start);
    }

    method SetManualOverride(env: Env, sha256: Digest, o: Override) returns (r: Result<()>)
      modifies this
      ensures Agrees(old(State()), SetOverride(old(State()), env, sha256, o), State(), r)
    {
      if !OverrideAccepted(o, env.now) { return Err(InvalidInput); }
      var start := State();
      var context := AdminContext(start, sha256, env.now);
      if context.Denied? { return Err(context.error); }
      if !Terminal(context.value.state) { return Err(Conflict); }
      overrides := RetireAll(overrides, Currents(overrides, sha256));
      overrides := overrides + [Row(sha256, o, true)];
      r := Commit(AdminEvent(o.actor, OverrideSet, sha256, context.value, o.decision, o.reason, env.now),
                  env.auditUp, (), start);
    }

    method RevokeManualOverride(env: Env, sha256: Digest, actor: string, reason: string) returns (r: Result<()>)
      modifies this
      ensures Agrees(old(State()), RevokeOverride(old(State()), env, sha256, actor, reason), State(), r)
    {
      if !StoredText(actor) || !StoredText(reason) { return Err(InvalidInput); }
      var start := State();
      var context := AdminContext(start, sha256, env.now);
      if context.Denied? { return Err(context.error); }
      var current := Currents(overrides, sha256);
      if !Terminal(context.value.state) || current == [] { return Err(Conflict); }
      overrides := RetireAll(overrides, current);
      r := Commit(AdminEvent(actor, OverrideRevoked, sha256, context.value, context.value.fallback, reason, env.now),
                  env.auditUp, (), start);
    }

    method RequestRescan(env: Env, sha256: Digest, actor: string, reason: string) returns (r: Result<()>)
      modifies this
      ensures Agrees(old(State()), VerdictStore.RequestRescan(old(State()), env, sha256, actor, reason), State(), r)
    {
      if !StoredText(actor) || !StoredText(reason) { return Err(InvalidInput); }
      var start := State();
      var context := AdminContext(start, sha256, env.now);
      if context.Denied? { return Err(context.error); }
      if !Terminal(context.value.state) { return Err(Conflict); }
      artifacts := artifacts[sha256 := Released(artifacts[sha256], Discovered, None, env.now)];
      overrides := RetireAll(overrides, Currents(overrides, sha256));
      r := Commit(AdminEvent(actor, RescanRequested, sha256, context.value, Deny, reason, env.now),
                  env.auditUp, (), start);
    }

    method SetBaselineEligibility(env: Env, sha256: Digest, enabled: bool, actor: string, reason: string)
      returns (r: Result<()>)
      modifies this
      ensures Agrees(old(State()), SetBaseline(old(State()), env, sha256, enabled, actor, reason), State(), r)
    {
      if !StoredText(actor) || !StoredText(reason) { return Err(InvalidInput); }
      var start := State();
      var context := AdminContext(start, sha256, env.now);
      if context.Denied? { return Err(context.error); }
      if enabled && !(context.value.effective == Allow && context.value.cooldownFinished) { return Err(Conflict); }
      var current := Currents(baselines, sha256);
      if |current| > 1 { return Err(Conflict); }
      if current != [] && baselines[current[0]].data.enabled == enabled { return Ok(()); }
      baselines := RetireAll(baselines, current);
      baselines := baselines + [Row(sha256, BaselineMark(enabled, actor, reason, env.now), true)];
      r := Commit(AdminEvent(actor, if enabled then BaselineAdded else BaselineRemoved, sha256, context.value,
                             context.value.effective, reason, env.now),
                  env.auditUp, (), start);
    }
  }
}
