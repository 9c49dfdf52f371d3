/** Whole runs of the verdict store: any number of workers and administrators, any clock readings,
    any refusals, in any order. */
module VerdictRuns {
  import opened History
  import opened PersistedState
  import opened VerdictTables
  import opened VerdictStore
  import opened VerdictInvariants

  // ----- recovery as a whole -----

  /** Every entry the transaction wrote names the decisions in force before and after it. */
  ghost predicate LogsTruth(before: Db, after: Db, now: Time) {
    && before.audit <= after.audit
    && forall i :: |before.audit| <= i < |after.audit| ==> Truthful(before, after, after.audit[i], now)
  }

  /** Exactly the given leases were freed. */
  ghost predicate RowsFreed(before: Db, after: Db, lapsed: map<Digest, Time>, now: Time) {
    && (forall d {:trigger SliceOf(after, d)} :: d !in lapsed ==> SliceOf(after, d) == SliceOf(before, d))
    && (forall d {:trigger d in lapsed} :: d in lapsed && d in before.artifacts ==>
          d in after.artifacts && after.artifacts[d] == Released(before.artifacts[d], Discovered, None, now))
  }

  /** Exactly the given leases were freed, and the log says so and nothing else. */
  ghost predicate Freed(before: Db, after: Db, lapsed: map<Digest, Time>, now: Time) {
    && RowsFreed(before, after, lapsed, now)
    && LogsTruth(before, after, now)
    && forall i :: |before.audit| <= i < |after.audit| ==>
         after.audit[i].sha256 in lapsed && after.audit[i].action == LeaseExpired
  }

  ghost predicate Recovered(before: Db, after: Db, lapsed: map<Digest, Time>, now: Time) {
    Inv(after) && Grows(before, after) && Freed(before, after, lapsed, now)
  }

  lemma RowsFirst(before: Db, mid: Db, after: Db, lapsed: map<Digest, Time>, d: Digest, now: Time)
    requires d in lapsed && d in before.artifacts && OnlyTouches(before, mid, d)
    requires mid.artifacts == before.artifacts[d := Released(before.artifacts[d], Discovered, None, now)]
    requires RowsFreed(mid, after, lapsed - {d}, now)
    ensures RowsFreed(before, after, lapsed, now)
  {
    forall k | k !in lapsed ensures SliceOf(after, k) == SliceOf(before, k) {
      assert SliceOf(after, k) == SliceOf(mid, k) == SliceOf(before, k);
    }
    assert SliceOf(after, d).artifact == SliceOf(mid, d).artifact;
    forall k | k in lapsed && k in before.artifacts
      ensures k in after.artifacts && after.artifacts[k] == Released(before.artifacts[k], Discovered, None, now)
    {
      if k == d {
        assert SliceOf(mid, d).artifact == Some(mid.artifacts[d]);
      } else {
        assert k in lapsed - {d};
      }
    }
  }

  lemma FreedFirst(before: Db, mid: Db, after: Db, lapsed: map<Digest, Time>, e: Event, now: Time)
    requires var d := e.sha256;
             && d in lapsed && d in before.artifacts && e.action == LeaseExpired
             && mid.audit == before.audit + [e] && OnlyTouches(before, mid, d) && Truthful(before, mid, e, now)
             && mid.artifacts == before.artifacts[d := Released(before.artifacts[d], Discovered, None, now)]
             && Freed(mid, after, lapsed - {d}, now)
    ensures Freed(before, after, lapsed, now)
  {
    RowsFirst(before, mid, after, lapsed, e.sha256, now);
    TruthFirst(before, mid, after, lapsed, e, now);
  }

  lemma FreedOnward(before: Db, mid: Db, lapsed: map<Digest, Time>, e: Event, now: Time)
    requires var d := e.sha256;
             && d in lapsed && d in before.artifacts && e.action == LeaseExpired
             && mid.audit == before.audit + [e] && OnlyTouches(before, mid, d) && Truthful(before, mid, e, now)
             && mid.artifacts == before.artifacts[d := Released(before.artifacts[d], Discovered, None, now)]
    ensures forall after :: Freed(mid, after, lapsed - {e.sha256}, now) ==> Freed(before, after, lapsed, now)
  {
    forall after | Freed(mid, after, lapsed - {e.sha256}, now) ensures Freed(before, after, lapsed, now) {
      FreedFirst(before, mid, after, lapsed, e, now);
    }
  }

  lemma TruthFirst(before: Db, mid: Db, after: Db, lapsed: map<Digest, Time>, e: Event, now: Time)
    requires e.sha256 in lapsed && e.action == LeaseExpired
    requires mid.audit == before.audit + [e] && OnlyTouches(before, mid, e.sha256) && Truthful(before, mid, e, now)
    requires LogsTruth(mid, after, now) && SliceOf(after, e.sha256) == SliceOf(mid, e.sha256)
    requires forall i :: |mid.audit| <= i < |after.audit| ==>
               after.audit[i].sha256 in lapsed - {e.sha256} && after.audit[i].action == LeaseExpired
    ensures LogsTruth(before, after, now)
    ensures forall i :: |before.audit| <= i < |after.audit| ==>
              after.audit[i].sha256 in lapsed && after.audit[i].action == LeaseExpired
  {
    forall i | |before.audit| <= i < |after.audit|
      ensures Truthful(before, after, after.audit[i], now)
              && after.audit[i].sha256 in lapsed && after.audit[i].action == LeaseExpired
    {
      if i == |before.audit| {
        assert after.audit[i] == mid.audit[i] == e;
      } else {
        assert Truthful(mid, after, after.audit[i], now);
        assert SliceOf(mid, after.audit[i].sha256) == SliceOf(before, after.audit[i].sha256);
      }
    }
  }

  lemma GrowsReflexive(db: Db)
    ensures Grows(db, db)
  {}

  lemma RecoverFirst(db: Db, lapsed: map<Digest, Time>, env: Env, count: nat) returns (mid: Db, rest: map<Digest, Time>)
    requires Inv(db) && lapsed != map[] && env.auditUp
    requires forall d :: d in lapsed ==> d in db.artifacts && db.artifacts[d].state == Scanning
    ensures lapsed.Keys <= db.artifacts.Keys && rest == lapsed - {Earliest(lapsed)} && |lapsed| == |rest| + 1
    ensures RecoverOne(db, Earliest(lapsed), env, count) == Done(mid, count + 1) && Inv(mid) && Grows(db, mid)
    ensures forall d :: d in rest ==> d in mid.artifacts && mid.artifacts[d].state == Scanning
    ensures forall after :: Freed(mid, after, rest, env.now) ==> Freed(db, after, lapsed, env.now)
  {
    var d := Earliest(lapsed);
    RecoverOneSucceeds(db, d, env, count);
    RecoverOneTransacts(db, d, env, count);
    mid, rest := RecoverOne(db, d, env, count).db, lapsed - {d};
    assert rest.Keys == lapsed.Keys - {d};
    FreedOnward(db, mid, lapsed, ExpiredEvent(d, db.artifacts[d].leaseOwner.value, env.now), env.now);
  }

  lemma RecoveredNone(db: Db, now: Time)
    requires Inv(db)
    ensures Recovered(db, db, map[], now)
  {
    GrowsReflexive(db);
  }

  lemma RecoverAllFirst(db: Db, lapsed: map<Digest, Time>, env: Env, count: nat, mid: Db)
    requires lapsed.Keys <= db.artifacts.Keys && lapsed != map[]
    requires RecoverOne(db, Earliest(lapsed), env, count) == Done(mid, count + 1)
    requires (lapsed - {Earliest(lapsed)}).Keys <= mid.artifacts.Keys
    ensures RecoverAll(db, lapsed, env, count) == RecoverAll(mid, lapsed - {Earliest(lapsed)}, env, count + 1)
  {}

  lemma {:induction false} RecoverAllTransacts(db: Db, lapsed: map<Digest, Time>, env: Env, count: nat)
    requires Inv(db) && env.auditUp
    requires forall d :: d in lapsed ==> d in db.artifacts && db.artifacts[d].state == Scanning
    ensures lapsed.Keys <= db.artifacts.Keys
    ensures var r := RecoverAll(db, lapsed, env, count);
            r.Done? && r.value == count + |lapsed| && Recovered(db, r.db, lapsed, env.now)
    decreases |lapsed|
  {
    if lapsed == map[] {
      RecoveredNone(db, env.now);
    } else {
      var mid, rest := RecoverFirst(db, lapsed, env, count);
      RecoverAllTransacts(mid, rest, env, count + 1);
      RecoverAllFirst(db, lapsed, env, count, mid);
      GrowsTransitive(db, mid, RecoverAll(mid, rest, env, count + 1).db);
    }
  }

  /** Recovery frees exactly the leases that have run out and, while the audit log is intact,
      never fails. */
  lemma RecoverTransacts(db: Db, env: Env)
    requires Inv(db)
    ensures var r := Recover(db, env);
            var lapsed := Lapsed(db, env.now);
            && (r.Done? <==> env.auditUp || lapsed == map[])
            && (r.Done? ==> r.value == |lapsed| && Recovered(db, r.db, lapsed, env.now))
  {
    var lapsed := Lapsed(db, env.now);
    if env.auditUp {
      RecoverAllTransacts(db, lapsed, env, 0);
    } else if lapsed == map[] {
      RecoveredNone(db, env.now);
    } else {
      RecoverOneSucceeds(db, Earliest(lapsed), env, 0);
    }
  }

  // ----- commands and runs -----

  datatype Command =
    | DoDiscover(found: Discovery)
    | DoClaim(worker: string, until: Time)
    | DoRecover
    | DoRecord(claim: Claim, result: VerdictInput, evidence: seq<Evidence>)
    | DoMarkError(claim: Claim, message: Diagnostic)
    | DoSetOverride(sha256: Digest, manual: Override)
    | DoRevoke(sha256: Digest, actor: string, reason: string)
    | DoRescan(sha256: Digest, actor: string, reason: string)
    | DoBaseline(sha256: Digest, enabled: bool, actor: string, reason: string)

  function After<T>(before: Db, r: Outcome<T>): Db {
    if r.Done? then r.db else before
  }

  ghost function Next(db: Db, env: Env, c: Command): Db {
    match c
    case DoDiscover(x) => After(db, Discover(db, env, x))
    case DoClaim(worker, until) => After(db, ClaimNext(db, env, worker, until))
    case DoRecover => After(db, Recover(db, env))
    case DoRecord(claim, x, evidence) => After(db, RecordVerdict(db, env, claim, x, evidence))
    case DoMarkError(claim, message) => After(db, MarkError(db, env, claim, message))
    case DoSetOverride(d, o) => After(db, SetOverride(db, env, d, o))
    case DoRevoke(d, actor, reason) => After(db, RevokeOverride(db, env, d, actor, reason))
    case DoRescan(d, actor, reason) => After(db, RequestRescan(db, env, d, actor, reason))
    case DoBaseline(d, enabled, actor, reason) => After(db, SetBaseline(db, env, d, enabled, actor, reason))
  }

  lemma OneTruth(before: Db, after: Db, d: Digest, e: Event, now: Time)
    requires Transacts(before, after, d, [e])
    ensures LogsTruth(before, after, now) <==> Truthful(before, after, e, now)
  {
    assert after.audit[|before.audit|] == e;
  }

  /** Every transaction keeps the invariant, only extends the histories, and, unless it is a
      discovery, logs nothing but the truth. */
  lemma StepKeeps(db: Db, env: Env, c: Command)
    requires Inv(db)
    ensures Inv(Next(db, env, c)) && Grows(db, Next(db, env, c))
    ensures !c.DoDiscover? ==> LogsTruth(db, Next(db, env, c), env.now)
  {
    GrowsReflexive(db);
    var after := Next(db, env, c);
    if after != db {
      match c
      case DoDiscover(x) => DiscoverTransacts(db, env, x);
      case DoClaim(worker, until) =>
        ClaimTransacts(db, env, worker, until);
        var d := ClaimNext(db, env, worker, until).value.value.sha256;
        OneTruth(db, after, d, ClaimedEvent(d, worker, env.now), env.now);
      case DoRecover => RecoverTransacts(db, env);
      case DoRecord(claim, x, evidence) =>
        RecordTransacts(db, env, claim, x, evidence);
        OneTruth(db, after, x.sha256, RecordedEvent(x, env.now), env.now);
      case DoMarkError(claim, message) =>
        MarkErrorTransacts(db, env, claim, message);
        OneTruth(db, after, claim.sha256, FailedEvent(claim.sha256, env.now), env.now);
      case _ => AdminStep(db, env, c);
    }
  }

  lemma LoggedTruth(before: Db, after: Db, d: Digest, action: Action, now: Time)
    requires Logs(before, after, d, action, now)
    ensures Inv(after) && Grows(before, after) && LogsTruth(before, after, now)
  {
    var e :| Transacts(before, after, d, [e]) && Truthful(before, after, e, now) && e.action == action;
    OneTruth(before, after, d, e, now);
  }

  lemma AdminStep(db: Db, env: Env, c: Command)
    requires Inv(db) && Next(db, env, c) != db
    requires c.DoSetOverride? || c.DoRevoke? || c.DoRescan? || c.DoBaseline?
    ensures Inv(Next(db, env, c)) && Grows(db, Next(db, env, c)) && LogsTruth(db, Next(db, env, c), env.now)
  {
    var after := Next(db, env, c);
    match c
    case DoSetOverride(d, o) =>
      SetOverrideTransacts(db, env, d, o);
      LoggedTruth(db, after, d, OverrideSet, env.now);
    case DoRevoke(d, actor, reason) =>
      RevokeTransacts(db, env, d, actor, reason);
      LoggedTruth(db, after, d, OverrideRevoked, env.now);
    case DoRescan(d, actor, reason) =>
      RescanTransacts(db, env, d, actor, reason);
      LoggedTruth(db, after, d, RescanRequested, env.now);
    case DoBaseline(d, enabled, actor, reason) =>
      SetBaselineTransacts(db, env, d, enabled, actor, reason);
      LoggedTruth(db, after, d, if enabled then BaselineAdded else BaselineRemoved, env.now);
  }

  /** The one event that may not: a discovery says DENY to DENY, which is the truth exactly when the
      artifact was not allowed already. */
  lemma DiscoveryTruthExactly(db: Db, env: Env, x: Discovery)
    requires Inv(db) && Discover(db, env, x).Done? && Discover(db, env, x).db != db
    ensures LogsTruth(db, Discover(db, env, x).db, env.now) <==> Effective(db, x.sha256, env.now) != Allow
  {
    DiscoverTransacts(db, env, x);
    var after := Discover(db, env, x).db;
    OneTruth(db, after, x.sha256, DiscoveredEvent(x.sha256, env.now), env.now);
    EffectiveIsBinary(db, x.sha256, env.now);
  }

  lemma EffectiveIsBinary(db: Db, d: Digest, t: Time)
    ensures Effective(db, d, t) != Review
  {}

  // ----- lease tokens -----

  function ActiveTokens(artifacts: map<Digest, Artifact>): set<Digest> {
    set d | d in artifacts && artifacts[d].leaseToken.Some? :: artifacts[d].leaseToken.value
  }

  /** The store with, besides, the lease tokens handed out and those whose lease has ended. */
  datatype World = World(db: Db, issued: set<Digest>, spent: set<Digest>)

  ghost predicate TokensDistinct(artifacts: map<Digest, Artifact>) {
    forall d, e :: d in artifacts && e in artifacts && artifacts[d].leaseToken.Some? && d != e ==>
                     artifacts[d].leaseToken != artifacts[e].leaseToken
  }

  ghost predicate WorldInv(w: World) {
    && Inv(w.db) && TokensDistinct(w.db.artifacts)
    && ActiveTokens(w.db.artifacts) + w.spent <= w.issued
    && ActiveTokens(w.db.artifacts) !! w.spent
  }

  /** Token generation is fresh. */
  predicate FreshToken(w: World, env: Env, c: Command) {
    c.DoClaim? ==> env.token !in w.issued
  }

  ghost function Advance(w: World, env: Env, c: Command): World {
    var after := Next(w.db, env, c);
    World(after,
          if c.DoClaim? then w.issued + {env.token} else w.issued,
          w.spent + (ActiveTokens(w.db.artifacts) - ActiveTokens(after.artifacts)))
  }

  /** No row has gained or changed a lease. */
  ghost predicate LeasesShrink(before: map<Digest, Artifact>, after: map<Digest, Artifact>) {
    forall d :: d in after && after[d].leaseToken.Some? ==> d in before && before[d].leaseToken == after[d].leaseToken
  }

  lemma {:induction false} RecoverLeases(db: Db, lapsed: map<Digest, Time>, env: Env, count: nat)
    requires lapsed.Keys <= db.artifacts.Keys
    ensures LeasesShrink(db.artifacts, After(db, RecoverAll(db, lapsed, env, count)).artifacts)
    decreases |lapsed|
  {
    if lapsed != map[] {
      var d := Earliest(lapsed);
      var one := RecoverOne(db, d, env, count);
      assert (lapsed - {d}).Keys == lapsed.Keys - {d};
      if one.Done? { RecoverLeases(one.db, lapsed - {d}, env, one.value); }
    }
  }

  lemma DiscoveryLeases(db: Db, env: Env, x: Discovery)
    ensures LeasesShrink(db.artifacts, After(db, Discover(db, env, x)).artifacts)
  {}

  lemma RecordLeases(db: Db, env: Env, claim: Claim, x: VerdictInput, evidence: seq<Evidence>)
    ensures LeasesShrink(db.artifacts, After(db, RecordVerdict(db, env, claim, x, evidence)).artifacts)
  {}

  lemma RescanLeases(db: Db, env: Env, d: Digest, actor: string, reason: string)
    ensures LeasesShrink(db.artifacts, After(db, RequestRescan(db, env, d, actor, reason)).artifacts)
  {}

  lemma OverrideLeases(db: Db, env: Env, d: Digest, o: Override)
    ensures After(db, SetOverride(db, env, d, o)).artifacts == db.artifacts
  {}

  lemma RevokeLeases(db: Db, env: Env, d: Digest, actor: string, reason: string)
    ensures After(db, RevokeOverride(db, env, d, actor, reason)).artifacts == db.artifacts
  {}

  lemma BaselineLeases(db: Db, env: Env, d: Digest, enabled: bool, actor: string, reason: string)
    ensures After(db, SetBaseline(db, env, d, enabled, actor, reason)).artifacts == db.artifacts
  {}

  lemma OtherLeases(db: Db, env: Env, c: Command)
    requires !c.DoClaim?
    ensures LeasesShrink(db.artifacts, Next(db, env, c).artifacts)
  {
    match c
    case DoDiscover(x) => DiscoveryLeases(db, env, x);
    case DoRecover => RecoverLeases(db, Lapsed(db, env.now), env, 0);
    case DoRecord(claim, x, evidence) => RecordLeases(db, env, claim, x, evidence);
    case DoMarkError(claim, message) =>
    case DoSetOverride(d, o) => OverrideLeases(db, env, d, o);
    case DoRevoke(d, actor, reason) => RevokeLeases(db, env, d, actor, reason);
    case DoRescan(d, actor, reason) => RescanLeases(db, env, d, actor, reason);
    case DoBaseline(d, enabled, actor, reason) => BaselineLeases(db, env, d, enabled, actor, reason);
  }

  lemma ShrinkingTokens(before: map<Digest, Artifact>, after: map<Digest, Artifact>)
    requires LeasesShrink(before, after) && TokensDistinct(before)
    ensures ActiveTokens(after) <= ActiveTokens(before) && TokensDistinct(after)
  {
    forall t | t in ActiveTokens(after) ensures t in ActiveTokens(before) {
      var d :| d in after && after[d].leaseToken.Some? && after[d].leaseToken.value == t;
      assert before[d].leaseToken.value == t;
    }
  }

  lemma LeasedTokens(before: map<Digest, Artifact>, after: map<Digest, Artifact>, d: Digest, token: Digest)
    requires TokensDistinct(before) && token !in ActiveTokens(before)
    requires d in before && before[d].leaseToken == None
    requires d in after && after[d].leaseToken == Some(token) && after == before[d := after[d]]
    ensures ActiveTokens(after) == ActiveTokens(before) + {token} && TokensDistinct(after)
  {
    forall t | t in ActiveTokens(before) ensures t in ActiveTokens(after) {
      var e :| e in before && before[e].leaseToken.Some? && before[e].leaseToken.value == t;
      assert e in after && after[e].leaseToken.value == t;
    }
    assert after[d].leaseToken.value in ActiveTokens(after);
    forall e, f | e in after && f in after && after[e].leaseToken.Some? && after[e].leaseToken == after[f].leaseToken
      ensures e == f
    {
      if e != d { assert before[e].leaseToken.value in ActiveTokens(before); }
      if f != d { assert before[f].leaseToken.value in ActiveTokens(before); }
    }
  }

  lemma NextTokens(db: Db, env: Env, c: Command)
    requires Inv(db) && TokensDistinct(db.artifacts) && (c.DoClaim? ==> env.token !in ActiveTokens(db.artifacts))
    ensures var after := Next(db, env, c);
            && TokensDistinct(after.artifacts)
            && ActiveTokens(after.artifacts) <= ActiveTokens(db.artifacts) + if c.DoClaim? then {env.token} else {}
  {
    var after := Next(db, env, c);
    if c.DoClaim? && after != db {
      ClaimTransacts(db, env, c.worker, c.until);
      var d := ClaimNext(db, env, c.worker, c.until).value.value.sha256;
      assert SliceSound(d, SliceOf(db, d));
      LeasedTokens(db.artifacts, after.artifacts, d, env.token);
    } else if !c.DoClaim? {
      OtherLeases(db, env, c);
      ShrinkingTokens(db.artifacts, after.artifacts);
    }
  }

  lemma AdvanceKeeps(w: World, env: Env, c: Command)
    requires WorldInv(w) && FreshToken(w, env, c)
    ensures WorldInv(Advance(w, env, c)) && Grows(w.db, Advance(w, env, c).db)
  {
    StepKeeps(w.db, env, c);
    NextTokens(w.db, env, c);
  }

  datatype Step = Step(env: Env, command: Command)

  ghost function Run(w: World, steps: seq<Step>): World
    decreases |steps|
  {
    if steps == [] then w else Run(Advance(w, steps[0].env, steps[0].command), steps[1..])
  }

  ghost predicate FreshRun(w: World, steps: seq<Step>)
    decreases |steps|
  {
    steps == [] || (FreshToken(w, steps[0].env, steps[0].command)
                    && FreshRun(Advance(w, steps[0].env, steps[0].command), steps[1..]))
  }

  /** Over any run: the invariant holds at its end, histories have only grown, and no lease that
      ended has come back. */
  lemma {:induction false} RunKeeps(w: World, steps: seq<Step>)
    requires WorldInv(w) && FreshRun(w, steps)
    ensures WorldInv(Run(w, steps)) && Grows(w.db, Run(w, steps).db) && w.spent <= Run(w, steps).spent
    decreases |steps|
  {
    GrowsReflexive(w.db);
    if steps != [] {
      var next := Advance(w, steps[0].env, steps[0].command);
      AdvanceKeeps(w, steps[0].env, steps[0].command);
      RunKeeps(next, steps[1..]);
      GrowsTransitive(w.db, next.db, Run(w, steps).db);
    }
  }

  const START := World(EMPTY, {}, {})

  lemma StartSound()
    ensures WorldInv(START)
  {
    EmptySound();
  }

  /** In every reachable state, every artifact passes the persisted-state rule whatever the time. */
  lemma ReachableSound(steps: seq<Step>, sha256: Digest, asOf: Time)
    requires FreshRun(START, steps) && sha256 in Run(START, steps).db.artifacts
    ensures var db := Run(START, steps).db;
            Validate(sha256, db.artifacts[sha256], CurrentRow(db.verdicts, sha256), CurrentRow(db.overrides, sha256),
                     asOf)
            .Some?
  {
    StartSound();
    RunKeeps(START, steps);
    SoundAlways(Run(START, steps).db, sha256, asOf);
  }

  lemma ReachableConserved(steps: seq<Step>, sha256: Digest)
    requires FreshRun(START, steps)
    ensures var db := Run(START, steps).db;
            && Tally(db.audit, ArtifactClaimed, sha256)
               == Tally(db.audit, VerdictRecorded, sha256) + Tally(db.audit, AnalysisFailed, sha256)
                  + Tally(db.audit, LeaseExpired, sha256)
                  + (if sha256 in db.artifacts && db.artifacts[sha256].state == Scanning then 1 else 0)
            && Tally(db.audit, ArtifactDiscovered, sha256) == ReleasesOf(db.releases, sha256)
  {
    StartSound();
    RunKeeps(START, steps);
    assert SliceSound(sha256, SliceOf(Run(START, steps).db, sha256));
  }

  lemma LeaseEnds(before: map<Digest, Artifact>, after: map<Digest, Artifact>, d: Digest)
    requires TokensDistinct(before) && LeasesShrink(before, after)
    requires d in before && before[d].leaseToken.Some? && d in after && after[d].leaseToken == None
    ensures before[d].leaseToken.value in ActiveTokens(before) - ActiveTokens(after)
  {
    forall t | t in ActiveTokens(after) ensures t != before[d].leaseToken.value {
      var e :| e in after && after[e].leaseToken.Some? && after[e].leaseToken.value == t;
      assert before[e].leaseToken == Some(t);
    }
  }

  lemma AcceptedResult(db: Db, env: Env, c: Command)
    requires Inv(db) && (c.DoRecord? || c.DoMarkError?) && Next(db, env, c) != db
    ensures var after, d := Next(db, env, c), c.claim.sha256;
            && d in db.artifacts && db.artifacts[d].leaseToken == Some(c.claim.token)
            && d in after.artifacts && after.artifacts[d].leaseToken == None
  {
    if c.DoRecord? { RecordTransacts(db, env, c.claim, c.result, c.evidence); }
    else { MarkErrorTransacts(db, env, c.claim, c.message); }
  }

  /** A result is accepted only from a running lease, which it ends. */
  lemma ResultEndsLease(w: World, env: Env, c: Command)
    requires WorldInv(w) && (c.DoRecord? || c.DoMarkError?) && Next(w.db, env, c) != w.db
    ensures c.claim.token in ActiveTokens(w.db.artifacts) && c.claim.token !in w.spent
    ensures c.claim.token in Advance(w, env, c).spent
  {
    AcceptedResult(w.db, env, c);
    OtherLeases(w.db, env, c);
    LeaseEnds(w.db.artifacts, Next(w.db, env, c).artifacts, c.claim.sha256);
  }

  /** Recovery ends a lease just as finally. */
  lemma RecoveryEndsLeases(w: World, env: Env, d: Digest)
    requires WorldInv(w) && env.auditUp && d in Lapsed(w.db, env.now)
    ensures w.db.artifacts[d].leaseToken.Some?
            && w.db.artifacts[d].leaseToken.value in Advance(w, env, DoRecover).spent
  {
    assert SliceSound(d, SliceOf(w.db, d));
    RecoverTransacts(w.db, env);
    OtherLeases(w.db, env, DoRecover);
    LeaseEnds(w.db.artifacts, Next(w.db, env, DoRecover).artifacts, d);
  }

  /** Once its lease has ended, however it ended, a claim changes nothing, now or after any run. */
  lemma SpentClaimIsInert(w: World, steps: seq<Step>, env: Env, c: Command)
    requires WorldInv(w) && FreshRun(w, steps)
    requires (c.DoRecord? || c.DoMarkError?) && c.claim.token in w.spent
    ensures Next(Run(w, steps).db, env, c) == Run(w, steps).db
  {
    RunKeeps(w, steps);
    var later := Run(w, steps);
    if Next(later.db, env, c) != later.db {
      ResultEndsLease(later, env, c);
      assert false;
    }
  }

  predicate Known(db: Db, x: Discovery) {
    var found := FindRelease(db.releases, x.release);
    && x.sha256 in db.artifacts && db.artifacts[x.sha256].size == x.size
    && found.Some? && db.releases[found.value].originUrl == x.release.originUrl
  }

  lemma DiscoverStores(db: Db, env: Env, x: Discovery)
    requires Discover(db, env, x).Done?
    ensures Known(Discover(db, env, x).db, x)
  {
    if FindRelease(db.releases, x.release) == None {
      assert (db.releases + [x.release])[..|db.releases|] == db.releases;
    }
  }

  /** The same release of the same artifact, possibly found at another time. */
  predicate SameFind(x: Discovery, y: Discovery) {
    x.sha256 == y.sha256 && x.size == y.size && SameRelease(x.release, y.release)
        && x.release.originUrl == y.release.originUrl
  }

  lemma KnownIsSilent(db: Db, env: Env, x: Discovery)
    requires Known(db, x) && DiscoveryAccepted(x)
    ensures Discover(db, env, x) == Done(db, ())
  {}

  lemma {:induction false} SameReleaseFound(releases: seq<Release>, x: Release, y: Release)
    requires SameRelease(x, y)
    ensures FindRelease(releases, x) == FindRelease(releases, y)
    decreases |releases|
  {
    if releases != [] { SameReleaseFound(releases[..|releases| - 1], x, y); }
  }

  /** Discovering again what was discovered changes nothing, at whatever time it is found again. */
  lemma DiscoverIdempotent(db: Db, env: Env, x: Discovery, laterEnv: Env, again: Discovery)
    requires Discover(db, env, x).Done? && SameFind(x, again)
    ensures var after := Discover(db, env, x).db;
            Discover(after, laterEnv, again) == Done(after, ())
  {
    var after := Discover(db, env, x).db;
    DiscoverStores(db, env, x);
    SameReleaseFound(after.releases, x.release, again.release);
    KnownIsSilent(after, laterEnv, again);
  }
}
