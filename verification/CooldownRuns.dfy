/** The cooldown over whole runs: when every verdict is recorded by a worker cycle, nothing is
    served without an override before the cooldown of its first ALLOW has passed. */
module CooldownRuns {
  import opened History
  import opened PersistedState
  import opened VerdictTables
  import opened VerdictStore
  import opened VerdictInvariants
  import opened VerdictRuns
  import Gates
  import GatesOnStore
  import Pipeline

  /** A recorded ALLOW carries a cooldown of the given length from its creation on. */
  predicate StampedCommand(c: Command, cooldown: int) {
    c.DoRecord? && c.result.verdict.decision == Allow ==>
      c.result.cooldownUntil == Some(c.result.verdict.createdAt + cooldown)
  }

  predicate StampedRun(steps: seq<Step>, cooldown: int) {
    forall i :: 0 <= i < |steps| ==> StampedCommand(steps[i].command, cooldown)
  }

  // ----- the calls of a worker cycle -----

  function RecordCall(clock: Pipeline.Clock, cooldown: int, claim: Claim, a: Pipeline.Analysis): Step
    requires Pipeline.Consistent(claim, a)
  {
    Step(clock.recording, DoRecord(claim, Pipeline.Stamped(a.verdict, clock.completedAt, cooldown), a.evidence))
  }

  /** What the second half of a cycle asks of the store: record, and mark the error when that is not
      possible. */
  ghost function SettleCalls(db: Db, clock: Pipeline.Clock, cooldown: int, claim: Claim, a: Pipeline.Analysis,
                             message: Diagnostic): seq<Step>
  {
    var mark := Step(clock.marking, DoMarkError(claim, message));
    if !Pipeline.Consistent(claim, a) then [mark]
    else
      var record := RecordCall(clock, cooldown, claim, a);
      if RecordVerdict(db, clock.recording, claim, record.command.result, a.evidence).Done? then [record]
      else [record, mark]
  }

  ghost function CycleCalls(db: Db, clock: Pipeline.Clock, worker: string, lease: int, cooldown: int,
                            analyse: Claim -> Pipeline.Analysis, message: Diagnostic): seq<Step>
  {
    var until := clock.started + lease;
    var claimed := ClaimNext(db, clock.claiming, worker, until);
    [Step(clock.claiming, DoClaim(worker, until))]
    + if claimed.Refused? || claimed.value == None then []
      else SettleCalls(claimed.db, clock, cooldown, claimed.value.value, analyse(claimed.value.value), message)
  }

  /** A step that a worker cycle may take: whatever it records comes from a consistent analysis. */
  ghost predicate FromCycle(step: Step, cooldown: int) {
    step.command.DoRecord? ==>
      exists clock, claim, a :: Pipeline.Consistent(claim, a) && step == RecordCall(clock, cooldown, claim, a)
  }

  /** Any interleaving of the calls of workers with those of everyone else. */
  ghost predicate WorkersRun(steps: seq<Step>, cooldown: int) {
    forall i :: 0 <= i < |steps| ==> FromCycle(steps[i], cooldown)
  }

  lemma SettleIsRun(w: World, clock: Pipeline.Clock, cooldown: int, claim: Claim, a: Pipeline.Analysis,
                    message: Diagnostic)
    ensures var calls := SettleCalls(w.db, clock, cooldown, claim, a, message);
            && Run(w, calls).db == Pipeline.Judge(w.db, clock, cooldown, claim, a, message).db
            && WorkersRun(calls, cooldown)
  {
    var mark := Step(clock.marking, DoMarkError(claim, message));
    if Pipeline.Consistent(claim, a) {
      var record := RecordCall(clock, cooldown, claim, a);
      assert FromCycle(record, cooldown);
      RunTwo(w, record, mark);
      RunOne(w, record);
    } else {
      RunOne(w, mark);
    }
  }

  lemma RunOne(w: World, a: Step)
    ensures Run(w, [a]) == Advance(w, a.env, a.command)
  {
    assert [a][1..] == [];
    assert Run(w, [a]) == Run(Advance(w, a.env, a.command), []);
  }

  lemma RunTwo(w: World, a: Step, b: Step)
    ensures Run(w, [a, b]) == Advance(Advance(w, a.env, a.command), b.env, b.command)
  {
    assert [a, b][1..] == [b];
    RunOne(Advance(w, a.env, a.command), b);
  }

  lemma RunFirst(w: World, a: Step, rest: seq<Step>)
    ensures Run(w, [a] + rest) == Run(Advance(w, a.env, a.command), rest)
  {
    assert ([a] + rest)[1..] == rest;
  }

  lemma ClaimFirst(env: Env, worker: string, until: Time, rest: seq<Step>, cooldown: int)
    requires WorkersRun(rest, cooldown)
    ensures WorkersRun([Step(env, DoClaim(worker, until))] + rest, cooldown)
  {}

  lemma ClaimedCycle(w: World, clock: Pipeline.Clock, worker: string, lease: int, cooldown: int,
                     analyse: Claim -> Pipeline.Analysis, message: Diagnostic, claimed: Db, c: Claim)
    requires ClaimNext(w.db, clock.claiming, worker, clock.started + lease) == Done(claimed, Some(c))
    ensures Next(w.db, clock.claiming, DoClaim(worker, clock.started + lease)) == claimed
    ensures CycleCalls(w.db, clock, worker, lease, cooldown, analyse, message)
         == [Step(clock.claiming, DoClaim(worker, clock.started + lease))]
            + SettleCalls(claimed, clock, cooldown, c, analyse(c), message)
    ensures Pipeline.RunCycle(w.db, clock, worker, lease, cooldown, analyse, message)
         == Pipeline.Judge(claimed, clock, cooldown, c, analyse(c), message)
  {}

  lemma IdleCycle(w: World, clock: Pipeline.Clock, worker: string, lease: int, cooldown: int,
                  analyse: Claim -> Pipeline.Analysis, message: Diagnostic)
    requires var claimed := ClaimNext(w.db, clock.claiming, worker, clock.started + lease);
             claimed.Refused? || claimed.value == None
    ensures CycleCalls(w.db, clock, worker, lease, cooldown, analyse, message)
         == [Step(clock.claiming, DoClaim(worker, clock.started + lease))] + []
    ensures Pipeline.RunCycle(w.db, clock, worker, lease, cooldown, analyse, message).db
         == Next(w.db, clock.claiming, DoClaim(worker, clock.started + lease))
  {}

  /** A worker cycle does to the store what a run of its calls does, and nothing else. */
  lemma CycleIsRun(w: World, clock: Pipeline.Clock, worker: string, lease: int, cooldown: int,
                   analyse: Claim -> Pipeline.Analysis, message: Diagnostic)
    ensures var calls := CycleCalls(w.db, clock, worker, lease, cooldown, analyse, message);
            && Run(w, calls).db == Pipeline.RunCycle(w.db, clock, worker, lease, cooldown, analyse, message).db
            && WorkersRun(calls, cooldown)
  {
    var until := clock.started + lease;
    var claimed := ClaimNext(w.db, clock.claiming, worker, until);
    var claim := Step(clock.claiming, DoClaim(worker, until));
    if claimed.Refused? || claimed.value == None {
      IdleCycle(w, clock, worker, lease, cooldown, analyse, message);
      RunFirst(w, claim, []);
      ClaimFirst(clock.claiming, worker, until, [], cooldown);
    } else {
      var c := claimed.value.value;
      var rest := SettleCalls(claimed.db, clock, cooldown, c, analyse(c), message);
      ClaimedCycle(w, clock, worker, lease, cooldown, analyse, message, claimed.db, c);
      RunFirst(w, claim, rest);
      SettleIsRun(Advance(w, claim.env, claim.command), clock, cooldown, c, analyse(c), message);
      ClaimFirst(clock.claiming, worker, until, rest, cooldown);
    }
  }

  /** What a worker cycle records is stamped. */
  lemma CycleStamps(claim: Claim, x: VerdictInput, evidence: seq<Evidence>, completedAt: Time, cooldown: int)
    ensures StampedCommand(DoRecord(claim, Pipeline.Stamped(x, completedAt, cooldown), evidence), cooldown)
  {}

  lemma WorkersStamp(steps: seq<Step>, cooldown: int)
    requires WorkersRun(steps, cooldown)
    ensures StampedRun(steps, cooldown)
  {
    forall i | 0 <= i < |steps| ensures StampedCommand(steps[i].command, cooldown) {
      if steps[i].command.DoRecord? {
        var clock, claim, a :| Pipeline.Consistent(claim, a) && steps[i] == RecordCall(clock, cooldown, claim, a);
        CycleStamps(claim, a.verdict, a.evidence, clock.completedAt, cooldown);
      }
    }
  }

  // ----- every cooldown has its length -----

  /** An allowed artifact has a cooldown, and every cooldown has the given length. */
  predicate Cooled(a: Artifact, cooldown: int) {
    && (a.state == Judged(Allow) ==> a.cooldownUntil.Some?)
    && (a.cooldownUntil.Some? ==>
          a.cooldownStartedAt.Some? && a.cooldownUntil.value == a.cooldownStartedAt.value + cooldown)
  }

  ghost predicate AllCooled(artifacts: map<Digest, Artifact>, cooldown: int) {
    forall d :: d in artifacts ==> Cooled(artifacts[d], cooldown)
  }

  lemma ConcludedCools(a: Artifact, claim: Claim, x: VerdictInput, evidence: seq<Evidence>, now: Time, cooldown: int)
    requires ArtifactSound(a) && Cooled(a, cooldown) && VerdictAccepted(x)
    requires StampedCommand(DoRecord(claim, x, evidence), cooldown)
    ensures Cooled(Concluded(a, x, now), cooldown)
  {}

  lemma RecordCools(db: Db, env: Env, claim: Claim, x: VerdictInput, evidence: seq<Evidence>, cooldown: int)
    requires Inv(db) && AllCooled(db.artifacts, cooldown) && StampedCommand(DoRecord(claim, x, evidence), cooldown)
    ensures AllCooled(After(db, RecordVerdict(db, env, claim, x, evidence)).artifacts, cooldown)
  {
    if RecordVerdict(db, env, claim, x, evidence).Done? {
      RecordTransacts(db, env, claim, x, evidence);
      assert SliceSound(x.sha256, SliceOf(db, x.sha256));
      ConcludedCools(db.artifacts[x.sha256], claim, x, evidence, env.now, cooldown);
    }
  }

  lemma ErrorCools(db: Db, env: Env, claim: Claim, message: Diagnostic, cooldown: int)
    requires AllCooled(db.artifacts, cooldown)
    ensures AllCooled(After(db, MarkError(db, env, claim, message)).artifacts, cooldown)
  {}

  lemma DiscoveryCools(db: Db, env: Env, x: Discovery, cooldown: int)
    requires AllCooled(db.artifacts, cooldown)
    ensures AllCooled(After(db, Discover(db, env, x)).artifacts, cooldown)
  {}

  lemma ClaimCools(db: Db, env: Env, worker: string, until: Time, cooldown: int)
    requires AllCooled(db.artifacts, cooldown)
    ensures AllCooled(After(db, ClaimNext(db, env, worker, until)).artifacts, cooldown)
  {}

  lemma RescanCools(db: Db, env: Env, d: Digest, actor: string, reason: string, cooldown: int)
    requires AllCooled(db.artifacts, cooldown)
    ensures AllCooled(After(db, RequestRescan(db, env, d, actor, reason)).artifacts, cooldown)
  {}

  lemma {:induction false} RecoverCools(db: Db, lapsed: map<Digest, Time>, env: Env, count: nat, cooldown: int)
    requires lapsed.Keys <= db.artifacts.Keys && AllCooled(db.artifacts, cooldown)
    ensures AllCooled(After(db, RecoverAll(db, lapsed, env, count)).artifacts, cooldown)
    decreases |lapsed|
  {
    if lapsed != map[] {
      var d := Earliest(lapsed);
      var one := RecoverOne(db, d, env, count);
      assert (lapsed - {d}).Keys == lapsed.Keys - {d};
      if one.Done? { RecoverCools(one.db, lapsed - {d}, env, one.value, cooldown); }
    }
  }

  lemma OverridesCool(db: Db, env: Env, c: Command, cooldown: int)
    requires AllCooled(db.artifacts, cooldown) && (c.DoSetOverride? || c.DoRevoke? || c.DoBaseline?)
    ensures AllCooled(Next(db, env, c).artifacts, cooldown)
  {
    match c
    case DoSetOverride(d, o) => OverrideLeases(db, env, d, o);
    case DoRevoke(d, actor, reason) => RevokeLeases(db, env, d, actor, reason);
    case DoBaseline(d, enabled, actor, reason) => BaselineLeases(db, env, d, enabled, actor, reason);
  }

  lemma NextCools(db: Db, env: Env, c: Command, cooldown: int)
    requires Inv(db) && AllCooled(db.artifacts, cooldown) && StampedCommand(c, cooldown)
    ensures AllCooled(Next(db, env, c).artifacts, cooldown)
  {
    match c
    case DoDiscover(x) => DiscoveryCools(db, env, x, cooldown);
    case DoClaim(worker, until) => ClaimCools(db, env, worker, until, cooldown);
    case DoRecover => RecoverCools(db, Lapsed(db, env.now), env, 0, cooldown);
    case DoRecord(claim, x, evidence) => RecordCools(db, env, claim, x, evidence, cooldown);
    case DoMarkError(claim, message) => ErrorCools(db, env, claim, message, cooldown);
    case DoRescan(d, actor, reason) => RescanCools(db, env, d, actor, reason, cooldown);
    case _ => OverridesCool(db, env, c, cooldown);
  }

  lemma {:induction false} RunCools(w: World, steps: seq<Step>, cooldown: int)
    requires WorldInv(w) && FreshRun(w, steps) && AllCooled(w.db.artifacts, cooldown) && StampedRun(steps, cooldown)
    ensures AllCooled(Run(w, steps).db.artifacts, cooldown)
    decreases |steps|
  {
    if steps != [] {
      var next := Advance(w, steps[0].env, steps[0].command);
      AdvanceKeeps(w, steps[0].env, steps[0].command);
      NextCools(w.db, steps[0].env, steps[0].command, cooldown);
      assert forall i :: 0 <= i < |steps[1..]| ==> steps[1..][i] == steps[i + 1];
      RunCools(next, steps[1..], cooldown);
    }
  }

  /** Nobody overrides the artifact at the time. */
  predicate NotOverridden(db: Db, d: Digest, t: Time) {
    !ManualActive(CurrentRow(db.overrides, d), t)
  }

  /** In every reachable state, whatever is served without an override has been waiting for the whole
      cooldown since its first ALLOW. */
  lemma ServedAfterCooldown(steps: seq<Step>, cooldown: int, d: Digest, t: Time)
    requires FreshRun(START, steps) && StampedRun(steps, cooldown)
    ensures var db := Run(START, steps).db;
            && Gates.Look(Gates.Joined(db, t), d).Some?
            && (Gates.Look(Gates.Joined(db, t), d).value.allowed && NotOverridden(db, d, t) ==>
                  d in db.artifacts && db.artifacts[d].cooldownStartedAt.Some?
                  && db.artifacts[d].cooldownStartedAt.value + cooldown <= t)
  {
    StartSound();
    RunKeeps(START, steps);
    RunCools(START, steps, cooldown);
    GatesOnStore.AllowedExactly(Run(START, steps).db, d, t);
  }

  /** So it is when verdicts are recorded by worker cycles, however their calls interleave with each
      other's and with everyone else's. */
  lemma WorkersServeAfterCooldown(steps: seq<Step>, cooldown: int, d: Digest, t: Time)
    requires FreshRun(START, steps) && WorkersRun(steps, cooldown)
    ensures var db := Run(START, steps).db;
            && Gates.Look(Gates.Joined(db, t), d).Some?
            && (Gates.Look(Gates.Joined(db, t), d).value.allowed && NotOverridden(db, d, t) ==>
                  d in db.artifacts && db.artifacts[d].cooldownStartedAt.Some?
                  && db.artifacts[d].cooldownStartedAt.value + cooldown <= t)
  {
    WorkersStamp(steps, cooldown);
    ServedAfterCooldown(steps, cooldown, d, t);
  }

  /** And the first cooldown counts: once set it holds in every later state, whatever is judged anew. */
  lemma FirstCooldownHolds(steps: seq<Step>, later: seq<Step>, d: Digest, t: Time)
    requires FreshRun(START, steps) && FreshRun(Run(START, steps), later)
    requires var db := Run(START, steps).db;
             d in db.artifacts && db.artifacts[d].cooldownUntil.Some? && t < db.artifacts[d].cooldownUntil.value
    requires NotOverridden(Run(Run(START, steps), later).db, d, t)
    ensures var last := Run(Run(START, steps), later).db;
            && Gates.Look(Gates.Joined(last, t), d).Some?
            && !Gates.Look(Gates.Joined(last, t), d).value.allowed
  {
    StartSound();
    RunKeeps(START, steps);
    RunKeeps(Run(START, steps), later);
    GatesOnStore.AllowedExactly(Run(Run(START, steps), later).db, d, t);
  }
}
