/** One cycle of an analysis worker over the store: claim, analyse, stamp the cooldown, record the
    verdict or mark the error. */
module Pipeline {
  import opened History
  import opened PersistedState
  import opened VerdictTables
  import opened VerdictStore
  import opened VerdictInvariants
  import opened ArtifactStore
  import Gates

  /** What preparation, analysis and policy make of a claim, or that one of them raised. */
  datatype Analysis =
    | Raised
    | Evaluated(
        preparedSha256: Digest,
        preparedSize: int,
        verdict: VerdictInput,
        reportBaseline: Option<Digest>,
        reportTier: Option<string>,
        reportVersion: string,
        evidence: seq<Evidence>)

  /** The worker's own checks before it stores anything. */
  predicate Consistent(claim: Claim, a: Analysis) {
    && a.Evaluated?
    && a.preparedSha256 == claim.sha256 && a.preparedSize == claim.size
    && a.verdict.sha256 == claim.sha256
    && a.verdict.verdict.baseline == a.reportBaseline
    && a.verdict.verdict.analyzerVersion == a.reportVersion
    && a.verdict.verdict.baselineTier == a.reportTier
  }

  /** An ALLOW starts its cooldown when the analysis completes. */
  function Stamped(x: VerdictInput, completedAt: Time, cooldown: int): VerdictInput {
    if x.verdict.decision != Allow then x
    else x.(verdict := x.verdict.(createdAt := completedAt), cooldownUntil := Some(completedAt + cooldown))
  }

  /** What a cycle raises when it cannot even mark the error: the first failure, not the last. */
  datatype Primary = Claiming(error: Error) | Analysing | Recording(error: Error)

  datatype Status = Idle | Completed | Failed | Escaped(primary: Primary)

  /** The clock readings of a cycle, the worker's and the store's own, and the audit log's health at
      each store call. */
  datatype Clock = Clock(started: Time, claiming: Env, completedAt: Time, recording: Env, marking: Env)

  datatype Cycle = Cycle(db: Db, status: Status)

  function Marked(db: Db, clock: Clock, claim: Claim, message: Diagnostic, primary: Primary): Cycle {
    var marked := MarkError(db, clock.marking, claim, message);
    if marked.Done? then Cycle(marked.db, Failed) else Cycle(db, Escaped(primary))
  }

  function Judge(db: Db, clock: Clock, cooldown: int, claim: Claim, a: Analysis, message: Diagnostic): Cycle {
    if !Consistent(claim, a) then Marked(db, clock, claim, message, Analysing)
    else
      var recorded := VerdictStore.RecordVerdict(db, clock.recording, claim,
                                                 Stamped(a.verdict, clock.completedAt, cooldown), a.evidence);
      if recorded.Done? then Cycle(recorded.db, Completed)
      else Marked(db, clock, claim, message, Recording(recorded.error))
  }

  ghost function RunCycle(db: Db, clock: Clock, worker: string, lease: int, cooldown: int,
                          analyse: Claim -> Analysis, message: Diagnostic): Cycle
  {
    var claimed := ClaimNext(db, clock.claiming, worker, clock.started + lease);
    if claimed.Refused? then Cycle(db, Escaped(Claiming(claimed.error)))
    else if claimed.value == None then Cycle(claimed.db, Idle)
    else Judge(claimed.db, clock, cooldown, claimed.value.value, analyse(claimed.value.value), message)
  }

  method RunOnce(store: Store, clock: Clock, worker: string, lease: int, cooldown: int,
                 analyse: Claim -> Analysis, message: Diagnostic) returns (status: Status)
    modifies store
    ensures Cycle(store.State(), status)
         == RunCycle(old(store.State()), clock, worker, lease, cooldown, analyse, message)
  {
    var claimed := store.ClaimNextArtifact(clock.claiming, worker, clock.started + lease);
    if claimed.Err? { return Escaped(Claiming(claimed.error)); }
    if claimed.value == None { return Idle; }
    var claim := claimed.value.value;
    status := Resolve(store, clock, cooldown, claim, analyse(claim), message);
  }

  /** The part of a cycle after the analysis: record the verdict, or mark the error. */
  method Resolve(store: Store, clock: Clock, cooldown: int, claim: Claim, a: Analysis, message: Diagnostic)
    returns (status: Status)
    modifies store
    ensures Cycle(store.State(), status) == Judge(old(store.State()), clock, cooldown, claim, a, message)
  {
    var primary := Analysing;
    if Consistent(claim, a) {
      var recorded := store.RecordVerdict(clock.recording, claim, Stamped(a.verdict, clock.completedAt, cooldown),
                                          a.evidence);
      if recorded.Ok? { return Completed; }
      primary := Recording(recorded.error);
    }
    var marked := store.MarkAnalysisError(clock.marking, claim, message);
    return if marked.Ok? then Failed else Escaped(primary);
  }

  /** A judged artifact whose cooldown has not ended is not served without an override. */
  lemma NoOverride(db: Db, d: Digest, t: Time)
    requires SliceSound(d, SliceOf(db, d)) && d in db.artifacts
    ensures Gates.Look(Gates.Joined(db, t), d).Some?
    ensures CurrentRow(db.overrides, d) == Absent
            && (db.artifacts[d].state != Judged(Allow)
                || (db.artifacts[d].cooldownUntil.Some? && t < db.artifacts[d].cooldownUntil.value))
            ==> !Gates.Look(Gates.Joined(db, t), d).value.allowed
  {}

  lemma CompletedIsRecord(db: Db, clock: Clock, cooldown: int, claim: Claim, a: Analysis, message: Diagnostic)
    requires Judge(db, clock, cooldown, claim, a, message).status == Completed
    ensures a.Evaluated?
    ensures var r := VerdictStore.RecordVerdict(db, clock.recording, claim,
                                                Stamped(a.verdict, clock.completedAt, cooldown), a.evidence);
            r.Done? && Judge(db, clock, cooldown, claim, a, message).db == r.db
  {}

  lemma RecordedRows(db: Db, env: Env, claim: Claim, x: VerdictInput, evidence: seq<Evidence>)
    requires Inv(db) && VerdictStore.RecordVerdict(db, env, claim, x, evidence).Done?
    ensures claim.sha256 in db.artifacts && x.sha256 == claim.sha256
    ensures var after := VerdictStore.RecordVerdict(db, env, claim, x, evidence).db;
            && SliceSound(claim.sha256, SliceOf(after, claim.sha256))
            && after.artifacts == db.artifacts[claim.sha256 := Concluded(db.artifacts[claim.sha256], x, env.now)]
  {
    RecordTransacts(db, env, claim, x, evidence);
    assert SliceSound(claim.sha256, SliceOf(VerdictStore.RecordVerdict(db, env, claim, x, evidence).db, claim.sha256));
  }

  lemma ScanningNotOverridden(db: Db, env: Env, claim: Claim, x: VerdictInput, evidence: seq<Evidence>)
    requires Inv(db) && VerdictStore.RecordVerdict(db, env, claim, x, evidence).Done?
    ensures CurrentRow(VerdictStore.RecordVerdict(db, env, claim, x, evidence).db.overrides, claim.sha256) == Absent
  {
    assert SliceSound(claim.sha256, SliceOf(db, claim.sha256));
  }

  lemma CompletedRecords(db: Db, clock: Clock, cooldown: int, claim: Claim, a: Analysis, message: Diagnostic)
    requires Inv(db) && Judge(db, clock, cooldown, claim, a, message).status == Completed
    ensures claim.sha256 in db.artifacts
    ensures var x := Stamped(a.verdict, clock.completedAt, cooldown);
            var after := Judge(db, clock, cooldown, claim, a, message).db;
            && SliceSound(claim.sha256, SliceOf(after, claim.sha256))
            && after.artifacts
                == db.artifacts[claim.sha256 := Concluded(db.artifacts[claim.sha256], x, clock.recording.now)]
            && CurrentRow(after.overrides, claim.sha256) == Absent
  {
    var x := Stamped(a.verdict, clock.completedAt, cooldown);
    CompletedIsRecord(db, clock, cooldown, claim, a, message);
    RecordedRows(db, clock.recording, claim, x, a.evidence);
    ScanningNotOverridden(db, clock.recording, claim, x, a.evidence);
  }

  /** After a completed cycle no automated ALLOW is served before its cooldown, counted from this
      completion unless an earlier ALLOW had already started one. */
  lemma NotServedInCooldown(db: Db, clock: Clock, cooldown: int, claim: Claim, a: Analysis, message: Diagnostic,
                            t: Time)
    requires Inv(db) && Judge(db, clock, cooldown, claim, a, message).status == Completed
    ensures claim.sha256 in db.artifacts
    ensures var after := Judge(db, clock, cooldown, claim, a, message).db;
            var until := Coalesce(db.artifacts[claim.sha256].cooldownUntil, Some(clock.completedAt + cooldown));
            t < until.value ==>
              Gates.Look(Gates.Joined(after, t), claim.sha256).Some?
              && !Gates.Look(Gates.Joined(after, t), claim.sha256).value.allowed
  {
    CompletedRecords(db, clock, cooldown, claim, a, message);
    NoOverride(Judge(db, clock, cooldown, claim, a, message).db, claim.sha256, t);
  }

  lemma MarkSucceeds(db: Db, env: Env, claim: Claim, message: Diagnostic)
    requires Inv(db) && Holds(db, claim, env.now) && env.auditUp && ClaimAccepted(claim)
    ensures var r := MarkError(db, env, claim, message);
            r.Done? && claim.sha256 in r.db.artifacts && r.db.artifacts[claim.sha256].state == Errored
  {}

  lemma OtherwiseMarks(db: Db, clock: Clock, cooldown: int, claim: Claim, a: Analysis, message: Diagnostic)
    requires MarkError(db, clock.marking, claim, message).Done?
    ensures var c := Judge(db, clock, cooldown, claim, a, message);
            c.status == Completed || c == Cycle(MarkError(db, clock.marking, claim, message).db, Failed)
  {}

  /** A worker that claims always leaves the artifact judged or failed, unless the store itself
      refuses; then the lease is left to expire. */
  lemma ClaimIsResolved(db: Db, clock: Clock, cooldown: int, claim: Claim, a: Analysis, message: Diagnostic)
    requires Inv(db) && Holds(db, claim, clock.marking.now)
    requires clock.marking.auditUp && ClaimAccepted(claim)
    ensures var c := Judge(db, clock, cooldown, claim, a, message);
            && c.status != Idle && !c.status.Escaped?
            && claim.sha256 in c.db.artifacts && Terminal(c.db.artifacts[claim.sha256].state)
  {
    MarkSucceeds(db, clock.marking, claim, message);
    OtherwiseMarks(db, clock, cooldown, claim, a, message);
    if Judge(db, clock, cooldown, claim, a, message).status == Completed {
      CompletedRecords(db, clock, cooldown, claim, a, message);
    }
  }
}
