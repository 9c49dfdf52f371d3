/** What a worker cycle comes to: exactly when it completes, fails or raises, what it has stored then,
    and which error it raises. */
module PipelineEffects {
  import opened History
  import opened PersistedState
  import opened VerdictTables
  import opened VerdictStore
  import opened VerdictInvariants
  import opened Pipeline
  import E = StoreEffects

  /** The prepared file is the claimed one, and the verdict is about it and about the analysis that was
      made of it. */
  predicate Agrees(claim: Claim, a: Analysis) {
    && a.Evaluated?
    && (a.preparedSha256, a.preparedSize) == (claim.sha256, claim.size)
    && a.verdict.sha256 == claim.sha256
    && (a.verdict.verdict.baseline, a.verdict.verdict.baselineTier) == (a.reportBaseline, a.reportTier)
    && a.verdict.verdict.analyzerVersion == a.reportVersion
  }

  lemma AgreesExactly(claim: Claim, a: Analysis)
    ensures Consistent(claim, a) <==> Agrees(claim, a)
  {}

  /** What is recorded of an analysis: an ALLOW is dated at the completion of the analysis and cools down
      from there, any other verdict is recorded as it is. */
  function Recorded(clock: Clock, cooldown: int, a: Analysis): VerdictInput
    requires a.Evaluated?
  {
    if a.verdict.verdict.decision == Allow
    then VerdictInput(a.verdict.sha256, a.verdict.verdict.(createdAt := clock.completedAt),
                      Some(clock.completedAt + cooldown))
    else a.verdict
  }

  /** A cycle completes exactly when the checks hold and the store takes the result; then the store is
      as recording leaves it. */
  lemma CompletedExactly(db: Db, clock: Clock, cooldown: int, claim: Claim, a: Analysis, message: Diagnostic)
    ensures var c := Judge(db, clock, cooldown, claim, a, message);
            c.status == Completed <==>
              Agrees(claim, a)
              && RecordVerdict(db, clock.recording, claim, Recorded(clock, cooldown, a), a.evidence).Done?
    ensures var c := Judge(db, clock, cooldown, claim, a, message);
            c.status == Completed ==>
              a.Evaluated?
              && c.db == RecordVerdict(db, clock.recording, claim, Recorded(clock, cooldown, a), a.evidence).db
  {
    AgreesExactly(claim, a);
  }

  /** With the audit log up, that is: the checks hold, the result is fit, the lease is still in force at
      the moment of recording and the baseline is known. */
  lemma CompletesExactly(db: Db, clock: Clock, cooldown: int, claim: Claim, a: Analysis, message: Diagnostic)
    requires Inv(db) && clock.recording.auditUp && a.Evaluated?
    ensures var x := Recorded(clock, cooldown, a);
            Judge(db, clock, cooldown, claim, a, message).status == Completed <==>
              && Agrees(claim, a) && E.ClaimFits(claim) && E.ResultFits(x)
              && (forall i :: 0 <= i < |a.evidence| ==> E.ItemFits(a.evidence[i]))
              && E.LeaseInForce(db, claim, clock.recording.now)
              && (x.verdict.baseline.Some? ==> x.verdict.baseline.value in db.artifacts)
  {
    CompletedExactly(db, clock, cooldown, claim, a, message);
    E.RecordDone(db, clock.recording, claim, Recorded(clock, cooldown, a), a.evidence);
  }

  /** Otherwise the error is marked; only if that is impossible, too, the cycle raises, the store is as
      it was, and what is raised is the first error. */
  lemma OtherwiseExactly(db: Db, clock: Clock, cooldown: int, claim: Claim, a: Analysis, message: Diagnostic)
    requires Judge(db, clock, cooldown, claim, a, message).status != Completed
    ensures var c := Judge(db, clock, cooldown, claim, a, message);
            var marked := MarkError(db, clock.marking, claim, message);
            if marked.Done? then c == Cycle(marked.db, Failed)
            else
              && c.db == db && c.status.Escaped?
              && if !Agrees(claim, a) then c.status.primary == Analysing
                 else
                   var refused := RecordVerdict(db, clock.recording, claim, Recorded(clock, cooldown, a), a.evidence);
                   refused.Refused? && c.status.primary == Recording(refused.error)
  {
    AgreesExactly(claim, a);
  }

  /** A cycle is idle exactly when the store is asked and has nothing to claim; it raises without a claim
      exactly when the store refuses; and it asks for a lease from the start of the cycle on. */
  lemma CycleExactly(db: Db, clock: Clock, worker: string, lease: int, cooldown: int, analyse: Claim -> Analysis,
                     message: Diagnostic)
    ensures var c := RunCycle(db, clock, worker, lease, cooldown, analyse, message);
            match ClaimNext(db, clock.claiming, worker, clock.started + lease)
            case Refused(error) => c == Cycle(db, Escaped(Claiming(error)))
            case Done(after, None) => c == Cycle(after, Idle)
            case Done(after, Some(claim)) =>
              c == Judge(after, clock, cooldown, claim, analyse(claim), message) && c.status != Idle
              && !(c.status.Escaped? && c.status.primary.Claiming?)
  {}
}
