/** The assessment in the words of the policy: who denies, which scores apply, which reasons are
    given, and which reports are taken at all. */
module PolicyVerdict {
  import opened History
  import opened Policy

  /** A finding denies by itself or because its rule is mapped to DENY. */
  predicate Denies(c: Config, e: Evidence) {
    e.finding.deny || (e.finding.rule in c.escalations && c.escalations[e.finding.rule] == Deny)
  }

  /** Any other finding asks for a review, except that an analyzer's own failure speaks as a step. */
  predicate Reviews(c: Config, e: Evidence) {
    !Denies(c, e) && e.finding.rule != "analyzer_error"
  }

  predicate SomeDenies(c: Config, r: Report) {
    exists e :: e in r.evidence && Denies(c, e)
  }

  predicate StepFailed(r: Report, analyzer: Analyzer) {
    exists s :: s in r.steps && s.analyzer == analyzer && s.status == Errored
  }

  predicate PairMissing(c: Config, r: Report) {
    c.requirePair && exists s :: s in r.steps && s.analyzer == F9 && s.status == Skipped
  }

  predicate BaselineMissing(c: Config, r: Report) {
    c.requireBaseline && r.baseline == None
  }

  /** The configured score of a finding to review: of its baseline tier for a comparison with a
      baseline. */
  function ReviewScore(c: Config, e: Evidence): int {
    if e.analyzer == F7 && e.tier == Some(SameTag) then c.sameTag
    else if e.analyzer == F7 && e.tier == Some(UniversalWheel) then c.universalWheel
    else if e.analyzer == F7 && e.tier == Some(Sdist) then c.sdist
    else c.review
  }

  /** Some reason to deny or review brings this score. */
  predicate Applies(c: Config, r: Report, score: int) {
    || (SomeDenies(c, r) && score == c.deny)
    || (exists e :: e in r.evidence && Reviews(c, e) && score == ReviewScore(c, e))
    || ((StepFailed(r, F7) || StepFailed(r, F8) || StepFailed(r, F9)) && score == c.analyzerError)
    || (BaselineMissing(c, r) && score == c.noBaseline)
    || (PairMissing(c, r) && score == c.noPair)
  }

  lemma ItemExactly(c: Config, e: Evidence)
    ensures Counts(c, e) <==> Denies(c, e) || Reviews(c, e)
    ensures Denies(c, e) ==> ItemReason(c, e) == FindingDeny(e.analyzer, e.finding.rule) && ItemScore(c, e) == c.deny
    ensures Reviews(c, e) ==>
              ItemReason(c, e) == FindingReview(e.analyzer, e.finding.rule) && ItemScore(c, e) == ReviewScore(c, e)
  {}

  lemma ItemIsPair(c: Config, r: Report, e: Evidence)
    requires e in r.evidence && (Denies(c, e) || Reviews(c, e))
    ensures (ItemReason(c, e), ItemScore(c, e)) in AllPairs(c, r)
  {
    ItemExactly(c, e);
    assert (ItemReason(c, e), ItemScore(c, e)) in ItemPairs(c, r.evidence);
  }

  lemma StepIsPair(c: Config, r: Report, analyzer: Analyzer)
    requires StepFailed(r, analyzer)
    ensures (CoverageError(analyzer), c.analyzerError) in AllPairs(c, r)
  {
    var s :| s in r.steps && s.analyzer == analyzer && s.status == Errored;
    assert (CoverageError(s.analyzer), c.analyzerError) in StepPairs(c, r.steps);
  }

  lemma GapIsPair(c: Config, r: Report)
    ensures BaselineMissing(c, r) ==> (NoBaseline, c.noBaseline) in AllPairs(c, r)
    ensures PairMissing(c, r) ==> (NoPair, c.noPair) in AllPairs(c, r)
  {
    PairExactly(c, r);
  }

  lemma PairExactly(c: Config, r: Report)
    ensures PairMissing(c, r) <==> LacksPair(c, r)
  {
    if PairMissing(c, r) {
      var s :| s in r.steps && s.analyzer == F9 && s.status == Skipped;
      var i :| 0 <= i < |r.steps| && r.steps[i] == s;
    }
    if LacksPair(c, r) {
      var i :| 0 <= i < |r.steps| && r.steps[i].analyzer == F9 && r.steps[i].status == Skipped;
      assert r.steps[i] in r.steps;
    }
  }

  /** Why a pair is there, in the words of the policy. */
  predicate Explained(c: Config, r: Report, reason: Reason, score: int) {
    match reason
    case FindingDeny(analyzer, rule) =>
      score == c.deny
      && exists e :: e in r.evidence && Denies(c, e) && e.analyzer == analyzer && e.finding.rule == rule
    case FindingReview(analyzer, rule) =>
      exists e :: e in r.evidence && Reviews(c, e) && e.analyzer == analyzer && e.finding.rule == rule
                  && score == ReviewScore(c, e)
    case CoverageError(analyzer) => StepFailed(r, analyzer) && score == c.analyzerError
    case NoBaseline => BaselineMissing(c, r) && score == c.noBaseline
    case NoPair => PairMissing(c, r) && score == c.noPair
  }

  lemma PairsExactly(c: Config, r: Report, reason: Reason, score: int)
    ensures (reason, score) in AllPairs(c, r) <==> Explained(c, r, reason, score)
  {
    PairExactly(c, r);
    if (reason, score) in ItemPairs(c, r.evidence) {
      var e :| e in r.evidence && Counts(c, e) && (reason, score) == (ItemReason(c, e), ItemScore(c, e));
      ItemExactly(c, e);
    } else if (reason, score) in StepPairs(c, r.steps) {
      var s :| s in r.steps && s.status == Errored && (reason, score) == (CoverageError(s.analyzer), c.analyzerError);
    }
    if Explained(c, r, reason, score) { ExplainedIsPair(c, r, reason, score); }
  }

  lemma ExplainedIsPair(c: Config, r: Report, reason: Reason, score: int)
    requires Explained(c, r, reason, score)
    ensures (reason, score) in AllPairs(c, r)
  {
    match reason
    case FindingDeny(analyzer, rule) =>
      var e :| e in r.evidence && Denies(c, e) && e.analyzer == analyzer && e.finding.rule == rule;
      ItemExactly(c, e);
      ItemIsPair(c, r, e);
    case FindingReview(analyzer, rule) =>
      var e :| e in r.evidence && Reviews(c, e) && e.analyzer == analyzer && e.finding.rule == rule
               && score == ReviewScore(c, e);
      ItemExactly(c, e);
      ItemIsPair(c, r, e);
    case CoverageError(analyzer) => StepIsPair(c, r, analyzer);
    case _ => GapIsPair(c, r);
  }

  lemma ExplainedApplies(c: Config, r: Report, reason: Reason, score: int)
    requires Explained(c, r, reason, score)
    ensures Applies(c, r, score)
  {}

  lemma AppliesIsExplained(c: Config, r: Report, score: int) returns (reason: Reason)
    requires Applies(c, r, score)
    ensures Explained(c, r, reason, score)
  {
    if SomeDenies(c, r) && score == c.deny {
      var e :| e in r.evidence && Denies(c, e);
      reason := FindingDeny(e.analyzer, e.finding.rule);
    } else if exists e :: e in r.evidence && Reviews(c, e) && score == ReviewScore(c, e) {
      var e :| e in r.evidence && Reviews(c, e) && score == ReviewScore(c, e);
      reason := FindingReview(e.analyzer, e.finding.rule);
    } else if (StepFailed(r, F7) || StepFailed(r, F8) || StepFailed(r, F9)) && score == c.analyzerError {
      reason := CoverageError(if StepFailed(r, F7) then F7 else if StepFailed(r, F8) then F8 else F9);
    } else if BaselineMissing(c, r) && score == c.noBaseline {
      reason := NoBaseline;
    } else {
      reason := NoPair;
    }
  }

  /** DENY exactly when some finding denies, by itself or by its rule; REVIEW exactly when none does and
      something else applies. */
  lemma DecisionExactly(c: Config, r: Report, a: Assessment)
    requires Assesses(c, r, a)
    ensures a.decision == Deny <==> SomeDenies(c, r)
    ensures a.decision == Review <==> !SomeDenies(c, r) && exists score :: Applies(c, r, score)
  {
    var pairs := AllPairs(c, r);
    if SomeDenies(c, r) {
      var e :| e in r.evidence && Denies(c, e);
      ItemExactly(c, e);
      ItemIsPair(c, r, e);
      assert Applies(c, r, c.deny);
    }
    if p :| p in pairs && p.0.FindingDeny? { PairsExactly(c, r, p.0, p.1); }
    if p :| p in pairs {
      PairsExactly(c, r, p.0, p.1);
      ExplainedApplies(c, r, p.0, p.1);
    }
    if score :| Applies(c, r, score) {
      var reason := AppliesIsExplained(c, r, score);
      PairsExactly(c, r, reason, score);
    }
  }

  /** The score is the greatest that applies, and that of ALLOW when none does. */
  lemma ScoreExactly(c: Config, r: Report, a: Assessment)
    requires Assesses(c, r, a)
    ensures forall score :: Applies(c, r, score) ==> score <= a.score
    ensures if exists score :: Applies(c, r, score) then Applies(c, r, a.score) else a.score == c.allow
  {
    var pairs := AllPairs(c, r);
    forall score | Applies(c, r, score) ensures score <= a.score && pairs != {} {
      var reason := AppliesIsExplained(c, r, score);
      PairsExactly(c, r, reason, score);
      assert (reason, score).1 <= a.score;
    }
    if pairs != {} {
      var p :| p in pairs && p.1 == a.score;
      PairsExactly(c, r, p.0, p.1);
      ExplainedApplies(c, r, p.0, p.1);
    }
  }

  /** A reason is given exactly when it is there. */
  lemma ReasonsExactly(c: Config, r: Report, a: Assessment, reason: Reason)
    requires Assesses(c, r, a)
    ensures reason in a.reasons <==> exists score :: Explained(c, r, reason, score)
  {
    if reason in a.reasons {
      var p :| p in AllPairs(c, r) && p.0 == reason;
      PairsExactly(c, r, p.0, p.1);
    }
    if score :| Explained(c, r, reason, score) {
      PairsExactly(c, r, reason, score);
      assert (reason, score).0 == reason;
    }
  }

  // ----- which reports are taken -----

  predicate HasStatus(r: Report, analyzer: Analyzer, status: Status) {
    exists s :: s in r.steps && s.analyzer == analyzer && s.status == status
  }

  /** Evidence that fits the status of its analyzer and the baseline of the report. */
  predicate Fits(r: Report, e: Evidence, status: Status) {
    && status != Skipped && (e.finding.rule == "analyzer_error" ==> status == Errored)
    && (e.analyzer != F7 ==> e.tier == None)
    && (e.analyzer == F7 && r.baseline == None ==> e.tier == None)
    && (e.analyzer == F7 && r.baseline.Some? ==> e.tier == Some(r.baseline.value.1))
  }

  /** Three steps, one of each analyzer, with a reason exactly when skipped; F8 always runs, F7 runs
      with a baseline and does not complete without one; the evidence fits and does not contradict
      itself. */
  predicate Reported(f: Fingerprint, r: Report, f7: Status, f8: Status, f9: Status) {
    && |r.steps| == 3 && HasStatus(r, F7, f7) && HasStatus(r, F8, f8) && HasStatus(r, F9, f9)
    && (forall s :: s in r.steps ==> (s.reason.Some? <==> s.status == Skipped))
    && f8 != Skipped && (r.baseline.Some? ==> f7 != Skipped) && (r.baseline == None ==> f7 != Completed)
    && |r.evidence| <= 1024
    && (forall e :: e in r.evidence ==>
          Fits(r, e, Of(e.analyzer, f7, f8, f9)))
    && forall a, b :: a in r.evidence && b in r.evidence && AlikeTo(f, a, b) ==> a == b
  }

  predicate AlikeTo(f: Fingerprint, a: Evidence, b: Evidence) {
    a.analyzer == b.analyzer && a.origin == b.origin && a.tier == b.tier && f(a.finding) == f(b.finding)
  }

  lemma SomeStep(steps: seq<AnalyzerStep>, analyzer: Analyzer) returns (i: nat)
    requires |steps| == 3 && forall i, j :: 0 <= i < j < 3 ==> steps[i].analyzer != steps[j].analyzer
    ensures i < 3 && steps[i].analyzer == analyzer
  {
    i := if steps[0].analyzer == analyzer then 0 else if steps[1].analyzer == analyzer then 1 else 2;
  }

  lemma StatusOf(r: Report, analyzer: Analyzer) returns (status: Status)
    requires StepsValid(r)
    ensures HasStatus(r, analyzer, status)
    ensures forall other :: HasStep(r.steps, analyzer, other) ==> other == status
  {
    var i := SomeStep(r.steps, analyzer);
    status := r.steps[i].status;
    assert r.steps[i] in r.steps;
  }

  lemma HasStatusIsStep(r: Report, analyzer: Analyzer, status: Status)
    ensures HasStatus(r, analyzer, status) <==> HasStep(r.steps, analyzer, status)
  {
    if HasStatus(r, analyzer, status) {
      var s :| s in r.steps && s.analyzer == analyzer && s.status == status;
      var i :| 0 <= i < |r.steps| && r.steps[i] == s;
    }
    if HasStep(r.steps, analyzer, status) {
      var i :| 0 <= i < |r.steps| && r.steps[i].analyzer == analyzer && r.steps[i].status == status;
      assert r.steps[i] in r.steps;
    }
  }

  lemma StepsAccepted(r: Report) returns (f7: Status, f8: Status, f9: Status)
    requires StepsValid(r)
    ensures HasStatus(r, F7, f7) && HasStatus(r, F8, f8) && HasStatus(r, F9, f9)
    ensures f8 != Skipped && (r.baseline.Some? ==> f7 != Skipped) && (r.baseline == None ==> f7 != Completed)
    ensures forall other :: HasStep(r.steps, F7, other) ==> other == f7
    ensures forall other :: HasStep(r.steps, F8, other) ==> other == f8
    ensures forall other :: HasStep(r.steps, F9, other) ==> other == f9
  {
    f7 := StatusOf(r, F7);
    f8 := StatusOf(r, F8);
    f9 := StatusOf(r, F9);
    HasStatusIsStep(r, F7, f7);
    HasStatusIsStep(r, F8, f8);
  }

  function Of(analyzer: Analyzer, f7: Status, f8: Status, f9: Status): Status {
    match analyzer case F7 => f7 case F8 => f8 case F9 => f9
  }

  lemma ItemFits(r: Report, e: Evidence, status: Status)
    requires HasStep(r.steps, e.analyzer, status)
    requires forall other :: HasStep(r.steps, e.analyzer, other) ==> other == status
    ensures ItemValid(r, e) <==> Fits(r, e, status)
  {}

  /** A report is taken exactly when it can be read this way. */
  lemma TakenIsReported(f: Fingerprint, r: Report)
    requires ReportValid(f, r)
    ensures exists f7, f8, f9 :: Reported(f, r, f7, f8, f9)
  {
    var f7, f8, f9 := StepsAccepted(r);
    HasStatusIsStep(r, F7, f7);
    HasStatusIsStep(r, F8, f8);
    HasStatusIsStep(r, F9, f9);
    forall s | s in r.steps ensures s.reason.Some? <==> s.status == Skipped {
      var i :| 0 <= i < |r.steps| && r.steps[i] == s;
      assert StepValid(r.steps[i]);
    }
    forall e | e in r.evidence ensures Fits(r, e, Of(e.analyzer, f7, f8, f9)) {
      var i :| 0 <= i < |r.evidence| && r.evidence[i] == e;
      ItemFits(r, e, Of(e.analyzer, f7, f8, f9));
    }
    forall a, b | a in r.evidence && b in r.evidence && AlikeTo(f, a, b) ensures a == b {
      var i :| 0 <= i < |r.evidence| && r.evidence[i] == a;
      var j :| 0 <= j < |r.evidence| && r.evidence[j] == b;
      assert SameIdentity(f, r.evidence[i], r.evidence[j]) && SameIdentity(f, r.evidence[j], r.evidence[i]);
    }
    assert Reported(f, r, f7, f8, f9);
  }

  lemma PlaceOf(r: Report, analyzer: Analyzer, status: Status) returns (i: nat)
    requires HasStatus(r, analyzer, status)
    ensures i < |r.steps| && r.steps[i].analyzer == analyzer && r.steps[i].status == status
  {
    HasStatusIsStep(r, analyzer, status);
    i :| i < |r.steps| && r.steps[i].analyzer == analyzer && r.steps[i].status == status;
  }

  lemma ThreePlaces(steps: seq<AnalyzerStep>, i: nat, j: nat, k: nat)
    requires |steps| == 3 && i < 3 && j < 3 && k < 3
    requires steps[i].analyzer == F7 && steps[j].analyzer == F8 && steps[k].analyzer == F9
    ensures forall n {:trigger steps[n]} :: 0 <= n < 3 ==> n == i || n == j || n == k
    ensures steps[0].analyzer != steps[1].analyzer && steps[0].analyzer != steps[2].analyzer
    ensures steps[1].analyzer != steps[2].analyzer
  {
    assert i != j && j != k && i != k;
  }

  lemma ThreeDiffer(r: Report, f7: Status, f8: Status, f9: Status)
    requires |r.steps| == 3 && HasStatus(r, F7, f7) && HasStatus(r, F8, f8) && HasStatus(r, F9, f9)
    ensures forall i, j :: 0 <= i < j < 3 ==> r.steps[i].analyzer != r.steps[j].analyzer
    ensures forall i :: 0 <= i < 3 ==> r.steps[i].status == Of(r.steps[i].analyzer, f7, f8, f9)
  {
    var i := PlaceOf(r, F7, f7);
    var j := PlaceOf(r, F8, f8);
    var k := PlaceOf(r, F9, f9);
    ThreePlaces(r.steps, i, j, k);
  }

  lemma ReportedIsTaken(f: Fingerprint, r: Report, f7: Status, f8: Status, f9: Status)
    requires Reported(f, r, f7, f8, f9)
    ensures ReportValid(f, r)
  {
    ThreeDiffer(r, f7, f8, f9);
    forall i | 0 <= i < 3 ensures StepValid(r.steps[i]) { assert r.steps[i] in r.steps; }
    HasStatusIsStep(r, F7, f7);
    HasStatusIsStep(r, F8, f8);
    HasStatusIsStep(r, F9, f9);
    forall i | 0 <= i < |r.evidence| ensures ItemValid(r, r.evidence[i]) {
      var e := r.evidence[i];
      assert e in r.evidence;
      ItemFits(r, e, Of(e.analyzer, f7, f8, f9));
    }
    forall i, j | 0 <= i < j < |r.evidence| && SameIdentity(f, r.evidence[i], r.evidence[j])
      ensures r.evidence[i] == r.evidence[j]
    {
      assert r.evidence[i] in r.evidence && r.evidence[j] in r.evidence;
      assert AlikeTo(f, r.evidence[i], r.evidence[j]);
    }
  }

  lemma TakenExactly(f: Fingerprint, r: Report)
    ensures ReportValid(f, r) <==> exists f7, f8, f9 :: Reported(f, r, f7, f8, f9)
  {
    if ReportValid(f, r) { TakenIsReported(f, r); }
    if f7, f8, f9 :| Reported(f, r, f7, f8, f9) { ReportedIsTaken(f, r, f7, f8, f9); }
  }
}
