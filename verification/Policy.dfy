/** The policy engine: loops over evidence and steps that accumulate a decision, a score and
    reasons, against a definition that mentions no order at all. */
module Policy {
  import opened History

  datatype Verdict = Allow | Review | Deny

  datatype Analyzer = F7 | F8 | F9

  datatype Tier = SameTag | UniversalWheel | Sdist

  datatype Status = Completed | Skipped | Errored

  datatype AnalyzerStep = AnalyzerStep(analyzer: Analyzer, status: Status, reason: Option<string>)

  /** A finding; `body` stands for file, line, snippet, message, source and sink together. */
  datatype Finding = Finding(rule: string, deny: bool, body: string)

  datatype Evidence = Evidence(analyzer: Analyzer, finding: Finding, origin: Option<string>, tier: Option<Tier>)

  type Fingerprint = Finding -> nat

  datatype Config = Config(
    requireBaseline: bool,
    requirePair: bool,
    allow: int,
    review: int,
    noPair: int,
    noBaseline: int,
    analyzerError: int,
    deny: int,
    sameTag: int,
    universalWheel: int,
    sdist: int,
    escalations: map<string, Verdict>)

  const MAX_ESCALATIONS := 256
  const MAX_EVIDENCE := 1024

  predicate ScoreInRange(s: int) {
    0 <= s <= 100
  }

  /** What PolicyConfig accepts. */
  predicate ConfigValid(c: Config) {
    && ScoreInRange(c.allow) && ScoreInRange(c.review) && ScoreInRange(c.noPair) && ScoreInRange(c.noBaseline)
    && ScoreInRange(c.analyzerError) && ScoreInRange(c.deny)
    && ScoreInRange(c.sameTag) && ScoreInRange(c.universalWheel) && ScoreInRange(c.sdist)
    && c.allow <= c.review <= c.noPair <= c.noBaseline <= c.analyzerError <= c.deny
    && c.allow == 0 && 50 <= c.review && 60 <= c.noPair && 70 <= c.noBaseline && 90 <= c.analyzerError && c.deny == 100
    && 50 <= c.sameTag && 60 <= c.universalWheel && 70 <= c.sdist
    && c.review <= c.sameTag < c.universalWheel < c.sdist < c.deny
    && |c.escalations| <= MAX_ESCALATIONS
    && forall rule :: rule in c.escalations ==> c.escalations[rule] != Allow
  }

  datatype Report = Report(
    baseline: Option<(Digest, Tier)>,
    steps: seq<AnalyzerStep>,
    evidence: seq<Evidence>)

  const ANALYZER_ERROR := "analyzer_error"

  predicate StepValid(s: AnalyzerStep) {
    s.reason.Some? == s.status.Skipped?
  }

  predicate HasStep(steps: seq<AnalyzerStep>, analyzer: Analyzer, status: Status) {
    exists i :: 0 <= i < |steps| && steps[i].analyzer == analyzer && steps[i].status == status
  }

  predicate StepsValid(r: Report) {
    && |r.steps| == 3
    && (forall i :: 0 <= i < 3 ==> StepValid(r.steps[i]))
    && (forall i, j :: 0 <= i < j < 3 ==> r.steps[i].analyzer != r.steps[j].analyzer)
    && !HasStep(r.steps, F8, Skipped)
    && (if r.baseline.Some? then !HasStep(r.steps, F7, Skipped) else !HasStep(r.steps, F7, Completed))
  }

  predicate ItemValid(r: Report, e: Evidence) {
    && !HasStep(r.steps, e.analyzer, Skipped)
    && (if e.analyzer.F7? then e.tier == (if r.baseline.Some? then Some(r.baseline.value.1) else None)
        else e.tier == None)
    && (e.finding.rule == ANALYZER_ERROR ==> HasStep(r.steps, e.analyzer, Errored))
  }

  predicate SameIdentity(f: Fingerprint, a: Evidence, b: Evidence) {
    a.analyzer == b.analyzer && f(a.finding) == f(b.finding) && a.origin == b.origin && a.tier == b.tier
  }

  /** What the engine demands of a report: consistent steps and baseline, and evidence that does not
      contradict itself. */
  predicate ReportValid(f: Fingerprint, r: Report) {
    && StepsValid(r) && |r.evidence| <= MAX_EVIDENCE
    && (forall i :: 0 <= i < |r.evidence| ==> ItemValid(r, r.evidence[i]))
    && forall i, j :: 0 <= i < j < |r.evidence| && SameIdentity(f, r.evidence[i], r.evidence[j]) ==>
         r.evidence[i] == r.evidence[j]
  }

  function EffectiveAction(c: Config, e: Evidence): Verdict {
    if e.finding.deny then Deny
    else if e.finding.rule in c.escalations && c.escalations[e.finding.rule] == Deny then Deny
    else Review
  }

  // ----- the definition without order -----

  datatype Reason =
    | FindingDeny(analyzer: Analyzer, rule: string)
    | FindingReview(analyzer: Analyzer, rule: string)
    | CoverageError(analyzer: Analyzer)
    | NoBaseline
    | NoPair

  /** An analyzer_error finding short of DENY speaks through its step. */
  predicate Counts(c: Config, e: Evidence) {
    e.finding.rule != ANALYZER_ERROR || EffectiveAction(c, e) == Deny
  }

  function TierScore(c: Config, t: Tier): int {
    match t
    case SameTag => c.sameTag
    case UniversalWheel => c.universalWheel
    case Sdist => c.sdist
  }

  function ItemScore(c: Config, e: Evidence): int {
    if EffectiveAction(c, e) == Deny then c.deny
    else if e.analyzer.F7? && e.tier.Some? then TierScore(c, e.tier.value)
    else c.review
  }

  function ItemReason(c: Config, e: Evidence): Reason {
    if EffectiveAction(c, e) == Deny then FindingDeny(e.analyzer, e.finding.rule)
    else FindingReview(e.analyzer, e.finding.rule)
  }

  predicate LacksBaseline(c: Config, r: Report) {
    c.requireBaseline && r.baseline == None
  }

  predicate LacksPair(c: Config, r: Report) {
    c.requirePair && HasStep(r.steps, F9, Skipped)
  }

  type Pairs = set<(Reason, int)>

  function StepPairs(c: Config, steps: seq<AnalyzerStep>): Pairs {
    set s | s in steps && s.status == Errored :: (CoverageError(s.analyzer), c.analyzerError)
  }

  function ItemPairs(c: Config, evidence: seq<Evidence>): Pairs {
    set e | e in evidence && Counts(c, e) :: (ItemReason(c, e), ItemScore(c, e))
  }

  function Maybe(given: bool, reason: Reason, score: int): Pairs {
    if given then {(reason, score)} else {}
  }

  function CoveragePairs(c: Config, r: Report): Pairs {
    Maybe(LacksBaseline(c, r), NoBaseline, c.noBaseline) + Maybe(LacksPair(c, r), NoPair, c.noPair)
  }

  /** Every reason there is, with the score it brings. */
  function AllPairs(c: Config, r: Report): Pairs {
    ItemPairs(c, r.evidence) + StepPairs(c, r.steps) + CoveragePairs(c, r)
  }

  datatype Assessment = Assessment(decision: Verdict, score: int, reasons: set<Reason>)

  function DecisionOf(pairs: Pairs): Verdict {
    if exists p :: p in pairs && p.0.FindingDeny? then Deny else if pairs != {} then Review else Allow
  }

  ghost predicate Highest(pairs: Pairs, score: int, least: int) {
    && (forall p :: p in pairs ==> p.1 <= score)
    && (if pairs == {} then score == least else exists p :: p in pairs && p.1 == score)
  }

  /** The assessment: exactly the reasons there are, the highest of their scores, and the decision
      they call for. */
  ghost predicate Assesses(c: Config, r: Report, a: Assessment) {
    var pairs := AllPairs(c, r);
    && a.decision == DecisionOf(pairs)
    && Highest(pairs, a.score, c.allow)
    && a.reasons == set p | p in pairs :: p.0
  }

  // ----- the engine's loops -----

  datatype Running = Running(reasons: set<Reason>, score: int, hasDeny: bool, hasReview: bool)

  ghost predicate Tallied(pairs: Pairs, t: Running, least: int) {
    && t.reasons == (set p | p in pairs :: p.0)
    && Highest(pairs, t.score, least) && least <= t.score
    && (t.hasDeny <==> exists p :: p in pairs && p.0.FindingDeny?)
    && (t.hasDeny || t.hasReview <==> pairs != {})
  }

  function Add(t: Running, reason: Reason, score: int): Running {
    Running(t.reasons + {reason}, if score > t.score then score else t.score,
            t.hasDeny || reason.FindingDeny?, t.hasReview || !reason.FindingDeny?)
  }

  lemma AddTallies(pairs: Pairs, t: Running, reason: Reason, score: int, least: int)
    requires Tallied(pairs, t, least) && least <= score
    ensures Tallied(pairs + {(reason, score)}, Add(t, reason, score), least)
  {
    var after, next := pairs + {(reason, score)}, Add(t, reason, score);
    assert (reason, score) in after;
    assert (set p | p in after :: p.0) == (set p | p in pairs :: p.0) + {reason};
    if next.score == t.score && score != t.score {
      if pairs != {} { var p :| p in pairs && p.1 == t.score; assert p in after; }
    }
    if t.hasDeny { var p :| p in pairs && p.0.FindingDeny?; assert p in after; }
  }

  lemma ItemPairsAppend(c: Config, evidence: seq<Evidence>, e: Evidence)
    ensures ItemPairs(c, evidence + [e])
            == ItemPairs(c, evidence) + if Counts(c, e) then {(ItemReason(c, e), ItemScore(c, e))} else {}
  {
    var after := evidence + [e];
    assert forall x :: x in after <==> x in evidence || x == e;
  }

  lemma StepPairsAppend(c: Config, steps: seq<AnalyzerStep>, s: AnalyzerStep)
    ensures StepPairs(c, steps + [s])
            == StepPairs(c, steps) + Maybe(s.status == Errored, CoverageError(s.analyzer), c.analyzerError)
  {
    var after := steps + [s];
    assert forall x :: x in after <==> x in steps || x == s;
  }

  function AddIf(t: Running, given: bool, reason: Reason, score: int): Running {
    if given then Add(t, reason, score) else t
  }

  lemma GapTallied(pairs: Pairs, t: Running, given: bool, reason: Reason, score: int, least: int)
    requires Tallied(pairs, t, least) && least <= score
    ensures Tallied(pairs + Maybe(given, reason, score), AddIf(t, given, reason, score), least)
  {
    if given { AddTallies(pairs, t, reason, score, least); } else { assert pairs + {} == pairs; }
  }

  lemma Regroup(a: Pairs, b: Pairs, c: Pairs)
    ensures a + b + c == a + (b + c)
  {}

  /** One round of the loop over the evidence. */
  function TallyItem(c: Config, e: Evidence, t: Running): Running {
    var action := EffectiveAction(c, e);
    if e.finding.rule == ANALYZER_ERROR && action != Deny then t
    else if action == Deny then Add(t, FindingDeny(e.analyzer, e.finding.rule), c.deny)
    else
      Add(t, FindingReview(e.analyzer, e.finding.rule),
          if e.analyzer.F7? && e.tier.Some? then TierScore(c, e.tier.value) else c.review)
  }

  lemma ItemTallied(c: Config, evidence: seq<Evidence>, e: Evidence, t: Running)
    requires ConfigValid(c) && Tallied(ItemPairs(c, evidence), t, c.allow)
    ensures Tallied(ItemPairs(c, evidence + [e]), TallyItem(c, e, t), c.allow)
  {
    ItemPairsAppend(c, evidence, e);
    ItemBand(c, e);
    if Counts(c, e) {
      AddTallies(ItemPairs(c, evidence), t, ItemReason(c, e), ItemScore(c, e), c.allow);
      assert TallyItem(c, e, t) == Add(t, ItemReason(c, e), ItemScore(c, e));
    }
  }

  method TallyEvidence(c: Config, evidence: seq<Evidence>, t: Running) returns (after: Running)
    requires ConfigValid(c) && Tallied(ItemPairs(c, []), t, c.allow)
    ensures Tallied(ItemPairs(c, evidence), after, c.allow)
  {
    after := t;
    for i := 0 to |evidence|
      invariant Tallied(ItemPairs(c, evidence[..i]), after, c.allow)
    {
      ItemTallied(c, evidence[..i], evidence[i], after);
      assert evidence[..i + 1] == evidence[..i] + [evidence[i]];
      after := TallyItem(c, evidence[i], after);
    }
    assert evidence[..|evidence|] == evidence;
  }

  function TallyStep(c: Config, s: AnalyzerStep, t: Running): Running {
    AddIf(t, s.status == Errored, CoverageError(s.analyzer), c.analyzerError)
  }

  lemma StepTallied(c: Config, steps: seq<AnalyzerStep>, s: AnalyzerStep, t: Running, pairs: Pairs)
    requires ConfigValid(c) && Tallied(pairs + StepPairs(c, steps), t, c.allow)
    ensures Tallied(pairs + StepPairs(c, steps + [s]), TallyStep(c, s, t), c.allow)
  {
    StepPairsAppend(c, steps, s);
    var reason := CoverageError(s.analyzer);
    GapTallied(pairs + StepPairs(c, steps), t, s.status == Errored, reason, c.analyzerError, c.allow);
    Regroup(pairs, StepPairs(c, steps), Maybe(s.status == Errored, reason, c.analyzerError));
  }

  method TallySteps(c: Config, steps: seq<AnalyzerStep>, t: Running, ghost pairs: Pairs) returns (after: Running)
    requires ConfigValid(c) && Tallied(pairs + StepPairs(c, []), t, c.allow)
    ensures Tallied(pairs + StepPairs(c, steps), after, c.allow)
  {
    after := t;
    for i := 0 to |steps|
      invariant Tallied(pairs + StepPairs(c, steps[..i]), after, c.allow)
    {
      StepTallied(c, steps[..i], steps[i], after, pairs);
      assert steps[..i + 1] == steps[..i] + [steps[i]];
      after := TallyStep(c, steps[i], after);
    }
    assert steps[..|steps|] == steps;
  }

  method TallyCoverage(c: Config, r: Report, t: Running, ghost pairs: Pairs) returns (after: Running)
    requires ConfigValid(c) && Tallied(pairs, t, c.allow)
    ensures Tallied(pairs + CoveragePairs(c, r), after, c.allow)
  {
    ghost var first := Maybe(LacksBaseline(c, r), NoBaseline, c.noBaseline);
    GapTallied(pairs, t, LacksBaseline(c, r), NoBaseline, c.noBaseline, c.allow);
    after := AddIf(t, LacksBaseline(c, r), NoBaseline, c.noBaseline);
    GapTallied(pairs + first, after, LacksPair(c, r), NoPair, c.noPair, c.allow);
    after := AddIf(after, LacksPair(c, r), NoPair, c.noPair);
    Regroup(pairs, first, Maybe(LacksPair(c, r), NoPair, c.noPair));
  }

  function Conclude(c: Config, t: Running): Assessment {
    var decision := if t.hasDeny then Deny else if t.hasReview then Review else Allow;
    Assessment(decision, if decision == Allow then c.allow else t.score, t.reasons)
  }

  lemma Concludes(c: Config, r: Report, t: Running)
    requires Tallied(AllPairs(c, r), t, c.allow)
    ensures Assesses(c, r, Conclude(c, t))
  {}

  lemma NothingYet(c: Config, pairs: Pairs)
    ensures ItemPairs(c, []) == {} && pairs + StepPairs(c, []) == pairs
    ensures Tallied({}, Running({}, c.allow, false, false), c.allow)
  {}

  method TallyAll(c: Config, r: Report) returns (t: Running)
    requires ConfigValid(c)
    ensures Tallied(AllPairs(c, r), t, c.allow)
  {
    ghost var items := ItemPairs(c, r.evidence);
    NothingYet(c, items);
    t := TallyEvidence(c, r.evidence, Running({}, c.allow, false, false));
    t := TallySteps(c, r.steps, t, items);
    t := TallyCoverage(c, r, t, items + StepPairs(c, r.steps));
  }

  method Assess(f: Fingerprint, c: Config, r: Report) returns (a: Option<Assessment>)
    requires ConfigValid(c)
    ensures a.Some? <==> ReportValid(f, r)
    ensures a.Some? ==> Assesses(c, r, a.value)
  {
    if !ReportValid(f, r) { return None; }
    var t := TallyAll(c, r);
    Concludes(c, r, t);
    return Some(Conclude(c, t));
  }

  // ----- laws -----

  lemma HighestUnique(pairs: Pairs, a: int, b: int, least: int)
    requires Highest(pairs, a, least) && Highest(pairs, b, least)
    ensures a == b
  {}

  /** Only which evidence and which steps there are matters, not their order or repetition. */
  lemma OrderAndRepetitionIrrelevant(c: Config, r: Report, s: Report, a: Assessment, b: Assessment)
    requires Assesses(c, r, a) && Assesses(c, s, b)
    requires r.baseline == s.baseline
    requires (forall e :: e in r.evidence <==> e in s.evidence) && (forall t :: t in r.steps <==> t in s.steps)
    ensures a == b
  {
    assert HasStep(r.steps, F9, Skipped) == HasStep(s.steps, F9, Skipped) by {
      SameSteps(r.steps, s.steps, F9, Skipped);
    }
    assert ItemPairs(c, r.evidence) == ItemPairs(c, s.evidence);
    assert StepPairs(c, r.steps) == StepPairs(c, s.steps);
    HighestUnique(AllPairs(c, r), a.score, b.score, c.allow);
  }

  /** Reordering steps, and reordering or repeating evidence within the limit, keeps a report valid. */
  lemma ValidityIgnoresOrder(f: Fingerprint, r: Report, s: Report)
    requires ReportValid(f, r) && r.baseline == s.baseline && |s.steps| == 3 && |s.evidence| <= MAX_EVIDENCE
    requires (forall e :: e in r.evidence <==> e in s.evidence) && (forall t :: t in r.steps <==> t in s.steps)
    ensures ReportValid(f, s)
  {
    forall analyzer, status ensures HasStep(r.steps, analyzer, status) == HasStep(s.steps, analyzer, status) {
      SameSteps(r.steps, s.steps, analyzer, status);
    }
    assert r.steps[0] in s.steps && r.steps[1] in s.steps && r.steps[2] in s.steps;
    forall i | 0 <= i < 3 ensures StepValid(s.steps[i]) { assert s.steps[i] in r.steps; }
    assert StepsValid(s);
    forall i | 0 <= i < |s.evidence| ensures ItemValid(s, s.evidence[i]) { assert s.evidence[i] in r.evidence; }
    forall i, j | 0 <= i < j < |s.evidence| && SameIdentity(f, s.evidence[i], s.evidence[j])
      ensures s.evidence[i] == s.evidence[j]
    {
      assert s.evidence[i] in r.evidence && s.evidence[j] in r.evidence;
      var k :| 0 <= k < |r.evidence| && r.evidence[k] == s.evidence[i];
      var l :| 0 <= l < |r.evidence| && r.evidence[l] == s.evidence[j];
      assert SameIdentity(f, r.evidence[k], r.evidence[l]) && SameIdentity(f, r.evidence[l], r.evidence[k]);
    }
  }

  lemma SameSteps(a: seq<AnalyzerStep>, b: seq<AnalyzerStep>, analyzer: Analyzer, status: Status)
    requires forall t :: t in a <==> t in b
    ensures HasStep(a, analyzer, status) == HasStep(b, analyzer, status)
  {
    if HasStep(a, analyzer, status) {
      var i :| 0 <= i < |a| && a[i].analyzer == analyzer && a[i].status == status;
      assert a[i] in b;
    }
    if HasStep(b, analyzer, status) {
      var i :| 0 <= i < |b| && b[i].analyzer == analyzer && b[i].status == status;
      assert b[i] in a;
    }
  }

  function Severity(v: Verdict): nat {
    match v case Allow => 0 case Review => 1 case Deny => 2
  }

  /** Every reason is matched by one at least as grave. */
  ghost predicate Outweighs(more: Pairs, less: Pairs) {
    forall p :: p in less ==> exists q :: q in more && p.1 <= q.1 && (p.0.FindingDeny? ==> q.0.FindingDeny?)
  }

  lemma OutweighsNeverLowers(more: Pairs, less: Pairs, a: int, b: int, least: int)
    requires Outweighs(more, less) && Highest(more, a, least) && Highest(less, b, least)
    requires forall p :: p in more ==> least <= p.1
    ensures b <= a && Severity(DecisionOf(less)) <= Severity(DecisionOf(more))
  {
    if less != {} {
      var p :| p in less && p.1 == b;
      var q :| q in more && p.1 <= q.1 && (p.0.FindingDeny? ==> q.0.FindingDeny?);
    }
    if exists p :: p in less && p.0.FindingDeny? {
      var p :| p in less && p.0.FindingDeny?;
      var q :| q in more && p.1 <= q.1 && (p.0.FindingDeny? ==> q.0.FindingDeny?);
    }
  }

  lemma ItemBand(c: Config, e: Evidence)
    requires ConfigValid(c)
    ensures 50 <= ItemScore(c, e) <= 100 && (ItemReason(c, e).FindingDeny? <==> EffectiveAction(c, e) == Deny)
    ensures EffectiveAction(c, e) == Deny ==> ItemScore(c, e) == 100
  {}

  lemma PairsAboveAllow(c: Config, r: Report)
    requires ConfigValid(c)
    ensures forall p :: p in AllPairs(c, r) ==> 50 <= p.1 <= 100 && (p.0.FindingDeny? ==> p.1 == 100)
  {
    forall p | p in AllPairs(c, r) ensures 50 <= p.1 <= 100 && (p.0.FindingDeny? ==> p.1 == 100) {
      if p in ItemPairs(c, r.evidence) {
        var e :| e in r.evidence && Counts(c, e) && p == (ItemReason(c, e), ItemScore(c, e));
        ItemBand(c, e);
      }
    }
  }

  /** Adding evidence never lowers the decision or the score. */
  lemma EvidenceNeverLowers(c: Config, r: Report, added: Evidence, a: Assessment, b: Assessment)
    requires ConfigValid(c) && Assesses(c, r, a) && Assesses(c, r.(evidence := r.evidence + [added]), b)
    ensures a.score <= b.score && Severity(a.decision) <= Severity(b.decision)
  {
    var s := r.(evidence := r.evidence + [added]);
    assert ItemPairs(c, r.evidence) <= ItemPairs(c, s.evidence) by {
      forall p | p in ItemPairs(c, r.evidence) ensures p in ItemPairs(c, s.evidence) {
        var e :| e in r.evidence && Counts(c, e) && p == (ItemReason(c, e), ItemScore(c, e));
        assert e in s.evidence;
      }
    }
    PairsAboveAllow(c, s);
    OutweighsNeverLowers(AllPairs(c, s), AllPairs(c, r), b.score, a.score, c.allow);
  }

  lemma EscalatedItem(c: Config, rule: string, action: Verdict, e: Evidence)
    requires ConfigValid(c) && rule !in c.escalations && action != Allow && Counts(c, e)
    ensures var d := c.(escalations := c.escalations[rule := action]);
            && Counts(d, e) && ItemScore(c, e) <= ItemScore(d, e)
            && (ItemReason(c, e).FindingDeny? ==> ItemReason(d, e).FindingDeny?)
  {}

  lemma EscalationOutweighs(c: Config, rule: string, action: Verdict, r: Report)
    requires ConfigValid(c) && rule !in c.escalations && action != Allow
    ensures Outweighs(AllPairs(c.(escalations := c.escalations[rule := action]), r), AllPairs(c, r))
  {
    var d := c.(escalations := c.escalations[rule := action]);
    forall p | p in AllPairs(c, r)
      ensures exists q :: q in AllPairs(d, r) && p.1 <= q.1 && (p.0.FindingDeny? ==> q.0.FindingDeny?)
    {
      if p in ItemPairs(c, r.evidence) {
        var e :| e in r.evidence && Counts(c, e) && p == (ItemReason(c, e), ItemScore(c, e));
        EscalatedItem(c, rule, action, e);
        assert (ItemReason(d, e), ItemScore(d, e)) in ItemPairs(d, r.evidence);
      } else {
        assert StepPairs(d, r.steps) == StepPairs(c, r.steps) && CoveragePairs(d, r) == CoveragePairs(c, r);
        assert p in AllPairs(d, r);
      }
    }
  }

  /** Adding a rule escalation never lowers the decision or the score. */
  lemma EscalationNeverLowers(c: Config, rule: string, action: Verdict, r: Report, a: Assessment, b: Assessment)
    requires ConfigValid(c) && rule !in c.escalations && ConfigValid(c.(escalations := c.escalations[rule := action]))
    requires Assesses(c, r, a) && Assesses(c.(escalations := c.escalations[rule := action]), r, b)
    ensures a.score <= b.score && Severity(a.decision) <= Severity(b.decision)
  {
    var d := c.(escalations := c.escalations[rule := action]);
    assert d.escalations[rule] == action;
    EscalationOutweighs(c, rule, action, r);
    PairsAboveAllow(d, r);
    OutweighsNeverLowers(AllPairs(d, r), AllPairs(c, r), b.score, a.score, c.allow);
  }

  /** An artifact is allowed exactly when there is no evidence at all, no analyzer failed and the
      required coverage is there; scores fall in the band of their decision. */
  lemma AllowExactly(f: Fingerprint, c: Config, r: Report, a: Assessment)
    requires ConfigValid(c) && ReportValid(f, r) && Assesses(c, r, a)
    ensures a.decision == Allow <==>
              && r.evidence == [] && (forall i :: 0 <= i < |r.steps| ==> r.steps[i].status != Errored)
              && !LacksBaseline(c, r) && !LacksPair(c, r)
    ensures a.decision == Deny <==> exists i :: 0 <= i < |r.evidence| && EffectiveAction(c, r.evidence[i]) == Deny
    ensures match a.decision case Allow => a.score == 0 case Review => 50 <= a.score <= 100 case Deny => a.score == 100
  {
    PairsAboveAllow(c, r);
    forall i | 0 <= i < |r.steps| && r.steps[i].status == Errored ensures AllPairs(c, r) != {} {
      assert r.steps[i] in r.steps;
      assert (CoverageError(r.steps[i].analyzer), c.analyzerError) in StepPairs(c, r.steps);
    }
    if r.evidence != [] { EvidenceSpeaks(f, c, r, 0); }
    DenyExactly(c, r);
  }

  lemma DenyExactly(c: Config, r: Report)
    requires ConfigValid(c)
    ensures (exists p :: p in AllPairs(c, r) && p.0.FindingDeny?)
            <==> exists i :: 0 <= i < |r.evidence| && EffectiveAction(c, r.evidence[i]) == Deny
  {
    if p :| p in AllPairs(c, r) && p.0.FindingDeny? {
      assert p in ItemPairs(c, r.evidence);
      var e :| e in r.evidence && Counts(c, e) && p == (ItemReason(c, e), ItemScore(c, e));
      ItemBand(c, e);
    }
    if i :| 0 <= i < |r.evidence| && EffectiveAction(c, r.evidence[i]) == Deny {
      var e := r.evidence[i];
      assert e in r.evidence && Counts(c, e);
      assert (ItemReason(c, e), ItemScore(c, e)) in ItemPairs(c, r.evidence);
    }
  }

  /** Even an analyzer_error finding, which the loop passes over, is answered for by its step. */
  lemma EvidenceSpeaks(f: Fingerprint, c: Config, r: Report, i: nat)
    requires ReportValid(f, r) && i < |r.evidence|
    ensures AllPairs(c, r) != {}
  {
    var e := r.evidence[i];
    assert e in r.evidence && ItemValid(r, e);
    if Counts(c, e) {
      assert (ItemReason(c, e), ItemScore(c, e)) in ItemPairs(c, r.evidence);
    } else {
      var k :| 0 <= k < |r.steps| && r.steps[k].analyzer == e.analyzer && r.steps[k].status == Errored;
      assert r.steps[k] in r.steps;
      assert (CoverageError(r.steps[k].analyzer), c.analyzerError) in StepPairs(c, r.steps);
    }
  }
}
