/** The verdict database, the single-row writes its transactions are made of, and what each write
    does to the rows of one artifact. */
module VerdictTables {
  import opened History
  import opened Text
  import opened PersistedState

  datatype Release = Release(
    stage: string,
    project: string,
    version: string,
    filename: string,
    sha256: Digest,
    originUrl: string,
    discoveredAt: Time)

  /** The unique key of release_mappings. */
  predicate SameRelease(a: Release, b: Release) {
    a.stage == b.stage && a.project == b.project && a.version == b.version && a.filename == b.filename
    && a.sha256 == b.sha256
  }

  type Diagnostic = s: string | |s| <= 4096 && forall i :: 0 <= i < |s| ==> !IsControl(s[i])
    // what the redaction of diagnostics returns

  datatype Evidence = Evidence(
    ruleId: string,
    action: Decision,
    filePath: Option<Diagnostic>,
    line: Option<int>,
    message: Diagnostic,
    detailsJson: string)

  datatype EvidenceRow = EvidenceRow(verdictId: nat, item: Evidence)

  datatype BaselineMark = BaselineMark(enabled: bool, actor: string, reason: string, createdAt: Time)

  datatype Action =
    | ArtifactDiscovered
    | ArtifactClaimed
    | LeaseExpired
    | VerdictRecorded
    | AnalysisFailed
    | OverrideSet
    | OverrideRevoked
    | RescanRequested
    | BaselineAdded
    | BaselineRemoved

  /** An event carries either the fixed wording that goes with its action, which is short plain
      ASCII, or text someone gave. */
  datatype Wording = Standard | Given(text: string)

  datatype Event = Event(
    actor: Wording,
    action: Action,
    sha256: Digest,
    previous: Decision,
    new_: Decision,
    reason: Wording,
    policyVersion: Option<string>,
    analyzerVersion: Option<string>,
    occurredAt: Time)

  /** The writer's text rule, which the standard wordings meet. */
  predicate EventAccepted(e: Event) {
    && (e.actor.Given? ==> AuditText(e.actor.text, 4096))
    && (e.reason.Given? ==> AuditText(e.reason.text, 4096))
    && (e.policyVersion.Some? ==> AuditText(e.policyVersion.value, 4096))
    && (e.analyzerVersion.Some? ==> AuditText(e.analyzerVersion.value, 4096))
  }

  datatype Db = Db(
    artifacts: map<Digest, Artifact>,
    releases: seq<Release>,
    verdicts: seq<Row<Verdict>>,
    evidence: seq<EvidenceRow>,
    overrides: seq<Row<Override>>,
    baselines: seq<Row<BaselineMark>>,
    audit: seq<Event>)

  const EMPTY := Db(map[], [], [], [], [], [], [])

  function Tally(audit: seq<Event>, action: Action, sha256: Digest): nat {
    if audit == [] then 0
    else
      var e := audit[|audit| - 1];
      Tally(audit[..|audit| - 1], action, sha256) + if e.action == action && e.sha256 == sha256 then 1 else 0
  }

  function ReleasesOf(releases: seq<Release>, sha256: Digest): nat {
    if releases == [] then 0
    else
      ReleasesOf(releases[..|releases| - 1], sha256) + if releases[|releases| - 1].sha256 == sha256 then 1 else 0
  }

  // ----- one artifact's share of the database -----

  datatype Tallies = Tallies(discovered: nat, claimed: nat, recorded: nat, failed: nat, expired: nat)

  datatype Slice = Slice(
    artifact: Option<Artifact>,
    verdict: Lookup<Verdict>,
    manual: Lookup<Override>,
    releases: nat,
    tallies: Tallies)

  function TalliesOf(audit: seq<Event>, sha256: Digest): Tallies {
    Tallies(
      Tally(audit, ArtifactDiscovered, sha256),
      Tally(audit, ArtifactClaimed, sha256),
      Tally(audit, VerdictRecorded, sha256),
      Tally(audit, AnalysisFailed, sha256),
      Tally(audit, LeaseExpired, sha256))
  }

  function SliceOf(db: Db, sha256: Digest): Slice {
    Slice(
      if sha256 in db.artifacts then Some(db.artifacts[sha256]) else None,
      CurrentRow(db.verdicts, sha256),
      CurrentRow(db.overrides, sha256),
      ReleasesOf(db.releases, sha256),
      TalliesOf(db.audit, sha256))
  }

  function Counted(t: Tallies, action: Action): Tallies {
    match action
    case ArtifactDiscovered => t.(discovered := t.discovered + 1)
    case ArtifactClaimed => t.(claimed := t.claimed + 1)
    case VerdictRecorded => t.(recorded := t.recorded + 1)
    case AnalysisFailed => t.(failed := t.failed + 1)
    case LeaseExpired => t.(expired := t.expired + 1)
    case _ => t
  }

  // ----- writes -----

  function PutArtifact(db: Db, sha256: Digest, a: Artifact): Db {
    db.(artifacts := db.artifacts[sha256 := a])
  }

  function AddRelease(db: Db, release: Release): Db {
    db.(releases := db.releases + [release])
  }

  function PutVerdict(db: Db, sha256: Digest, v: Verdict): Db
    requires |Currents(db.verdicts, sha256)| <= 1
  {
    db.(verdicts := Replace(db.verdicts, sha256, v))
  }

  function AddEvidence(db: Db, verdictId: nat, items: seq<Evidence>): Db {
    db.(evidence := db.evidence + seq(|items|, i requires 0 <= i < |items| => EvidenceRow(verdictId, items[i])))
  }

  function PutOverride(db: Db, sha256: Digest, o: Override): Db
    requires |Currents(db.overrides, sha256)| <= 1
  {
    db.(overrides := Replace(db.overrides, sha256, o))
  }

  function DropOverride(db: Db, sha256: Digest): Db
    requires |Currents(db.overrides, sha256)| <= 1
  {
    db.(overrides := RetireAll(db.overrides, Currents(db.overrides, sha256)))
  }

  function PutBaseline(db: Db, sha256: Digest, mark: BaselineMark): Db
    requires |Currents(db.baselines, sha256)| <= 1
  {
    db.(baselines := Replace(db.baselines, sha256, mark))
  }

  function AddEvent(db: Db, e: Event): Db {
    db.(audit := db.audit + [e])
  }

  // ----- whole-table rules and growth -----

  /** No artifact has two current rows in any history table. */
  ghost predicate Unique(db: Db) {
    OneCurrent(db.verdicts) && OneCurrent(db.overrides) && OneCurrent(db.baselines)
  }

  /** What may happen to the row of one artifact: its identity stays, its cooldown is set once. */
  ghost predicate ArtifactGrows(before: Artifact, after: Artifact) {
    && after.size == before.size && after.discoveredAt == before.discoveredAt
    && (before.cooldownStartedAt.Some? ==> after.cooldownStartedAt == before.cooldownStartedAt)
    && (before.cooldownUntil.Some? ==> after.cooldownUntil == before.cooldownUntil)
  }

  ghost predicate ArtifactsGrow(before: map<Digest, Artifact>, after: map<Digest, Artifact>) {
    forall d :: d in before ==> d in after && ArtifactGrows(before[d], after[d])
  }

  /** Histories are only appended to, apart from marks of the current row being taken away. */
  ghost predicate Grows(before: Db, after: Db) {
    && ArtifactsGrow(before.artifacts, after.artifacts)
    && before.releases <= after.releases
    && Extends(before.verdicts, after.verdicts)
    && before.evidence <= after.evidence
    && Extends(before.overrides, after.overrides)
    && Extends(before.baselines, after.baselines)
    && before.audit <= after.audit
  }

  lemma GrowsTransitive(a: Db, b: Db, c: Db)
    requires Grows(a, b) && Grows(b, c)
    ensures Grows(a, c)
  {
    ExtendsTransitive(a.verdicts, b.verdicts, c.verdicts);
    ExtendsTransitive(a.overrides, b.overrides, c.overrides);
    ExtendsTransitive(a.baselines, b.baselines, c.baselines);
  }

  /** `after` differs from `before` in nothing that concerns any other artifact. */
  ghost predicate OnlyTouches(before: Db, after: Db, sha256: Digest) {
    forall other {:trigger SliceOf(after, other)} :: other != sha256 ==> SliceOf(after, other) == SliceOf(before, other)
  }

  // ----- what each write does -----

  lemma OtherLookups<T>(before: seq<Row<T>>, after: seq<Row<T>>, sha256: Digest)
    requires OneCurrent(before) && OneCurrent(after) && |before| <= |after|
    requires forall other, i :: other != sha256 ==> (CurrentAt(after, other, i) <==> CurrentAt(before, other, i))
    requires forall i :: 0 <= i < |before| ==> after[i].data == before[i].data && after[i].sha256 == before[i].sha256
    ensures forall other :: other != sha256 ==> CurrentRow(after, other) == CurrentRow(before, other)
  {
    forall other | other != sha256 ensures CurrentRow(after, other) == CurrentRow(before, other) {
      SameCurrents(before, after, other);
      AtMostOne(before, other);
    }
  }

  lemma ReplaceLookups<T>(rows: seq<Row<T>>, sha256: Digest, data: T)
    requires OneCurrent(rows)
    ensures |Currents(rows, sha256)| <= 1
    ensures var after := Replace(rows, sha256, data);
            && OneCurrent(after) && Extends(rows, after)
            && CurrentRow(after, sha256) == One(|rows| + 1, Row(sha256, data, true))
            && forall other :: other != sha256 ==> CurrentRow(after, other) == CurrentRow(rows, other)
  {
    ReplaceCurrents(rows, sha256, data);
    OtherLookups(rows, Replace(rows, sha256, data), sha256);
  }

  lemma NoneCurrent<T>(rows: seq<Row<T>>, sha256: Digest)
    requires forall i :: !CurrentAt(rows, sha256, i)
    ensures CurrentRow(rows, sha256) == Absent
  {
    var _ := Currents(rows, sha256);
  }

  lemma RetireLookups<T>(rows: seq<Row<T>>, sha256: Digest)
    requires OneCurrent(rows)
    ensures |Currents(rows, sha256)| <= 1
    ensures var after := RetireAll(rows, Currents(rows, sha256));
            && OneCurrent(after) && Extends(rows, after)
            && CurrentRow(after, sha256) == Absent
            && forall other :: other != sha256 ==> CurrentRow(after, other) == CurrentRow(rows, other)
  {
    RetireAllCurrents(rows, sha256);
    var after := RetireAll(rows, Currents(rows, sha256));
    NoneCurrent(after, sha256);
    OtherLookups(rows, after, sha256);
  }

  lemma PutArtifactSlices(db: Db, sha256: Digest, a: Artifact)
    requires Unique(db) && (sha256 in db.artifacts ==> ArtifactGrows(db.artifacts[sha256], a))
    ensures var after := PutArtifact(db, sha256, a);
            && Unique(after) && Grows(db, after) && OnlyTouches(db, after, sha256)
            && SliceOf(after, sha256) == SliceOf(db, sha256).(artifact := Some(a))
  {}

  lemma AddReleaseSlices(db: Db, release: Release)
    requires Unique(db)
    ensures var after := AddRelease(db, release);
            var before := SliceOf(db, release.sha256);
            && Unique(after) && Grows(db, after) && OnlyTouches(db, after, release.sha256)
            && SliceOf(after, release.sha256) == before.(releases := before.releases + 1)
  {
    assert (db.releases + [release])[..|db.releases|] == db.releases;
  }

  lemma PutVerdictSlices(db: Db, sha256: Digest, v: Verdict)
    requires Unique(db)
    ensures |Currents(db.verdicts, sha256)| <= 1
    ensures var after := PutVerdict(db, sha256, v);
            && Unique(after) && Grows(db, after) && OnlyTouches(db, after, sha256)
            && SliceOf(after, sha256)
               == SliceOf(db, sha256).(verdict := One(|db.verdicts| + 1, Row(sha256, v, true)))
  {
    ReplaceLookups(db.verdicts, sha256, v);
  }

  lemma AddEvidenceSlices(db: Db, verdictId: nat, items: seq<Evidence>)
    requires Unique(db)
    ensures var after := AddEvidence(db, verdictId, items);
            && Unique(after) && Grows(db, after)
            && forall d :: SliceOf(after, d) == SliceOf(db, d)
  {}

  lemma PutOverrideSlices(db: Db, sha256: Digest, o: Override)
    requires Unique(db)
    ensures |Currents(db.overrides, sha256)| <= 1
    ensures var after := PutOverride(db, sha256, o);
            && Unique(after) && Grows(db, after) && OnlyTouches(db, after, sha256)
            && SliceOf(after, sha256)
               == SliceOf(db, sha256).(manual := One(|db.overrides| + 1, Row(sha256, o, true)))
  {
    ReplaceLookups(db.overrides, sha256, o);
  }

  lemma DropOverrideSlices(db: Db, sha256: Digest)
    requires Unique(db)
    ensures |Currents(db.overrides, sha256)| <= 1
    ensures var after := DropOverride(db, sha256);
            && Unique(after) && Grows(db, after) && OnlyTouches(db, after, sha256)
            && SliceOf(after, sha256) == SliceOf(db, sha256).(manual := Absent)
  {
    RetireLookups(db.overrides, sha256);
  }

  lemma PutBaselineSlices(db: Db, sha256: Digest, mark: BaselineMark)
    requires Unique(db)
    ensures |Currents(db.baselines, sha256)| <= 1
    ensures var after := PutBaseline(db, sha256, mark);
            && Unique(after) && Grows(db, after)
            && forall d :: SliceOf(after, d) == SliceOf(db, d)
  {
    ReplaceLookups(db.baselines, sha256, mark);
  }

  lemma AddEventSlices(db: Db, e: Event)
    requires Unique(db)
    ensures var after := AddEvent(db, e);
            var before := SliceOf(db, e.sha256);
            && Unique(after) && Grows(db, after) && OnlyTouches(db, after, e.sha256)
            && SliceOf(after, e.sha256) == before.(tallies := Counted(before.tallies, e.action))
  {
    assert (db.audit + [e])[..|db.audit|] == db.audit;
  }
}
