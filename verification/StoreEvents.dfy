/** The events the verdict store logs, as the audit log stores them: what the store accepts is exactly
    what the audit writer appends. */
module StoreEvents {
  import opened History
  import opened Text
  import opened TextOrder
  import opened PersistedState
  import opened VerdictTables
  import opened VerdictStore
  import opened HashChain
  import opened AuditChain
  import CanonicalJson
  import AuditRuns

  function DecisionWord(d: Decision): string {
    match d
    case Allow => "ALLOW"
    case Review => "REVIEW"
    case Deny => "DENY"
  }

  function ActionVerb(a: Action): string {
    match a
    case ArtifactDiscovered => "discovered"
    case ArtifactClaimed => "claimed"
    case LeaseExpired => "lease_expired"
    case VerdictRecorded => "verdict_recorded"
    case AnalysisFailed => "analysis_error"
    case OverrideSet => "override_set"
    case OverrideRevoked => "override_revoked"
    case RescanRequested => "rescan_requested"
    case BaselineAdded => "added"
    case BaselineRemoved => "removed"
  }

  function ActionWord(a: Action): string {
    (if a.BaselineAdded? || a.BaselineRemoved? then "baseline." else "artifact.") + ActionVerb(a)
  }

  /** Who acts when nobody is named. */
  function StandardActor(a: Action): string {
    match a
    case ArtifactDiscovered => "guardian-discovery"
    case VerdictRecorded => "guardian-policy"
    case _ => "guardian-worker"
  }

  function StandardReason(a: Action): string {
    match a
    case ArtifactDiscovered => "release mapping discovered"
    case ArtifactClaimed => "analysis lease acquired"
    case LeaseExpired => "analysis lease expired"
    case VerdictRecorded => "automated policy decision"
    case _ => "analysis failed"
  }

  function Worded(w: Wording, standard: string): string {
    if w.Given? then w.text else standard
  }

  /** The audit record of an event that happened at the given UTC time. */
  function Rendered(e: Event, at: Stamp): AuditEvent {
    AuditEvent(Iso(at), Worded(e.actor, StandardActor(e.action)), ActionWord(e.action), Numeral(e.sha256, 64, 16),
               DecisionWord(e.previous), DecisionWord(e.new_), Worded(e.reason, StandardReason(e.action)),
               e.policyVersion, e.analyzerVersion)
  }

  /** Short text of printable ASCII that does not start with a space. */
  predicate Plain(s: string) {
    0 < |s| <= 256 && s[0] != ' ' && forall i {:trigger s[i]} :: 0 <= i < |s| ==> 0x20 <= s[i] as int < 0x7F
  }

  lemma PlainIsAuditText(s: string, maximum: nat)
    requires Plain(s) && 256 <= maximum
    ensures AuditText(s, maximum)
  {
    CanonicalJson.AsciiSize(s);
    assert !IsSpace(s[0]);
  }

  lemma PlainVerbs(a: Action)
    ensures Plain(ActionVerb(a)) && |ActionVerb(a)| < 20
  {}

  lemma PlainActions(a: Action)
    ensures Plain(ActionWord(a))
  {
    PlainVerbs(a);
  }

  lemma PlainActors(a: Action)
    ensures Plain(StandardActor(a))
  {}

  lemma PlainReasons(a: Action)
    ensures Plain(StandardReason(a))
  {
    if a.ArtifactDiscovered? || a.ArtifactClaimed? { PlainDiscoveryReasons(a); } else { PlainOutcomeReasons(a); }
  }

  lemma PlainDiscoveryReasons(a: Action)
    requires a.ArtifactDiscovered? || a.ArtifactClaimed?
    ensures Plain(StandardReason(a))
  {}

  lemma PlainOutcomeReasons(a: Action)
    requires !a.ArtifactDiscovered? && !a.ArtifactClaimed?
    ensures Plain(StandardReason(a))
  {}

  lemma {:induction false} NumeralIsHex(n: nat, width: nat)
    ensures forall i {:trigger Numeral(n, width, 16)[i]} :: 0 <= i < width ==>
              '0' <= Numeral(n, width, 16)[i] <= '9' || 'a' <= Numeral(n, width, 16)[i] <= 'f'
    decreases width
  {
    if width > 0 { NumeralIsHex(n / 16, width - 1); }
  }

  lemma WordedText(w: Wording, standard: string)
    requires Plain(standard)
    ensures AuditText(Worded(w, standard), 4096) <==> (w.Given? ==> AuditText(w.text, 4096))
  {
    PlainIsAuditText(standard, 4096);
  }

  /** The store's rule for an event is the audit writer's. */
  lemma AcceptedIsValid(e: Event, at: Stamp)
    requires IsStamp(at)
    ensures EventAccepted(e) <==> EventValid(Rendered(e, at))
  {
    IsoRecognised(at);
    PlainActions(e.action);
    PlainIsAuditText(ActionWord(e.action), 256);
    PlainActors(e.action);
    PlainReasons(e.action);
    WordedText(e.actor, StandardActor(e.action));
    WordedText(e.reason, StandardReason(e.action));
    NumeralIsHex(e.sha256, 64);
  }

  /** Whatever connections have done to the log before: the store's transaction goes through exactly
      when the writer appends the row of its event, and while the log is up only an event with unfit
      text is refused. */
  lemma StoreAppends<T>(h: Hash, w: AuditRuns.World, db: Db, e: Event, at: Stamp, value: T)
    requires HexHash(h) && AuditRuns.Sound(h, w) && w.open.Some? && IsStamp(at)
    ensures var view, after := w.open.value, AuditRuns.DoAppend(h, w, Rendered(e, at));
            after.open == if Audited(db, e, AuditRuns.LogUp(h, w, Rendered(e, at)), value).Done?
                          then Some(view.(rows := view.rows + [NewRow(h, view.rows, Rendered(e, at))])) else w.open
  {
    AcceptedIsValid(e, at);
    if EventAccepted(e) && AuditRuns.LogUp(h, w, Rendered(e, at)) {
      AuditRuns.AppendsExactly(h, w, Rendered(e, at));
    } else {
      AuditRuns.RefusedAppend(h, w, Rendered(e, at));
    }
  }
}
