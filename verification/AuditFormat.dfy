/** What the hashed text of an audit event says, read back by a reader of JSON (RFC 8259), and what each
    finding of the verifier means. */
module AuditFormat {
  import opened History
  import opened Text
  import opened TextOrder
  import opened CanonicalJson
  import opened HashChain
  import opened AuditChain
  import opened PersistedState
  import opened VerdictTables
  import StoreEvents

  // ----- a reader of JSON -----

  function HexValue(c: char): Option<nat> {
    if '0' <= c <= '9' then Some((c - '0') as nat)
    else if 'a' <= c <= 'f' then Some((c - 'a') as nat + 10)
    else if 'A' <= c <= 'F' then Some((c - 'A') as nat + 10)
    else None
  }

  predicate ScalarValue(n: int) {
    0 <= n < 0xD800 || 0xE000 <= n < 0x11_0000
  }

  /** The character a backslash sequence stands for, and what follows (section 7 of RFC 8259). */
  function ReadEscape(s: string): (r: Option<(char, string)>)
    ensures r.Some? ==> |r.value.1| < |s|
  {
    if s == "" then None
    else
      match s[0]
      case '"' => Some(('"', s[1..]))
      case '\\' => Some(('\\', s[1..]))
      case '/' => Some(('/', s[1..]))
      case 'b' => Some((8 as char, s[1..]))
      case 'f' => Some((12 as char, s[1..]))
      case 'n' => Some((10 as char, s[1..]))
      case 'r' => Some((13 as char, s[1..]))
      case 't' => Some((9 as char, s[1..]))
      case 'u' =>
        if |s| < 5 || exists i :: 1 <= i < 5 && HexValue(s[i]) == None then None
        else
          var code := ((HexValue(s[1]).value * 16 + HexValue(s[2]).value) * 16 + HexValue(s[3]).value) * 16
                      + HexValue(s[4]).value;
          if ScalarValue(code) then Some((code as char, s[5..])) else None
      case _ => None
  }

  function Before(c: char, rest: Option<(string, string)>): Option<(string, string)> {
    if rest == None then None else Some(([c] + rest.value.0, rest.value.1))
  }

  /** The rest of a string behind its opening quote, and what follows the closing one. */
  function ReadText(s: string): (r: Option<(string, string)>)
    ensures r.Some? ==> |r.value.1| < |s|
    decreases |s|
  {
    if s == "" then None
    else if s[0] == '"' then Some(("", s[1..]))
    else if s[0] == '\\' then
      var escape := ReadEscape(s[1..]);
      if escape == None then None else Before(escape.value.0, ReadText(escape.value.1))
    else if s[0] as int < 0x20 then None
    else Before(s[0], ReadText(s[1..]))
  }

  predicate IsDigit(c: char) {
    '0' <= c <= '9'
  }

  function ReadNumber(s: string, soFar: nat): (r: (nat, string))
    ensures |r.1| <= |s|
    decreases |s|
  {
    if s == "" || !IsDigit(s[0]) then (soFar, s) else ReadNumber(s[1..], soFar * 10 + (s[0] - '0') as nat)
  }

  /** A string, a number or null. */
  function ReadValue(s: string): (r: Option<(Value, string)>)
    ensures r.Some? ==> |r.value.1| < |s|
  {
    if s == "" then None
    else if s[0] == '"' then
      var text := ReadText(s[1..]);
      if text == None then None else Some((Text(text.value.0), text.value.1))
    else if IsDigit(s[0]) then
      var number := ReadNumber(s[1..], (s[0] - '0') as nat);
      Some((Number(number.0), number.1))
    else if |s| >= 4 && s[..4] == "null" then Some((Null, s[4..]))
    else None
  }

  /** The members of an object behind its opening brace, up to the closing one at the end. */
  function ReadMembers(s: string): Option<seq<(string, Value)>>
    decreases |s|
  {
    if s == "" || s[0] != '"' then None
    else
      var key := ReadText(s[1..]);
      if key == None || key.value.1 == "" || key.value.1[0] != ':' then None
      else
        var value := ReadValue(key.value.1[1..]);
        if value == None || value.value.1 == "" then None
        else
          var member, rest := (key.value.0, value.value.0), value.value.1;
          if rest == "}" then Some([member])
          else if rest[0] != ',' then None
          else
            var others := ReadMembers(rest[1..]);
            if others == None then None else Some([member] + others.value)
  }

  function ReadObject(s: string): Option<seq<(string, Value)>> {
    if s == "" || s[0] != '{' then None else ReadMembers(s[1..])
  }

  // ----- it reads back what was written -----

  lemma EscapeReads(c: char, rest: string)
    requires |EscapeChar(c)| > 1
    ensures EscapeChar(c)[0] == '\\' && ReadEscape(EscapeChar(c)[1..] + rest) == Some((c, rest))
  {
    var s := EscapeChar(c)[1..] + rest;
    if |EscapeChar(c)| == 2 {
      assert s[1..] == rest;
    } else {
      assert |EscapeChar(c)| == 6;
      assert s[5..] == rest;
      HexReads(c as int / 16);
      HexReads(c as int % 16);
      assert s[1] == '0' && s[2] == '0' && s[3] == DigitChar(c as int / 16) && s[4] == DigitChar(c as int % 16);
    }
  }

  lemma HexReads(d: nat)
    requires d < 16
    ensures HexValue(DigitChar(d)) == Some(d)
  {}

  lemma PlainReads(c: char, rest: string)
    requires |EscapeChar(c)| == 1
    ensures EscapeChar(c) == [c] && c != '"' && c != '\\' && c as int >= 0x20
  {}

  lemma NextCharReads(c: char, after: string)
    ensures ReadText(EscapeChar(c) + after) == Before(c, ReadText(after))
  {
    EscapeWidth(c);
    if |EscapeChar(c)| == 1 {
      PlainReads(c, after);
      assert ([c] + after)[1..] == after;
    } else {
      EscapeReads(c, after);
      assert (EscapeChar(c) + after)[1..] == EscapeChar(c)[1..] + after;
    }
  }

  lemma {:induction false} TextReads(s: string, rest: string)
    ensures ReadText(Escape(s) + (['"'] + rest)) == Some((s, rest))
    decreases |s|
  {
    if s == "" {
      assert Escape(s) + (['"'] + rest) == ['"'] + rest && (['"'] + rest)[1..] == rest;
    } else {
      var after := Escape(s[1..]) + (['"'] + rest);
      assert Escape(s) + (['"'] + rest) == EscapeChar(s[0]) + after;
      TextReads(s[1..], rest);
      NextCharReads(s[0], after);
      assert s == [s[0]] + s[1..];
    }
  }

  lemma {:induction false} NumberReads(n: nat, rest: string)
    ensures ReadNumber(Decimal(n) + rest, 0) == ReadNumber(rest, n)
    decreases n
  {
    var d := n % 10;
    var last := [DigitChar(d)] + rest;
    assert last[1..] == rest;
    if n < 10 {
      assert Decimal(n) + rest == last;
    } else {
      assert Decimal(n) + rest == Decimal(n / 10) + last;
      NumberReads(n / 10, last);
    }
  }

  predicate Stops(rest: string) {
    rest != "" && !IsDigit(rest[0])
  }

  lemma DigitsRead(n: nat, rest: string)
    requires Stops(rest)
    ensures ReadValue(Decimal(n) + rest) == Some((Number(n), rest))
  {
    var s := Decimal(n) + rest;
    NumberReads(n, rest);
    assert IsDigit(s[0]);
    assert ReadNumber(s, 0) == ReadNumber(s[1..], (s[0] - '0') as nat);
  }

  lemma QuotedSplits(s: string, rest: string)
    ensures Quote(s) + rest == ['"'] + (Escape(s) + (['"'] + rest))
    ensures (Quote(s) + rest)[1..] == Escape(s) + (['"'] + rest)
  {
    var inner := Escape(s) + (['"'] + rest);
    assert Quote(s) + rest == ['"'] + inner;
    assert (['"'] + inner)[1..] == inner;
  }

  lemma QuotedReads(s: string, rest: string)
    ensures (Quote(s) + rest)[0] == '"' && ReadText((Quote(s) + rest)[1..]) == Some((s, rest))
  {
    TextReads(s, rest);
    QuotedSplits(s, rest);
  }

  lemma ValueReads(v: Value, rest: string)
    requires Stops(rest)
    ensures ReadValue(Encode(v) + rest) == Some((v, rest))
  {
    match v
    case Text(s) => QuotedReads(s, rest);
    case Number(n) => DigitsRead(n, rest);
    case Null =>
      var s := ['n', 'u', 'l', 'l'] + rest;
      assert s[..4] == "null" && s[4..] == rest;
  }

  function Zip(keys: seq<string>, values: seq<Value>): (r: seq<(string, Value)>)
    requires |keys| == |values|
    ensures |r| == |keys| && forall i :: 0 <= i < |keys| ==> r[i] == (keys[i], values[i])
  {
    seq(|keys|, i requires 0 <= i < |keys| => (keys[i], values[i]))
  }

  lemma MemberReads(key: string, v: Value, rest: string)
    requires Stops(rest)
    ensures var s := Member(key, v, rest);
            && s != "" && s[0] == '"' && ReadText(s[1..]) == Some((key, [':'] + (Encode(v) + rest)))
            && ([':'] + (Encode(v) + rest))[1..] == Encode(v) + rest
            && ReadValue(Encode(v) + rest) == Some((v, rest))
  {
    QuotedReads(key, [':'] + (Encode(v) + rest));
    ValueReads(v, rest);
  }

  lemma LastMemberReads(key: string, v: Value)
    ensures ReadMembers(Member(key, v, "}")) == Some([(key, v)])
  {
    MemberReads(key, v, "}");
  }

  lemma NextMemberReads(key: string, v: Value, others: string)
    requires ReadMembers(others).Some?
    ensures ReadMembers(Member(key, v, [','] + others)) == Some([(key, v)] + ReadMembers(others).value)
  {
    var rest := [','] + others;
    assert rest != "}" && rest[1..] == others;
    MemberReads(key, v, rest);
  }

  lemma MembersUnfold(keys: seq<string>, values: seq<Value>)
    requires |keys| == |values| > 0
    ensures Members(keys, values)
         == Member(keys[0], values[0], if |keys| == 1 then "}" else [','] + Members(keys[1..], values[1..]))
  {}

  lemma ZipUnfold(keys: seq<string>, values: seq<Value>)
    requires |keys| == |values| > 0
    ensures Zip(keys, values) == [(keys[0], values[0])] + Zip(keys[1..], values[1..])
  {}

  lemma {:induction false} MembersRead(keys: seq<string>, values: seq<Value>)
    requires |keys| == |values| > 0
    ensures ReadMembers(Members(keys, values)) == Some(Zip(keys, values))
    decreases |keys|
  {
    MembersUnfold(keys, values);
    ZipUnfold(keys, values);
    if |keys| == 1 {
      LastMemberReads(keys[0], values[0]);
      assert Zip(keys, values) == [(keys[0], values[0])];
    } else {
      MembersRead(keys[1..], values[1..]);
      NextMemberReads(keys[0], values[0], Members(keys[1..], values[1..]));
    }
  }

  /** Reading the canonical text of an object gives its members, in order. */
  lemma ObjectReads(keys: seq<string>, values: seq<Value>)
    requires |keys| == |values| > 0
    ensures ReadObject(Object(keys, values)) == Some(Zip(keys, values))
  {
    MembersRead(keys, values);
    assert Object(keys, values)[1..] == Members(keys, values);
  }

  function TextOrNull(s: Option<string>): Value {
    match s
    case None => Null
    case Some(text) => Text(text)
  }

  /** The hashed text of an event is a JSON object with these members. */
  lemma PayloadReads(id: nat, previousHash: string, e: AuditEvent)
    ensures ReadObject(Payload(id, previousHash, e)) == Some([
      ("action", Text(e.action)),
      ("actor", Text(e.actor)),
      ("analyzer_version", TextOrNull(e.analyzerVersion)),
      ("canonicalization_version", Number(1)),
      ("event_version", Number(1)),
      ("id", Number(id)),
      ("new_decision", Text(e.new_)),
      ("occurred_at", Text(e.occurredAt)),
      ("policy_version", TextOrNull(e.policyVersion)),
      ("previous_decision", Text(e.previous)),
      ("previous_hash", Text(previousHash)),
      ("reason", Text(e.reason)),
      ("sha256", Text(e.sha256))])
  {
    ObjectReads(KEYS, Values(id, previousHash, e));
    MembersInOrder(id, previousHash, e);
  }

  lemma MembersInOrder(id: nat, previousHash: string, e: AuditEvent)
    ensures Zip(KEYS, Values(id, previousHash, e)) == [
      ("action", Text(e.action)),
      ("actor", Text(e.actor)),
      ("analyzer_version", TextOrNull(e.analyzerVersion)),
      ("canonicalization_version", Number(1)),
      ("event_version", Number(1)),
      ("id", Number(id)),
      ("new_decision", Text(e.new_)),
      ("occurred_at", Text(e.occurredAt)),
      ("policy_version", TextOrNull(e.policyVersion)),
      ("previous_decision", Text(e.previous)),
      ("previous_hash", Text(previousHash)),
      ("reason", Text(e.reason)),
      ("sha256", Text(e.sha256))]
  {}

  // ----- findings -----

  /** A row that could stand in some log: its own columns are fine. */
  ghost predicate WellFormed(row: AuditRow) {
    && row.eventVersion == 1 && row.canonicalizationVersion == 1
    && (exists t :: IsStamp(t) && row.event.occurredAt == Iso(t))
    && AuditText(row.event.actor, 4096) && AuditText(row.event.action, 256) && AuditText(row.event.reason, 4096)
    && row.event.previous in ["ALLOW", "REVIEW", "DENY"] && row.event.new_ in ["ALLOW", "REVIEW", "DENY"]
    && (row.event.policyVersion.Some? ==> AuditText(row.event.policyVersion.value, 4096))
    && (row.event.analyzerVersion.Some? ==> AuditText(row.event.analyzerVersion.value, 4096))
    && HexDigits(row.event.sha256) && HexDigits(row.previousHash) && HexDigits(row.eventHash)
  }

  predicate HexDigits(s: string) {
    |s| == 64 && forall c :: c in s ==> c in "0123456789abcdef"
  }

  lemma HexExactly(s: string)
    ensures Hex64(s) <==> HexDigits(s)
  {
    forall c ensures c in "0123456789abcdef" <==> '0' <= c <= '9' || 'a' <= c <= 'f' { HexDigitsExactly(c); }
    if HexDigits(s) { forall i | 0 <= i < |s| ensures '0' <= s[i] <= '9' || 'a' <= s[i] <= 'f' { assert s[i] in s; } }
  }

  lemma HexDigitsExactly(c: char)
    ensures c in "0123456789abcdef" <==> '0' <= c <= '9' || 'a' <= c <= 'f'
  {
    var digits := "0123456789abcdef";
    if '0' <= c <= '9' { assert digits[c as int - '0' as int] == c; }
    if 'a' <= c <= 'f' { assert digits[c as int - 'a' as int + 10] == c; }
  }

  lemma TimestampExactly(s: string)
    ensures IsTimestamp(s) <==> exists t :: IsStamp(t) && s == Iso(t)
  {
    if t :| IsStamp(t) && s == Iso(t) { IsoRecognised(t); }
  }

  lemma DecisionExactly(s: string)
    ensures DecisionText(s) <==> s in ["ALLOW", "REVIEW", "DENY"]
  {}

  lemma FormedExactly(row: AuditRow)
    requires row.id > 0
    ensures RowValid(row) <==> WellFormed(row)
  {
    TimestampExactly(row.event.occurredAt);
    DecisionExactly(row.event.previous);
    DecisionExactly(row.event.new_);
    HexExactly(row.event.sha256);
    HexExactly(row.previousHash);
    HexExactly(row.eventHash);
    assert IsTimestamp(row.event.occurredAt) <==> exists t :: IsStamp(t) && row.event.occurredAt == Iso(t);
  }

  /** What is found wrong with a row at a position behind a head: the first thing that does not fit.
      The payload of a well-formed row is never too long to hash. */
  lemma FindingExactly(h: Hash, row: AuditRow, position: nat, head: string)
    requires 1 <= position <= MAX_ID
    ensures var found := RowFinding(h, row, position, head);
            if row.id != position then found == Some(IdGapOrReorder)
            else if !WellFormed(row) then found == Some(InvalidRow)
            else if row.previousHash != head then found == Some(PreviousHashMismatch)
            else if row.eventHash != h(head, Payload(position, head, row.event)) then found == Some(EventHashMismatch)
            else found == None
  {
    if row.id == position {
      FormedExactly(row);
      if RowValid(row) && row.previousHash == head { PayloadFits(position, head, row.event); }
    }
  }

  /** The first row follows sixty-four zeros. */
  lemma FirstHead()
    ensures |Head([])| == 64 && forall c :: c in Head([]) ==> c == '0'
  {}

  // ----- the store's events -----

  predicate NamesAction(s: string, a: Action) {
    match a
    case ArtifactDiscovered => s == "artifact." + "discovered"
    case ArtifactClaimed => s == "artifact." + "claimed"
    case LeaseExpired => s == "artifact." + "lease_expired"
    case VerdictRecorded => s == "artifact." + "verdict_recorded"
    case AnalysisFailed => s == "artifact." + "analysis_error"
    case OverrideSet => s == "artifact." + "override_set"
    case OverrideRevoked => s == "artifact." + "override_revoked"
    case RescanRequested => s == "artifact." + "rescan_requested"
    case BaselineAdded => s == "baseline." + "added"
    case BaselineRemoved => s == "baseline." + "removed"
  }

  predicate NamesDecision(s: string, d: Decision) {
    match d
    case Allow => s == "ALLOW"
    case Review => s == "REVIEW"
    case Deny => s == "DENY"
  }

  lemma ActionNamed(a: Action)
    ensures NamesAction(StoreEvents.ActionWord(a), a)
  {}

  /** The stored record says what happened, to what, when, by whom and why. */
  lemma RenderedExactly(e: Event, at: Stamp)
    ensures var r := StoreEvents.Rendered(e, at);
            && NamesAction(r.action, e.action) && NamesDecision(r.previous, e.previous) && NamesDecision(r.new_, e.new_)
            && r.occurredAt == Iso(at) && r.sha256 == Numeral(e.sha256, 64, 16)
            && (e.actor.Given? ==> r.actor == e.actor.text) && (e.reason.Given? ==> r.reason == e.reason.text)
            && r.policyVersion == e.policyVersion && r.analyzerVersion == e.analyzerVersion
  {
    ActionNamed(e.action);
  }
}
