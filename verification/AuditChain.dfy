/** The rule of the audit log: versions, bounded text, canonical time, and the hash over the
    canonical payload.  Why an accepted log cannot be altered unnoticed, and why it can always grow. */
module AuditChain {
  import opened History
  import opened Text
  import opened TextOrder
  import opened CanonicalJson
  import opened HashChain

  /** SHA-256 of the previous hash's bytes, a zero byte and the payload, as hexadecimal text. */
  type Hash = (string, string) -> string

  ghost predicate HexHash(h: Hash) {
    forall p, x :: Hex64(h(p, x))
  }

  predicate DecisionText(s: string) {
    s == "ALLOW" || s == "REVIEW" || s == "DENY"
  }

  predicate OptionalText(s: Option<string>) {
    s.Some? ==> AuditText(s.value, 4096)
  }

  predicate EventValid(e: AuditEvent) {
    && IsTimestamp(e.occurredAt)
    && AuditText(e.actor, 4096) && AuditText(e.action, 256) && Hex64(e.sha256)
    && DecisionText(e.previous) && DecisionText(e.new_)
    && AuditText(e.reason, 4096) && OptionalText(e.policyVersion) && OptionalText(e.analyzerVersion)
  }

  predicate RowValid(row: AuditRow) {
    && row.id > 0 && row.eventVersion == 1 && row.canonicalizationVersion == 1
    && EventValid(row.event) && Hex64(row.previousHash) && Hex64(row.eventHash)
  }

  const KEYS := [
    "action", "actor", "analyzer_version", "canonicalization_version", "event_version", "id", "new_decision",
    "occurred_at", "policy_version", "previous_decision", "previous_hash", "reason", "sha256"]

  function Optional(s: Option<string>): Value {
    if s.Some? then Text(s.value) else Null
  }

  /** The members' values in key order. */
  function Values(id: nat, previousHash: string, e: AuditEvent): (r: seq<Value>)
    ensures |r| == 13
  {
    [Text(e.action), Text(e.actor), Optional(e.analyzerVersion)]
    + [Number(1), Number(1), Number(id)]
    + [Text(e.new_), Text(e.occurredAt), Optional(e.policyVersion), Text(e.previous)]
    + [Text(previousHash), Text(e.reason), Text(e.sha256)]
  }

  function Payload(id: nat, previousHash: string, e: AuditEvent): string {
    Object(KEYS, Values(id, previousHash, e))
  }

  const MAX_PAYLOAD := 64 * 1024

  /** What is wrong with a row, in the order the scan looks. */
  function RowFinding(h: Hash, row: AuditRow, position: nat, head: string): Option<Finding> {
    if row.id != position then Some(IdGapOrReorder)
    else if !RowValid(row) then Some(InvalidRow)
    else if row.previousHash != head then Some(PreviousHashMismatch)
    else if Utf8Length(Payload(position, head, row.event)) > MAX_PAYLOAD then Some(HashComputationFailed)
    else if row.eventHash != h(head, Payload(position, head, row.event)) then Some(EventHashMismatch)
    else None
  }

  function AuditRule(h: Hash): Rule {
    (row: AuditRow, position: nat, head: string) => RowFinding(h, row, position, head)
  }

  lemma AuditRuleIsRowRule(h: Hash)
    ensures RowRule(AuditRule(h))
  {}

  // ----- tamper evidence -----

  lemma SameValues(i: nat, p: string, e: AuditEvent, j: nat, q: string, f: AuditEvent)
    requires Values(i, p, e) == Values(j, q, f)
    ensures i == j && p == q && e == f
  {
    var vs, ws := Values(i, p, e), Values(j, q, f);
    assert vs[0] == ws[0] && vs[1] == ws[1] && vs[2] == ws[2] && vs[5] == ws[5] && vs[6] == ws[6];
    assert vs[7] == ws[7] && vs[8] == ws[8] && vs[9] == ws[9] && vs[10] == ws[10] && vs[11] == ws[11]
        && vs[12] == ws[12];
  }

  lemma PayloadInjective(i: nat, p: string, e: AuditEvent, j: nat, q: string, f: AuditEvent)
    requires Payload(i, p, e) == Payload(j, q, f)
    ensures i == j && p == q && e == f
  {
    ObjectInjective(KEYS, Values(i, p, e), Values(j, q, f));
    SameValues(i, p, e, j, q, f);
  }

  /** Two rows for which the hash function takes different inputs to one hash. */
  predicate Collide(h: Hash, a: AuditRow, b: AuditRow) {
    && a.id >= 0 && b.id >= 0 && a.eventHash == b.eventHash
    && var x, y := Payload(a.id, a.previousHash, a.event), Payload(b.id, b.previousHash, b.event);
    && (a.previousHash, x) != (b.previousHash, y)
    && h(a.previousHash, x) == h(b.previousHash, y)
  }

  function Clashes(h: Hash): Clash {
    (a: AuditRow, b: AuditRow) => Collide(h, a, b)
  }

  lemma RowFits(h: Hash, row: AuditRow, i: nat, p: string)
    requires RowFinding(h, row, i, p) == None
    ensures row == AuditRow(i, 1, 1, row.event, p, h(p, Payload(i, p, row.event)))
  {}

  lemma SameHashSameRow(h: Hash, a: AuditRow, i: nat, p: string, b: AuditRow, j: nat, q: string)
    requires RowFinding(h, a, i, p) == None && RowFinding(h, b, j, q) == None && a.eventHash == b.eventHash
    ensures (a == b && i == j && p == q) || Collide(h, a, b)
  {
    RowFits(h, a, i, p);
    RowFits(h, b, j, q);
    var x, y := Payload(i, p, a.event), Payload(j, q, b.event);
    if p == q && x == y { PayloadInjective(i, p, a.event, j, q, b.event); }
  }

  lemma RuleDetermines(h: Hash)
    ensures Determines(AuditRule(h), Clashes(h))
  {
    var rule := AuditRule(h);
    forall a, i, p, b, j, q | rule(a, i, p) == None && rule(b, j, q) == None && a.eventHash == b.eventHash
      ensures (a == b && i == j && p == q) || Collide(h, a, b)
    {
      SameHashSameRow(h, a, i, p, b, j, q);
    }
  }

  /** Two accepted logs with the same head are the same log, length and all, unless a row of one and
      a row of the other exhibit a collision of the hash function.  So any edit, insertion, deletion,
      reordering or truncation is rejected or changes the head. */
  lemma SameHeadSameLog(h: Hash, a: seq<AuditRow>, b: seq<AuditRow>)
    requires Accepted(AuditRule(h), a) && Accepted(AuditRule(h), b) && ReportedHead(a) == ReportedHead(b)
    ensures a == b || SomeClash(Clashes(h), a, b)
  {
    RuleDetermines(h);
    HeadDeterminesLog(AuditRule(h), Clashes(h), a, b);
  }

  // ----- appending -----

  function RowAfter(h: Hash, count: nat, head: string, e: AuditEvent): AuditRow {
    AuditRow(count + 1, 1, 1, e, head, h(head, Payload(count + 1, head, e)))
  }

  function NewRow(h: Hash, rows: seq<AuditRow>, e: AuditEvent): AuditRow {
    RowAfter(h, |rows|, Head(rows), e)
  }

  lemma {:induction false} TotalConcat(a: seq<Value>, b: seq<Value>)
    ensures TotalSize(a + b) == TotalSize(a) + TotalSize(b)
    decreases |a|
  {
    if a == [] {
      assert a + b == b;
    } else {
      assert (a + b)[1..] == a[1..] + b;
      TotalConcat(a[1..], b);
    }
  }

  lemma TotalOfOne(v: Value)
    ensures TotalSize([v]) == Utf8Length(Encode(v))
  {
    assert [v][1..] == [];
  }

  lemma TotalOfThree(u: Value, v: Value, w: Value)
    ensures TotalSize([u, v, w]) == Utf8Length(Encode(u)) + Utf8Length(Encode(v)) + Utf8Length(Encode(w))
  {
    TotalOfOne(u);
    TotalOfOne(v);
    TotalOfOne(w);
    TotalConcat([u], [v]);
    TotalConcat([u] + [v], [w]);
    assert [u] + [v] + [w] == [u, v, w];
  }

  lemma LongText(s: string, maximum: nat)
    requires AuditText(s, maximum)
    ensures Utf8Length(Encode(Text(s))) <= 2 * maximum + 2
  {
    forall i | 0 <= i < |s| ensures s[i] as int >= 0x20 { assert !IsControl(s[i]); }
    QuoteSize(s);
  }

  lemma ShortText(s: string)
    ensures Utf8Length(Encode(Text(s))) <= 6 * |s| + 2
  {
    QuoteSize(s);
  }

  lemma OptionalSize(s: Option<string>)
    requires OptionalText(s)
    ensures Utf8Length(Encode(Optional(s))) <= 8194
  {
    if s.Some? { LongText(s.value, 4096); } else { AsciiSize(Encode(Null)); }
  }

  const MAX_ID := 0x7fff_ffff_ffff_ffff

  lemma NumberSize(n: nat)
    requires n <= MAX_ID
    ensures Utf8Length(Encode(Number(n))) <= 19
  {
    assert PowerOfTen(5) == 100_000;
    assert PowerOfTen(10) == 10_000_000_000;
    assert PowerOfTen(15) == 1_000_000_000_000_000;
    assert PowerOfTen(19) == 10_000_000_000_000_000_000;
    DecimalSize(n, 19, PowerOfTen(19));
  }

  lemma FirstValues(e: AuditEvent)
    requires EventValid(e)
    ensures TotalSize([Text(e.action), Text(e.actor), Optional(e.analyzerVersion)]) <= 514 + 2 * 8194
  {
    LongText(e.action, 256);
    LongText(e.actor, 4096);
    OptionalSize(e.analyzerVersion);
    TotalOfThree(Text(e.action), Text(e.actor), Optional(e.analyzerVersion));
  }

  lemma NumberValues(id: nat)
    requires id <= MAX_ID
    ensures TotalSize([Number(1), Number(1), Number(id)]) <= 3 * 19
  {
    NumberSize(1);
    NumberSize(id);
    TotalOfThree(Number(1), Number(1), Number(id));
  }

  lemma MiddleValues(e: AuditEvent)
    requires EventValid(e)
    ensures TotalSize([Text(e.new_), Text(e.occurredAt), Optional(e.policyVersion), Text(e.previous)]) <= 270 + 8194
  {
    ShortText(e.new_);
    ShortText(e.occurredAt);
    OptionalSize(e.policyVersion);
    ShortText(e.previous);
    TotalOfThree(Text(e.new_), Text(e.occurredAt), Optional(e.policyVersion));
    TotalOfOne(Text(e.previous));
    TotalConcat([Text(e.new_), Text(e.occurredAt), Optional(e.policyVersion)], [Text(e.previous)]);
    assert [Text(e.new_), Text(e.occurredAt), Optional(e.policyVersion)] + [Text(e.previous)]
        == [Text(e.new_), Text(e.occurredAt), Optional(e.policyVersion), Text(e.previous)];
  }

  lemma LastValues(previousHash: string, e: AuditEvent)
    requires EventValid(e) && Hex64(previousHash)
    ensures TotalSize([Text(previousHash), Text(e.reason), Text(e.sha256)]) <= 2 * 386 + 8194
  {
    ShortText(previousHash);
    LongText(e.reason, 4096);
    ShortText(e.sha256);
    TotalOfThree(Text(previousHash), Text(e.reason), Text(e.sha256));
  }

  lemma ValuesWithin(id: nat, previousHash: string, e: AuditEvent)
    requires id <= MAX_ID && Hex64(previousHash) && EventValid(e)
    ensures TotalSize(Values(id, previousHash, e)) <= 40_000
  {
    FirstValues(e);
    NumberValues(id);
    MiddleValues(e);
    LastValues(previousHash, e);
    var a := [Text(e.action), Text(e.actor), Optional(e.analyzerVersion)];
    var b := [Number(1), Number(1), Number(id)];
    var c := [Text(e.new_), Text(e.occurredAt), Optional(e.policyVersion), Text(e.previous)];
    var d := [Text(previousHash), Text(e.reason), Text(e.sha256)];
    TotalConcat(a, b);
    TotalConcat(a + b, c);
    TotalConcat(a + b + c, d);
  }

  lemma KeysAreShort()
    ensures |KEYS| == 13 && forall i :: 0 <= i < 13 ==> |KEYS[i]| <= 24
  {}

  /** The 64 KiB bound on the canonical payload never refuses a validated event. */
  lemma PayloadFits(id: nat, previousHash: string, e: AuditEvent)
    requires id <= MAX_ID && Hex64(previousHash) && EventValid(e)
    ensures Utf8Length(Payload(id, previousHash, e)) <= MAX_PAYLOAD
  {
    KeysAreShort();
    ValuesWithin(id, previousHash, e);
    ObjectSize(KEYS, Values(id, previousHash, e), 148);
    assert Allowance(13, 148) == 1924;
  }

  lemma ObjectSize(keys: seq<string>, values: seq<Value>, each: nat)
    requires |keys| == |values| > 0 && forall i :: 0 <= i < |keys| ==> 6 * |keys[i]| + 4 <= each
    ensures Utf8Length(Object(keys, values)) <= 1 + TotalSize(values) + Allowance(|keys|, each)
  {
    MembersSize(keys, values, each);
    AsciiSize(['{']);
    Utf8Concat(['{'], Members(keys, values));
  }

  lemma HeadIsHex(h: Hash, rows: seq<AuditRow>)
    requires Accepted(AuditRule(h), rows)
    ensures Hex64(Head(rows))
  {
    if rows != [] { assert RowFinding(h, rows[|rows| - 1], |rows|, Head(rows[..|rows| - 1])) == None; }
  }

  lemma NewRowFits(h: Hash, rows: seq<AuditRow>, e: AuditEvent)
    requires HexHash(h) && Hex64(Head(rows)) && EventValid(e) && |rows| < MAX_ID
    ensures RowFinding(h, NewRow(h, rows, e), |rows| + 1, Head(rows)) == None
  {
    PayloadFits(|rows| + 1, Head(rows), e);
    assert Hex64(h(Head(rows), Payload(|rows| + 1, Head(rows), e)));
  }

  /** Appending a valid event to an accepted log gives an accepted log, one longer. */
  lemma AppendAccepted(h: Hash, rows: seq<AuditRow>, e: AuditEvent)
    requires HexHash(h) && Accepted(AuditRule(h), rows) && EventValid(e) && |rows| < MAX_ID
    ensures Accepted(AuditRule(h), rows + [NewRow(h, rows, e)])
  {
    HeadIsHex(h, rows);
    NewRowFits(h, rows, e);
    AcceptedAppend(AuditRule(h), rows, NewRow(h, rows, e));
  }

  /** A new row has a hash of its own, or collides with the row that has it. */
  lemma RepeatCollides(h: Hash, rows: seq<AuditRow>, e: AuditEvent, i: nat)
    requires HexHash(h) && Accepted(AuditRule(h), rows) && EventValid(e) && |rows| < MAX_ID && i < |rows|
    requires rows[i].eventHash == NewRow(h, rows, e).eventHash
    ensures Collide(h, rows[i], NewRow(h, rows, e))
  {
    RuleDetermines(h);
    AppendAccepted(h, rows, e);
    RepeatClashes(AuditRule(h), Clashes(h), rows, NewRow(h, rows, e), i);
  }
}
