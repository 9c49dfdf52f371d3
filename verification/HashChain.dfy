/** A chain of rows in which each row names the hash of the one before it, checked row by row by a
    rule that is left open here. */
module HashChain {
  import opened History

  datatype AuditEvent = AuditEvent(
    occurredAt: string,
    actor: string,
    action: string,
    sha256: string,
    previous: string,
    new_: string,
    reason: string,
    policyVersion: Option<string>,
    analyzerVersion: Option<string>)

  datatype AuditRow = AuditRow(
    id: int,
    eventVersion: int,
    canonicalizationVersion: int,
    event: AuditEvent,
    previousHash: string,
    eventHash: string)

  datatype Finding =
    | RowCountMismatch
    | IdGapOrReorder
    | InvalidRow
    | PreviousHashMismatch
    | HashComputationFailed
    | EventHashMismatch
    | ExpectedHeadMismatch
    | InvalidExpectedHead

  /** What is wrong with a row at a position after a head; None when it fits. */
  type Rule = (AuditRow, nat, string) -> Option<Finding>

  function Zeros(n: nat): (s: string)
    ensures |s| == n && forall i :: 0 <= i < n ==> s[i] == '0'
  {
    if n == 0 then "" else ['0'] + Zeros(n - 1)
  }

  const ZERO_HASH := Zeros(64)

  function Head(rows: seq<AuditRow>): string {
    if rows == [] then ZERO_HASH else rows[|rows| - 1].eventHash
  }

  /** An empty log reports no head at all. */
  function ReportedHead(rows: seq<AuditRow>): Option<string> {
    if rows == [] then None else Some(Head(rows))
  }

  predicate Accepted(rule: Rule, rows: seq<AuditRow>) {
    rows == [] || (Accepted(rule, rows[..|rows| - 1])
                   && rule(rows[|rows| - 1], |rows|, Head(rows[..|rows| - 1])) == None)
  }

  lemma {:induction false} AcceptedPrefix(rule: Rule, rows: seq<AuditRow>, n: nat)
    requires n <= |rows| && Accepted(rule, rows)
    ensures Accepted(rule, rows[..n])
    decreases |rows|
  {
    if n == |rows| {
      assert rows[..n] == rows;
    } else {
      AcceptedPrefix(rule, rows[..|rows| - 1], n);
      assert rows[..|rows| - 1][..n] == rows[..n];
    }
  }

  lemma AcceptedAppend(rule: Rule, rows: seq<AuditRow>, row: AuditRow)
    ensures Accepted(rule, rows + [row]) <==> Accepted(rule, rows) && rule(row, |rows| + 1, Head(rows)) == None
  {
    assert (rows + [row])[..|rows|] == rows;
  }

  lemma NotAccepted(rule: Rule, rows: seq<AuditRow>, n: nat)
    requires n <= |rows| && !Accepted(rule, rows[..n])
    ensures !Accepted(rule, rows)
  {
    if Accepted(rule, rows) { AcceptedPrefix(rule, rows, n); }
  }

  // ----- the full scan -----

  datatype Verification = Verification(
    valid: bool,
    count: nat,
    head: Option<string>,
    firstInvalid: Option<nat>,
    finding: Option<Finding>)

  function Failed(count: nat, head: Option<string>, at: nat, finding: Finding): Verification {
    Verification(false, count, head, Some(at), Some(finding))
  }

  predicate Hex64(s: string) {
    |s| == 64 && forall i {:trigger s[i]} :: 0 <= i < |s| ==> '0' <= s[i] <= '9' || 'a' <= s[i] <= 'f'
  }

  /** Is the finding about one row rather than about counts or the expected head? */
  predicate AboutRow(finding: Finding) {
    finding.IdGapOrReorder? || finding.InvalidRow? || finding.PreviousHashMismatch? || finding.HashComputationFailed?
    || finding.EventHashMismatch?
  }

  /** The rule speaks about rows only; the audit log's does. */
  ghost predicate RowRule(rule: Rule) {
    forall row, i, p {:trigger rule(row, i, p)} :: rule(row, i, p).Some? ==> AboutRow(rule(row, i, p).value)
  }

  lemma ScanStep(rule: Rule, rows: seq<AuditRow>, seen: nat)
    requires seen < |rows| && Accepted(rule, rows[..seen])
    ensures Accepted(rule, rows[..seen + 1]) <==> rule(rows[seen], seen + 1, Head(rows[..seen])) == None
    ensures !Accepted(rule, rows[..seen + 1]) ==> !Accepted(rule, rows)
    ensures ReportedHead(rows[..seen + 1]) == Some(rows[seen].eventHash)
  {
    assert rows[..seen + 1] == rows[..seen] + [rows[seen]];
    AcceptedAppend(rule, rows[..seen], rows[seen]);
    if !Accepted(rule, rows[..seen + 1]) { NotAccepted(rule, rows, seen + 1); }
  }

  /** Accepts exactly the chains of the counted length with the expected head, and otherwise points
      at the first row that breaks the chain, or at the first position where a row is missing, too many,
      or was expected with another head. */
  method VerifyAuditChain(rule: Rule, count: nat, rows: seq<AuditRow>, expectedHead: Option<string>)
    returns (r: Verification)
    ensures r.valid <==>
              && (expectedHead.Some? ==> Hex64(expectedHead.value) && expectedHead == ReportedHead(rows))
              && |rows| == count && Accepted(rule, rows)
    ensures r.valid ==> r.count == count && r.head == ReportedHead(rows)
    ensures r.finding.Some? && AboutRow(r.finding.value) ==>
              r.firstInvalid.Some? && 1 <= r.firstInvalid.value <= |rows|
              && var k := r.firstInvalid.value;
              && Accepted(rule, rows[..k - 1]) && !Accepted(rule, rows[..k])
              && rule(rows[k - 1], k, Head(rows[..k - 1])) == r.finding
    ensures RowRule(rule) && r.finding == Some(RowCountMismatch) ==>
              |rows| != count && r.firstInvalid == Some((if |rows| < count then |rows| else count) + 1)
              && Accepted(rule, rows[..r.firstInvalid.value - 1])
    ensures RowRule(rule) && r.finding == Some(ExpectedHeadMismatch) ==>
              Accepted(rule, rows) && expectedHead != ReportedHead(rows) && r.firstInvalid == Some(count + 1)
    ensures !r.valid <==> r.finding.Some?
    ensures RowRule(rule) ==>
              (r.finding == Some(InvalidExpectedHead) <==> expectedHead.Some? && !Hex64(expectedHead.value))
    ensures RowRule(rule) && r.finding.Some? && r.finding != Some(InvalidExpectedHead) ==>
              && r.count == count && r.firstInvalid.Some? && 1 <= r.firstInvalid.value <= |rows| + 1
              && r.head == ReportedHead(rows[..r.firstInvalid.value - 1])
  {
    if expectedHead.Some? && !Hex64(expectedHead.value) {
      return Verification(false, 0, None, None, Some(InvalidExpectedHead));
    }
    var head: Option<string> := None;
    var seen := 0;
    while seen < |rows|
      invariant 0 <= seen <= |rows| && seen <= count
      invariant Accepted(rule, rows[..seen]) && head == ReportedHead(rows[..seen])
    {
      var row, position := rows[seen], seen + 1;
      ScanStep(rule, rows, seen);
      if position > count { return Failed(count, head, position, RowCountMismatch); }
      var finding := rule(row, position, if head.Some? then head.value else ZERO_HASH);
      if finding.Some? {
        return Failed(count, head, position, finding.value);
      }
      head := Some(row.eventHash);
      seen := position;
    }
    assert rows[..seen] == rows;
    if seen != count { return Failed(count, head, seen + 1, RowCountMismatch); }
    if expectedHead.Some? && expectedHead != head { return Failed(count, head, count + 1, ExpectedHeadMismatch); }
    return Verification(true, count, head, None, None);
  }

  // ----- uniqueness -----

  type Clash = (AuditRow, AuditRow) -> bool

  /** Rows that fit their places and share a hash are one row in one place after one head, or clash. */
  ghost predicate Determines(rule: Rule, clash: Clash) {
    forall a, i, p, b, j, q {:trigger rule(a, i, p), rule(b, j, q)} ::
      rule(a, i, p) == None && rule(b, j, q) == None && a.eventHash == b.eventHash ==>
        (a == b && i == j && p == q) || clash(a, b)
  }

  ghost predicate SomeClash(clash: Clash, a: seq<AuditRow>, b: seq<AuditRow>) {
    exists i, j :: 0 <= i < |a| && 0 <= j < |b| && clash(a[i], b[j])
  }

  /** Then the head determines the whole log, unless a row of one clashes with a row of the other. */
  lemma {:induction false} HeadDeterminesLog(rule: Rule, clash: Clash, a: seq<AuditRow>, b: seq<AuditRow>)
    requires Determines(rule, clash) && Accepted(rule, a) && Accepted(rule, b) && ReportedHead(a) == ReportedHead(b)
    ensures a == b || SomeClash(clash, a, b)
    decreases |a|
  {
    if a != [] && b != [] {
      var m, n := |a| - 1, |b| - 1;
      assert rule(a[m], |a|, Head(a[..m])) == None && rule(b[n], |b|, Head(b[..n])) == None;
      if !clash(a[m], b[n]) {
        assert |a| == |b| && a[m] == b[n];
        HeadDeterminesLog(rule, clash, a[..m], b[..n]);
        if a[..m] == b[..n] {
          assert a == a[..m] + [a[m]] && b == b[..n] + [b[n]];
        } else {
          var i, j :| 0 <= i < m && 0 <= j < n && clash(a[..m][i], b[..n][j]);
          assert clash(a[i], b[j]);
        }
      }
    }
  }

  lemma RowAccepted(rule: Rule, rows: seq<AuditRow>, i: nat)
    requires Accepted(rule, rows) && i < |rows|
    ensures rule(rows[i], i + 1, Head(rows[..i])) == None
  {
    AcceptedPrefix(rule, rows, i + 1);
    assert rows[..i + 1][i] == rows[i] && rows[..i + 1][..i] == rows[..i];
  }

  /** An accepted row that repeats an earlier hash clashes with the row that has it. */
  lemma RepeatClashes(rule: Rule, clash: Clash, rows: seq<AuditRow>, next: AuditRow, i: nat)
    requires Determines(rule, clash) && Accepted(rule, rows + [next]) && i < |rows|
    requires rows[i].eventHash == next.eventHash
    ensures clash(rows[i], next)
  {
    AcceptedAppend(rule, rows, next);
    RowAccepted(rule, rows, i);
  }
}
