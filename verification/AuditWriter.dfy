/** The audit writer's incremental verifier: it remembers how far one connection's log was verified
    and, while the row it stopped at is still there, only checks what came after. */
module AuditWriter {
  import opened History
  import opened HashChain

  /** The two checks on stored rows: on a row alone, and on a row in its place. */
  datatype Checks = Checks(valid: AuditRow -> bool, rule: Rule)

  ghost predicate Consistent(c: Checks) {
    forall row, i, p {:trigger c.rule(row, i, p)} :: c.rule(row, i, p) == None ==>
                                                       c.valid(row) && row.id == i && row.previousHash == p
  }

  datatype Verified = Verified(count: nat, head: string)

  /** The schema objects of the database and SQLite's schema version, which every change of the
      schema moves. */
  datatype Schema = Schema(objects: set<string>, version: int)

  /** What a connection sees: the schema, when it meets the contract of the audit table, and the rows. */
  datatype View = View(connection: nat, schema: Option<Schema>, rows: seq<AuditRow>)

  datatype Cache = Cache(connection: nat, schema: Schema, verified: Verified)

  /** The table has an integer primary key, so its rows come sorted by distinct ids. */
  ghost predicate SortedById(rows: seq<AuditRow>) {
    forall i, j :: 0 <= i < j < |rows| ==> rows[i].id < rows[j].id
  }

  function WithId(rows: seq<AuditRow>, id: int): Option<AuditRow> {
    if rows == [] then None
    else if rows[0].id == id then Some(rows[0])
    else WithId(rows[1..], id)
  }

  function Above(rows: seq<AuditRow>, id: int): seq<AuditRow> {
    if rows == [] then []
    else if rows[0].id > id then [rows[0]] + Above(rows[1..], id)
    else Above(rows[1..], id)
  }

  /** The hash after checking rows in order from a position and a head. */
  function Walk(rule: Rule, rows: seq<AuditRow>, start: nat, head: string): Option<string> {
    if rows == [] then Some(head)
    else if rule(rows[0], start + 1, head).Some? then None
    else Walk(rule, rows[1..], start + 1, rows[0].eventHash)
  }

  function Counted(head: Option<string>, position: nat, expected: nat): Option<Verified> {
    if head.Some? && position == expected then Some(Verified(expected, head.value)) else None
  }

  method VerifyRows(rule: Rule, rows: seq<AuditRow>, start: nat, head: string, expected: nat)
    returns (r: Option<Verified>)
    ensures r == Counted(Walk(rule, rows, start, head), start + |rows|, expected)
  {
    var position, current := start, head;
    for i := 0 to |rows|
      invariant position == start + i
      invariant Walk(rule, rows, start, head) == Walk(rule, rows[i..], position, current)
      invariant i > 0 ==> position <= expected
    {
      assert rows[i..][1..] == rows[i + 1..];
      position := position + 1;
      if rule(rows[i], position, current).Some? { return None; }
      current := rows[i].eventHash;
      if position > expected { return None; }
    }
    if position != expected { return None; }
    return Some(Verified(position, current));
  }

  /** A cold scan of everything visible. */
  function FullScan(rule: Rule, rows: seq<AuditRow>): Option<Verified> {
    Counted(Walk(rule, rows, 0, ZERO_HASH), |rows|, |rows|)
  }

  /** The cache was made by this connection under this schema, and the log is no shorter than it was. */
  predicate Applies(cache: Option<Cache>, view: View) {
    cache.Some? && cache.value.connection == view.connection && view.schema == Some(cache.value.schema)
    && cache.value.verified.count <= |view.rows|
  }

  /** And the row it stopped at is unchanged. */
  predicate Usable(cache: Option<Cache>, view: View) {
    && Applies(cache, view)
    && (cache.value.verified.count > 0 ==>
          var tail := WithId(view.rows, cache.value.verified.count);
          tail.Some? && tail.value.eventHash == cache.value.verified.head)
  }

  /** The cached row exists but no longer passes the row check. */
  predicate TailInvalid(c: Checks, cache: Option<Cache>, view: View) {
    && Applies(cache, view) && cache.value.verified.count > 0
    && var tail := WithId(view.rows, cache.value.verified.count);
    tail.Some? && !c.valid(tail.value)
  }

  /** The rows after the cached one continue its chain and are all there is. */
  predicate RestAccepted(c: Checks, v: Verified, rows: seq<AuditRow>) {
    var rest := Above(rows, v.count);
    |rows| == v.count || (v.count + |rest| == |rows| && Walk(c.rule, rest, v.count, v.head).Some?)
  }

  function Prefix(c: Checks, cache: Option<Cache>, view: View): Option<Verified> {
    if view.schema == None || TailInvalid(c, cache, view) then None
    else if Usable(cache, view) then
      var v := cache.value.verified;
      if |view.rows| == v.count then Some(v)
      else
        var rest := Above(view.rows, v.count);
        Counted(Walk(c.rule, rest, v.count, v.head), v.count + |rest|, |view.rows|)
    else FullScan(c.rule, view.rows)
  }

  /** What a writer without a cache answers. */
  function Cold(c: Checks, view: View): Option<Verified> {
    if view.schema == None then None else FullScan(c.rule, view.rows)
  }

  class Writer {
    var cache: Option<Cache>

    constructor ()
      ensures cache == None
    {
      cache := None;
    }

    /** Verifies the rows a connection sees, before anything is inserted. */
    method VerifiedPrefix(c: Checks, view: View) returns (r: Option<Verified>)
      modifies this
      ensures r == Prefix(c, old(cache), view)
      ensures r.Some? ==> view.schema.Some?
      ensures cache == if r.Some? then Some(Cache(view.connection, view.schema.value, r.value)) else old(cache)
    {
      if view.schema == None { return None; }
      var rows, count := view.rows, |view.rows|;
      var usable := cache.Some? && cache.value.connection == view.connection && view.schema == Some(cache.value.schema)
                    && count >= cache.value.verified.count;
      if usable && cache.value.verified.count > 0 {
        var tail := WithId(rows, cache.value.verified.count);
        if tail == None {
          usable := false;
        } else {
          if !c.valid(tail.value) { return None; }
          usable := tail.value.eventHash == cache.value.verified.head;
        }
      }
      if usable {
        if count > cache.value.verified.count {
          var v := cache.value.verified;
          r := VerifyRows(c.rule, Above(rows, v.count), v.count, v.head, count);
        } else {
          r := Some(cache.value.verified);
        }
      } else {
        r := VerifyRows(c.rule, rows, 0, ZERO_HASH, count);
      }
      if r.Some? { cache := Some(Cache(view.connection, view.schema.value, r.value)); }
    }
  }

  // ----- the cache never changes the answer -----

  lemma {:induction false} WalkExtends(rule: Rule, rows: seq<AuditRow>, n: nat)
    requires n <= |rows| && Accepted(rule, rows[..n])
    ensures Walk(rule, rows[n..], n, Head(rows[..n])) == if Accepted(rule, rows) then Some(Head(rows)) else None
    decreases |rows| - n
  {
    if n == |rows| {
      assert rows[..n] == rows;
    } else {
      assert rows[..n + 1] == rows[..n] + [rows[n]] && rows[n..][1..] == rows[n + 1..];
      AcceptedAppend(rule, rows[..n], rows[n]);
      if rule(rows[n], n + 1, Head(rows[..n])) == None {
        WalkExtends(rule, rows, n + 1);
      } else {
        NotAccepted(rule, rows, n + 1);
      }
    }
  }

  lemma FullScanAccepts(rule: Rule, rows: seq<AuditRow>)
    ensures FullScan(rule, rows) == if Accepted(rule, rows) then Some(Verified(|rows|, Head(rows))) else None
  {
    assert rows[..0] == [] && rows[0..] == rows;
    WalkExtends(rule, rows, 0);
  }

  lemma {:induction false} AcceptedIds(c: Checks, rows: seq<AuditRow>)
    requires Consistent(c) && Accepted(c.rule, rows)
    ensures forall i :: 0 <= i < |rows| ==> rows[i].id == i + 1 && c.valid(rows[i])
    decreases |rows|
  {
    if rows != [] {
      var n := |rows| - 1;
      AcceptedIds(c, rows[..n]);
      assert c.rule(rows[n], |rows|, Head(rows[..n])) == None;
      forall i | 0 <= i < |rows| ensures rows[i].id == i + 1 && c.valid(rows[i]) {
        if i < n { assert rows[..n][i] == rows[i]; }
      }
    }
  }

  lemma {:induction false} FindsRow(rows: seq<AuditRow>, i: nat)
    requires SortedById(rows) && i < |rows|
    ensures WithId(rows, rows[i].id) == Some(rows[i]) && Above(rows, rows[i].id) == rows[i + 1..]
    decreases |rows|
  {
    if i == 0 {
      AboveAll(rows[1..], rows[0].id);
    } else {
      FindsRow(rows[1..], i - 1);
    }
  }

  lemma {:induction false} AboveAll(rows: seq<AuditRow>, id: int)
    requires forall i :: 0 <= i < |rows| ==> rows[i].id > id
    ensures Above(rows, id) == rows
    decreases |rows|
  {
    if rows != [] { AboveAll(rows[1..], id); }
  }

  /** A cache only remembers verified logs, which end at the head of their prefix. */
  ghost predicate CacheSound(cache: Option<Cache>) {
    cache.Some? && cache.value.verified.count == 0 ==> cache.value.verified.head == ZERO_HASH
  }

  /** The cached row of a log whose prefix is intact: it is found, valid, and its head is the
      prefix's. */
  lemma TailFound(c: Checks, v: Verified, rows: seq<AuditRow>)
    requires Consistent(c) && SortedById(rows) && 0 < v.count <= |rows| && Accepted(c.rule, rows[..v.count])
    ensures WithId(rows, v.count) == Some(rows[v.count - 1]) && c.valid(rows[v.count - 1])
    ensures Above(rows, v.count) == rows[v.count..] && Head(rows[..v.count]) == rows[v.count - 1].eventHash
  {
    var n := v.count;
    AcceptedIds(c, rows[..n]);
    assert rows[n - 1] == rows[..n][n - 1] && rows[n - 1].id == n;
    FindsRow(rows, n - 1);
  }

  lemma RestIsTail(rule: Rule, v: Verified, rows: seq<AuditRow>)
    requires v.count <= |rows| && Accepted(rule, rows[..v.count]) && v.head == Head(rows[..v.count])
    requires Above(rows, v.count) == rows[v.count..]
    ensures FullScan(rule, rows)
            == if |rows| == v.count then Some(v)
               else Counted(Walk(rule, Above(rows, v.count), v.count, v.head), |rows|, |rows|)
  {
    FullScanAccepts(rule, rows);
    WalkExtends(rule, rows, v.count);
    if v.count == |rows| { assert rows[..v.count] == rows; }
  }

  lemma UsablePrefix(c: Checks, cache: Option<Cache>, view: View)
    requires Consistent(c) && CacheSound(cache) && SortedById(view.rows) && Usable(cache, view)
    requires Accepted(c.rule, view.rows[..cache.value.verified.count])
    requires forall i :: 0 <= i < |view.rows| ==> view.rows[i].id > 0
    ensures !TailInvalid(c, cache, view)
    ensures Prefix(c, cache, view) == FullScan(c.rule, view.rows)
  {
    var rows, v := view.rows, cache.value.verified;
    if v.count > 0 { TailFound(c, v, rows); } else { AboveAll(rows, 0); }
    RestIsTail(c.rule, v, rows);
  }

  /** On an accepted log the cached answer is the cold answer, whatever the cache holds: other rows
      at the same count after a rollback, another connection, another schema, nothing. */
  lemma CachedEqualsFull(c: Checks, cache: Option<Cache>, view: View)
    requires Consistent(c) && CacheSound(cache) && Accepted(c.rule, view.rows)
    ensures Prefix(c, cache, view) == Cold(c, view)
    ensures view.schema.Some? ==> Prefix(c, cache, view) == Some(Verified(|view.rows|, Head(view.rows)))
  {
    FullScanAccepts(c.rule, view.rows);
    AcceptedIds(c, view.rows);
    if Usable(cache, view) {
      AcceptedPrefix(c.rule, view.rows, cache.value.verified.count);
      UsablePrefix(c, cache, view);
    } else if TailInvalid(c, cache, view) {
      FindsRow(view.rows, cache.value.verified.count - 1);
    }
  }

  lemma UsableAnswer(c: Checks, cache: Option<Cache>, view: View)
    requires Usable(cache, view)
    ensures Prefix(c, cache, view).Some? <==>
              !TailInvalid(c, cache, view) && RestAccepted(c, cache.value.verified, view.rows)
  {}

  /** On any table at all, the cached answer differs from the cold one exactly when the cache is
      usable under the present schema, its own row is valid, the rows after it check out, and the
      rows before it have been tampered with. */
  lemma CacheMissesExactly(c: Checks, cache: Option<Cache>, view: View)
    requires Consistent(c) && CacheSound(cache)
    requires SortedById(view.rows) && forall i :: 0 <= i < |view.rows| ==> view.rows[i].id > 0
    ensures Prefix(c, cache, view) != Cold(c, view) <==>
              && Usable(cache, view) && !TailInvalid(c, cache, view)
              && RestAccepted(c, cache.value.verified, view.rows)
              && !Accepted(c.rule, view.rows[..cache.value.verified.count])
  {
    FullScanAccepts(c.rule, view.rows);
    if Usable(cache, view) { UsableAnswer(c, cache, view); }
    if Accepted(c.rule, view.rows) {
      CachedEqualsFull(c, cache, view);
      if Usable(cache, view) { AcceptedPrefix(c.rule, view.rows, cache.value.verified.count); }
    } else if Usable(cache, view) && Accepted(c.rule, view.rows[..cache.value.verified.count]) {
      UsablePrefix(c, cache, view);
    }
  }

  /** A change of schema, or another connection, makes every alteration visible. */
  lemma OtherSchemaIsCold(c: Checks, cache: Option<Cache>, view: View)
    requires cache.Some? ==> view.schema != Some(cache.value.schema) || view.connection != cache.value.connection
    ensures Prefix(c, cache, view) == Cold(c, view)
  {}

  /** Missing an alteration can happen: a first row altered behind a live connection, the schema left
      as it was, goes unnoticed there. */
  lemma AlteredFirstRowGoesUnnoticed(c: Checks, view: View, altered: AuditRow)
    requires Consistent(c) && Accepted(c.rule, view.rows) && |view.rows| >= 2 && view.schema.Some?
    requires altered.id == 1 && c.rule(altered, 1, ZERO_HASH).Some?
    ensures var after := view.(rows := view.rows[0 := altered]);
            var verified := Verified(|view.rows|, Head(view.rows));
            && Prefix(c, Some(Cache(view.connection, view.schema.value, verified)), after) == Some(verified)
            && Cold(c, after) == None
  {
    var rows, n := view.rows, |view.rows|;
    var after := rows[0 := altered];
    AcceptedIds(c, rows);
    FindsRow(after, n - 1);
    assert after[n - 1] == rows[n - 1] && c.valid(rows[n - 1]);
  }
}
