/** The queue gets through corruption: claims come after few empty results, and the scrubber
    reaches every row. */
module QueueProgress {
  import opened History
  import opened DiscoveryQueue

  // ----- one pass of the claim loop -----

  ghost predicate Distinct(rows: seq<JobId>) {
    forall i, j :: 0 <= i < j < |rows| ==> rows[i] != rows[j]
  }

  ghost predicate AllPending(jobs: Jobs, rows: seq<JobId>) {
    forall i :: 0 <= i < |rows| ==> rows[i] in jobs && jobs[rows[i]].state == Pending
  }

  ghost predicate SomeIntact(jobs: Jobs, rows: seq<JobId>) {
    exists i :: 0 <= i < |rows| && rows[i] in jobs && jobs[rows[i]].intact
  }

  lemma FailingShrinks(jobs: Jobs, id: JobId)
    requires id in jobs && jobs[id].state == Pending && !jobs[id].intact
    ensures |Corrupt(jobs[id := FailedJob(jobs[id])])| + 1 == |Corrupt(jobs)|
  {
    assert Corrupt(jobs[id := FailedJob(jobs[id])]) == Corrupt(jobs) - {id};
  }

  lemma TailRows(before: Jobs, after: Jobs, rows: seq<JobId>)
    requires rows != [] && Distinct(rows) && AllPending(before, rows)
    requires rows[0] in before && after.Keys == before.Keys
    requires forall id :: id in before && id != rows[0] ==> after[id] == before[id]
    ensures Distinct(rows[1..]) && AllPending(after, rows[1..])
    ensures SomeIntact(before, rows) && !before[rows[0]].intact ==> SomeIntact(after, rows[1..])
  {
    assert forall i :: 0 <= i < |rows| - 1 ==> rows[1..][i] == rows[i + 1] && rows[i + 1] != rows[0];
    if SomeIntact(before, rows) && !before[rows[0]].intact {
      var i :| 0 <= i < |rows| && rows[i] in before && before[rows[i]].intact;
      assert rows[1..][i - 1] == rows[i];
    }
  }

  /** With an intact row among them, or enough rows, the loop claims or fails thirty-two in all. */
  lemma {:induction false} ServeProgress(jobs: Jobs, rows: seq<JobId>, failed: nat, lease: Lease)
    requires Distinct(rows) && AllPending(jobs, rows) && failed < MAX_CORRUPT
    requires SomeIntact(jobs, rows) || |rows| + failed >= MAX_CORRUPT
    ensures var (after, claimed) := Serve(jobs, rows, failed, None, lease);
            claimed.Some? || |Corrupt(after)| + MAX_CORRUPT - failed <= |Corrupt(jobs)|
    decreases |rows|
  {
    var id := rows[0];
    if jobs[id].intact {
      var c := Claim(id, jobs[id].attempts + 1, lease);
      ClaimKept(jobs[id := ClaimedJob(jobs[id], lease)], rows[1..], failed, c, lease);
    } else {
      var after := jobs[id := FailedJob(jobs[id])];
      FailingShrinks(jobs, id);
      TailRows(jobs, after, rows);
      if failed + 1 < MAX_CORRUPT { ServeProgress(after, rows[1..], failed + 1, lease); }
    }
  }

  lemma {:induction false} ClaimKept(jobs: Jobs, rows: seq<JobId>, failed: nat, c: Claim, lease: Lease)
    ensures Serve(jobs, rows, failed, Some(c), lease).1 == Some(c)
    decreases |rows|
  {
    if rows != [] && rows[0] in jobs {
      if !jobs[rows[0]].intact {
        ClaimKept(jobs[rows[0] := FailedJob(jobs[rows[0]])], rows[1..], failed + 1, c, lease);
      }
      else { ClaimKept(jobs, rows[1..], failed, c, lease); }
    }
  }

  /** What the loop leaves alone: every intact row but the one it claims. */
  ghost predicate Spares(before: Jobs, after: Jobs, claimed: Option<Claim>) {
    && after.Keys == before.Keys
    && (forall id :: id in before && before[id].intact && (claimed == None || id != claimed.value.id) ==>
          after[id] == before[id])
    && Corrupt(after) <= Corrupt(before)
  }

  lemma {:induction false} ServeUntouched(jobs: Jobs, rows: seq<JobId>, failed: nat, claimed: Option<Claim>,
                                          lease: Lease, id: JobId)
    requires id in jobs && id !in rows
    ensures Serve(jobs, rows, failed, claimed, lease).0[id] == jobs[id]
    decreases |rows|
  {
    if rows != [] && rows[0] in jobs {
      var first, job := rows[0], jobs[rows[0]];
      if !job.intact { ServeUntouched(jobs[first := FailedJob(job)], rows[1..], failed + 1, claimed, lease, id); }
      else if claimed.Some? { ServeUntouched(jobs, rows[1..], failed, claimed, lease, id); }
      else {
        ServeUntouched(jobs[first := ClaimedJob(job, lease)], rows[1..], failed,
                       Some(Claim(first, job.attempts + 1, lease)), lease, id);
      }
    }
  }

  lemma {:induction false} ServeSpares(jobs: Jobs, rows: seq<JobId>, failed: nat, claimed: Option<Claim>, lease: Lease)
    requires Distinct(rows) && AllPending(jobs, rows)
    ensures var (after, c) := Serve(jobs, rows, failed, claimed, lease);
            (claimed.Some? ==> c == claimed) && Spares(jobs, after, c)
    decreases |rows|
  {
    if rows != [] {
      var id, job := rows[0], jobs[rows[0]];
      if !job.intact {
        var next := jobs[id := FailedJob(job)];
        TailRows(jobs, next, rows);
        if failed + 1 < MAX_CORRUPT { ServeSpares(next, rows[1..], failed + 1, claimed, lease); }
      } else if claimed.Some? {
        TailRows(jobs, jobs, rows);
        ServeSpares(jobs, rows[1..], failed, claimed, lease);
      } else {
        var next := jobs[id := ClaimedJob(job, lease)];
        TailRows(jobs, next, rows);
        ServeSpares(next, rows[1..], failed, Some(Claim(id, job.attempts + 1, lease)), lease);
      }
    }
  }

  lemma {:induction false} ServeClaims(jobs: Jobs, rows: seq<JobId>, failed: nat, lease: Lease)
    requires Distinct(rows) && AllPending(jobs, rows) && Serve(jobs, rows, failed, None, lease).1.Some?
    ensures var (after, c) := Serve(jobs, rows, failed, None, lease);
            var id := c.value.id;
            id in rows && id in jobs && jobs[id].intact && after[id] == ClaimedJob(jobs[id], lease)
    decreases |rows|
  {
    var id, job := rows[0], jobs[rows[0]];
    assert forall i :: 0 < i < |rows| ==> rows[1..][i - 1] == rows[i] != id;
    if job.intact {
      var c := Claim(id, job.attempts + 1, lease);
      ClaimKept(jobs[id := ClaimedJob(job, lease)], rows[1..], failed, c, lease);
      ServeUntouched(jobs[id := ClaimedJob(job, lease)], rows[1..], failed, Some(c), lease, id);
    } else if failed + 1 < MAX_CORRUPT {
      var next := jobs[id := FailedJob(job)];
      TailRows(jobs, next, rows);
      ServeClaims(next, rows[1..], failed + 1, lease);
    }
  }

  // ----- claim_next -----

  lemma OrderedDistinct(rows: seq<JobId>, from: set<JobId>, before: Order, limit: nat)
    requires FirstRows(rows, from, before, limit) && StrictTotal(before)
    ensures Distinct(rows)
  {
    forall i, j | 0 <= i < j < |rows| ensures rows[i] != rows[j] { assert before(rows[i], rows[j]); }
  }

  /** A claim_next call: its state before, what it read, its state after. */
  datatype Call = Call(
    before: Jobs,
    start: Option<JobId>,
    now: Time,
    lease: Lease,
    scrubbed: seq<JobId>,
    rows: seq<JobId>,
    after: Jobs,
    cursor: Option<JobId>,
    result: Option<Claim>)

  ghost predicate Made(c: Call) {
    Claims(c.before, c.start, c.now, c.lease, c.scrubbed, c.rows, c.after, c.cursor, c.result)
  }

  lemma ScrubSpares(jobs: Jobs, rows: seq<JobId>)
    ensures Spares(jobs, FailCorrupt(jobs, rows), None)
  {}

  lemma RowsRead(c: Call)
    requires Made(c)
    ensures var mid := FailCorrupt(c.before, c.scrubbed);
            && Distinct(c.rows) && AllPending(mid, c.rows)
            && Serve(mid, c.rows, 0, None, c.lease) == (c.after, c.result)
            && (forall i :: 0 <= i < |c.rows| ==> c.rows[i] in ReadyIds(mid, c.now))
            && (forall id :: id in ReadyIds(mid, c.now) && id !in c.rows ==> |c.rows| == CLAIM_BATCH)
  {
    var mid := FailCorrupt(c.before, c.scrubbed);
    OrdersTotal(mid);
    OrderedDistinct(c.rows, ReadyIds(mid, c.now), ByReadiness(mid), CLAIM_BATCH);
    forall i | 0 <= i < |c.rows| ensures c.rows[i] in mid && mid[c.rows[i]].state == Pending {
      assert c.rows[i] in ReadyIds(mid, c.now);
    }
  }

  lemma LoopIsSound(mid: Jobs, now: Time, rows: seq<JobId>, lease: Lease)
    requires Distinct(rows) && AllPending(mid, rows)
    requires forall i :: 0 <= i < |rows| ==> rows[i] in ReadyIds(mid, now)
    ensures var (after, result) := Serve(mid, rows, 0, None, lease);
            && Spares(mid, after, result)
            && (result.Some? ==>
                  var id := result.value.id;
                  id in ReadyIds(mid, now) && mid[id].intact && after[id] == ClaimedJob(mid[id], lease))
  {
    ServeSpares(mid, rows, 0, None, lease);
    if Serve(mid, rows, 0, None, lease).1.Some? { ServeClaims(mid, rows, 0, lease); }
  }

  lemma ScrubbedIntact(before: Jobs, rows: seq<JobId>, id: JobId, now: Time)
    requires id in ReadyIds(FailCorrupt(before, rows), now) && FailCorrupt(before, rows)[id].intact
    ensures id in ReadyIds(before, now) && before[id] == FailCorrupt(before, rows)[id]
  {}

  lemma SparesBoth(a: Jobs, b: Jobs, c: Jobs, claimed: Option<Claim>)
    requires Spares(a, b, None) && Spares(b, c, claimed)
    ensures Spares(a, c, claimed)
  {}

  /** A claim is on a ready intact row, and nothing else intact changes. */
  lemma ClaimIsSound(c: Call)
    requires Made(c)
    ensures Spares(c.before, c.after, c.result)
    ensures c.result.Some? ==>
              var id := c.result.value.id;
              id in ReadyIds(c.before, c.now) && c.before[id].intact && c.after[id] == ClaimedJob(c.before[id], c.lease)
  {
    var mid := FailCorrupt(c.before, c.scrubbed);
    ScrubSpares(c.before, c.scrubbed);
    RowsRead(c);
    LoopIsSound(mid, c.now, c.rows, c.lease);
    SparesBoth(c.before, mid, c.after, c.result);
    if c.result.Some? { ScrubbedIntact(c.before, c.scrubbed, c.result.value.id, c.now); }
  }

  lemma LoopProgress(mid: Jobs, now: Time, rows: seq<JobId>, lease: Lease, id: JobId)
    requires Distinct(rows) && AllPending(mid, rows) && id in ReadyIds(mid, now) && mid[id].intact
    requires id !in rows ==> |rows| == CLAIM_BATCH
    ensures var (after, result) := Serve(mid, rows, 0, None, lease);
            result.Some? || |Corrupt(after)| + MAX_CORRUPT <= |Corrupt(mid)|
  {
    if id in rows { assert SomeIntact(mid, rows); }
    ServeProgress(mid, rows, 0, lease);
  }

  /** While an intact job is ready, a call claims something or fails at least thirty-two rows. */
  lemma ClaimProgress(c: Call, id: JobId)
    requires Made(c) && id in ReadyIds(c.before, c.now) && c.before[id].intact
    ensures c.result.Some? || |Corrupt(c.after)| + 32 <= |Corrupt(c.before)|
  {
    var mid := FailCorrupt(c.before, c.scrubbed);
    RowsRead(c);
    LoopProgress(mid, c.now, c.rows, c.lease, id);
    ScrubSpares(c.before, c.scrubbed);
    SubsetSize(Corrupt(mid), Corrupt(c.before));
  }

  /** What a call does to a ready intact job: leaves it and claims, or leaves it and fails rows. */
  ghost predicate Progresses(c: Call, id: JobId) {
    c.result.Some? || (id in ReadyIds(c.before, c.now) && c.before[id].intact ==>
                         && |Corrupt(c.after)| + MAX_CORRUPT <= |Corrupt(c.before)|
                         && id in c.after && c.after[id] == c.before[id])
  }

  lemma CallProgresses(c: Call, id: JobId)
    requires Made(c)
    ensures Progresses(c, id)
  {
    ClaimIsSound(c);
    if id in ReadyIds(c.before, c.now) && c.before[id].intact { ClaimProgress(c, id); }
  }

  /** Successive calls, each on what the last one left. */
  ghost predicate Chained(calls: seq<Call>) {
    forall i :: 0 < i < |calls| ==> calls[i].before == calls[i - 1].after
  }

  lemma {:induction false} Drained(calls: seq<Call>, id: JobId)
    requires Chained(calls) && (forall i :: 0 <= i < |calls| ==> Progresses(calls[i], id))
    requires calls != [] && |calls| > |Corrupt(calls[0].before)| / MAX_CORRUPT
    requires var jobs := calls[0].before;
             id in PendingIds(jobs) && jobs[id].intact
             && forall i :: 0 <= i < |calls| ==> jobs[id].availableAt <= calls[i].now
    ensures exists i :: 0 <= i < |calls| && calls[i].result.Some?
    decreases |calls|
  {
    assert Progresses(calls[0], id);
    if calls[0].result == None {
      var rest := calls[1..];
      assert forall i :: 0 <= i < |rest| ==> rest[i] == calls[i + 1];
      assert rest != [] && rest[0].before == calls[0].after;
      Drained(rest, id);
    }
  }

  /** With k corrupt pending rows, an intact ready job sees a claim within k / 32 + 1 calls. */
  lemma ClaimComesThrough(calls: seq<Call>, id: JobId)
    requires Chained(calls) && (forall i :: 0 <= i < |calls| ==> Made(calls[i]))
    requires calls != [] && |calls| > |Corrupt(calls[0].before)| / 32
    requires var jobs := calls[0].before;
             id in PendingIds(jobs) && jobs[id].intact
             && forall i :: 0 <= i < |calls| ==> jobs[id].availableAt <= calls[i].now
    ensures exists i :: 0 <= i < |calls| && calls[i].result.Some?
  {
    forall i | 0 <= i < |calls| ensures Progresses(calls[i], id) { CallProgresses(calls[i], id); }
    Drained(calls, id);
  }

  // ----- the scrubber -----

  /** One scrub batch over the rows pending at the time. */
  datatype Round = Round(pending: set<JobId>, cursor: Option<JobId>, batch: seq<JobId>)

  function Over(pending: set<JobId>, cursor: Option<JobId>): set<JobId> {
    set y | y in pending && (cursor == None || y > cursor.value)
  }

  function Moved(batch: seq<JobId>): Option<JobId> {
    if batch == [] then None else Some(batch[|batch| - 1])
  }

  ghost predicate Scrubs(r: Round) {
    FirstRows(r.batch, Over(r.pending, r.cursor), ById(), SCRUB_BATCH)
  }

  /** Successive batches; rows may leave the pending state between them but none may enter it. */
  ghost predicate Rounds(rounds: seq<Round>) {
    && (forall i :: 0 <= i < |rounds| ==> Scrubs(rounds[i]))
    && forall i :: 0 < i < |rounds| ==>
         rounds[i].cursor == Moved(rounds[i - 1].batch) && rounds[i].pending <= rounds[i - 1].pending
  }

  /** Pending rows between the cursor and x. */
  function Gap(pending: set<JobId>, cursor: Option<JobId>, x: JobId): set<JobId> {
    set y | y in Over(pending, cursor) && y < x
  }

  function Ceiling(n: nat): nat {
    (n + SCRUB_BATCH - 1) / SCRUB_BATCH
  }

  predicate Ahead(cursor: Option<JobId>, x: JobId) {
    cursor == None || cursor.value < x
  }

  /** Batches that may pass before x is reached. */
  function Wait(pending: set<JobId>, cursor: Option<JobId>, x: JobId): nat {
    if Ahead(cursor, x) then |Gap(pending, cursor, x)| / SCRUB_BATCH + 1
    else Ceiling(|Over(pending, cursor)|) + |Gap(pending, None, x)| / SCRUB_BATCH + 2
  }

  function AsSet(rows: seq<JobId>): set<JobId> {
    set y | y in rows
  }

  lemma {:induction false} Elements(rows: seq<JobId>)
    requires Distinct(rows)
    ensures |AsSet(rows)| == |rows|
    decreases |rows|
  {
    if rows != [] {
      var n := |rows| - 1;
      assert AsSet(rows) == AsSet(rows[..n]) + {rows[n]} && rows[n] !in AsSet(rows[..n]);
      Elements(rows[..n]);
    }
  }

  /** A batch's rows leave what is over the cursor. */
  lemma BatchLeaves(r: Round, smaller: set<JobId>, all: set<JobId>)
    requires Scrubs(r) && smaller <= all && AsSet(r.batch) <= all - smaller
    ensures |smaller| + |r.batch| <= |all|
  {
    OrdersTotal(map[]);
    OrderedDistinct(r.batch, Over(r.pending, r.cursor), ById(), SCRUB_BATCH);
    Elements(r.batch);
    assert smaller !! AsSet(r.batch);
    assert |smaller + AsSet(r.batch)| == |smaller| + |AsSet(r.batch)|;
    SubsetSize(smaller + AsSet(r.batch), all);
  }

  lemma BatchBounds(r: Round)
    requires Scrubs(r) && r.batch != []
    ensures forall y :: y in r.batch ==> y in r.pending && Ahead(r.cursor, y) && y <= r.batch[|r.batch| - 1]
  {
    var n := |r.batch| - 1;
    forall y | y in r.batch ensures y in r.pending && Ahead(r.cursor, y) && y <= r.batch[n] {
      var i :| 0 <= i < |r.batch| && r.batch[i] == y;
      assert i == n || ById()(r.batch[i], r.batch[n]);
    }
  }

  lemma WaitsAhead(r: Round, later: set<JobId>, x: JobId)
    requires Scrubs(r) && later <= r.pending && x in later && x !in r.batch && Ahead(r.cursor, x)
    ensures Wait(later, Moved(r.batch), x) < Wait(r.pending, r.cursor, x)
  {
    assert x in Over(r.pending, r.cursor);
    assert |r.batch| == SCRUB_BATCH && forall i :: 0 <= i < |r.batch| ==> ById()(r.batch[i], x);
    BatchBounds(r);
    var next := Moved(r.batch);
    var now, before := Gap(later, next, x), Gap(r.pending, r.cursor, x);
    assert AsSet(r.batch) <= before - now;
    assert now <= before;
    BatchLeaves(r, now, before);
  }

  lemma WaitsBehind(r: Round, later: set<JobId>, x: JobId)
    requires Scrubs(r) && later <= r.pending && x in later && !Ahead(r.cursor, x)
    ensures Wait(later, Moved(r.batch), x) < Wait(r.pending, r.cursor, x)
  {
    SubsetSize(Gap(later, None, x), Gap(r.pending, None, x));
    if r.batch != [] {
      BatchBounds(r);
      var next := Moved(r.batch);
      var now, before := Over(later, next), Over(r.pending, r.cursor);
      assert r.batch[|r.batch| - 1] in r.batch && !Ahead(next, x);
      assert AsSet(r.batch) <= before - now;
      assert now <= before;
      BatchLeaves(r, now, before);
      if |r.batch| < SCRUB_BATCH { assert now == {} by { assert forall y :: y in before ==> y in r.batch; } }
    }
  }

  lemma WaitBound(pending: set<JobId>, cursor: Option<JobId>, x: JobId)
    requires x in pending
    ensures Wait(pending, cursor, x) <= 2 * Ceiling(|pending|) + 1
  {
    SubsetSize(Gap(pending, cursor, x), pending - {x});
    SubsetSize(Gap(pending, None, x), pending - {x});
    SubsetSize(Over(pending, cursor), pending);
  }

  /** From any cursor, every row that stays pending is in some batch within 2 * ceiling(n / 32) + 1
      calls, for n rows pending at the start. */
  lemma {:induction false} ScrubberReaches(rounds: seq<Round>, x: JobId)
    requires Rounds(rounds) && rounds != [] && |rounds| >= Wait(rounds[0].pending, rounds[0].cursor, x)
    requires forall i :: 0 <= i < |rounds| ==> x in rounds[i].pending
    ensures exists i :: 0 <= i < |rounds| && x in rounds[i].batch
    decreases |rounds|
  {
    var r := rounds[0];
    if x !in r.batch {
      if |rounds| == 1 {
        assert Ahead(r.cursor, x) && x in Over(r.pending, r.cursor);
        WaitsAhead(r, r.pending, x);
        assert false;
      } else {
        var rest := rounds[1..];
        assert forall i :: 0 <= i < |rest| ==> rest[i] == rounds[i + 1];
        if Ahead(r.cursor, x) { WaitsAhead(r, rest[0].pending, x); } else { WaitsBehind(r, rest[0].pending, x); }
        ScrubberReaches(rest, x);
      }
    }
  }

  lemma ScrubberReachesAll(rounds: seq<Round>, x: JobId)
    requires Rounds(rounds) && rounds != [] && |rounds| >= 2 * Ceiling(|rounds[0].pending|) + 1
    requires forall i :: 0 <= i < |rounds| ==> x in rounds[i].pending
    ensures exists i :: 0 <= i < |rounds| && x in rounds[i].batch
  {
    WaitBound(rounds[0].pending, rounds[0].cursor, x);
    ScrubberReaches(rounds, x);
  }

  /** A call's scrub is such a batch, and a row it leaves pending is intact. */
  lemma CallScrubs(c: Call)
    requires Made(c)
    ensures Scrubs(Round(PendingIds(c.before), c.start, c.scrubbed)) && c.cursor == Moved(c.scrubbed)
  {
    assert AboveCursor(c.before, c.start) == Over(PendingIds(c.before), c.start);
  }

  lemma LoopCorruptsNothing(c: Call)
    requires Made(c)
    ensures Corrupt(c.after) <= Corrupt(FailCorrupt(c.before, c.scrubbed))
  {
    RowsRead(c);
    LoopIsSound(FailCorrupt(c.before, c.scrubbed), c.now, c.rows, c.lease);
  }

  lemma ScrubbedIsClean(before: Jobs, rows: seq<JobId>, after: Jobs, x: JobId)
    requires x in rows && Corrupt(after) <= Corrupt(FailCorrupt(before, rows)) && x in PendingIds(after)
    ensures after[x].intact
  {
    assert x !in Corrupt(FailCorrupt(before, rows));
    assert x !in Corrupt(after);
  }

  lemma CallValidates(c: Call, x: JobId)
    requires Made(c) && x in c.scrubbed && x in PendingIds(c.after)
    ensures c.after[x].intact
  {
    LoopCorruptsNothing(c);
    ScrubbedIsClean(c.before, c.scrubbed, c.after, x);
  }

  /** A claim loop queues nothing. */
  lemma {:induction false} ServeQueuesNothing(jobs: Jobs, rows: seq<JobId>, failed: nat, claimed: Option<Claim>,
                                              lease: Lease)
    ensures PendingIds(Serve(jobs, rows, failed, claimed, lease).0) <= PendingIds(jobs)
    decreases |rows|
  {
    if rows != [] && rows[0] in jobs {
      var id, job := rows[0], jobs[rows[0]];
      if !job.intact {
        ServeQueuesNothing(jobs[id := FailedJob(job)], rows[1..], failed + 1, claimed, lease);
      } else if claimed.Some? {
        ServeQueuesNothing(jobs, rows[1..], failed, claimed, lease);
      } else {
        ServeQueuesNothing(jobs[id := ClaimedJob(job, lease)], rows[1..], failed,
                           Some(Claim(id, job.attempts + 1, lease)), lease);
      }
    }
  }

  lemma ScrubQueuesNothing(jobs: Jobs, rows: seq<JobId>)
    ensures PendingIds(FailCorrupt(jobs, rows)) <= PendingIds(jobs)
  {}

  lemma ServedFrom(c: Call)
    requires Made(c)
    ensures c.after == Serve(FailCorrupt(c.before, c.scrubbed), c.rows, 0, None, c.lease).0
  {}

  lemma CallQueuesNothing(c: Call)
    requires Made(c)
    ensures PendingIds(c.after) <= PendingIds(c.before)
  {
    ServedFrom(c);
    QueuesNothing(c.before, c.scrubbed, c.rows, c.lease);
  }

  lemma QueuesNothing(jobs: Jobs, scrubbed: seq<JobId>, rows: seq<JobId>, lease: Lease)
    ensures PendingIds(Serve(FailCorrupt(jobs, scrubbed), rows, 0, None, lease).0) <= PendingIds(jobs)
  {
    var mid := FailCorrupt(jobs, scrubbed);
    ScrubQueuesNothing(jobs, scrubbed);
    ServeQueuesNothing(mid, rows, 0, None, lease);
  }

  /** Each call starts at the cursor the last one left, and whatever happened to the table in between
      added nothing to the pending rows. */
  ghost predicate Linked(calls: seq<Call>) {
    forall i :: 0 < i < |calls| ==>
      calls[i].start == calls[i - 1].cursor && PendingIds(calls[i].before) <= PendingIds(calls[i - 1].after)
  }

  /** Calls of one queue object while no row is added. */
  ghost predicate Successive(calls: seq<Call>) {
    Linked(calls) && forall i :: 0 <= i < |calls| ==> Made(calls[i])
  }

  function RoundOf(c: Call): Round {
    Round(PendingIds(c.before), c.start, c.scrubbed)
  }

  /** A call seen by the scrubber. */
  ghost predicate IsRound(c: Call) {
    Scrubs(RoundOf(c)) && c.cursor == Moved(c.scrubbed) && PendingIds(c.after) <= PendingIds(c.before)
  }

  lemma CallIsRound(c: Call)
    requires Made(c)
    ensures IsRound(c)
  {
    CallScrubs(c);
    CallQueuesNothing(c);
  }

  lemma RoundFollows(a: Call, b: Call)
    requires IsRound(a) && b.start == a.cursor && PendingIds(b.before) <= PendingIds(a.after)
    ensures RoundOf(b).cursor == Moved(RoundOf(a).batch) && RoundOf(b).pending <= RoundOf(a).pending
  {}

  lemma SomeRoundReads(calls: seq<Call>, x: JobId) returns (i: nat)
    requires Linked(calls) && forall i :: 0 <= i < |calls| ==> IsRound(calls[i])
    requires calls != [] && |calls| >= 2 * Ceiling(|PendingIds(calls[0].before)|) + 1
    requires forall i :: 0 <= i < |calls| ==> x in PendingIds(calls[i].before)
    ensures i < |calls| && x in calls[i].scrubbed
  {
    var rounds := seq(|calls|, i requires 0 <= i < |calls| => RoundOf(calls[i]));
    forall i | 0 < i < |calls|
      ensures rounds[i].cursor == Moved(rounds[i - 1].batch) && rounds[i].pending <= rounds[i - 1].pending
    {
      RoundFollows(calls[i - 1], calls[i]);
    }
    ScrubberReachesAll(rounds, x);
    i :| 0 <= i < |rounds| && x in rounds[i].batch;
  }

  /** From any cursor, with n rows pending at the start, every row that stays pending has been read by
      some call and found intact within 2 * ceiling(n / 32) + 1 calls. */
  lemma ScrubberValidatesAll(calls: seq<Call>, x: JobId)
    requires Successive(calls) && calls != [] && |calls| >= 2 * ((|PendingIds(calls[0].before)| + 31) / 32) + 1
    requires forall i :: 0 <= i < |calls| ==> x in PendingIds(calls[i].before) && x in PendingIds(calls[i].after)
    ensures exists i :: 0 <= i < |calls| && x in calls[i].scrubbed && calls[i].after[x].intact
  {
    forall i | 0 <= i < |calls| ensures IsRound(calls[i]) { CallIsRound(calls[i]); }
    var i := SomeRoundReads(calls, x);
    CallValidates(calls[i], x);
  }
}
