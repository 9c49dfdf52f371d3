/** The leased discovery queue.  A stored row may have been corrupted; `intact` says whether it
    passes the row check, which reads fields no transition of an intact row spoils. */
module DiscoveryQueue {
  import opened History
  import opened Text

  type Time = int
  type JobId = nat  // job ids in text order

  datatype JobState = Pending | Processing | Completed | Failed

  datatype Lease = Lease(owner: string, expiresAt: Time, token: Digest)

  datatype Job = Job(
    intact: bool,
    state: JobState,
    attempts: nat,
    availableAt: Time,
    createdAt: Time,
    lease: Option<Lease>)

  type Jobs = map<JobId, Job>

  // ----- ORDER BY ... LIMIT -----

  type Order = (JobId, JobId) -> bool

  ghost predicate StrictTotal(before: Order) {
    && (forall a {:trigger before(a, a)} :: !before(a, a))
    && (forall a, b {:trigger before(a, b)} :: a != b ==> before(a, b) || before(b, a))
    && (forall a, b, c {:trigger before(a, b), before(b, c)} :: before(a, b) && before(b, c) ==> before(a, c))
  }

  /** The first rows of a set in an order, at most `limit`. */
  ghost predicate FirstRows(rows: seq<JobId>, from: set<JobId>, before: Order, limit: nat) {
    && |rows| <= limit
    && (forall i :: 0 <= i < |rows| ==> rows[i] in from)
    && (forall i, j :: 0 <= i < j < |rows| ==> before(rows[i], rows[j]))
    && (forall x :: x in from && x !in rows ==> |rows| == limit && forall i :: 0 <= i < |rows| ==> before(rows[i], x))
  }

  method SelectFirst(from: set<JobId>, before: Order, limit: nat) returns (rows: seq<JobId>)
    requires StrictTotal(before)
    ensures FirstRows(rows, from, before, limit)
  {
    rows := [];
    var rest := from;
    while rest != {} && |rows| < limit
      invariant |rows| <= limit
      invariant forall i :: 0 <= i < |rows| ==> rows[i] in from && rows[i] !in rest
      invariant forall i, j :: 0 <= i < j < |rows| ==> before(rows[i], rows[j])
      invariant forall x :: x in from <==> x in rows || x in rest
      invariant forall x, i :: x in rest && 0 <= i < |rows| ==> before(rows[i], x)
      decreases |rest|
    {
      var least := Least(rest, before);
      rows := rows + [least];
      rest := rest - {least};
    }
  }

  method Least(from: set<JobId>, before: Order) returns (least: JobId)
    requires StrictTotal(before) && from != {}
    ensures least in from && forall x :: x in from && x != least ==> before(least, x)
  {
    least :| least in from;
    var rest := from - {least};
    while rest != {}
      invariant rest <= from && least in from && least !in rest
      invariant forall x :: x in from - rest && x != least ==> before(least, x)
      decreases |rest|
    {
      var x: JobId :| x in rest;
      if before(x, least) {
        forall y | y in from - rest ensures before(x, y) { assert y == least || before(least, y); }
        least := x;
      }
      rest := rest - {x};
    }
  }

  function ById(): Order {
    (a, b) => a < b
  }

  function ByReadiness(jobs: Jobs): Order {
    (a: JobId, b: JobId) =>
      if a in jobs && b in jobs then
        var x, y := jobs[a], jobs[b];
        x.availableAt < y.availableAt || (x.availableAt == y.availableAt && (
        x.createdAt < y.createdAt || (x.createdAt == y.createdAt && a < b)))
      else a in jobs || (b !in jobs && a < b)
  }

  lemma OrdersTotal(jobs: Jobs)
    ensures StrictTotal(ById()) && StrictTotal(ByReadiness(jobs))
  {}

  predicate WorkerAccepted(owner: string) {
    NonBlank(owner) && '\0' !in owner
  }

  // ----- transitions of one row -----

  function FailedJob(job: Job): Job {
    job.(state := Failed, lease := None)
  }

  function ClaimedJob(job: Job, lease: Lease): Job {
    job.(state := Processing, attempts := job.attempts + 1, lease := Some(lease))
  }

  function PendingIds(jobs: Jobs): set<JobId> {
    set id | id in jobs && jobs[id].state == Pending
  }

  function ReadyIds(jobs: Jobs, now: Time): set<JobId> {
    set id | id in jobs && jobs[id].state == Pending && jobs[id].availableAt <= now
  }

  /** Pending rows the row check refuses. */
  function Corrupt(jobs: Jobs): set<JobId> {
    set id | id in jobs && jobs[id].state == Pending && !jobs[id].intact
  }

  /** The corrupt rows among some pending rows are failed. */
  function FailCorrupt(jobs: Jobs, rows: seq<JobId>): Jobs {
    map id | id in jobs :: if id in rows && id in Corrupt(jobs) then FailedJob(jobs[id]) else jobs[id]
  }

  const MAX_CORRUPT := 32
  const CLAIM_BATCH := 64
  const SCRUB_BATCH := 32

  datatype Claim = Claim(id: JobId, attempts: nat, lease: Lease)

  /** The claim loop: the first intact row is leased, corrupt rows are failed, and the loop stops at
      the thirty-second corrupt one. */
  function Serve(jobs: Jobs, rows: seq<JobId>, failed: nat, claimed: Option<Claim>,
                 lease: Lease): (r: (Jobs, Option<Claim>))
    ensures r.0.Keys == jobs.Keys
    decreases |rows|
  {
    if rows == [] || rows[0] !in jobs then (jobs, claimed)
    else
      var id, job := rows[0], jobs[rows[0]];
      if !job.intact then
        var after := jobs[id := FailedJob(job)];
        if failed + 1 >= MAX_CORRUPT then (after, claimed) else Serve(after, rows[1..], failed + 1, claimed, lease)
      else if claimed.Some? then Serve(jobs, rows[1..], failed, claimed, lease)
      else Serve(jobs[id := ClaimedJob(job, lease)], rows[1..], failed, Some(Claim(id, job.attempts + 1, lease)), lease)
  }

  function AboveCursor(jobs: Jobs, cursor: Option<JobId>): set<JobId> {
    set id | id in PendingIds(jobs) && (cursor == None || id > cursor.value)
  }

  /** A claim_next call: one scrub batch from the cursor, then the claim loop over the first ready rows. */
  ghost predicate Claims(before: Jobs, cursor: Option<JobId>, now: Time, lease: Lease, scrubbed: seq<JobId>,
                         rows: seq<JobId>, after: Jobs, nextCursor: Option<JobId>, result: Option<Claim>)
  {
    && FirstRows(scrubbed, AboveCursor(before, cursor), ById(), SCRUB_BATCH)
    && nextCursor == (if scrubbed == [] then None else Some(scrubbed[|scrubbed| - 1]))
    && var mid := FailCorrupt(before, scrubbed);
    && FirstRows(rows, ReadyIds(mid, now), ByReadiness(mid), CLAIM_BATCH)
    && Serve(mid, rows, 0, None, lease) == (after, result)
  }

  datatype Error = InvalidInput | Unavailable | QueueFull

  datatype Result<T> = Ok(value: T) | Err(error: Error)

  /** The claim is the lease its row holds, and it has not run out. */
  predicate Holds(jobs: Jobs, claim: Claim, now: Time) {
    && now < claim.lease.expiresAt
    && claim.id in jobs && jobs[claim.id].state == Processing && jobs[claim.id].lease == Some(claim.lease)
  }

  function Settled(job: Job, state: JobState, availableAt: Time): Job {
    job.(state := state, lease := None, availableAt := availableAt)
  }

  /** The lease is gone, and how often the job was tried and when it was queued is as before. */
  predicate Released(before: Job, after: Job) {
    after.lease == None && after.attempts == before.attempts && after.createdAt == before.createdAt
    && after.intact == before.intact
  }

  /** A retry: available again after the delay, or failed when the claim was the last attempt. */
  predicate Answered(before: Job, claim: Claim, delay: int, maxAttempts: int, now: Time, after: Job) {
    && Released(before, after) && after.availableAt == now + delay
    && (claim.attempts >= maxAttempts ==> after.state == Failed)
    && (claim.attempts < maxAttempts ==> after.state == Pending)
  }

  /** A processing row is failed when the row check refuses it and queued again when its lease has
      run out. */
  function RecoveredJob(job: Job, now: Time): Job {
    if job.state != Processing then job
    else if !job.intact || job.lease == None then FailedJob(job)
    else if job.lease.value.expiresAt <= now then Settled(job, Pending, now)
    else job
  }

  function Recovered(jobs: Jobs, now: Time): Jobs {
    map id | id in jobs :: RecoveredJob(jobs[id], now)
  }

  function ProcessingIds(jobs: Jobs): set<JobId> {
    set id | id in jobs && jobs[id].state == Processing
  }

  function Differing(before: Jobs, after: Jobs): set<JobId>
    requires before.Keys == after.Keys
  {
    set id | id in before && before[id] != after[id]
  }

  /** Recovery when only some of the rows have been looked at. */
  function RecoveredAmong(jobs: Jobs, ids: set<JobId>, now: Time): Jobs {
    map id | id in jobs :: if id in ids then RecoveredJob(jobs[id], now) else jobs[id]
  }

  lemma DifferingMore(jobs: Jobs, before: Jobs, id: JobId, job: Job)
    requires id in jobs && before.Keys == jobs.Keys && before[id] == jobs[id]
    ensures |Differing(jobs, before[id := job])| == |Differing(jobs, before)| + if job == jobs[id] then 0 else 1
  {
    if job == jobs[id] {
      assert before[id := job] == before;
    } else {
      assert Differing(jobs, before[id := job]) == Differing(jobs, before) + {id};
    }
  }

  lemma RecoverMore(jobs: Jobs, ids: set<JobId>, id: JobId, now: Time)
    requires id in jobs && id !in ids
    ensures var before, after := RecoveredAmong(jobs, ids, now), RecoveredAmong(jobs, ids + {id}, now);
            && before[id] == jobs[id] && after == before[id := RecoveredJob(jobs[id], now)]
            && |Differing(jobs, after)|
               == |Differing(jobs, before)| + if RecoveredJob(jobs[id], now) == jobs[id] then 0 else 1
  {
    var before := RecoveredAmong(jobs, ids, now);
    assert RecoveredAmong(jobs, ids + {id}, now) == before[id := RecoveredJob(jobs[id], now)];
    DifferingMore(jobs, before, id, RecoveredJob(jobs[id], now));
  }

  lemma RecoveredAll(jobs: Jobs, now: Time)
    ensures RecoveredAmong(jobs, ProcessingIds(jobs), now) == Recovered(jobs, now)
    ensures RecoveredAmong(jobs, {}, now) == jobs && Differing(jobs, RecoveredAmong(jobs, {}, now)) == {}
  {}

  function Active(jobs: Jobs): set<JobId> {
    set id | id in jobs && (jobs[id].state == Pending || jobs[id].state == Processing)
  }

  /** The jobs among the candidates that the queue has never seen. */
  function Unseen(jobs: Jobs, items: seq<JobId>): set<JobId> {
    set id | id in items && id !in jobs
  }

  /** Every new candidate queued, every known job as it was. */
  function Queued(jobs: Jobs, items: seq<JobId>, now: Time): Jobs {
    jobs + map id | id in Unseen(jobs, items) :: NewJob(now)
  }

  lemma QueuedNext(jobs: Jobs, items: seq<JobId>, i: nat, now: Time)
    requires i < |items|
    ensures var id, table, next := items[i], Queued(jobs, items[..i], now), Queued(jobs, items[..i + 1], now);
            next == if id in table then table else table[id := NewJob(now)]
    ensures var id, unseen, next := items[i], Unseen(jobs, items[..i]), Unseen(jobs, items[..i + 1]);
            next == if id in jobs || id in unseen then unseen else unseen + {id}
  {
    assert items[..i + 1] == items[..i] + [items[i]];
  }

  lemma QueuedActive(jobs: Jobs, items: seq<JobId>, now: Time)
    ensures |Active(Queued(jobs, items, now))| == |Active(jobs)| + |Unseen(jobs, items)|
  {
    assert Active(Queued(jobs, items, now)) == Active(jobs) + Unseen(jobs, items);
  }

  /** Where the loop stands: room for what is queued so far, and never more to queue than in all. */
  lemma UnseenGrows(jobs: Jobs, items: seq<JobId>, i: nat)
    requires i <= |items|
    ensures |Unseen(jobs, items[..i])| <= |Unseen(jobs, items)|
  {
    SubsetSize(Unseen(jobs, items[..i]), Unseen(jobs, items));
  }

  lemma {:induction false} SubsetSize(a: set<JobId>, b: set<JobId>)
    requires a <= b
    ensures |a| <= |b|
    decreases |a|
  {
    if x: JobId :| x in a { SubsetSize(a - {x}, b - {x}); }
  }

  function NewJob(now: Time): Job {
    Job(true, Pending, 0, now, now, None)
  }

  class Queue {
    var jobs: Jobs
    var cursor: Option<JobId>
    const maxActive: nat

    constructor (maxActive: nat)
      ensures jobs == map[] && cursor == None && this.maxActive == maxActive
    {
      jobs, cursor := map[], None;
      this.maxActive := maxActive;
    }

    /** All of the candidates or none: known jobs are skipped, and the lot is refused exactly when
        there are more new jobs than room. */
    method DiscoverMany(items: seq<JobId>, now: Time) returns (r: Result<()>)
      modifies this
      ensures cursor == old(cursor)
      ensures var unseen := Unseen(old(jobs), items);
              r.Ok? <==> unseen == {} || |Active(old(jobs))| + |unseen| <= maxActive
      ensures jobs == if r.Ok? then Queued(old(jobs), items, now) else old(jobs)
      ensures r.Err? ==> r.error == QueueFull
    {
      var table := jobs;
      var active := |Active(jobs)|;
      for i := 0 to |items|
        invariant jobs == old(jobs) && cursor == old(cursor)
        invariant table == Queued(jobs, items[..i], now)
        invariant active == |Active(jobs)| + |Unseen(jobs, items[..i])|
        invariant Unseen(jobs, items[..i]) == {} || active <= maxActive
      {
        var id := items[i];
        QueuedNext(jobs, items, i, now);
        UnseenGrows(jobs, items, i + 1);
        if id !in table {
          if active >= maxActive { return Err(QueueFull); }
          table := table[id := NewJob(now)];
          active := active + 1;
        }
      }
      assert items[..|items|] == items;
      jobs := table;
      return Ok(());
    }

    method FailRows(batch: seq<JobId>)
      requires forall i :: 0 <= i < |batch| ==> batch[i] in jobs && jobs[batch[i]].state == Pending
      modifies this`jobs
      ensures jobs == FailCorrupt(old(jobs), batch)
    {
      var i := 0;
      while i < |batch|
        invariant 0 <= i <= |batch| && jobs == FailCorrupt(old(jobs), batch[..i])
      {
        assert batch[..i + 1] == batch[..i] + [batch[i]];
        if !jobs[batch[i]].intact { jobs := jobs[batch[i] := FailedJob(jobs[batch[i]])]; }
        i := i + 1;
      }
      assert batch[..i] == batch;
    }

    method Scrub() returns (ghost rows: seq<JobId>)
      modifies this
      ensures FirstRows(rows, AboveCursor(old(jobs), old(cursor)), ById(), SCRUB_BATCH)
      ensures cursor == if rows == [] then None else Some(rows[|rows| - 1])
      ensures jobs == FailCorrupt(old(jobs), rows)
    {
      OrdersTotal(jobs);
      var from := AboveCursor(jobs, cursor);
      var batch := SelectFirst(from, ById(), SCRUB_BATCH);
      rows := batch;
      assert forall i :: 0 <= i < |batch| ==> batch[i] in from;
      FailRows(batch);
      cursor := if batch == [] then None else Some(batch[|batch| - 1]);
    }

    method ServeRows(rows: seq<JobId>, lease: Lease) returns (claimed: Option<Claim>)
      requires forall i :: 0 <= i < |rows| ==> rows[i] in jobs
      modifies this`jobs
      ensures (jobs, claimed) == Serve(old(jobs), rows, 0, None, lease)
    {
      claimed := None;
      var failed := 0;
      var i := 0;
      while i < |rows|
        invariant 0 <= i <= |rows| && jobs.Keys == old(jobs).Keys
        invariant Serve(jobs, rows[i..], failed, claimed, lease) == Serve(old(jobs), rows, 0, None, lease)
      {
        var id, job := rows[i], jobs[rows[i]];
        assert rows[i..][1..] == rows[i + 1..];
        if !job.intact {
          jobs := jobs[id := FailedJob(job)];
          failed := failed + 1;
          if failed >= MAX_CORRUPT { return; }
        } else if claimed == None {
          jobs := jobs[id := ClaimedJob(job, lease)];
          claimed := Some(Claim(id, job.attempts + 1, lease));
        }
        i := i + 1;
      }
    }

    method ServeReady(now: Time, lease: Lease) returns (claimed: Option<Claim>, ghost ready: seq<JobId>)
      modifies this`jobs
      ensures FirstRows(ready, ReadyIds(old(jobs), now), ByReadiness(old(jobs)), CLAIM_BATCH)
      ensures Serve(old(jobs), ready, 0, None, lease) == (jobs, claimed)
    {
      OrdersTotal(jobs);
      var from := ReadyIds(jobs, now);
      var rows := SelectFirst(from, ByReadiness(jobs), CLAIM_BATCH);
      assert forall i :: 0 <= i < |rows| ==> rows[i] in from;
      ready := rows;
      claimed := ServeRows(rows, lease);
    }

    method ClaimNext(now: Time, lease: Lease)
      returns (r: Result<Option<Claim>>, ghost scrubbed: seq<JobId>, ghost ready: seq<JobId>)
      modifies this
      ensures r.Err? <==> !WorkerAccepted(lease.owner) || lease.expiresAt <= now
      ensures r.Err? ==> r.error == InvalidInput && jobs == old(jobs) && cursor == old(cursor)
      ensures r.Ok? ==> Claims(old(jobs), old(cursor), now, lease, scrubbed, ready, jobs, cursor, r.value)
    {
      scrubbed, ready := [], [];
      if !WorkerAccepted(lease.owner) || lease.expiresAt <= now { return Err(InvalidInput), [], []; }
      scrubbed := Scrub();
      var claimed;
      claimed, ready := ServeReady(now, lease);
      return Ok(claimed), scrubbed, ready;
    }

    method RecoverExpiredClaims(now: Time) returns (changed: nat)
      modifies this`jobs
      ensures jobs == Recovered(old(jobs), now)
      ensures changed == |Differing(old(jobs), jobs)|
    {
      var rest := ProcessingIds(jobs);
      ghost var start, done: set<JobId> := jobs, {};
      RecoveredAll(jobs, now);
      changed := 0;
      while rest != {}
        invariant rest + done == ProcessingIds(start) && rest !! done
        invariant jobs == RecoveredAmong(start, done, now)
        invariant changed == |Differing(start, RecoveredAmong(start, done, now))|
        decreases |rest|
      {
        var id: JobId :| id in rest;
        RecoverMore(start, done, id, now);
        done := done + {id};
        rest := rest - {id};
        var counted := RecoverRow(id, now);
        changed := changed + counted;
      }
    }

    /** One row of the recovery loop, and whether it counts as changed. */
    method RecoverRow(id: JobId, now: Time) returns (counted: nat)
      requires id in jobs
      modifies this`jobs
      ensures jobs == old(jobs)[id := RecoveredJob(old(jobs)[id], now)]
      ensures counted == if RecoveredJob(old(jobs)[id], now) == old(jobs)[id] then 0 else 1
    {
      var job := RecoveredJob(jobs[id], now);
      counted := if job == jobs[id] then 0 else 1;
      jobs := jobs[id := job];
    }

    /** complete() and fail(): only the lease holder, only in time. */
    method Finish(claim: Claim, state: JobState, now: Time) returns (r: Result<()>)
      requires state == Completed || state == Failed
      modifies this`jobs
      ensures r.Ok? <==> Holds(old(jobs), claim, now)
      ensures jobs == if r.Ok?
                      then old(jobs)[claim.id := Settled(old(jobs)[claim.id], state, old(jobs)[claim.id].availableAt)]
                      else old(jobs)
      ensures r.Ok? ==> claim.id in old(jobs) && claim.id in jobs && Released(old(jobs)[claim.id], jobs[claim.id])
                        && jobs[claim.id].state == state
                        && jobs[claim.id].availableAt == old(jobs)[claim.id].availableAt
    {
      if !Holds(jobs, claim, now) { return Err(Unavailable); }
      jobs := jobs[claim.id := Settled(jobs[claim.id], state, jobs[claim.id].availableAt)];
      return Ok(());
    }

    /** Back to the queue after a delay, or failed once the attempts are used up. */
    method Retry(claim: Claim, delay: int, maxAttempts: int, now: Time) returns (r: Result<()>)
      modifies this`jobs
      ensures delay < 0 || maxAttempts <= 0 ==> r == Err(InvalidInput)
      ensures 0 <= delay && 0 < maxAttempts ==> (r.Ok? <==> Holds(old(jobs), claim, now))
      ensures jobs == if r.Err? then old(jobs)
                      else old(jobs)[claim.id := Settled(old(jobs)[claim.id],
                                       if claim.attempts >= maxAttempts then Failed else Pending, now + delay)]
      ensures r.Ok? ==> claim.id in old(jobs) && claim.id in jobs
                        && Answered(old(jobs)[claim.id], claim, delay, maxAttempts, now, jobs[claim.id])
    {
      if delay < 0 || maxAttempts <= 0 { return Err(InvalidInput); }
      if !Holds(jobs, claim, now) { return Err(Unavailable); }
      var state := if claim.attempts >= maxAttempts then Failed else Pending;
      jobs := jobs[claim.id := Settled(jobs[claim.id], state, now + delay)];
      return Ok(());
    }
  }
}
