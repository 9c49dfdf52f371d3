/** What the operations of the discovery queue do to each row, column by column, and how often a job
    is tried. */
module QueueEffects {
  import opened History
  import opened DiscoveryQueue
  import opened QueueProgress
  import StateRules

  // ----- claim_next -----

  /** A pending row becomes a lease: one more attempt, nothing else but the lease changes. */
  predicate Leased(before: Job, after: Job, claim: Claim, lease: Lease) {
    && before.state == Pending && before.intact && after.intact
    && after.state == Processing && after.lease == Some(lease) && claim.lease == lease
    && after.attempts == before.attempts + 1 == claim.attempts
    && after.availableAt == before.availableAt && after.createdAt == before.createdAt
  }

  /** A pending row the row check refuses becomes a failed one. */
  predicate Rejected(before: Job, after: Job) {
    && before.state == Pending && !before.intact && !after.intact
    && after.state == Failed && after.lease == None
    && after.attempts == before.attempts
    && after.availableAt == before.availableAt && after.createdAt == before.createdAt
  }

  /** Every row but the claimed one is as it was, or corrupt and failed now. */
  ghost predicate OthersOnlyRejected(before: Jobs, after: Jobs, claimed: Option<Claim>) {
    && after.Keys == before.Keys
    && forall id :: id in before && (claimed == None || id != claimed.value.id) ==>
         after[id] == before[id] || Rejected(before[id], after[id])
  }

  lemma ScrubRejects(jobs: Jobs, rows: seq<JobId>)
    ensures OthersOnlyRejected(jobs, FailCorrupt(jobs, rows), None)
    ensures forall id :: id in rows && id in jobs && jobs[id].state == Pending && !jobs[id].intact ==>
              Rejected(jobs[id], FailCorrupt(jobs, rows)[id])
  {}

  lemma {:induction false} ServeRejects(jobs: Jobs, rows: seq<JobId>, failed: nat, claimed: Option<Claim>, lease: Lease)
    requires Distinct(rows) && AllPending(jobs, rows)
    ensures var (after, c) := Serve(jobs, rows, failed, claimed, lease);
            (claimed.Some? ==> c == claimed) && OthersOnlyRejected(jobs, after, c)
    decreases |rows|
  {
    if rows != [] {
      var id, job := rows[0], jobs[rows[0]];
      if !job.intact {
        var next := jobs[id := FailedJob(job)];
        TailRows(jobs, next, rows);
        if failed + 1 < MAX_CORRUPT {
          ServeRejects(next, rows[1..], failed + 1, claimed, lease);
          assert forall i :: 0 < i < |rows| ==> rows[1..][i - 1] == rows[i] != id;
          ServeUntouched(next, rows[1..], failed + 1, claimed, lease, id);
        }
      } else if claimed.Some? {
        TailRows(jobs, jobs, rows);
        ServeRejects(jobs, rows[1..], failed, claimed, lease);
      } else {
        var next, c := jobs[id := ClaimedJob(job, lease)], Claim(id, job.attempts + 1, lease);
        TailRows(jobs, next, rows);
        ServeRejects(next, rows[1..], failed, Some(c), lease);
      }
    }
  }

  lemma RejectedTwice(a: Jobs, b: Jobs, c: Jobs, claimed: Option<Claim>)
    requires OthersOnlyRejected(a, b, None) && OthersOnlyRejected(b, c, claimed)
    ensures OthersOnlyRejected(a, c, claimed)
  {
    forall id | id in a && (claimed == None || id != claimed.value.id)
      ensures c[id] == a[id] || Rejected(a[id], c[id])
    {
      assert b[id] == a[id] || Rejected(a[id], b[id]);
      assert c[id] == b[id] || Rejected(b[id], c[id]);
    }
  }

  /** The claim is of the first intact row among those read, and none before it was intact. */
  lemma {:induction false} ServesFirst(jobs: Jobs, rows: seq<JobId>, failed: nat, lease: Lease) returns (k: nat)
    requires Distinct(rows) && AllPending(jobs, rows) && Serve(jobs, rows, failed, None, lease).1.Some?
    ensures var (after, c) := Serve(jobs, rows, failed, None, lease);
            && k < |rows| && c.value == Claim(rows[k], jobs[rows[k]].attempts + 1, lease)
            && jobs[rows[k]].intact && after[rows[k]] == ClaimedJob(jobs[rows[k]], lease)
            && forall i :: 0 <= i < k ==> !jobs[rows[i]].intact
    decreases |rows|
  {
    var id, job := rows[0], jobs[rows[0]];
    assert forall i :: 0 < i < |rows| ==> rows[1..][i - 1] == rows[i] != id;
    if job.intact {
      k := 0;
      var c := Claim(id, job.attempts + 1, lease);
      ClaimKept(jobs[id := ClaimedJob(job, lease)], rows[1..], failed, c, lease);
      ServeUntouched(jobs[id := ClaimedJob(job, lease)], rows[1..], failed, Some(c), lease, id);
    } else {
      var next := jobs[id := FailedJob(job)];
      TailRows(jobs, next, rows);
      var rest := ServesFirst(next, rows[1..], failed + 1, lease);
      k := rest + 1;
    }
  }

  /** Available earlier, or queued earlier, or of the lesser id. */
  predicate Sooner(a: JobId, x: Job, b: JobId, y: Job) {
    || x.availableAt < y.availableAt
    || (x.availableAt == y.availableAt && x.createdAt < y.createdAt)
    || (x.availableAt == y.availableAt && x.createdAt == y.createdAt && a < b)
  }

  ghost predicate Waiting(jobs: Jobs, id: JobId, now: Time) {
    id in jobs && jobs[id].state == Pending && jobs[id].intact && jobs[id].availableAt <= now
  }

  lemma LoopClaims(mid: Jobs, now: Time, rows: seq<JobId>, lease: Lease, x: JobId)
    requires Distinct(rows) && AllPending(mid, rows) && Serve(mid, rows, 0, None, lease).1.Some?
    requires FirstRows(rows, ReadyIds(mid, now), ByReadiness(mid), CLAIM_BATCH)
    ensures var (after, c) := Serve(mid, rows, 0, None, lease);
            var id := c.value.id;
            && Waiting(mid, id, now) && id in after && Leased(mid[id], after[id], c.value, lease)
            && (x != id && Waiting(mid, x, now) ==> Sooner(id, mid[id], x, mid[x]))
  {
    var k := ServesFirst(mid, rows, 0, lease);
    assert rows[k] in ReadyIds(mid, now);
    if x != rows[k] && Waiting(mid, x, now) {
      assert x in ReadyIds(mid, now);
      if x in rows {
        var j :| 0 <= j < |rows| && rows[j] == x;
        assert k < j;
        assert ByReadiness(mid)(rows[k], rows[j]);
      } else {
        assert ByReadiness(mid)(rows[k], x);
      }
    }
  }

  lemma WaitsBefore(jobs: Jobs, rows: seq<JobId>, x: JobId, now: Time)
    ensures Waiting(FailCorrupt(jobs, rows), x, now) <==> Waiting(jobs, x, now)
    ensures Waiting(jobs, x, now) ==> FailCorrupt(jobs, rows)[x] == jobs[x]
  {}

  lemma CallRejects(c: Call)
    requires Made(c)
    ensures var mid := FailCorrupt(c.before, c.scrubbed);
            OthersOnlyRejected(c.before, mid, None) && OthersOnlyRejected(mid, c.after, c.result)
    ensures OthersOnlyRejected(c.before, c.after, c.result)
  {
    var mid := FailCorrupt(c.before, c.scrubbed);
    ScrubRejects(c.before, c.scrubbed);
    RowsRead(c);
    ServeRejects(mid, c.rows, 0, None, c.lease);
    RejectedTwice(c.before, mid, c.after, c.result);
  }

  lemma CallClaims(c: Call, x: JobId)
    requires Made(c) && c.result.Some?
    ensures var mid, id := FailCorrupt(c.before, c.scrubbed), c.result.value.id;
            && Waiting(mid, id, c.now) && id in c.after && Leased(mid[id], c.after[id], c.result.value, c.lease)
            && (x != id && Waiting(mid, x, c.now) ==> Sooner(id, mid[id], x, mid[x]))
  {
    RowsRead(c);
    LoopClaims(FailCorrupt(c.before, c.scrubbed), c.now, c.rows, c.lease, x);
  }

  /** A claim_next call leases the first of all waiting jobs, counting the attempt; every other row is
      as it was, or was corrupt and is failed now. */
  lemma ClaimExactly(c: Call, x: JobId)
    requires Made(c)
    ensures OthersOnlyRejected(c.before, c.after, c.result)
    ensures c.result.Some? ==>
              var id := c.result.value.id;
              && Waiting(c.before, id, c.now) && id in c.after
              && Leased(c.before[id], c.after[id], c.result.value, c.lease)
              && (x != id && Waiting(c.before, x, c.now) ==> Sooner(id, c.before[id], x, c.before[x]))
  {
    CallRejects(c);
    if c.result.Some? {
      CallClaims(c, x);
      WaitsBefore(c.before, c.scrubbed, x, c.now);
      WaitsBefore(c.before, c.scrubbed, c.result.value.id, c.now);
    }
  }

  lemma ScrubbedRow(before: Jobs, cursor: Option<JobId>, rows: seq<JobId>, x: JobId)
    requires FirstRows(rows, AboveCursor(before, cursor), ById(), SCRUB_BATCH) && x in rows
    ensures x in before && before[x].state == Pending && (cursor == None || cursor.value < x)
    ensures !before[x].intact ==> Rejected(before[x], FailCorrupt(before, rows)[x])
  {
    assert x in AboveCursor(before, cursor);
  }

  lemma CallReads(c: Call)
    requires Made(c)
    ensures FirstRows(c.scrubbed, AboveCursor(c.before, c.start), ById(), SCRUB_BATCH)
    ensures |c.scrubbed| <= 32 && |c.rows| <= 64
  {}

  lemma RejectedStays(before: Jobs, mid: Jobs, after: Jobs, claimed: Option<Claim>, x: JobId)
    requires x in before && x in mid && Rejected(before[x], mid[x]) && OthersOnlyRejected(mid, after, claimed)
    requires claimed.Some? ==> claimed.value.id in mid && mid[claimed.value.id].state == Pending
    ensures x in after && Rejected(before[x], after[x])
  {}

  lemma ScrubbedIsRejected(c: Call, x: JobId)
    requires Made(c) && x in c.scrubbed && x in c.before && Rejected(c.before[x], FailCorrupt(c.before, c.scrubbed)[x])
    ensures x in c.after && Rejected(c.before[x], c.after[x])
  {
    var mid := FailCorrupt(c.before, c.scrubbed);
    CallRejects(c);
    if c.result.Some? { CallClaims(c, x); }
    RejectedStays(c.before, mid, c.after, c.result, x);
  }

  /** It reads at most thirty-two rows to check them and at most sixty-four to claim one, and each
      corrupt row it read to check is failed. */
  lemma ClaimReads(c: Call, x: JobId)
    requires Made(c)
    ensures |c.scrubbed| <= 32 && |c.rows| <= 64
    ensures x in c.scrubbed ==>
              && x in c.before && c.before[x].state == Pending && (c.start == None || c.start.value < x)
              && (!c.before[x].intact ==> x in c.after && Rejected(c.before[x], c.after[x]))
  {
    CallReads(c);
    if x in c.scrubbed {
      ScrubbedRow(c.before, c.start, c.scrubbed, x);
      if !c.before[x].intact { ScrubbedIsRejected(c, x); }
    }
  }

  // ----- recovery -----

  /** A processing row that is corrupt fails, one whose lease has run out is available again at once,
      and no other row changes. */
  lemma RecoveredExactly(jobs: Jobs, now: Time, id: JobId)
    requires id in jobs
    ensures Recovered(jobs, now).Keys == jobs.Keys
    ensures var a, b := jobs[id], Recovered(jobs, now)[id];
            if a.state == Processing && (!a.intact || a.lease == None)
            then b.state == Failed && DiscoveryQueue.Released(a, b) && b.availableAt == a.availableAt
            else if a.state == Processing && a.lease.value.expiresAt <= now
            then b.state == Pending && DiscoveryQueue.Released(a, b) && b.availableAt == now
            else b == a
  {}

  /** A job never seen is pending, available at once and untried; a known one is as it was. */
  lemma QueuedExactly(jobs: Jobs, items: seq<JobId>, now: Time, id: JobId)
    ensures var after := Queued(jobs, items, now);
            && (id in after <==> id in jobs || id in items)
            && (id in jobs ==> after[id] == jobs[id])
            && (id in items && id !in jobs ==>
                  var job := after[id];
                  && job.intact && job.state == Pending && job.attempts == 0 && job.lease == None
                  && job.availableAt == job.createdAt == now)
  {}

  /** Jobs that count against the capacity: all that are not finished. */
  lemma ActiveExactly(jobs: Jobs, id: JobId)
    ensures id in Active(jobs) <==> id in jobs && jobs[id].state != Completed && jobs[id].state != Failed
  {}

  /** What discovery queues never takes the queue over its capacity. */
  lemma CapacityHolds(jobs: Jobs, items: seq<JobId>, now: Time, maxActive: nat)
    requires Unseen(jobs, items) == {} || |Active(jobs)| + |Unseen(jobs, items)| <= maxActive
    ensures |Active(Queued(jobs, items, now))| <= maxActive || Queued(jobs, items, now) == jobs
  {
    QueuedActive(jobs, items, now);
  }

  /** A worker is named by some text that is not blank and has no NUL. */
  lemma OwnerExactly(owner: string)
    ensures WorkerAccepted(owner) <==> !StateRules.Blank(owner) && '\0' !in owner
  {
    StateRules.BlankExactly(owner);
  }

  /** A claim can be answered exactly while its row holds that very lease. */
  lemma HoldsExactly(jobs: Jobs, claim: Claim, now: Time)
    ensures Holds(jobs, claim, now) <==>
              && claim.id in jobs && jobs[claim.id].state == Processing
              && jobs[claim.id].lease.Some?
              && jobs[claim.id].lease.value.owner == claim.lease.owner
              && jobs[claim.id].lease.value.token == claim.lease.token
              && jobs[claim.id].lease.value.expiresAt == claim.lease.expiresAt && now < claim.lease.expiresAt
  {}

  // ----- how often a job is tried -----

  /** One attempt at a job: the call that claims it, and the retry that answers the claim. */
  datatype Attempt = Attempt(call: Call, delay: int, now: Time, answered: Job)

  ghost predicate Tried(a: Attempt, id: JobId, maxAttempts: int) {
    && Made(a.call) && a.call.result.Some? && a.call.result.value.id == id
    && id in a.call.before && id in a.call.after
    && Answered(a.call.after[id], a.call.result.value, a.delay, maxAttempts, a.now, a.answered)
  }

  /** Attempts at one job, from its discovery on; whatever else happens, its row is only changed by
      them. */
  ghost predicate Attempts(attempts: seq<Attempt>, id: JobId, maxAttempts: int, found: Time) {
    && (forall i :: 0 <= i < |attempts| ==> Tried(attempts[i], id, maxAttempts))
    && (attempts != [] ==> attempts[0].call.before[id] == NewJob(found))
    && forall i :: 0 < i < |attempts| ==> attempts[i].call.before[id] == attempts[i - 1].answered
  }

  lemma OneAttempt(a: Attempt, id: JobId, maxAttempts: int)
    requires Tried(a, id, maxAttempts)
    ensures a.call.before[id].state == Pending && a.call.before[id].availableAt <= a.call.now
    ensures a.call.result.value.attempts == a.call.before[id].attempts + 1 == a.answered.attempts
    ensures a.answered.availableAt == a.now + a.delay && a.answered.lease == None
    ensures a.answered.state == if a.answered.attempts >= maxAttempts then Failed else Pending
  {
    ClaimExactly(a.call, id);
  }

  /** Every claim counts: the k-th answer finds k attempts, fails the job when k is the maximum, and
      otherwise has it available again after the delay; so there is no claim after the last. */
  lemma {:induction false} TriedExactly(attempts: seq<Attempt>, id: JobId, maxAttempts: int, found: Time, k: nat)
    requires Attempts(attempts, id, maxAttempts, found) && k < |attempts| && maxAttempts > 0
    ensures attempts[k].call.result.value.attempts == k + 1 == attempts[k].answered.attempts
    ensures attempts[k].answered.availableAt == attempts[k].now + attempts[k].delay
    ensures attempts[k].answered.state == if k + 1 >= maxAttempts then Failed else Pending
    ensures k < maxAttempts
    decreases k
  {
    OneAttempt(attempts[k], id, maxAttempts);
    if k > 0 { TriedExactly(attempts, id, maxAttempts, found, k - 1); }
  }
}
