/** One cycle of a discovery worker: lease a job, get its bytes into quarantine, tell the verdict
    store, settle the job.  And what a settled job means after any run of workers, stores and crashes. */
module Consumer {
  import opened History
  import opened PersistedState
  import opened VerdictTables
  import opened VerdictStore
  import opened ArtifactStore
  import J = DiscoveryQueue

  /** The release a job's candidate resolves to, or none when its link is malformed.  The time of
      discovery is filled in later. */
  type Resolver = J.JobId -> Option<Release>

  /** Fetching and verifying the bytes: their size, a refusal that repeating cannot mend, or anything
      else that went wrong. */
  datatype Fetch = Verified(size: nat) | Rejected | Interrupted

  datatype Clock = Clock(claiming: Time, discoveredAt: Time, storing: Env, settling: Time)

  datatype Settings = Settings(retryDelay: nat, maxAttempts: nat)

  datatype Status = Idle | Completed | Failed | Retried | Escaped

  /** How a cycle goes on after the attempt to hand the artifact over. */
  datatype Ending = Succeed | Fail | TryAgain

  function Found(release: Release, size: nat, discoveredAt: Time): Discovery {
    Discovery(release.sha256, size, discoveredAt, release.(discoveredAt := discoveredAt))
  }

  /** The database after the attempt, and how the cycle goes on. */
  function Attempt(db: Db, resolve: Resolver, clock: Clock, claim: J.Claim, fetch: Fetch): (Db, Ending) {
    var release := resolve(claim.id);
    if release == None || fetch == Rejected then (db, Fail)
    else if fetch == Interrupted then (db, TryAgain)
    else
      match Discover(db, clock.storing, Found(release.value, fetch.size, clock.discoveredAt))
      case Done(after, _) => (after, Succeed)
      case Refused(error) => (db, if error == InvalidInput || error == Conflict then Fail else TryAgain)
  }

  /** The job after the attempt; nothing happens to it when the lease has been lost meanwhile. */
  function Settle(jobs: J.Jobs, s: Settings, now: Time, claim: J.Claim, ending: Ending): (J.Jobs, Status) {
    if !J.Holds(jobs, claim, now) then (jobs, Escaped)
    else
      var job := jobs[claim.id];
      match ending
      case Succeed => (jobs[claim.id := J.Settled(job, J.Completed, job.availableAt)], Completed)
      case Fail => (jobs[claim.id := J.Settled(job, J.Failed, job.availableAt)], Failed)
      case TryAgain =>
        if claim.attempts >= s.maxAttempts
        then (jobs[claim.id := J.Settled(job, J.Failed, now + s.retryDelay)], Failed)
        else (jobs[claim.id := J.Settled(job, J.Pending, now + s.retryDelay)], Retried)
  }

  datatype Backend = Backend(jobs: J.Jobs, cursor: Option<J.JobId>, db: Db)

  /** What a cycle does once a job has been leased, or none was ready. */
  function Served(w: Backend, s: Settings, clock: Clock, resolve: Resolver, claim: Option<J.Claim>, fetch: Fetch)
    : (Backend, Status)
  {
    if claim == None then (w, Idle)
    else
      var (db, ending) := Attempt(w.db, resolve, clock, claim.value, fetch);
      var (jobs, status) := Settle(w.jobs, s, clock.settling, claim.value, ending);
      (Backend(jobs, w.cursor, db), status)
  }

  /** A whole cycle: claim_next as the queue specifies it, then the rest. */
  ghost predicate Cycled(before: Backend, s: Settings, clock: Clock, lease: J.Lease, resolve: Resolver,
                         fetch: J.Claim -> Fetch, after: Backend, status: Status)
  {
    if !J.WorkerAccepted(lease.owner) || lease.expiresAt <= clock.claiming then after == before && status == Escaped
    else
      exists scrubbed, rows, jobs, cursor, claim: Option<J.Claim> ::
        J.Claims(before.jobs, before.cursor, clock.claiming, lease, scrubbed, rows, jobs, cursor, claim)
        && (after, status) == Served(Backend(jobs, cursor, before.db), s, clock, resolve, claim,
                                     if claim.Some? then fetch(claim.value) else Interrupted)
  }

  method RunOnce(queue: J.Queue, store: Store, s: Settings, clock: Clock, lease: J.Lease, resolve: Resolver,
                 fetch: J.Claim -> Fetch) returns (status: Status)
    requires s.maxAttempts > 0
    modifies queue, store
    ensures Cycled(Backend(old(queue.jobs), old(queue.cursor), old(store.State())), s, clock, lease, resolve, fetch,
                   Backend(queue.jobs, queue.cursor, store.State()), status)
  {
    ghost var start := Backend(queue.jobs, queue.cursor, store.State());
    var claimed, scrubbed, rows := queue.ClaimNext(clock.claiming, lease);
    if claimed.Err? { return Escaped; }
    ghost var leased := Backend(queue.jobs, queue.cursor, start.db);
    if claimed.value == None {
      assert (leased, Idle) == Served(leased, s, clock, resolve, claimed.value, Interrupted);
      return Idle;
    }
    var claim := claimed.value.value;
    var fetched := fetch(claim);
    var ending := Deliver(store, clock, resolve, claim, fetched);
    status := Finish(queue, s, clock.settling, claim, ending);
    assert (Backend(queue.jobs, queue.cursor, store.State()), status)
        == Served(leased, s, clock, resolve, claimed.value, fetched);
  }

  /** Resolve, verify, tell the store; exceptions decide how the cycle goes on. */
  method Deliver(store: Store, clock: Clock, resolve: Resolver, claim: J.Claim, fetch: Fetch) returns (ending: Ending)
    modifies store
    ensures (store.State(), ending) == Attempt(old(store.State()), resolve, clock, claim, fetch)
  {
    var release := resolve(claim.id);
    if release == None || fetch == Rejected { return Fail; }
    if fetch == Interrupted { return TryAgain; }
    var r := store.DiscoverArtifact(clock.storing, Found(release.value, fetch.size, clock.discoveredAt));
    if r.Ok? { return Succeed; }
    return if r.error == InvalidInput || r.error == Conflict then Fail else TryAgain;
  }

  method Finish(queue: J.Queue, s: Settings, now: Time, claim: J.Claim, ending: Ending) returns (status: Status)
    requires s.maxAttempts > 0
    modifies queue
    ensures (queue.jobs, status) == Settle(old(queue.jobs), s, now, claim, ending) && queue.cursor == old(queue.cursor)
  {
    var r;
    if ending == TryAgain {
      r := queue.Retry(claim, s.retryDelay, s.maxAttempts, now);
    } else {
      r := queue.Finish(claim, if ending == Succeed then J.Completed else J.Failed, now);
    }
    if r.Err? { return Escaped; }
    return match ending
           case Succeed => Completed
           case Fail => Failed
           case TryAgain => if claim.attempts >= s.maxAttempts then Failed else Retried;
  }
}
