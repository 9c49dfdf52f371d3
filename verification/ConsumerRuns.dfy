/** Discovery jobs over whole runs: a completed job's release is in the verdict store, a finished job
    stays finished, and a job that runs twice is discovered once. */
module ConsumerRuns {
  import opened History
  import opened PersistedState
  import opened VerdictTables
  import opened VerdictStore
  import opened VerdictInvariants
  import opened VerdictRuns
  import opened Consumer
  import J = DiscoveryQueue
  import P = QueueProgress
  import E = StoreEffects

  // ----- a job that runs again -----

  ghost predicate MappedAt(db: Db, release: Release, i: int) {
    0 <= i < |db.releases| && SameRelease(db.releases[i], release) && db.releases[i].originUrl == release.originUrl
  }

  /** The store has the artifact and its release mapping. */
  ghost predicate Mapped(db: Db, release: Release) {
    release.sha256 in db.artifacts && exists i :: MappedAt(db, release, i)
  }

  lemma DiscoveredIsMapped(db: Db, env: Env, x: Discovery)
    requires Discover(db, env, x).Done?
    ensures Mapped(Discover(db, env, x).db, x.release)
    ensures Discover(db, env, x).db.artifacts[x.sha256].size == x.size
  {
    var after := Discover(db, env, x).db;
    DiscoverStores(db, env, x);
    assert MappedAt(after, x.release, FindRelease(after.releases, x.release).value);
  }

  lemma MappedGrows(before: Db, after: Db, release: Release)
    requires Mapped(before, release) && Grows(before, after)
    ensures Mapped(after, release)
    ensures after.artifacts[release.sha256].size == before.artifacts[release.sha256].size
  {
    var i :| MappedAt(before, release, i);
    assert MappedAt(after, release, i);
  }

  lemma MappedIsKnown(db: Db, x: Discovery)
    requires DistinctReleases(db.releases) && Mapped(db, x.release) && x.sha256 == x.release.sha256
    requires db.artifacts[x.sha256].size == x.size
    ensures Known(db, x)
  {
    var i :| MappedAt(db, x.release, i);
    var found := FindRelease(db.releases, x.release);
    assert found.Some?;
    assert SameRelease(db.releases[i], db.releases[found.value]);
  }

  /** A cycle that told the store but lost its lease before settling its job adds nothing when the job
      runs again, however late and whatever the store has done since. */
  lemma LostLeaseIsHarmless(db: Db, env: Env, x: Discovery, later: Db, laterEnv: Env, again: Discovery)
    requires Discover(db, env, x).Done? && Inv(later) && Grows(Discover(db, env, x).db, later) && SameFind(x, again)
    ensures Discover(later, laterEnv, again) == Done(later, ())
  {
    var after := Discover(db, env, x).db;
    DiscoveredIsMapped(db, env, x);
    MappedGrows(after, later, x.release);
    var i :| MappedAt(later, x.release, i);
    assert MappedAt(later, again.release, i);
    MappedIsKnown(later, again);
    KnownIsSilent(later, laterEnv, again);
  }

  // ----- what a cycle makes of its job -----

  /** The link resolves, the bytes are there, and the store has nothing against the release. */
  ghost predicate Acceptable(w: Backend, clock: Clock, resolve: Resolver, claim: J.Claim, fetch: Fetch) {
    && resolve(claim.id).Some? && fetch.Verified?
    && var release := resolve(claim.id).value.(discoveredAt := clock.discoveredAt);
    var x := Discovery(release.sha256, fetch.size, clock.discoveredAt, release);
    E.DiscoveryFormed(x) && E.DiscoveryFits(w.db, x)
  }

  /** No repetition can help: a malformed link, a refusal by the quarantine, or a release the store
      will not have. */
  ghost predicate Hopeless(w: Backend, clock: Clock, resolve: Resolver, claim: J.Claim, fetch: Fetch) {
    resolve(claim.id) == None || fetch == Rejected || (fetch.Verified? && !Acceptable(w, clock, resolve, claim, fetch))
  }

  /** The store can take the release now: it knows it already, or can log it. */
  ghost predicate Ready(w: Backend, clock: Clock, resolve: Resolver, claim: J.Claim)
    requires resolve(claim.id).Some?
  {
    E.Mapped(w.db, resolve(claim.id).value) || clock.storing.auditUp
  }

  lemma AttemptExactly(w: Backend, clock: Clock, resolve: Resolver, claim: J.Claim, fetch: Fetch)
    requires Inv(w.db)
    ensures var (after, ending) := Attempt(w.db, resolve, clock, claim, fetch);
            && (ending == Succeed <==> Acceptable(w, clock, resolve, claim, fetch) && Ready(w, clock, resolve, claim))
            && (ending == Fail <==> Hopeless(w, clock, resolve, claim, fetch))
            && (ending != Succeed ==> after == w.db)
  {
    if resolve(claim.id).Some? && fetch.Verified? {
      var release := resolve(claim.id).value;
      var x := Found(release, fetch.size, clock.discoveredAt);
      E.DiscoverDone(w.db, clock.storing, x);
      SameMapping(w.db, x.release, release);
    }
  }

  /** What a successful attempt adds: the resolved release as found now, with an artifact of the fetched
      size if there was none; nothing when the release was known. */
  lemma SuccessStores(w: Backend, clock: Clock, resolve: Resolver, claim: J.Claim, fetch: Fetch)
    requires Inv(w.db) && Attempt(w.db, resolve, clock, claim, fetch).1 == Succeed
    ensures resolve(claim.id).Some? && fetch.Verified?
    ensures var (after, _) := Attempt(w.db, resolve, clock, claim, fetch);
            var release := resolve(claim.id).value;
            && release.sha256 in after.artifacts && after.artifacts[release.sha256].size == fetch.size
            && (if E.Mapped(w.db, release) then after == w.db
                else after.releases == w.db.releases + [release.(discoveredAt := clock.discoveredAt)])
  {
    var release := resolve(claim.id).value;
    var x := Found(release, fetch.size, clock.discoveredAt);
    SameMapping(w.db, x.release, release);
    DiscoveredIsMapped(w.db, clock.storing, x);
    E.MappedExactly(w.db, x.release);
    DiscoverTransacts(w.db, clock.storing, x);
  }

  lemma SameMapping(db: Db, a: Release, b: Release)
    requires SameRelease(a, b)
    ensures E.Mapped(db, a) <==> E.Mapped(db, b)
  {
    if E.Mapped(db, a) {
      var i :| 0 <= i < |db.releases| && SameRelease(db.releases[i], a);
      assert SameRelease(db.releases[i], b);
    }
    if E.Mapped(db, b) {
      var i :| 0 <= i < |db.releases| && SameRelease(db.releases[i], b);
      assert SameRelease(db.releases[i], a);
    }
  }

  /** A cycle that keeps its lease completes a job that can be stored, fails one that never can, and has
      any other tried again after the delay unless this was the last attempt: so a store or a source
      that is away for a while loses no job before that. */
  lemma CycleSettles(w: Backend, s: Settings, clock: Clock, resolve: Resolver, claim: J.Claim, fetch: Fetch)
    requires Inv(w.db) && J.Holds(w.jobs, claim, clock.settling)
    ensures var (after, status) := Served(w, s, clock, resolve, Some(claim), fetch);
            var done := Acceptable(w, clock, resolve, claim, fetch) && Ready(w, clock, resolve, claim);
            && claim.id in w.jobs && claim.id in after.jobs
            && var a, b := w.jobs[claim.id], after.jobs[claim.id];
            && b.lease == None && b.attempts == a.attempts && b.createdAt == a.createdAt && b.intact == a.intact
            && after.jobs == w.jobs[claim.id := b]
            && (if done then status == Completed && b.state == J.Completed && b.availableAt == a.availableAt
                else if Hopeless(w, clock, resolve, claim, fetch)
                then status == Failed && b.state == J.Failed && b.availableAt == a.availableAt && after.db == w.db
                else if claim.attempts < s.maxAttempts
                then status == Retried && b.state == J.Pending && b.availableAt == clock.settling + s.retryDelay
                     && after.db == w.db
                else status == Failed && b.state == J.Failed && after.db == w.db)
  {
    AttemptExactly(w, clock, resolve, claim, fetch);
  }

  /** A cycle that lost its lease leaves the job alone. */
  lemma LostLeaseSettlesNothing(w: Backend, s: Settings, clock: Clock, resolve: Resolver, claim: J.Claim, fetch: Fetch)
    requires !J.Holds(w.jobs, claim, clock.settling)
    ensures Served(w, s, clock, resolve, Some(claim), fetch).1 == Escaped
    ensures Served(w, s, clock, resolve, Some(claim), fetch).0.jobs == w.jobs
  {}

  // ----- runs -----

  datatype Act =
    | Offer(items: seq<J.JobId>, now: Time)
    | RecoverJobs(now: Time)
    | Spoil(id: J.JobId)
    | OnStore(env: Env, command: Command)
    | Cycle(s: Settings, clock: Clock, lease: J.Lease, fetch: J.Claim -> Fetch, status: Status)

  /** discover_many, claim recovery, corruption of a row, any transaction of the store, a cycle. */
  ghost predicate Stepped(resolve: Resolver, before: Backend, e: Act, after: Backend) {
    match e
    case Offer(items, now) =>
      after == before
      || after == before.(jobs := J.Queued(before.jobs, items, now))
    case RecoverJobs(now) => after == before.(jobs := J.Recovered(before.jobs, now))
    case Spoil(id) =>
      id in before.jobs && after == before.(jobs := before.jobs[id := before.jobs[id].(intact := false)])
    case OnStore(env, c) => after == before.(db := Next(before.db, env, c))
    case Cycle(s, clock, lease, fetch, status) => Cycled(before, s, clock, lease, resolve, fetch, after, status)
  }

  predicate Finished(job: J.Job) {
    job.state == J.Completed || job.state == J.Failed
  }

  /** No job vanishes, and a finished job stays as it ended. */
  ghost predicate Follows(before: J.Jobs, after: J.Jobs) {
    forall id :: id in before ==> id in after && (Finished(before[id]) ==> after[id].state == before[id].state)
  }

  ghost predicate Backed(w: Backend, resolve: Resolver, id: J.JobId) {
    id in w.jobs && w.jobs[id].state == J.Completed ==> resolve(id).Some? && Mapped(w.db, resolve(id).value)
  }

  ghost predicate Sound(w: Backend, resolve: Resolver) {
    Inv(w.db) && forall id :: Backed(w, resolve, id)
  }

  /** Completed jobs come from before, or are backed by the store now. */
  lemma StillSound(before: Backend, after: Backend, resolve: Resolver)
    requires Sound(before, resolve) && Inv(after.db) && Grows(before.db, after.db)
    requires forall id :: id in after.jobs && after.jobs[id].state == J.Completed ==>
               (id in before.jobs && before.jobs[id].state == J.Completed) || Backed(after, resolve, id)
    ensures Sound(after, resolve)
  {
    forall id ensures Backed(after, resolve, id) {
      if id in before.jobs && before.jobs[id].state == J.Completed {
        assert Backed(before, resolve, id);
        MappedGrows(before.db, after.db, resolve(id).value);
      }
    }
  }

  /** A claim touches pending jobs only. */
  lemma ClaimLeaves(c: P.Call, id: J.JobId)
    requires P.Made(c) && id in c.before && c.before[id].state != J.Pending
    ensures id in c.after && c.after[id] == c.before[id]
  {
    var mid := J.FailCorrupt(c.before, c.scrubbed);
    P.RowsRead(c);
    assert mid[id] == c.before[id];
    P.ServeUntouched(mid, c.rows, 0, None, c.lease, id);
  }

  /** And completes none. */
  lemma {:induction false} ServeCompletesNone(jobs: J.Jobs, rows: seq<J.JobId>, failed: nat, claimed: Option<J.Claim>,
                                              lease: J.Lease, id: J.JobId)
    requires id in jobs && jobs[id].state != J.Completed
    ensures J.Serve(jobs, rows, failed, claimed, lease).0[id].state != J.Completed
    decreases |rows|
  {
    if rows != [] && rows[0] in jobs {
      var first, job := rows[0], jobs[rows[0]];
      if !job.intact {
        ServeCompletesNone(jobs[first := J.FailedJob(job)], rows[1..], failed + 1, claimed, lease, id);
      } else if claimed.Some? {
        ServeCompletesNone(jobs, rows[1..], failed, claimed, lease, id);
      } else {
        ServeCompletesNone(jobs[first := J.ClaimedJob(job, lease)], rows[1..], failed,
                           Some(J.Claim(first, job.attempts + 1, lease)), lease, id);
      }
    }
  }

  /** No job appears or vanishes, none is completed, and a finished one stays as it is. */
  ghost predicate Spared(before: J.Jobs, after: J.Jobs) {
    && after.Keys == before.Keys && Follows(before, after)
    && forall id :: id in before && before[id].state != J.Completed ==> after[id].state != J.Completed
  }

  lemma ClaimCompletesNone(c: P.Call, id: J.JobId)
    requires P.Made(c) && id in c.before && c.before[id].state != J.Completed
    ensures id in c.after && c.after[id].state != J.Completed
  {
    P.ServedFrom(c);
    ServeCompletesNone(J.FailCorrupt(c.before, c.scrubbed), c.rows, 0, None, c.lease, id);
  }

  lemma ClaimKeepsIds(c: P.Call)
    requires P.Made(c)
    ensures c.after.Keys == c.before.Keys
  {
    P.ServedFrom(c);
  }

  lemma ClaimSparesOne(c: P.Call, id: J.JobId)
    requires P.Made(c) && id in c.before
    ensures id in c.after && (Finished(c.before[id]) ==> c.after[id].state == c.before[id].state)
    ensures c.before[id].state != J.Completed ==> c.after[id].state != J.Completed
  {
    if c.before[id].state != J.Pending { ClaimLeaves(c, id); }
    if c.before[id].state != J.Completed { ClaimCompletesNone(c, id); }
  }

  lemma ClaimSpares(c: P.Call)
    requires P.Made(c)
    ensures Spared(c.before, c.after)
  {
    ClaimKeepsIds(c);
    forall id | id in c.before
      ensures id in c.after && (Finished(c.before[id]) ==> c.after[id].state == c.before[id].state)
      ensures c.before[id].state != J.Completed ==> c.after[id].state != J.Completed
    {
      ClaimSparesOne(c, id);
    }
  }

  lemma AttemptBacks(db: Db, resolve: Resolver, clock: Clock, claim: J.Claim, fetch: Fetch)
    requires Inv(db)
    ensures var (after, ending) := Attempt(db, resolve, clock, claim, fetch);
            && Inv(after) && Grows(db, after)
            && (ending == Succeed ==> resolve(claim.id).Some? && Mapped(after, resolve(claim.id).value))
  {
    GrowsReflexive(db);
    var release := resolve(claim.id);
    if release.Some? && fetch.Verified? {
      var x := Found(release.value, fetch.size, clock.discoveredAt);
      StepKeeps(db, clock.storing, DoDiscover(x));
      if Discover(db, clock.storing, x).Done? {
        var after := Discover(db, clock.storing, x).db;
        DiscoveredIsMapped(db, clock.storing, x);
        var i :| MappedAt(after, x.release, i);
        assert MappedAt(after, release.value, i);
      }
    }
  }

  lemma SettleFollows(jobs: J.Jobs, s: Settings, now: Time, claim: J.Claim, ending: Ending)
    ensures var (after, status) := Settle(jobs, s, now, claim, ending);
            && after.Keys == jobs.Keys && Follows(jobs, after)
            && forall id :: id in jobs && after[id].state == J.Completed && jobs[id].state != J.Completed ==>
                              id == claim.id && ending == Succeed
  {}

  lemma ServedKeeps(resolve: Resolver, before: Backend, leased: Backend, s: Settings, clock: Clock,
                    claim: Option<J.Claim>, fetch: Fetch)
    requires Sound(before, resolve) && leased.db == before.db && Spared(before.jobs, leased.jobs)
    ensures var after := Served(leased, s, clock, resolve, claim, fetch).0;
            Sound(after, resolve) && Follows(before.jobs, after.jobs) && Grows(before.db, after.db)
  {
    var after := Served(leased, s, clock, resolve, claim, fetch).0;
    GrowsReflexive(before.db);
    if claim.Some? {
      var ending := Attempt(before.db, resolve, clock, claim.value, fetch).1;
      AttemptBacks(before.db, resolve, clock, claim.value, fetch);
      SettleFollows(leased.jobs, s, clock.settling, claim.value, ending);
    }
    StillSound(before, after, resolve);
  }

  lemma CycleKeeps(resolve: Resolver, before: Backend, s: Settings, clock: Clock, lease: J.Lease,
                   fetch: J.Claim -> Fetch, after: Backend, status: Status)
    requires Sound(before, resolve) && Cycled(before, s, clock, lease, resolve, fetch, after, status)
    ensures Sound(after, resolve) && Follows(before.jobs, after.jobs) && Grows(before.db, after.db)
  {
    GrowsReflexive(before.db);
    if J.WorkerAccepted(lease.owner) && lease.expiresAt > clock.claiming {
      var scrubbed, rows, jobs, cursor, claim: Option<J.Claim> :|
        J.Claims(before.jobs, before.cursor, clock.claiming, lease, scrubbed, rows, jobs, cursor, claim)
        && (after, status) == Served(Backend(jobs, cursor, before.db), s, clock, resolve, claim,
                                     if claim.Some? then fetch(claim.value) else Interrupted);
      ClaimSpares(P.Call(before.jobs, before.cursor, clock.claiming, lease, scrubbed, rows, jobs, cursor, claim));
      ServedKeeps(resolve, before, Backend(jobs, cursor, before.db), s, clock, claim,
                  if claim.Some? then fetch(claim.value) else Interrupted);
    }
  }

  lemma StepKeepsSound(resolve: Resolver, before: Backend, e: Act, after: Backend)
    requires Sound(before, resolve) && Stepped(resolve, before, e, after)
    ensures Sound(after, resolve) && Follows(before.jobs, after.jobs) && Grows(before.db, after.db)
  {
    GrowsReflexive(before.db);
    match e
    case OnStore(env, c) =>
      StepKeeps(before.db, env, c);
      StillSound(before, after, resolve);
    case Cycle(s, clock, lease, fetch, status) =>
      CycleKeeps(resolve, before, s, clock, lease, fetch, after, status);
    case _ => StillSound(before, after, resolve);
  }

  ghost predicate Chained(resolve: Resolver, states: seq<Backend>, acts: seq<Act>) {
    |states| == |acts| + 1 && forall i :: 0 <= i < |acts| ==> Stepped(resolve, states[i], acts[i], states[i + 1])
  }

  const START := Backend(map[], None, EMPTY)

  lemma {:induction false} RunKeeps(resolve: Resolver, states: seq<Backend>, acts: seq<Act>)
    requires Chained(resolve, states, acts) && Sound(states[0], resolve)
    ensures Sound(states[|acts|], resolve) && Follows(states[0].jobs, states[|acts|].jobs)
    ensures Grows(states[0].db, states[|acts|].db)
    decreases |acts|
  {
    if acts == [] {
      GrowsReflexive(states[0].db);
    } else {
      StepKeepsSound(resolve, states[0], acts[0], states[1]);
      assert forall i :: 0 <= i < |acts[1..]| ==> acts[1..][i] == acts[i + 1];
      assert forall i :: 0 <= i < |states[1..]| ==> states[1..][i] == states[i + 1];
      RunKeeps(resolve, states[1..], acts[1..]);
      GrowsTransitive(states[0].db, states[1].db, states[|acts|].db);
    }
  }

  /** After any run from the empty store and queue, a job that is marked completed has its artifact
      and its release mapping in the store, and stays completed in any later run. */
  lemma CompletedIsMapped(resolve: Resolver, states: seq<Backend>, acts: seq<Act>,
                          later: seq<Backend>, laterActs: seq<Act>, id: J.JobId)
    requires Chained(resolve, states, acts) && states[0] == START
    requires Chained(resolve, later, laterActs) && later[0] == states[|acts|]
    requires id in states[|acts|].jobs && states[|acts|].jobs[id].state == J.Completed
    ensures resolve(id).Some? && Mapped(states[|acts|].db, resolve(id).value)
    ensures var last := later[|laterActs|];
            id in last.jobs && last.jobs[id].state == J.Completed && Mapped(last.db, resolve(id).value)
  {
    EmptySound();
    RunKeeps(resolve, states, acts);
    RunKeeps(resolve, later, laterActs);
    assert Backed(states[|acts|], resolve, id);
    assert Backed(later[|laterActs|], resolve, id);
  }
}
