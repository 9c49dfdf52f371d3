/** A discovery job for good bytes: the cycle that takes it can lose it for good when its verification
    is beaten by another reader's recovery. */
module ConsumerRace {
  import opened History
  import opened PersistedState
  import opened VerdictStore
  import opened VerdictRuns
  import opened Consumer
  import opened ConsumerRuns
  import J = DiscoveryQueue
  import Q = Quarantine
  import R = QuarantineRuns
  import K = QuarantineJobs

  /** What the cycle makes of its verification: QuarantineError is final, and while it is under way
      any other exception may end it. */
  function Outcome(s: Q.System, p: Q.Pid): Fetch {
    if p !in s.procs then Interrupted
    else
      match s.procs[p].phase
      case Done(f) => if f in s.inodes then Verified(|s.inodes[f].content|) else Interrupted
      case Failed => Rejected
      case _ => Interrupted
  }

  /** The size the job will report: the published file's, or that of the bytes it fetches. */
  function JobSize(s: Q.System, d: Digest, good: Q.Bytes): nat {
    if d in s.bound && s.bound[d] in s.inodes then |s.inodes[s.bound[d]].content| else |good|
  }

  /** A cycle holding its lease to the end, for a job the store would accept with these bytes, before
      its last attempt. */
  predicate WouldSucceed(w: Backend, s: Settings, clock: Clock, resolve: Resolver, claim: J.Claim, size: nat) {
    && resolve(claim.id).Some? && J.Holds(w.jobs, claim, clock.settling) && claim.attempts < s.maxAttempts
    && Discover(w.db, clock.storing, Found(resolve(claim.id).value, size, clock.discoveredAt)).Done?
  }

  lemma StatusOf(w: Backend, s: Settings, clock: Clock, resolve: Resolver, claim: J.Claim, size: nat, fetch: Fetch)
    requires WouldSucceed(w, s, clock, resolve, claim, size) && (fetch.Verified? ==> fetch.size == size)
    ensures Served(w, s, clock, resolve, Some(claim), fetch).1
            == match fetch case Verified(_) => Completed case Rejected => Failed case Interrupted => Retried
  {}

  lemma SameSize(h: Q.Hash, s: Q.System, p: Q.Pid, d: Digest, good: Q.Bytes, steps: seq<R.Step>)
    requires Q.Inv(h, s) && d in s.bound
    ensures var after := R.Run(h, s, steps);
            Outcome(after, p).Verified? && p in after.procs && after.procs[p].digest == d ==>
              Outcome(after, p).size == JobSize(s, d, good)
  {
    var after := R.Run(h, s, steps);
    R.RunKeeps(h, s, steps);
    if p in after.procs { assert Q.ProcSound(h, after, after.procs[p]); }
  }

  /** After this run of the quarantine the cycle fails its job. */
  ghost predicate Lost(h: Q.Hash, files: Q.System, p: Q.Pid, w: Backend, s: Settings, clock: Clock,
                       resolve: Resolver, claim: J.Claim, steps: seq<R.Step>)
  {
    Served(w, s, clock, resolve, Some(claim), Outcome(R.Run(h, files, steps), p)).1 == Failed
  }

  /** Some run makes it do so in which the cycle is not killed and is sent the good bytes. */
  ghost predicate CanLose(h: Q.Hash, files: Q.System, p: Q.Pid, good: Q.Bytes, w: Backend, s: Settings, clock: Clock,
                          resolve: Resolver, claim: J.Claim)
  {
    exists steps :: K.FairRun(h, files, p, good, steps) && Lost(h, files, p, w, s, clock, resolve, claim, steps)
  }

  lemma NotLost(h: Q.Hash, files: Q.System, p: Q.Pid, d: Digest, good: Q.Bytes, w: Backend, s: Settings, clock: Clock,
                resolve: Resolver, claim: J.Claim, steps: seq<R.Step>)
    requires Q.Inv(h, files) && (K.Job(h, files, p, good) || K.Ready(files, p, good)) && files.procs[p].digest == d
    requires WouldSucceed(w, s, clock, resolve, claim, JobSize(files, d, good))
    requires Q.LinksOf(files, d) == 1 && K.FairRun(h, files, p, good, steps)
    ensures !Lost(h, files, p, w, s, clock, resolve, claim, steps)
  {
    K.JobSucceeds(h, files, p, good, steps);
    K.FairSpares(h, files, p, good, steps);
    R.SameErrandRun(h, files, p, d, steps);
    SameSize(h, files, p, d, good, steps);
    StatusOf(w, s, clock, resolve, claim, JobSize(files, d, good), Outcome(R.Run(h, files, steps), p));
  }

  /** A job for good bytes, published already or still to be fetched, when it begins or has its bytes
      checked: it can be lost if and only if its digest does not have exactly one link then. */
  lemma GoodJobCanBeLostExactly(h: Q.Hash, files: Q.System, p: Q.Pid, d: Digest, good: Q.Bytes, w: Backend, s: Settings,
                                clock: Clock, resolve: Resolver, claim: J.Claim)
    requires Q.Inv(h, files) && (K.Job(h, files, p, good) || K.Ready(files, p, good)) && files.procs[p].digest == d
    requires WouldSucceed(w, s, clock, resolve, claim, JobSize(files, d, good))
    ensures CanLose(h, files, p, good, w, s, clock, resolve, claim) <==> Q.LinksOf(files, d) != 1
  {
    if Q.LinksOf(files, d) != 1 {
      var steps := K.JobFails(h, files, p, good);
      StatusOf(w, s, clock, resolve, claim, JobSize(files, d, good), Rejected);
      assert Lost(h, files, p, w, s, clock, resolve, claim, steps);
    } else {
      forall steps | K.FairRun(h, files, p, good, steps)
        ensures !Lost(h, files, p, w, s, clock, resolve, claim, steps)
      {
        NotLost(h, files, p, d, good, w, s, clock, resolve, claim, steps);
      }
    }
  }

  /** And failed it stays, in every later run. */
  lemma LostForGood(resolve: Resolver, states: seq<Backend>, acts: seq<Act>, id: J.JobId)
    requires Chained(resolve, states, acts) && Sound(states[0], resolve)
    requires id in states[0].jobs && states[0].jobs[id].state == J.Failed
    ensures id in states[|acts|].jobs && states[|acts|].jobs[id].state == J.Failed
  {
    ConsumerRuns.RunKeeps(resolve, states, acts);
  }
}
