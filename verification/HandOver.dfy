/** Publishers, readers, crashes and the verdict store together.  An upload or a discovery job hands
    an artifact to the store only once its own quarantine verification is done. */
module HandOver {
  import opened History
  import opened PersistedState
  import opened VerdictTables
  import opened VerdictStore
  import opened VerdictInvariants
  import opened VerdictRuns
  import Q = Quarantine
  import S = QuarantineSafety

  datatype Site = Site(files: Q.System, db: Db)

  const OPENING := Site(Q.EMPTY, EMPTY)

  datatype Act =
    | OnFiles(pid: Q.Pid, move: Q.Move)
    | OnStore(env: Env, command: Command)
    | Hand(pid: Q.Pid, env: Env, discoveredAt: Time, release: Release)

  /** discover_artifact with the digest and size of the file just verified; a job that stops before
      this and starts over does it again. */
  function DoHand(w: Site, p: Q.Pid, env: Env, discoveredAt: Time, release: Release): Site {
    if p in w.files.procs && w.files.procs[p].phase.Done? && w.files.procs[p].phase.file in w.files.inodes
       && w.files.procs[p].digest == release.sha256
    then
      var size := |w.files.inodes[w.files.procs[p].phase.file].content|;
      w.(db := After(w.db, Discover(w.db, env, Discovery(release.sha256, size, discoveredAt, release))))
    else w
  }

  ghost function Apply(h: Q.Hash, w: Site, a: Act): Site {
    match a
    case OnFiles(p, m) => w.(files := Q.Apply(h, w.files, p, m))
    case OnStore(env, c) => if c.DoDiscover? then w else w.(db := Next(w.db, env, c))
    case Hand(p, env, discoveredAt, release) => DoHand(w, p, env, discoveredAt, release)
  }

  /** Every artifact row has its bytes in quarantine, with its digest and its size. */
  ghost predicate Backed(h: Q.Hash, w: Site) {
    forall d :: d in w.db.artifacts ==>
                  && d in w.files.bound && w.files.bound[d] in w.files.inodes
                  && h(w.files.inodes[w.files.bound[d]].content) == d
                  && |w.files.inodes[w.files.bound[d]].content| == w.db.artifacts[d].size
  }

  ghost predicate Sound(h: Q.Hash, w: Site) {
    Q.Inv(h, w.files) && Inv(w.db) && Backed(h, w)
  }

  lemma {:induction false} RecoverKeepsKeys(db: Db, lapsed: map<Digest, Time>, env: Env, count: nat)
    requires lapsed.Keys <= db.artifacts.Keys
    ensures After(db, RecoverAll(db, lapsed, env, count)).artifacts.Keys == db.artifacts.Keys
    decreases |lapsed|
  {
    if lapsed != map[] {
      var d := Earliest(lapsed);
      var one := RecoverOne(db, d, env, count);
      assert (lapsed - {d}).Keys == lapsed.Keys - {d};
      if one.Done? { RecoverKeepsKeys(one.db, lapsed - {d}, env, one.value); }
    }
  }

  lemma RecordKeepsKeys(db: Db, env: Env, claim: Claim, x: VerdictInput, evidence: seq<Evidence>)
    ensures After(db, RecordVerdict(db, env, claim, x, evidence)).artifacts.Keys == db.artifacts.Keys
  {}

  lemma RescanKeepsKeys(db: Db, env: Env, d: Digest, actor: string, reason: string)
    ensures After(db, RequestRescan(db, env, d, actor, reason)).artifacts.Keys == db.artifacts.Keys
  {}

  lemma ClaimKeepsKeys(db: Db, env: Env, worker: string, until: Time)
    ensures After(db, ClaimNext(db, env, worker, until)).artifacts.Keys == db.artifacts.Keys
  {}

  /** Only discovery makes artifacts. */
  lemma OnlyDiscoveryAdds(db: Db, env: Env, c: Command)
    requires !c.DoDiscover?
    ensures Next(db, env, c).artifacts.Keys == db.artifacts.Keys
  {
    match c
    case DoClaim(worker, until) => ClaimKeepsKeys(db, env, worker, until);
    case DoRecover => RecoverKeepsKeys(db, Lapsed(db, env.now), env, 0);
    case DoRecord(claim, x, evidence) => RecordKeepsKeys(db, env, claim, x, evidence);
    case DoMarkError(claim, message) =>
    case DoSetOverride(d, o) => OverrideLeases(db, env, d, o);
    case DoRevoke(d, actor, reason) => RevokeLeases(db, env, d, actor, reason);
    case DoRescan(d, actor, reason) => RescanKeepsKeys(db, env, d, actor, reason);
    case DoBaseline(d, enabled, actor, reason) => BaselineLeases(db, env, d, enabled, actor, reason);
  }

  lemma StoreKeeps(h: Q.Hash, w: Site, env: Env, c: Command)
    requires Sound(h, w) && !c.DoDiscover?
    ensures Sound(h, w.(db := Next(w.db, env, c)))
  {
    StepKeeps(w.db, env, c);
    OnlyDiscoveryAdds(w.db, env, c);
    var after := Next(w.db, env, c);
    forall d | d in after.artifacts ensures d in w.db.artifacts && after.artifacts[d].size == w.db.artifacts[d].size {
      assert d in w.db.artifacts.Keys;
      assert ArtifactGrows(w.db.artifacts[d], after.artifacts[d]);
    }
  }

  lemma FilesKeep(h: Q.Hash, w: Site, p: Q.Pid, m: Q.Move)
    requires Sound(h, w)
    ensures Sound(h, w.(files := Q.Apply(h, w.files, p, m)))
  {
    S.StepKeeps(h, w.files, p, m);
  }

  lemma DiscoverArtifacts(db: Db, env: Env, x: Discovery)
    requires Inv(db)
    ensures var after := After(db, Discover(db, env, x));
            && Inv(after)
            && forall d :: d in after.artifacts ==>
                 if d in db.artifacts then after.artifacts[d].size == db.artifacts[d].size
                 else d == x.sha256 && after.artifacts[d].size == x.size
  {
    StepKeeps(db, env, DoDiscover(x));
    if Discover(db, env, x).Done? { DiscoverTransacts(db, env, x); }
  }

  lemma HandKeeps(h: Q.Hash, w: Site, p: Q.Pid, env: Env, discoveredAt: Time, release: Release)
    requires Sound(h, w)
    ensures Sound(h, DoHand(w, p, env, discoveredAt, release))
  {
    if p in w.files.procs && w.files.procs[p].phase.Done? && w.files.procs[p].digest == release.sha256 {
      var d, f := release.sha256, w.files.procs[p].phase.file;
      assert Q.ProcSound(h, w.files, w.files.procs[p]);
      S.BoundLinked(h, w.files, d);
      DiscoverArtifacts(w.db, env, Discovery(d, |w.files.inodes[f].content|, discoveredAt, release));
    }
  }

  ghost function Run(h: Q.Hash, w: Site, acts: seq<Act>): Site
    decreases |acts|
  {
    if acts == [] then w else Run(h, Apply(h, w, acts[0]), acts[1..])
  }

  lemma {:induction false} RunKeeps(h: Q.Hash, w: Site, acts: seq<Act>)
    requires Sound(h, w)
    ensures Sound(h, Run(h, w, acts))
    decreases |acts|
  {
    if acts != [] {
      match acts[0] {
        case OnFiles(p, m) => FilesKeep(h, w, p, m);
        case OnStore(env, c) => if !c.DoDiscover? { StoreKeeps(h, w, env, c); }
        case Hand(p, env, at, release) => HandKeeps(h, w, p, env, at, release);
      }
      RunKeeps(h, Apply(h, w, acts[0]), acts[1..]);
    }
  }

  /** In every reachable state an artifact row stands for bytes that are in quarantine, and its
      discovered events count its release mappings, however often jobs were repeated. */
  lemma ArtifactsAreBacked(h: Q.Hash, acts: seq<Act>, d: Digest)
    requires d in Run(h, OPENING, acts).db.artifacts
    ensures var w := Run(h, OPENING, acts);
            && d in w.files.bound && w.files.bound[d] in w.files.inodes
            && h(w.files.inodes[w.files.bound[d]].content) == d
            && |w.files.inodes[w.files.bound[d]].content| == w.db.artifacts[d].size
            && Tally(w.db.audit, ArtifactDiscovered, d) == ReleasesOf(w.db.releases, d)
  {
    EmptySound();
    RunKeeps(h, OPENING, acts);
    assert SliceSound(d, SliceOf(Run(h, OPENING, acts).db, d));
  }
}
