/** Publishers and whole discovery jobs in the quarantine: exactly when one that has the right bytes
    can fail because of what others do. */
module QuarantineJobs {
  import opened History
  import opened Quarantine
  import opened QuarantineSafety
  import opened QuarantineRuns

  // ----- with one link nothing can go wrong -----

  /** A publisher whose checked bytes have the size of the published file. */
  predicate Matching(s: System, proc: Proc) {
    && Fits(s, proc) && (proc.phase.Linking? || proc.phase.Losing?)
    && proc.phase.file in s.inodes
    && |s.inodes[proc.phase.file].content| == |s.inodes[s.bound[proc.digest]].content|
  }

  predicate Steady(s: System, proc: Proc) {
    Assured(s, proc) || (Matching(s, proc) && LinksOf(s, proc.digest) == 1)
  }

  lemma PrivateBytesKept(h: Hash, s: System, p: Pid, q: Pid, m: Move)
    requires Inv(h, s) && p in s.procs && q != p && Private(s.procs[p].phase).Some?
    ensures var f := Private(s.procs[p].phase).value;
            f in s.inodes && f in Apply(h, s, q, m).inodes
            && Apply(h, s, q, m).inodes[f].content == s.inodes[f].content
  {
    assert ProcSound(h, s, s.procs[p]);
  }

  lemma OneLinkStays(h: Hash, s: System, q: Pid, m: Move, d: Digest)
    requires Inv(h, s) && LinksOf(s, d) == 1
    ensures var after := Apply(h, s, q, m);
            && LinksOf(after, d) == 1 && d in s.bound && after.bound[d] == s.bound[d]
            && after.inodes[after.bound[d]].content == s.inodes[s.bound[d]].content
  {
    StepKeeps(h, s, q, m);
    BoundLinked(h, Apply(h, s, q, m), d);
  }

  lemma MatchingMove(h: Hash, s: System, p: Pid, m: Move)
    requires Inv(h, s) && p in s.procs && Matching(s, s.procs[p]) && LinksOf(s, s.procs[p].digest) == 1 && m != Crash
    ensures p in Apply(h, s, p, m).procs && Steady(Apply(h, s, p, m), Apply(h, s, p, m).procs[p])
  {
    assert ProcSound(h, s, s.procs[p]);
  }

  lemma SteadyStep(h: Hash, s: System, p: Pid, q: Pid, m: Move)
    requires Inv(h, s) && p in s.procs && Steady(s, s.procs[p]) && !(q == p && m == Crash)
    ensures p in Apply(h, s, q, m).procs && Steady(Apply(h, s, q, m), Apply(h, s, q, m).procs[p])
  {
    if Assured(s, s.procs[p]) {
      AssuredStep(h, s, p, q, m);
    } else if q == p {
      MatchingMove(h, s, p, m);
    } else {
      OthersUntouched(h, s, p, q, m);
      PrivateBytesKept(h, s, p, q, m);
      OneLinkStays(h, s, q, m, s.procs[p].digest);
    }
  }

  lemma {:induction false} SteadyRun(h: Hash, s: System, p: Pid, steps: seq<Step>)
    requires Inv(h, s) && p in s.procs && Steady(s, s.procs[p]) && Spares(steps, p)
    ensures p in Run(h, s, steps).procs && Run(h, s, steps).procs[p].phase != Failed
    decreases |steps|
  {
    if steps != [] {
      var q, m := steps[0].pid, steps[0].move;
      StepKeeps(h, s, q, m);
      SteadyStep(h, s, p, q, m);
      assert forall i :: 0 <= i < |steps[1..]| ==> steps[1..][i] == steps[i + 1];
      SteadyRun(h, Apply(h, s, q, m), p, steps[1..]);
    }
  }

  // ----- a publisher with checked bytes -----

  /** The link is refused, the publisher takes its file away and turns to the published one. */
  lemma LosesRace(h: Hash, s: System, p: Pid)
    requires Inv(h, s) && p in s.procs && s.procs[p].phase.Linking? && Matching(s, s.procs[p])
    ensures var d, after := s.procs[p].digest, Apply(h, Apply(h, s, p, Link), p, UnlinkOwn);
            Inv(h, after) && Reader(after, p, d) && LinksOf(after, d) == LinksOf(s, d)
  {
    assert ProcSound(h, s, s.procs[p]);
    StepKeeps(h, s, p, Link);
    var lost := Apply(h, s, p, Link);
    assert lost == At(s, p, Losing(s.procs[p].phase.file));
    StepKeeps(h, lost, p, UnlinkOwn);
  }

  lemma RunTwo(h: Hash, s: System, a: Step, b: Step)
    ensures Run(h, s, [a, b]) == Apply(h, Apply(h, s, a.pid, a.move), b.pid, b.move)
  {
    assert [a, b][1..] == [b] && [b][1..] == [];
    var next := Apply(h, s, a.pid, a.move);
    assert Run(h, next, [b]) == Run(h, Apply(h, next, b.pid, b.move), []);
  }

  lemma LoserFails(h: Hash, s: System, p: Pid) returns (steps: seq<Step>)
    requires Inv(h, s) && p in s.procs && s.procs[p].phase.Linking? && Matching(s, s.procs[p])
    requires LinksOf(s, s.procs[p].digest) == 2
    ensures Quiet(steps, p) && p in Run(h, s, steps).procs && Run(h, s, steps).procs[p].phase == Failed
  {
    var first := [Step(p, Link), Step(p, UnlinkOwn)];
    LosesRace(h, s, p);
    RunTwo(h, s, first[0], first[1]);
    var rest := ReaderFails(h, Run(h, s, first), p, s.procs[p].digest);
    steps := first + rest;
    RunSplits(h, s, first, rest);
  }

  /** Writing and checking a whole file. */
  function Writes(p: Pid, f: File, content: Bytes): seq<Step> {
    [Step(p, Create(f)), Step(p, Append(content)), Step(p, Check)]
  }

  function WithFile(s: System, f: File, content: Bytes): System {
    s.(staged := s.staged + {f}, inodes := s.inodes[f := Inode(content, 1)])
  }

  lemma Filled(h: Hash, s: System, p: Pid, f: File, content: Bytes)
    requires p in s.procs && s.procs[p].phase == Creating && f !in s.inodes
    ensures Run(h, s, [Step(p, Create(f)), Step(p, Append(content))]) == At(WithFile(s, f, content), p, Writing(f))
  {
    RunTwo(h, s, Step(p, Create(f)), Step(p, Append(content)));
    var created := Apply(h, s, p, Create(f));
    assert created == At(WithFile(s, f, []), p, Writing(f));
    var appended := Apply(h, created, p, Append(content));
    assert [] + content == content;
    assert appended.inodes == s.inodes[f := Inode(content, 1)];
  }

  lemma Checks(h: Hash, s: System, p: Pid, f: File, content: Bytes)
    requires p in s.procs && h(content) == s.procs[p].digest && SizeFits(s.procs[p].expected, |content|)
    ensures var full := At(WithFile(s, f, content), p, Writing(f));
            Run(h, full, [Step(p, Check)]) == At(WithFile(s, f, content), p, Linking(f))
  {
    var full := At(WithFile(s, f, content), p, Writing(f));
    assert [Step(p, Check)][1..] == [];
    assert Run(h, full, [Step(p, Check)]) == Run(h, Apply(h, full, p, Check), []);
    assert Apply(h, full, p, Check).procs == s.procs[p := s.procs[p].(phase := Linking(f))];
  }

  lemma Written(h: Hash, s: System, p: Pid, f: File, content: Bytes)
    requires p in s.procs && s.procs[p].phase == Creating && f !in s.inodes
    requires h(content) == s.procs[p].digest && SizeFits(s.procs[p].expected, |content|)
    ensures Run(h, s, Writes(p, f, content)) == At(WithFile(s, f, content), p, Linking(f))
  {
    var fill := [Step(p, Create(f)), Step(p, Append(content))];
    assert Writes(p, f, content) == fill + [Step(p, Check)];
    RunSplits(h, s, fill, [Step(p, Check)]);
    Filled(h, s, p, f, content);
    Checks(h, s, p, f, content);
  }

  /** What a publisher leaves that crashes right after its link. */
  function Crashed(s: System, f: File, d: Digest, content: Bytes): System {
    s.(staged := s.staged + {f}, inodes := s.inodes[f := Inode(content, 2)], bound := s.bound[d := f])
  }

  lemma LinkedAndCrashed(h: Hash, s: System, q: Pid, f: File, d: Digest, e: Option<nat>, content: Bytes)
    requires q !in s.procs && f !in s.inodes && d !in s.bound
    ensures var linking := WithFile(s, f, content).(procs := s.procs[q := Proc(d, e, Linking(f))]);
            Run(h, linking, [Step(q, Link), Step(q, Crash)]) == Crashed(s, f, d, content)
  {
    var linking := WithFile(s, f, content).(procs := s.procs[q := Proc(d, e, Linking(f))]);
    RunTwo(h, linking, Step(q, Link), Step(q, Crash));
    var linked := Apply(h, linking, q, Link);
    assert linked.inodes == s.inodes[f := Inode(content, 2)];
    assert linked.procs - {q} == s.procs;
  }

  /** Another process publishes the bytes and crashes. */
  lemma PublishedAndCrashed(h: Hash, s: System, q: Pid, f: File, d: Digest, e: Option<nat>, content: Bytes)
    requires q !in s.procs && f !in s.inodes && d !in s.bound && h(content) == d && SizeFits(e, |content|)
    ensures Run(h, s, [Step(q, Spawn(true, d, e))] + (Writes(q, f, content) + [Step(q, Link), Step(q, Crash)]))
         == Crashed(s, f, d, content)
  {
    var spawn, rest := Step(q, Spawn(true, d, e)), Writes(q, f, content) + [Step(q, Link), Step(q, Crash)];
    assert ([spawn] + rest)[1..] == rest;
    var begun := Apply(h, s, q, spawn.move);
    RunSplits(h, begun, Writes(q, f, content), [Step(q, Link), Step(q, Crash)]);
    Written(h, begun, q, f, content);
    var linking := WithFile(s, f, content).(procs := s.procs[q := Proc(d, e, Linking(f))]);
    assert At(WithFile(begun, f, content), q, Linking(f)).procs == linking.procs;
    LinkedAndCrashed(h, s, q, f, d, e, content);
  }

  /** With no file published yet, someone else publishes the same bytes and crashes first. */
  lemma ForestalledFails(h: Hash, s: System, p: Pid) returns (steps: seq<Step>)
    requires Inv(h, s) && p in s.procs && s.procs[p].phase.Linking? && s.procs[p].digest !in s.bound
    ensures Quiet(steps, p) && p in Run(h, s, steps).procs && Run(h, s, steps).procs[p].phase == Failed
  {
    var proc := s.procs[p];
    assert ProcSound(h, s, proc);
    var content := s.inodes[proc.phase.file].content;
    var q := FreshPid(s.procs.Keys);
    var f := FreshPid(s.inodes.Keys);
    var first := [Step(q, Spawn(true, proc.digest, proc.expected))]
                 + (Writes(q, f, content) + [Step(q, Link), Step(q, Crash)]);
    PublishedAndCrashed(h, s, q, f, proc.digest, proc.expected, content);
    RunKeeps(h, s, first);
    var rest := LoserFails(h, Run(h, s, first), p);
    RunSplits(h, s, first, rest);
    steps := first + rest;
  }

  lemma PublisherFails(h: Hash, s: System, p: Pid) returns (steps: seq<Step>)
    requires Inv(h, s) && p in s.procs && s.procs[p].phase.Linking? && LinksOf(s, s.procs[p].digest) != 1
    requires s.procs[p].digest in s.bound ==> Matching(s, s.procs[p])
    ensures Quiet(steps, p) && p in Run(h, s, steps).procs && Run(h, s, steps).procs[p].phase == Failed
  {
    if s.procs[p].digest in s.bound {
      BoundLinked(h, s, s.procs[p].digest);
      steps := LoserFails(h, s, p);
    } else {
      steps := ForestalledFails(h, s, p);
    }
  }

  /** A publisher whose bytes are checked, and of the size of the published file if there is one: some
      run ends with its failure if and only if the digest does not have exactly one link. */
  lemma PublisherCanFailExactly(h: Hash, s: System, p: Pid)
    requires Inv(h, s) && p in s.procs && s.procs[p].phase.Linking?
    requires s.procs[p].digest in s.bound ==> Matching(s, s.procs[p])
    ensures CanFail(h, s, p) <==> LinksOf(s, s.procs[p].digest) != 1
  {
    if LinksOf(s, s.procs[p].digest) != 1 {
      var steps := PublisherFails(h, s, p);
      assert Spares(steps, p);
    } else {
      forall steps | Spares(steps, p) ensures p in Run(h, s, steps).procs && Run(h, s, steps).procs[p].phase != Failed {
        SteadyRun(h, s, p, steps);
      }
    }
  }

  // ----- a whole job -----

  /** A step that is in keeping with the process living on and its source delivering these bytes. */
  predicate Fair(s: System, p: Pid, good: Bytes, step: Step) {
    step.pid == p ==>
      && !step.move.Crash? && !step.move.Abandon?
      && (step.move.Check? && p in s.procs && s.procs[p].phase.Writing? && s.procs[p].phase.file in s.inodes ==>
            s.inodes[s.procs[p].phase.file].content == good)
  }

  ghost predicate FairRun(h: Hash, s: System, p: Pid, good: Bytes, steps: seq<Step>)
    decreases |steps|
  {
    steps == [] || (Fair(s, p, good, steps[0])
                    && FairRun(h, Apply(h, s, steps[0].pid, steps[0].move), p, good, steps[1..]))
  }

  lemma {:induction false} QuietIsFair(h: Hash, s: System, p: Pid, good: Bytes, steps: seq<Step>)
    requires Quiet(steps, p)
    ensures FairRun(h, s, p, good, steps)
    decreases |steps|
  {
    if steps != [] { QuietIsFair(h, Apply(h, s, steps[0].pid, steps[0].move), p, good, steps[1..]); }
  }

  lemma {:induction false} FairConcat(h: Hash, s: System, p: Pid, good: Bytes, a: seq<Step>, b: seq<Step>)
    requires FairRun(h, s, p, good, a) && FairRun(h, Run(h, s, a), p, good, b)
    ensures FairRun(h, s, p, good, a + b)
    decreases |a|
  {
    if a == [] {
      assert a + b == b;
    } else {
      assert (a + b)[1..] == a[1..] + b;
      FairConcat(h, Apply(h, s, a[0].pid, a[0].move), p, good, a[1..], b);
    }
  }

  lemma {:induction false} FairSpares(h: Hash, s: System, p: Pid, good: Bytes, steps: seq<Step>)
    requires FairRun(h, s, p, good, steps)
    ensures Spares(steps, p)
    decreases |steps|
  {
    if steps != [] {
      FairSpares(h, Apply(h, s, steps[0].pid, steps[0].move), p, good, steps[1..]);
      assert forall i :: 0 <= i < |steps| ==> steps[i] == if i == 0 then steps[0] else steps[1..][i - 1];
    }
  }

  /** A job that begins to look for these bytes, which are those of its digest and size; a file
      published already has the expected size. */
  predicate Job(h: Hash, s: System, p: Pid, good: Bytes) {
    && p in s.procs && s.procs[p].phase == Opening(true, 0)
    && h(good) == s.procs[p].digest && SizeFits(s.procs[p].expected, |good|)
    && (s.procs[p].digest in s.bound ==> Fits(s, s.procs[p]))
  }

  /** Some fair run ends with the failure of the job. */
  ghost predicate JobCanFail(h: Hash, s: System, p: Pid, good: Bytes) {
    exists steps ::
      FairRun(h, s, p, good, steps) && p in Run(h, s, steps).procs && Run(h, s, steps).procs[p].phase == Failed
  }

  function Fetches(p: Pid, f: File, good: Bytes): seq<Step> {
    [Step(p, Look), Step(p, Persist)] + Writes(p, f, good)
  }

  lemma FoundNothing(h: Hash, s: System, p: Pid)
    requires p in s.procs && s.procs[p].phase == Opening(true, 0) && s.procs[p].digest !in s.bound
    ensures Run(h, s, [Step(p, Look), Step(p, Persist)]) == At(s, p, Creating)
  {
    RunTwo(h, s, Step(p, Look), Step(p, Persist));
    var absent := Apply(h, s, p, Look);
    assert absent == At(s, p, Absent);
    assert At(absent, p, Creating).procs == At(s, p, Creating).procs;
  }

  lemma SameWritten(s: System, p: Pid, f: File, content: Bytes, phase: Phase)
    requires p in s.procs
    ensures At(WithFile(At(s, p, Creating), f, content), p, phase) == At(WithFile(s, f, content), p, phase)
  {
    assert s.procs[p := s.procs[p].(phase := Creating)][p := s.procs[p].(phase := phase)]
        == s.procs[p := s.procs[p].(phase := phase)];
  }

  lemma Fetched(h: Hash, s: System, p: Pid, f: File, good: Bytes)
    requires Job(h, s, p, good) && s.procs[p].digest !in s.bound && f !in s.inodes
    ensures Run(h, s, Fetches(p, f, good)) == At(WithFile(s, f, good), p, Linking(f))
  {
    RunSplits(h, s, [Step(p, Look), Step(p, Persist)], Writes(p, f, good));
    FoundNothing(h, s, p);
    Written(h, At(s, p, Creating), p, f, good);
    SameWritten(s, p, f, good, Linking(f));
  }

  /** The only step of these that could be unfair is the check, and it sees the right bytes. */
  lemma FetchesFair(h: Hash, s: System, p: Pid, f: File, good: Bytes)
    requires Job(h, s, p, good) && s.procs[p].digest !in s.bound && f !in s.inodes
    ensures FairRun(h, s, p, good, Fetches(p, f, good))
  {
    var look, fill := [Step(p, Look), Step(p, Persist)], [Step(p, Create(f)), Step(p, Append(good))];
    assert Fetches(p, f, good) == (look + fill) + [Step(p, Check)];
    QuietIsFair(h, s, p, good, look + fill);
    RunSplits(h, s, look, fill);
    FoundNothing(h, s, p);
    Filled(h, At(s, p, Creating), p, f, good);
    CheckIsFair(h, WithFile(At(s, p, Creating), f, good), p, f, good);
    FairConcat(h, s, p, good, look + fill, [Step(p, Check)]);
  }

  lemma CheckIsFair(h: Hash, s: System, p: Pid, f: File, good: Bytes)
    requires p in s.procs && f in s.inodes && s.inodes[f].content == good
    ensures FairRun(h, At(s, p, Writing(f)), p, good, [Step(p, Check)])
  {
    assert [Step(p, Check)][1..] == [];
    var full := At(s, p, Writing(f));
    assert FairRun(h, Apply(h, full, p, Check), p, good, []);
    assert Fair(full, p, good, Step(p, Check));
  }

  lemma FetcherFails(h: Hash, s: System, p: Pid, good: Bytes) returns (steps: seq<Step>)
    requires Inv(h, s) && Job(h, s, p, good) && s.procs[p].digest !in s.bound
    ensures FairRun(h, s, p, good, steps) && p in Run(h, s, steps).procs && Run(h, s, steps).procs[p].phase == Failed
  {
    var f := FreshPid(s.inodes.Keys);
    var first := Fetches(p, f, good);
    Fetched(h, s, p, f, good);
    FetchesFair(h, s, p, f, good);
    RunKeeps(h, s, first);
    var rest := PublisherFails(h, Run(h, s, first), p);
    QuietIsFair(h, Run(h, s, first), p, good, rest);
    FairConcat(h, s, p, good, first, rest);
    RunSplits(h, s, first, rest);
    steps := first + rest;
  }

  /** A job that has fetched and checked these bytes; a file published already has their size. */
  predicate Ready(s: System, p: Pid, good: Bytes) {
    && p in s.procs && s.procs[p].phase.Linking? && s.procs[p].phase.file in s.inodes
    && s.inodes[s.procs[p].phase.file].content == good
    && (s.procs[p].digest in s.bound ==> Matching(s, s.procs[p]))
  }

  lemma JobFails(h: Hash, s: System, p: Pid, good: Bytes) returns (steps: seq<Step>)
    requires Inv(h, s) && (Job(h, s, p, good) || Ready(s, p, good)) && LinksOf(s, s.procs[p].digest) != 1
    ensures FairRun(h, s, p, good, steps) && p in Run(h, s, steps).procs && Run(h, s, steps).procs[p].phase == Failed
  {
    var d := s.procs[p].digest;
    if Ready(s, p, good) {
      steps := PublisherFails(h, s, p);
      QuietIsFair(h, s, p, good, steps);
    } else if d in s.bound {
      BoundLinked(h, s, d);
      steps := ReaderFails(h, s, p, d);
      QuietIsFair(h, s, p, good, steps);
    } else {
      steps := FetcherFails(h, s, p, good);
    }
  }

  lemma JobSucceeds(h: Hash, s: System, p: Pid, good: Bytes, steps: seq<Step>)
    requires Inv(h, s) && (Job(h, s, p, good) || Ready(s, p, good)) && LinksOf(s, s.procs[p].digest) == 1
    requires FairRun(h, s, p, good, steps)
    ensures p in Run(h, s, steps).procs && Run(h, s, steps).procs[p].phase != Failed
  {
    FairSpares(h, s, p, good, steps);
    SteadyRun(h, s, p, steps);
  }

  /** A job for the right bytes, whether they are published already or not, when it begins to look for
      them or has them checked: some fair run ends with its failure if and only if the digest does not
      have exactly one link then. */
  lemma JobCanFailExactly(h: Hash, s: System, p: Pid, good: Bytes)
    requires Inv(h, s) && (Job(h, s, p, good) || Ready(s, p, good))
    ensures JobCanFail(h, s, p, good) <==> LinksOf(s, s.procs[p].digest) != 1
  {
    if LinksOf(s, s.procs[p].digest) != 1 {
      var steps := JobFails(h, s, p, good);
    } else {
      forall steps | FairRun(h, s, p, good, steps)
        ensures p in Run(h, s, steps).procs && Run(h, s, steps).procs[p].phase != Failed
      {
        JobSucceeds(h, s, p, good, steps);
      }
    }
  }

  /** So the first job of an empty quarantine can fail, whatever its bytes are. */
  lemma FirstJobCanFail(h: Hash, p: Pid, good: Bytes)
    ensures var s := Run(h, EMPTY, [Step(p, Spawn(false, h(good), None))]);
            Job(h, s, p, good) && JobCanFail(h, s, p, good)
  {
    var begin := Step(p, Spawn(false, h(good), None));
    assert [begin][1..] == [];
    assert Run(h, EMPTY, [begin]) == Run(h, Apply(h, EMPTY, p, begin.move), []);
    RunKeeps(h, EMPTY, [begin]);
    JobCanFailExactly(h, Run(h, EMPTY, [begin]), p, good);
  }
}
