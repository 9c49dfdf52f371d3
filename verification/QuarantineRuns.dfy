/** Whole runs of the quarantine: what stays published, who can fail, and who cannot. */
module QuarantineRuns {
  import opened History
  import opened Quarantine
  import opened QuarantineSafety

  datatype Step = Step(pid: Pid, move: Move)

  function Run(h: Hash, s: System, steps: seq<Step>): System
    decreases |steps|
  {
    if steps == [] then s else Run(h, Apply(h, s, steps[0].pid, steps[0].move), steps[1..])
  }

  lemma {:induction false} RunKeeps(h: Hash, s: System, steps: seq<Step>)
    requires Inv(h, s)
    ensures Inv(h, Run(h, s, steps)) && Persists(s, Run(h, s, steps))
    decreases |steps|
  {
    if steps != [] {
      var next := Apply(h, s, steps[0].pid, steps[0].move);
      StepKeeps(h, s, steps[0].pid, steps[0].move);
      RunKeeps(h, next, steps[1..]);
      assert forall d :: d in s.bound ==> s.bound[d] in s.inodes;
    }
  }

  /** In any state a run can reach, a digest name leads to bytes of that digest with at most two
      links, and no later run changes either name or bytes. */
  lemma PublishedForever(h: Hash, steps: seq<Step>, later: seq<Step>, d: Digest)
    requires d in Run(h, EMPTY, steps).bound
    ensures var s, t := Run(h, EMPTY, steps), Run(h, Run(h, EMPTY, steps), later);
            && s.bound[d] in s.inodes && h(s.inodes[s.bound[d]].content) == d && 1 <= LinksOf(s, d) <= 2
            && d in t.bound && t.bound[d] == s.bound[d] && s.bound[d] in t.inodes
            && t.inodes[s.bound[d]].content == s.inodes[s.bound[d]].content
  {
    RunKeeps(h, EMPTY, steps);
    RunKeeps(h, Run(h, EMPTY, steps), later);
    BoundLinked(h, Run(h, EMPTY, steps), d);
  }

  /** The process holds the published file of its digest: the right bytes, of the size it was told
      to expect, with no second name. */
  ghost predicate Verified(h: Hash, s: System, proc: Proc, f: File) {
    && proc.digest in s.bound && s.bound[proc.digest] == f && f in s.inodes
    && h(s.inodes[f].content) == proc.digest
    && (proc.expected.Some? ==> |s.inodes[f].content| == proc.expected.value)
    && s.inodes[f].links == 1 && f !in s.staged
  }

  lemma DoneNow(h: Hash, s: System, p: Pid)
    requires Inv(h, s) && p in s.procs && s.procs[p].phase.Done?
    ensures Verified(h, s, s.procs[p], s.procs[p].phase.file)
  {
    assert ProcSound(h, s, s.procs[p]);
    BoundLinked(h, s, s.procs[p].digest);
  }

  /** Whatever the interleaving, a verification that is done has verified what it hands out. */
  lemma DoneIsVerified(h: Hash, steps: seq<Step>, p: Pid)
    requires p in Run(h, EMPTY, steps).procs && Run(h, EMPTY, steps).procs[p].phase.Done?
    ensures var s := Run(h, EMPTY, steps); Verified(h, s, s.procs[p], s.procs[p].phase.file)
  {
    RunKeeps(h, EMPTY, steps);
    DoneNow(h, Run(h, EMPTY, steps), p);
  }

  /** The loser of a race unlinks without a guard, and its file is there: nobody else took it. */
  lemma LoserFindsItsFile(h: Hash, s: System, p: Pid)
    requires Inv(h, s) && p in s.procs && s.procs[p].phase.Losing?
    ensures var f, after := s.procs[p].phase.file, DoUnlinkOwn(s, p);
            && f in s.staged && f in s.inodes && f !in s.bound.Values && f !in after.staged
            && after.procs[p].phase == Opening(true, 1) && after.procs[p].expected == Some(|s.inodes[f].content|)
  {
    assert ProcSound(h, s, s.procs[p]);
  }

  /** Recovery takes away the second name of the file it was asked about, and no other name. */
  lemma RecoveryRemovesSecondNames(h: Hash, s: System, p: Pid)
    requires Inv(h, s) && p in s.procs && DoRemove(s, p).staged != s.staged
    ensures var d := s.procs[p].digest;
            && d in s.bound && LinksOf(s, d) == 2 && s.bound[d] in s.staged
            && DoRemove(s, p).staged == s.staged - {s.bound[d]}
            && Fits(s, s.procs[p])
            && LinksOf(DoRemove(s, p), d) == 1
  {
    assert ProcSound(h, s, s.procs[p]);
    BoundLinked(h, s, s.procs[p].digest);
    UnlinkFiles(h, s, s.procs[p].phase.file, None);
  }

  // ----- who can fail -----

  predicate Verifying(phase: Phase) {
    phase.Opening? || phase.Reading? || phase.Recovering? || phase.Scanning? || phase.Probed? || phase.Removing?
    || phase.Unlinking?
  }

  /** The process gave up on a file with two links, and someone else has removed the second since. */
  predicate Beaten(s: System, proc: Proc, m: Move) {
    && LinksOf(s, proc.digest) == 1
    && ((m.List? && proc.phase.Recovering?) || (m.Exhaust? && proc.phase.Scanning? && proc.phase.names == {}))
  }

  /** Verifying a published file of the expected size fails in exactly one way: another process
      recovers the file between this one's giving up on it and its own recovery. */
  lemma FailsExactlyWhenBeaten(h: Hash, s: System, p: Pid, m: Move)
    requires Inv(h, s) && p in s.procs && Fits(s, s.procs[p]) && Verifying(s.procs[p].phase)
    requires m != Crash
    ensures p in Apply(h, s, p, m).procs
    ensures Apply(h, s, p, m).procs[p].phase == Failed <==> Beaten(s, s.procs[p], m)
    ensures Apply(h, s, p, m).procs[p].phase != Absent
  {
    assert ProcSound(h, s, s.procs[p]);
    BoundLinked(h, s, s.procs[p].digest);
  }

  /** On a file with one link of the expected size, nothing can go wrong any more. */
  predicate Assured(s: System, proc: Proc) {
    match proc.phase
    case Unlinking(_) => Fits(s, proc)
    case Opening(_, _) => Fits(s, proc) && LinksOf(s, proc.digest) == 1
    case Reading(_, _) => Fits(s, proc)
    case Done(_) => true
    case _ => false
  }

  lemma AssuredStep(h: Hash, s: System, p: Pid, q: Pid, m: Move)
    requires Inv(h, s) && p in s.procs && Assured(s, s.procs[p]) && !(q == p && m == Crash)
    ensures p in Apply(h, s, q, m).procs && Assured(Apply(h, s, q, m), Apply(h, s, q, m).procs[p])
  {
    var after := Apply(h, s, q, m);
    StepKeeps(h, s, q, m);
    assert ProcSound(h, s, s.procs[p]);
    BoundLinked(h, s, s.procs[p].digest);
    BoundLinked(h, after, s.procs[p].digest);
    if q == p { AssuredMove(h, s, p, m); } else { OthersUntouched(h, s, p, q, m); }
  }

  lemma OthersUntouched(h: Hash, s: System, p: Pid, q: Pid, m: Move)
    requires p in s.procs && q != p
    ensures p in Apply(h, s, q, m).procs && Apply(h, s, q, m).procs[p] == s.procs[p]
  {}

  lemma AssuredMove(h: Hash, s: System, p: Pid, m: Move)
    requires Inv(h, s) && p in s.procs && Assured(s, s.procs[p]) && m != Crash
    ensures p in Apply(h, s, p, m).procs && Assured(Apply(h, s, p, m), Apply(h, s, p, m).procs[p])
  {
    assert ProcSound(h, s, s.procs[p]);
    var d := s.procs[p].digest;
    BoundLinked(h, s, d);
    if m.UnlinkOwn? && s.procs[p].phase.Unlinking? { UnlinkFiles(h, s, s.bound[d], None); }
  }

  ghost predicate Spares(steps: seq<Step>, p: Pid) {
    forall i :: 0 <= i < |steps| ==> steps[i] != Step(p, Crash)
  }

  /** A publisher whose link succeeded, and any verification of a file with one link, never fails,
      whatever everyone else does. */
  lemma {:induction false} AssuredRun(h: Hash, s: System, p: Pid, steps: seq<Step>)
    requires Inv(h, s) && p in s.procs && Assured(s, s.procs[p]) && Spares(steps, p)
    ensures p in Run(h, s, steps).procs && Run(h, s, steps).procs[p].phase != Failed
    ensures Assured(Run(h, s, steps), Run(h, s, steps).procs[p])
    decreases |steps|
  {
    if steps != [] {
      var q, m := steps[0].pid, steps[0].move;
      StepKeeps(h, s, q, m);
      AssuredStep(h, s, p, q, m);
      assert forall i :: 0 <= i < |steps[1..]| ==> steps[1..][i] == steps[i + 1];
      AssuredRun(h, Apply(h, s, q, m), p, steps[1..]);
    }
  }

  // ----- alone -----

  /** Where a verification of a published file of the expected size stands while nobody interferes. */
  predicate OnCourse(s: System, proc: Proc) {
    && Fits(s, proc)
    && match proc.phase
       case Opening(_, _) => true
       case Reading(_, _) => true
       case Recovering(_) => LinksOf(s, proc.digest) == 2
       case Scanning(_, _) => LinksOf(s, proc.digest) == 2
       case Probed(_, _, _) => LinksOf(s, proc.digest) == 2
       case Removing(_, _, _) => LinksOf(s, proc.digest) == 2
       case Done(_) => true
       case _ => false
  }

  function Rank(s: System, phase: Phase): nat {
    match phase
    case Opening(true, left) => 7 + 3 * |s.staged| + 2 * left
    case Opening(false, left) => 2 + 2 * left
    case Reading(_, left) => 1 + 2 * left
    case Recovering(left) => 6 + 3 * |s.staged| + 2 * left
    case Scanning(names, left) => 5 + 3 * |names| + 2 * left
    case Probed(_, names, left) => 7 + 3 * |names| + 2 * left
    case Removing(_, names, left) => 6 + 3 * |names| + 2 * left
    case _ => 0
  }

  /** A move of a lone verification keeps it on course, and each that changes anything brings it
      nearer its end. */
  lemma LoneMove(h: Hash, s: System, p: Pid, m: Move)
    requires Inv(h, s) && p in s.procs && OnCourse(s, s.procs[p]) && m != Crash
    ensures var after := Apply(h, s, p, m);
            && p in after.procs && OnCourse(after, after.procs[p])
            && (after != s ==> Rank(after, after.procs[p].phase) < Rank(s, s.procs[p].phase))
  {
    var proc := s.procs[p];
    assert ProcSound(h, s, proc);
    BoundLinked(h, s, proc.digest);
    if proc.phase.Removing? && m.Remove? { UnlinkFiles(h, s, proc.phase.file, None); }
    if proc.phase.Scanning? && m.Probe? && m.file in proc.phase.names {
      assert |proc.phase.names - {m.file}| == |proc.phase.names| - 1;
    }
  }

  /** A move that brings a lone verification on. */
  function Onward(s: System, proc: Proc): Move
    requires OnCourse(s, proc)
  {
    match proc.phase
    case Opening(retry, _) => if retry && LinksOf(s, proc.digest) == 2 then GiveUp else Look
    case Reading(_, _) => Read
    case Recovering(_) => List
    case Scanning(_, _) => Probe(s.bound[proc.digest])
    case Probed(_, _, _) => Recheck
    case Removing(_, _, _) => Remove
    case _ => Look
  }

  lemma NeverStuck(h: Hash, s: System, p: Pid)
    requires Inv(h, s) && p in s.procs && OnCourse(s, s.procs[p]) && !s.procs[p].phase.Done?
    ensures Apply(h, s, p, Onward(s, s.procs[p])) != s && Onward(s, s.procs[p]) != Crash
  {
    var proc, after := s.procs[p], Apply(h, s, p, Onward(s, s.procs[p]));
    assert ProcSound(h, s, proc);
    BoundLinked(h, s, proc.digest);
    assert after.procs[p].phase != proc.phase;
  }

  function Alone(p: Pid, moves: seq<Move>): seq<Step> {
    seq(|moves|, i requires 0 <= i < |moves| => Step(p, moves[i]))
  }

  /** Run on its own from any reachable state, crashed publishers and all, a verification of a
      published file of the expected size ends with that file. */
  lemma {:induction false} AloneSucceeds(h: Hash, s: System, p: Pid) returns (moves: seq<Move>)
    requires Inv(h, s) && p in s.procs && OnCourse(s, s.procs[p])
    ensures var after := Run(h, s, Alone(p, moves));
            p in after.procs && s.procs[p].digest in s.bound && after.procs[p].phase == Done(s.bound[s.procs[p].digest])
            && after.procs[p].digest == s.procs[p].digest
    decreases Rank(s, s.procs[p].phase)
  {
    assert ProcSound(h, s, s.procs[p]);
    if s.procs[p].phase.Done? {
      moves := [];
    } else {
      var m := Onward(s, s.procs[p]);
      NeverStuck(h, s, p);
      LoneMove(h, s, p, m);
      StepKeeps(h, s, p, m);
      var next := Apply(h, s, p, m);
      SameErrand(h, s, p, m);
      var rest := AloneSucceeds(h, next, p);
      moves := [m] + rest;
      assert Alone(p, moves)[1..] == Alone(p, rest);
    }
  }

  lemma SameErrand(h: Hash, s: System, p: Pid, m: Move)
    requires p in s.procs && Verifying(s.procs[p].phase) && m != Crash
    ensures p in Apply(h, s, p, m).procs && Apply(h, s, p, m).procs[p].digest == s.procs[p].digest
  {}

  // ----- the digest of a process -----

  lemma StepKeepsDigest(h: Hash, s: System, p: Pid, q: Pid, m: Move)
    requires p in s.procs && p in Apply(h, s, q, m).procs
    ensures Apply(h, s, q, m).procs[p].digest == s.procs[p].digest
  {
    if q != p { OthersUntouched(h, s, p, q, m); }
  }

  lemma SparedStays(h: Hash, s: System, p: Pid, q: Pid, m: Move)
    requires p in s.procs && !(q == p && m == Crash)
    ensures p in Apply(h, s, q, m).procs
  {
    if q != p { OthersUntouched(h, s, p, q, m); }
  }

  /** A process that is not killed keeps its errand. */
  lemma {:induction false} SameErrandRun(h: Hash, s: System, p: Pid, d: Digest, steps: seq<Step>)
    requires p in s.procs && s.procs[p].digest == d && Spares(steps, p)
    ensures p in Run(h, s, steps).procs && Run(h, s, steps).procs[p].digest == d
    decreases |steps|
  {
    if steps != [] {
      var q, m := steps[0].pid, steps[0].move;
      SparedStays(h, s, p, q, m);
      StepKeepsDigest(h, s, p, q, m);
      assert forall i :: 0 <= i < |steps[1..]| ==> steps[1..][i] == steps[i + 1];
      SameErrandRun(h, Apply(h, s, q, m), p, d, steps[1..]);
    }
  }

  // ----- together -----

  lemma {:induction false} RunSplits(h: Hash, s: System, a: seq<Step>, b: seq<Step>)
    ensures Run(h, s, a + b) == Run(h, Run(h, s, a), b)
    decreases |a|
  {
    if a == [] {
      assert a + b == b;
    } else {
      assert (a + b)[1..] == a[1..] + b;
      RunSplits(h, Apply(h, s, a[0].pid, a[0].move), a[1..], b);
    }
  }

  lemma {:induction false} AloneTouchesNoOther(h: Hash, s: System, p: Pid, q: Pid, moves: seq<Move>)
    requires p in s.procs && q != p
    ensures p in Run(h, s, Alone(q, moves)).procs && Run(h, s, Alone(q, moves)).procs[p] == s.procs[p]
    decreases |moves|
  {
    if moves != [] {
      OthersUntouched(h, s, p, q, moves[0]);
      assert Alone(q, moves)[1..] == Alone(q, moves[1..]);
      AloneTouchesNoOther(h, Apply(h, s, q, moves[0]), p, q, moves[1..]);
    }
  }

  /** About to look at a published file of the expected size: a call of get_verified that has just
      begun, or a publisher that has just lost its race. */
  predicate Reader(s: System, p: Pid, d: Digest) {
    p in s.procs && s.procs[p].digest == d && s.procs[p].phase.Opening? && s.procs[p].phase.retry && Fits(s, s.procs[p])
  }

  /** Some run in which the process is not killed ends with its failure. */
  ghost predicate CanFail(h: Hash, s: System, p: Pid) {
    exists steps :: Spares(steps, p) && p in Run(h, s, steps).procs && Run(h, s, steps).procs[p].phase == Failed
  }

  lemma Sandwiched(h: Hash, s: System, first: Step, steps: seq<Step>, last: Step)
    ensures var mid := Run(h, Apply(h, s, first.pid, first.move), steps);
            Run(h, s, [first] + (steps + [last])) == Apply(h, mid, last.pid, last.move)
  {
    var next := Apply(h, s, first.pid, first.move);
    assert ([first] + (steps + [last]))[1..] == steps + [last];
    RunSplits(h, next, steps, [last]);
    var mid := Run(h, next, steps);
    assert Run(h, mid, [last]) == Run(h, Apply(h, mid, last.pid, last.move), []);
  }

  /** Nothing the process does here ends it early, or judges bytes of its own. */
  ghost predicate Quiet(steps: seq<Step>, p: Pid) {
    forall i :: 0 <= i < |steps| && steps[i].pid == p ==>
      !steps[i].move.Crash? && !steps[i].move.Abandon? && !steps[i].move.Check?
  }

  /** Another reader recovers the file this one has given up on. */
  lemma Recovered(h: Hash, s: System, p: Pid, q: Pid, d: Digest) returns (moves: seq<Move>)
    requires Inv(h, s) && p != q && Reader(s, q, d)
    requires p in s.procs && s.procs[p].digest == d && s.procs[p].phase.Recovering?
    ensures var after := Run(h, s, Alone(q, moves));
            Inv(h, after) && LinksOf(after, d) == 1 && p in after.procs && after.procs[p] == s.procs[p]
  {
    moves := AloneSucceeds(h, s, q);
    var after := Run(h, s, Alone(q, moves));
    RunKeeps(h, s, Alone(q, moves));
    AloneTouchesNoOther(h, s, p, q, moves);
    assert ProcSound(h, after, after.procs[q]);
  }

  lemma NothingToRecover(h: Hash, s: System, p: Pid)
    requires Inv(h, s) && p in s.procs && s.procs[p].phase.Recovering? && LinksOf(s, s.procs[p].digest) == 1
    ensures p in Apply(h, s, p, List).procs && Apply(h, s, p, List).procs[p].phase == Failed
  {}

  lemma QuietBetween(p: Pid, q: Pid, moves: seq<Move>)
    requires p != q
    ensures Quiet([Step(p, GiveUp)] + (Alone(q, moves) + [Step(p, List)]), p)
  {}

  lemma GivingUp(h: Hash, s: System, p: Pid, d: Digest)
    requires Inv(h, s) && Reader(s, p, d) && LinksOf(s, d) == 2
    ensures Apply(h, s, p, GiveUp) == At(s, p, Recovering(s.procs[p].phase.left))
  {
    BoundLinked(h, s, d);
  }

  lemma Waited(h: Hash, s: System, p: Pid, q: Pid, d: Digest)
    requires Inv(h, s) && p != q && Reader(s, p, d) && Reader(s, q, d) && LinksOf(s, d) == 2
    ensures var waited := Apply(h, s, p, GiveUp);
            && Inv(h, waited) && Reader(waited, q, d)
            && p in waited.procs && waited.procs[p].digest == d && waited.procs[p].phase.Recovering?
  {
    GivingUp(h, s, p, d);
    StepKeeps(h, s, p, GiveUp);
  }

  /** One reader gives up waiting, another one recovers the file, and the first finds nothing to
      recover. */
  lemma Overtaken(h: Hash, s: System, p: Pid, q: Pid, d: Digest) returns (steps: seq<Step>)
    requires Inv(h, s) && p != q && Reader(s, p, d) && Reader(s, q, d) && LinksOf(s, d) == 2
    ensures Quiet(steps, p) && p in Run(h, s, steps).procs && Run(h, s, steps).procs[p].phase == Failed
  {
    Waited(h, s, p, q, d);
    var waited := Apply(h, s, p, GiveUp);
    var moves := Recovered(h, waited, p, q, d);
    NothingToRecover(h, Run(h, waited, Alone(q, moves)), p);
    steps := [Step(p, GiveUp)] + (Alone(q, moves) + [Step(p, List)]);
    QuietBetween(p, q, moves);
    Sandwiched(h, s, Step(p, GiveUp), Alone(q, moves), Step(p, List));
  }

  lemma {:induction false} FreshPid(used: set<Pid>) returns (p: Pid)
    ensures forall q :: q in used ==> q < p
    decreases |used|
  {
    if used == {} {
      p := 0;
    } else {
      var q :| q in used;
      var r := FreshPid(used - {q});
      p := if q < r then r else q + 1;
      assert forall x :: x in used ==> x == q || x in used - {q};
    }
  }

  /** Another process starts reading the same file. */
  lemma Joined(h: Hash, s: System, p: Pid, q: Pid, d: Digest)
    requires Inv(h, s) && Reader(s, p, d) && q !in s.procs
    ensures var joined := Apply(h, s, q, Spawn(false, d, s.procs[p].expected));
            Inv(h, joined) && Reader(joined, p, d) && Reader(joined, q, d) && LinksOf(joined, d) == LinksOf(s, d)
  {
    StepKeeps(h, s, q, Spawn(false, d, s.procs[p].expected));
  }

  /** With two links, some run makes the reader fail though it does nothing wrong. */
  lemma ReaderFails(h: Hash, s: System, p: Pid, d: Digest) returns (steps: seq<Step>)
    requires Inv(h, s) && Reader(s, p, d) && LinksOf(s, d) == 2
    ensures Quiet(steps, p) && p in Run(h, s, steps).procs && Run(h, s, steps).procs[p].phase == Failed
  {
    var q := FreshPid(s.procs.Keys);
    var spawn := Step(q, Spawn(false, d, s.procs[p].expected));
    Joined(h, s, p, q, d);
    var rest := Overtaken(h, Apply(h, s, q, spawn.move), p, q, d);
    steps := [spawn] + rest;
    assert steps[1..] == rest;
  }

  /** A reader of a published file of the expected size, and whatever goes on beside it: some run ends
      with its failure if and only if the file has two links when it begins. */
  lemma ReaderCanFailExactly(h: Hash, s: System, p: Pid, d: Digest)
    requires Inv(h, s) && Reader(s, p, d)
    ensures CanFail(h, s, p) <==> LinksOf(s, d) == 2
  {
    BoundLinked(h, s, d);
    if LinksOf(s, d) == 2 {
      var steps := ReaderFails(h, s, p, d);
      assert Spares(steps, p);
    } else {
      forall steps | Spares(steps, p) ensures p in Run(h, s, steps).procs && Run(h, s, steps).procs[p].phase != Failed {
        AssuredRun(h, s, p, steps);
      }
    }
  }

  /** A reader of an empty file whose publisher crashed between link and unlink. */
  function AfterCrash(d: Digest): System {
    System(map[0 := Inode([], 2)], {0}, map[d := 0], map[1 := Proc(d, None, Opening(true, 0))])
  }

  /** The same upload just before its link. */
  function Checked(d: Digest): System {
    System(map[0 := Inode([], 1)], {0}, map[], map[0 := Proc(d, None, Linking(0))])
  }

  function Uploading(d: Digest): seq<Step> {
    [Step(0, Spawn(true, d, None)), Step(0, Create(0)), Step(0, Check)]
  }

  function Crashing(d: Digest): seq<Step> {
    [Step(0, Link), Step(0, Crash), Step(1, Spawn(false, d, None))]
  }

  lemma RunThree(h: Hash, s: System, a: Step, b: Step, c: Step)
    ensures Run(h, s, [a, b, c]) == Apply(h, Apply(h, Apply(h, s, a.pid, a.move), b.pid, b.move), c.pid, c.move)
  {
    assert [a, b, c][1..] == [b, c] && [b, c][1..] == [c] && [c][1..] == [];
    var second := Apply(h, Apply(h, s, a.pid, a.move), b.pid, b.move);
    assert Run(h, second, [c]) == Run(h, Apply(h, second, c.pid, c.move), []);
  }

  lemma UploadChecked(h: Hash)
    ensures Run(h, EMPTY, Uploading(h([]))) == Checked(h([]))
  {
    var d := h([]);
    RunThree(h, EMPTY, Uploading(d)[0], Uploading(d)[1], Uploading(d)[2]);
    var spawned := Apply(h, EMPTY, 0, Spawn(true, d, None));
    assert spawned == System(map[], {}, map[], map[0 := Proc(d, None, Creating)]);
    var created := Apply(h, spawned, 0, Create(0));
    assert created.procs == map[0 := Proc(d, None, Writing(0))];
    assert created == System(map[0 := Inode([], 1)], {0}, map[], map[0 := Proc(d, None, Writing(0))]);
  }

  lemma UploadCrashed(h: Hash, d: Digest)
    ensures Run(h, Checked(d), Crashing(d)) == AfterCrash(d)
  {
    RunThree(h, Checked(d), Crashing(d)[0], Crashing(d)[1], Crashing(d)[2]);
    var linked := Apply(h, Checked(d), 0, Link);
    assert linked.procs == map[0 := Proc(d, None, Unlinking(0))];
    var crashed := Apply(h, linked, 0, Crash);
    assert crashed == System(map[0 := Inode([], 2)], {0}, map[d := 0], map[]);
  }

  /** So in a state that a run from the empty quarantine reaches, with nobody publishing, a reader can
      fail. */
  lemma ConcurrentReaderCanFail(h: Hash) returns (steps: seq<Step>)
    ensures var s := Run(h, EMPTY, steps);
            && s == AfterCrash(h([])) && Reader(s, 1, h([])) && CanFail(h, s, 1)
  {
    var d := h([]);
    steps := Uploading(d) + Crashing(d);
    RunSplits(h, EMPTY, Uploading(d), Crashing(d));
    UploadChecked(h);
    UploadCrashed(h, d);
    RunKeeps(h, EMPTY, steps);
    ReaderCanFailExactly(h, AfterCrash(d), 1, d);
  }
}
