/** Staging names: as long as nobody is killed, each of them belongs to a publisher that is still at
    work, so nothing is left behind, by refused uploads as little as by lost races. */
module QuarantineLeftovers {
  import opened History
  import opened Quarantine
  import opened QuarantineSafety
  import opened QuarantineRuns

  /** The publisher made the name and has yet to take it away. */
  predicate Holds(phase: Phase, f: File) {
    phase == Writing(f) || phase == Linking(f) || phase == Losing(f) || phase == Cleaning(f) || phase == Unlinking(f)
  }

  ghost predicate HeldBySome(s: System, f: File) {
    exists p :: p in s.procs && Holds(s.procs[p].phase, f)
  }

  ghost predicate Tidy(s: System) {
    forall f :: f in s.staged ==> HeldBySome(s, f)
  }

  lemma UnlinkTakes(h: Hash, s: System, f: File)
    requires FilesSound(h, s)
    ensures Unlink(s, f).staged == s.staged - {f} && Unlink(s, f).procs == s.procs
  {
    if f in s.staged { assert s.inodes[f].links >= 1; }
  }

  /** A step of a publisher leaves it holding what it held, or the name is gone. */
  lemma OwnStep(h: Hash, s: System, p: Pid, m: Move, f: File)
    requires Inv(h, s) && p in s.procs && m != Crash && !m.Spawn? && Holds(s.procs[p].phase, f)
    ensures var after := Apply(h, s, p, m);
            p in after.procs && (f in after.staged ==> Holds(after.procs[p].phase, f))
  {
    assert ProcSound(h, s, s.procs[p]);
    UnlinkTakes(h, s, f);
  }

  lemma NewName(h: Hash, s: System, p: Pid, m: Move, f: File)
    requires Inv(h, s) && f in Apply(h, s, p, m).staged && f !in s.staged
    ensures var after := Apply(h, s, p, m); p in after.procs && Holds(after.procs[p].phase, f)
  {}

  lemma StepTidy(h: Hash, s: System, p: Pid, m: Move)
    requires Inv(h, s) && Tidy(s) && m != Crash
    ensures Tidy(Apply(h, s, p, m))
  {
    var after := Apply(h, s, p, m);
    forall f | f in after.staged ensures HeldBySome(after, f) {
      if f !in s.staged {
        NewName(h, s, p, m, f);
      } else {
        var q :| q in s.procs && Holds(s.procs[q].phase, f);
        if q != p {
          OthersUntouched(h, s, q, p, m);
        } else if !m.Spawn? {
          OwnStep(h, s, p, m, f);
        }
        assert q in after.procs && Holds(after.procs[q].phase, f);
      }
    }
  }

  predicate NobodyKilled(steps: seq<Step>) {
    forall i :: 0 <= i < |steps| ==> steps[i].move != Crash
  }

  lemma {:induction false} RunTidy(h: Hash, s: System, steps: seq<Step>)
    requires Inv(h, s) && Tidy(s) && NobodyKilled(steps)
    ensures Tidy(Run(h, s, steps))
    decreases |steps|
  {
    if steps != [] {
      var p, m, rest := steps[0].pid, steps[0].move, steps[1..];
      StepTidy(h, s, p, m);
      StepKeeps(h, s, p, m);
      assert forall i :: 0 <= i < |rest| ==> rest[i] == steps[i + 1];
      RunTidy(h, Apply(h, s, p, m), rest);
    }
  }

  /** Not between making a staging name and taking it away. */
  predicate Ended(phase: Phase) {
    !phase.Writing? && !phase.Linking? && !phase.Losing? && !phase.Cleaning? && !phase.Unlinking?
  }

  lemma NobodyHolds(s: System)
    requires Tidy(s) && forall p :: p in s.procs ==> Ended(s.procs[p].phase)
    ensures s.staged == {}
  {
    forall f: File ensures !HeldBySome(s, f) {}
  }

  /** When every publisher has come to its end, the staging directory is empty. */
  lemma NothingLeft(h: Hash, steps: seq<Step>)
    requires NobodyKilled(steps)
    requires forall p :: p in Run(h, EMPTY, steps).procs ==> Ended(Run(h, EMPTY, steps).procs[p].phase)
    ensures Run(h, EMPTY, steps).staged == {}
  {
    RunTidy(h, EMPTY, steps);
    NobodyHolds(Run(h, EMPTY, steps));
  }
}
