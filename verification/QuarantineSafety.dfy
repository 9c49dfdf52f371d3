/** Every step of every process keeps the quarantine sound. */
module QuarantineSafety {
  import opened History
  import opened Quarantine

  /** What a step does to the files other processes rely on, `own` being its own staging file. */
  ghost predicate Calm(before: System, after: System, own: Option<File>) {
    && Persists(before, after)
    && forall f :: f in before.staged && f in before.inodes && f !in before.bound.Values && Some(f) != own ==>
         && f in after.staged && f in after.inodes && f !in after.bound.Values
         && after.inodes[f].content == before.inodes[f].content
  }

  lemma BoundLinked(h: Hash, s: System, d: Digest)
    requires FilesSound(h, s) && d in s.bound
    ensures s.bound[d] in s.inodes && 1 <= LinksOf(s, d) <= 2
    ensures LinksOf(s, d) == 2 <==> s.bound[d] in s.staged
  {
    assert IsBound(h, s, s.bound[d]);
  }

  lemma Unbound(h: Hash, s: System, f: File)
    requires FilesSound(h, s) && f in s.inodes
    ensures IsBound(h, s, f) <==> f in s.bound.Values
  {
    if f in s.bound.Values {
      var d :| d in s.bound && s.bound[d] == f;
      assert h(s.inodes[s.bound[d]].content) == d;
    }
  }

  lemma OtherProc(h: Hash, before: System, after: System, proc: Proc, own: Option<File>)
    requires FilesSound(h, before) && FilesSound(h, after) && Calm(before, after, own)
    requires ProcSound(h, before, proc) && (Private(proc.phase) == None || Private(proc.phase) != own)
    ensures ProcSound(h, after, proc)
  {
    var d := proc.digest;
    if d in before.bound {
      BoundLinked(h, before, d);
      BoundLinked(h, after, d);
    }
  }

  /** A step's own process and its files sound, everyone else follows. */
  lemma Assemble(h: Hash, before: System, after: System, p: Pid, own: Option<File>)
    requires Inv(h, before) && FilesSound(h, after) && Calm(before, after, own)
    requires p in before.procs && p in after.procs && after.procs == before.procs[p := after.procs[p]]
    requires ProcSound(h, after, after.procs[p])
    requires own == Private(before.procs[p].phase) || (own.Some? && own.value !in before.inodes)
    requires Private(after.procs[p].phase) == None || Private(after.procs[p].phase) == own
    ensures Inv(h, after)
  {
    forall q | q in after.procs
      ensures ProcSound(h, after, after.procs[q])
      ensures q != p ==> Private(after.procs[q].phase) == None || Private(after.procs[q].phase) != own
    {
      if q != p {
        assert ProcSound(h, before, before.procs[q]);
        OtherProc(h, before, after, before.procs[q], own);
      }
    }
  }

  /** Steps that only move their process. */
  lemma Moved(h: Hash, s: System, p: Pid, phase: Phase)
    requires Inv(h, s) && p in s.procs
    requires Private(phase) == None || Private(phase) == Private(s.procs[p].phase)
    requires ProcSound(h, s, s.procs[p].(phase := phase))
    ensures Inv(h, At(s, p, phase)) && Persists(s, At(s, p, phase))
  {
    var after := At(s, p, phase);
    assert forall f :: f in s.inodes ==> IsBound(h, after, f) == IsBound(h, s, f);
    Assemble(h, s, after, p, Private(s.procs[p].phase));
  }

  lemma CreateKeeps(h: Hash, s: System, p: Pid, f: File)
    requires Inv(h, s) && p in s.procs
    ensures Inv(h, DoCreate(s, p, f)) && Persists(s, DoCreate(s, p, f))
  {
    if s.procs[p].phase == Creating && f !in s.inodes {
      var after := DoCreate(s, p, f);
      forall g | g in s.inodes ensures IsBound(h, after, g) == IsBound(h, s, g) {}
      assert !IsBound(h, after, f);
      Assemble(h, s, after, p, Some(f));
    }
  }

  lemma AppendKeeps(h: Hash, s: System, p: Pid, chunk: Bytes)
    requires Inv(h, s) && p in s.procs
    ensures Inv(h, DoAppend(s, p, chunk)) && Persists(s, DoAppend(s, p, chunk))
  {
    var phase := s.procs[p].phase;
    if phase.Writing? {
      assert ProcSound(h, s, s.procs[p]);
      var f, after := phase.file, DoAppend(s, p, chunk);
      Unbound(h, s, f);
      assert f !in after.bound.Values;
      assert !IsBound(h, after, f);
      forall g | g in s.inodes && g != f ensures IsBound(h, after, g) == IsBound(h, s, g) {}
      Assemble(h, s, after, p, Some(f));
    }
  }

  lemma LinkFiles(h: Hash, s: System, p: Pid)
    requires Inv(h, s) && p in s.procs && s.procs[p].phase.Linking? && s.procs[p].digest !in s.bound
    ensures var f, after := s.procs[p].phase.file, DoLink(s, p);
            FilesSound(h, after) && Calm(s, after, Some(f)) && f in s.inodes
            && after.bound == s.bound[s.procs[p].digest := f]
  {
    assert ProcSound(h, s, s.procs[p]);
    var d, f, after := s.procs[p].digest, s.procs[p].phase.file, DoLink(s, p);
    Unbound(h, s, f);
    forall g | g in s.inodes && g != f ensures IsBound(h, after, g) == IsBound(h, s, g) {}
    assert IsBound(h, after, f);
    forall g | g in after.bound.Values ensures g in s.bound.Values || g == f {
      var e :| e in after.bound && after.bound[e] == g;
      assert e == d || s.bound[e] == g;
    }
  }

  lemma LinkKeeps(h: Hash, s: System, p: Pid)
    requires Inv(h, s) && p in s.procs
    ensures Inv(h, DoLink(s, p)) && Persists(s, DoLink(s, p))
  {
    var proc := s.procs[p];
    if proc.phase.Linking? {
      assert ProcSound(h, s, proc);
      if proc.digest in s.bound {
        Moved(h, s, p, Losing(proc.phase.file));
      } else {
        LinkFiles(h, s, p);
        Assemble(h, s, DoLink(s, p), p, Some(proc.phase.file));
      }
    }
  }

  /** Taking away a staging name that is private to `own` or the second name of a published file. */
  lemma UnlinkFiles(h: Hash, s: System, f: File, own: Option<File>)
    requires FilesSound(h, s) && (own == Some(f) || f in s.bound.Values)
    ensures var after := Unlink(s, f);
            && FilesSound(h, after) && Calm(s, after, own)
            && after.bound == s.bound && after.procs == s.procs
            && after.staged == s.staged - {f}
            && forall d :: d in s.bound && s.bound[d] == f ==> LinksOf(after, d) == 1
  {
    var after := Unlink(s, f);
    assert f in s.staged ==> s.inodes[f].links >= 1;
    forall g | g in s.inodes ensures IsBound(h, after, g) == IsBound(h, s, g) {}
    forall d | d in s.bound && s.bound[d] == f ensures LinksOf(after, d) == 1 {
      assert IsBound(h, s, f);
    }
  }

  lemma UnlinkOwnKeeps(h: Hash, s: System, p: Pid)
    requires Inv(h, s) && p in s.procs
    ensures Inv(h, DoUnlinkOwn(s, p)) && Persists(s, DoUnlinkOwn(s, p))
  {
    var proc, after := s.procs[p], DoUnlinkOwn(s, p);
    assert ProcSound(h, s, proc);
    match proc.phase
    case Losing(f) => UnlinkFiles(h, s, f, Some(f)); UnlinkedMoved(h, s, p, f, after.procs[p]);
    case Unlinking(f) => UnlinkFiles(h, s, f, None); UnlinkedMoved(h, s, p, f, after.procs[p]);
    case Cleaning(f) => UnlinkFiles(h, s, f, Some(f)); UnlinkedMoved(h, s, p, f, after.procs[p]);
    case _ =>
  }

  lemma UnlinkedMoved(h: Hash, s: System, p: Pid, f: File, proc: Proc)
    requires Inv(h, s) && p in s.procs && Private(proc.phase) == None
    requires Private(s.procs[p].phase) == Some(f) || (Private(s.procs[p].phase) == None && f in s.bound.Values)
    requires var gone := Unlink(s, f); ProcSound(h, gone.(procs := gone.procs[p := proc]), proc)
    ensures var gone := Unlink(s, f);
            var after := gone.(procs := gone.procs[p := proc]);
            Inv(h, after) && Persists(s, after)
  {
    assert ProcSound(h, s, s.procs[p]);
    var own := Private(s.procs[p].phase);
    UnlinkFiles(h, s, f, own);
    var gone := Unlink(s, f);
    var after := gone.(procs := gone.procs[p := proc]);
    assert FilesSound(h, after) by {
      forall g | g in after.inodes ensures IsBound(h, after, g) == IsBound(h, gone, g) {}
    }
    assert Calm(s, after, own);
    Assemble(h, s, after, p, own);
  }

  lemma LookKeeps(h: Hash, s: System, p: Pid, m: Move)
    requires Inv(h, s) && p in s.procs && (m.Look? || m.GiveUp? || m.Read?)
    ensures Inv(h, Apply(h, s, p, m)) && Persists(s, Apply(h, s, p, m))
  {
    var proc, after := s.procs[p], Apply(h, s, p, m);
    assert ProcSound(h, s, proc);
    if proc.digest in s.bound { BoundLinked(h, s, proc.digest); }
    if after != s { Moved(h, s, p, after.procs[p].phase); }
  }

  lemma RecoveryKeeps(h: Hash, s: System, p: Pid, m: Move)
    requires Inv(h, s) && p in s.procs && (m.List? || m.Probe? || m.Exhaust? || m.Recheck?)
    ensures Inv(h, Apply(h, s, p, m)) && Persists(s, Apply(h, s, p, m))
  {
    var proc, after := s.procs[p], Apply(h, s, p, m);
    assert ProcSound(h, s, proc);
    if proc.digest in s.bound { BoundLinked(h, s, proc.digest); }
    if after != s { Moved(h, s, p, after.procs[p].phase); }
  }

  lemma RemoveKeeps(h: Hash, s: System, p: Pid)
    requires Inv(h, s) && p in s.procs
    ensures Inv(h, DoRemove(s, p)) && Persists(s, DoRemove(s, p))
  {
    var proc := s.procs[p];
    if proc.phase.Removing? {
      assert ProcSound(h, s, proc);
      BoundLinked(h, s, proc.digest);
      var f := proc.phase.file;
      if f in s.staged {
        UnlinkFiles(h, s, f, None);
        UnlinkedMoved(h, s, p, f, proc.(phase := Opening(false, proc.phase.left)));
      } else {
        Moved(h, s, p, Scanning(proc.phase.names, proc.phase.left));
      }
    }
  }

  lemma WriterKeeps(h: Hash, s: System, p: Pid, m: Move)
    requires Inv(h, s) && p in s.procs && (m.Abandon? || m.Check? || m.Persist?)
    ensures Inv(h, Apply(h, s, p, m)) && Persists(s, Apply(h, s, p, m))
  {
    var after := Apply(h, s, p, m);
    assert ProcSound(h, s, s.procs[p]);
    if after != s { Moved(h, s, p, after.procs[p].phase); }
  }

  lemma SameFiles(h: Hash, s: System, procs: map<Pid, Proc>)
    requires FilesSound(h, s)
    ensures FilesSound(h, s.(procs := procs))
    ensures forall proc :: ProcSound(h, s, proc) ==> ProcSound(h, s.(procs := procs), proc)
  {
    var after := s.(procs := procs);
    forall f | f in s.inodes ensures IsBound(h, after, f) == IsBound(h, s, f) {}
    forall proc | ProcSound(h, s, proc) ensures ProcSound(h, after, proc) {
      OtherProc(h, s, after, proc, None);
    }
  }

  lemma LifeKeeps(h: Hash, s: System, p: Pid, m: Move)
    requires Inv(h, s) && (m.Spawn? || m.Crash?)
    ensures Inv(h, Apply(h, s, p, m)) && Persists(s, Apply(h, s, p, m))
  {
    SameFiles(h, s, Apply(h, s, p, m).procs);
  }

  /** Every step keeps the invariant and undoes nothing that is published. */
  lemma StepKeeps(h: Hash, s: System, p: Pid, m: Move)
    requires Inv(h, s)
    ensures Inv(h, Apply(h, s, p, m)) && Persists(s, Apply(h, s, p, m))
  {
    if m.Spawn? || m.Crash? { LifeKeeps(h, s, p, m); }
    else if p in s.procs {
      match m
      case Create(f) => CreateKeeps(h, s, p, f);
      case Append(chunk) => AppendKeeps(h, s, p, chunk);
      case Link => LinkKeeps(h, s, p);
      case UnlinkOwn => UnlinkOwnKeeps(h, s, p);
      case Remove => RemoveKeeps(h, s, p);
      case Abandon => WriterKeeps(h, s, p, m);
      case Check => WriterKeeps(h, s, p, m);
      case Persist => WriterKeeps(h, s, p, m);
      case Look => LookKeeps(h, s, p, m);
      case GiveUp => LookKeeps(h, s, p, m);
      case Read => LookKeeps(h, s, p, m);
      case List => RecoveryKeeps(h, s, p, m);
      case Probe(f) => RecoveryKeeps(h, s, p, m);
      case Exhaust => RecoveryKeeps(h, s, p, m);
      case Recheck => RecoveryKeeps(h, s, p, m);
    }
  }
}
