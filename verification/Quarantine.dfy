/** The quarantine directory under any number of publishers and readers, each able to stop for good
    at any system call.  A file is named by the staging name it was created under, which is random
    and never used again; so an inode has at most that name and one digest name. */
module Quarantine {
  import opened History

  type Bytes = seq<nat>
  type Hash = Bytes -> Digest
  type File = nat
  type Pid = nat

  datatype Inode = Inode(content: Bytes, links: nat)

  /** Where a process stands: `persist` from Creating, `get_verified` from Opening; a discovery job
      that finds nothing there (Absent) goes on to persist. */
  datatype Phase =
    | Creating
    | Writing(file: File)
    | Linking(file: File)
    | Losing(file: File)
    | Cleaning(file: File)
    | Unlinking(file: File)
    | Opening(retry: bool, left: nat)
    | Reading(file: File, left: nat)
    | Recovering(left: nat)
    | Scanning(names: set<File>, left: nat)
    | Probed(file: File, names: set<File>, left: nat)
    | Removing(file: File, names: set<File>, left: nat)
    | Done(file: File)
    | Absent
    | Failed

  datatype Proc = Proc(digest: Digest, expected: Option<nat>, phase: Phase)

  datatype System = System(
    inodes: map<File, Inode>,
    staged: set<File>,
    bound: map<Digest, File>,
    procs: map<Pid, Proc>)

  const EMPTY := System(map[], {}, map[], map[])

  predicate SizeFits(expected: Option<nat>, size: nat) {
    expected.Some? ==> expected.value == size
  }

  // ----- the system calls, each a step of one process -----

  datatype Move =
    | Spawn(publish: bool, digest: Digest, expected: Option<nat>)
    | Crash
    | Create(file: File)
    | Append(chunk: Bytes)
    | Abandon
    | Check
    | Link
    | UnlinkOwn
    | Look
    | GiveUp
    | Read
    | List
    | Probe(file: File)
    | Exhaust
    | Recheck
    | Remove
    | Persist

  function At(s: System, p: Pid, phase: Phase): System
    requires p in s.procs
  {
    s.(procs := s.procs[p := s.procs[p].(phase := phase)])
  }

  /** unlink(): the name goes, the inode loses a link; nothing when the name is gone already. */
  function Unlink(s: System, f: File): System {
    if f in s.staged && f in s.inodes && s.inodes[f].links > 0
    then s.(staged := s.staged - {f}, inodes := s.inodes[f := s.inodes[f].(links := s.inodes[f].links - 1)])
    else s
  }

  function DoCreate(s: System, p: Pid, f: File): System
    requires p in s.procs
  {
    if s.procs[p].phase == Creating && f !in s.inodes
    then At(s.(staged := s.staged + {f}, inodes := s.inodes[f := Inode([], 1)]), p, Writing(f))
    else s
  }

  function DoAppend(s: System, p: Pid, chunk: Bytes): System
    requires p in s.procs
  {
    var phase := s.procs[p].phase;
    if phase.Writing? && phase.file in s.inodes
    then s.(inodes := s.inodes[phase.file := s.inodes[phase.file].(content := s.inodes[phase.file].content + chunk)])
    else s
  }

  /** The digest and size tests on what was written. */
  function DoCheck(h: Hash, s: System, p: Pid): System
    requires p in s.procs
  {
    var phase := s.procs[p].phase;
    if phase.Writing? && phase.file in s.inodes then
      var content := s.inodes[phase.file].content;
      if h(content) == s.procs[p].digest && SizeFits(s.procs[p].expected, |content|)
      then At(s, p, Linking(phase.file))
      else At(s, p, Cleaning(phase.file))
    else s
  }

  /** link(): atomic, refused when the digest name exists. */
  function DoLink(s: System, p: Pid): System
    requires p in s.procs
  {
    var proc := s.procs[p];
    if proc.phase.Linking? && proc.phase.file in s.inodes then
      var f := proc.phase.file;
      if proc.digest in s.bound then At(s, p, Losing(f))
      else
        At(s.(bound := s.bound[proc.digest := f],
              inodes := s.inodes[f := s.inodes[f].(links := s.inodes[f].links + 1)]), p, Unlinking(f))
    else s
  }

  /** A publisher takes its staging name away; only the loser of a race insists that it is there,
      and that publisher then has to verify the winner's file with its own size. */
  function DoUnlinkOwn(s: System, p: Pid): System
    requires p in s.procs
  {
    var proc := s.procs[p];
    match proc.phase
    case Losing(f) =>
      if f in s.staged && f in s.inodes then
        var size := |s.inodes[f].content|;
        var next := Unlink(s, f);
        next.(procs := next.procs[p := Proc(proc.digest, Some(size), Opening(true, 1))])
      else At(s, p, Failed)
    case Unlinking(f) => At(Unlink(s, f), p, Opening(false, 0))
    case Cleaning(f) => At(Unlink(s, f), p, Failed)
    case _ => s
  }

  /** Opens the digest name and looks at the link count.  Two links may be a publisher about to
      unlink, so the first look may be repeated; GiveUp ends the repetition. */
  function DoLook(s: System, p: Pid): System
    requires p in s.procs
  {
    var proc := s.procs[p];
    if !proc.phase.Opening? then s
    else if proc.digest !in s.bound then At(s, p, if proc.phase.left > 0 then Failed else Absent)
    else if s.bound[proc.digest] !in s.inodes then s
    else
      var f := s.bound[proc.digest];
      if s.inodes[f].links == 1 then
        if SizeFits(proc.expected, |s.inodes[f].content|) then At(s, p, Reading(f, proc.phase.left))
        else At(s, p, Failed)
      else if proc.phase.retry && s.inodes[f].links == 2 then s
      else At(s, p, Failed)
  }

  function DoGiveUp(s: System, p: Pid): System
    requires p in s.procs
  {
    var proc := s.procs[p];
    if proc.phase.Opening? && proc.phase.retry && proc.digest in s.bound && s.bound[proc.digest] in s.inodes
       && s.inodes[s.bound[proc.digest]].links == 2
    then At(s, p, Recovering(proc.phase.left))
    else s
  }

  /** Hashes the open file and looks at its link count once more. */
  function DoRead(h: Hash, s: System, p: Pid): System
    requires p in s.procs
  {
    var proc := s.procs[p];
    if proc.phase.Reading? && proc.phase.file in s.inodes then
      var node := s.inodes[proc.phase.file];
      if h(node.content) != proc.digest || node.links != 1 then At(s, p, Failed)
      else if proc.phase.left > 0 then At(s, p, Opening(false, 0))
      else At(s, p, Done(proc.phase.file))
    else s
  }

  /** Recovery looks at the link count and lists the staging directory. */
  function DoList(s: System, p: Pid): System
    requires p in s.procs
  {
    var proc := s.procs[p];
    if !proc.phase.Recovering? then s
    else if proc.digest !in s.bound || s.bound[proc.digest] !in s.inodes then At(s, p, Failed)
    else if s.inodes[s.bound[proc.digest]].links != 2 then At(s, p, Failed)
    else At(s, p, Scanning(s.staged, proc.phase.left))
  }

  /** Opens one listed name and compares it with the published file. */
  function DoProbe(s: System, p: Pid, f: File): System
    requires p in s.procs
  {
    var proc := s.procs[p];
    if proc.phase.Scanning? && f in proc.phase.names then
      var rest := proc.phase.names - {f};
      if f in s.staged && f in s.inodes && s.inodes[f].links == 2 && proc.digest in s.bound
         && s.bound[proc.digest] == f && SizeFits(proc.expected, |s.inodes[f].content|)
      then At(s, p, Probed(f, rest, proc.phase.left))
      else At(s, p, Scanning(rest, proc.phase.left))
    else s
  }

  function DoExhaust(s: System, p: Pid): System
    requires p in s.procs
  {
    var phase := s.procs[p].phase;
    if phase.Scanning? && phase.names == {} then At(s, p, Failed) else s
  }

  /** Hashes the probed file and compares both descriptors again. */
  function DoRecheck(h: Hash, s: System, p: Pid): System
    requires p in s.procs
  {
    var proc := s.procs[p];
    if proc.phase.Probed? && proc.phase.file in s.inodes then
      var node := s.inodes[proc.phase.file];
      if h(node.content) == proc.digest && node.links == 2
      then At(s, p, Removing(proc.phase.file, proc.phase.names, proc.phase.left))
      else At(s, p, Scanning(proc.phase.names, proc.phase.left))
    else s
  }

  function DoRemove(s: System, p: Pid): System
    requires p in s.procs
  {
    var phase := s.procs[p].phase;
    if !phase.Removing? then s
    else if phase.file in s.staged then At(Unlink(s, phase.file), p, Opening(false, phase.left))
    else At(s, p, Scanning(phase.names, phase.left))
  }

  function DoAbandon(s: System, p: Pid): System
    requires p in s.procs
  {
    if s.procs[p].phase.Writing? then At(s, p, Cleaning(s.procs[p].phase.file)) else s
  }

  function DoPersist(s: System, p: Pid): System
    requires p in s.procs
  {
    if s.procs[p].phase == Absent then At(s, p, Creating) else s
  }

  /** One move of one process; a move out of turn changes nothing. */
  function Apply(h: Hash, s: System, p: Pid, m: Move): System {
    if m.Spawn? then
      if p in s.procs then s
      else s.(procs := s.procs[p := Proc(m.digest, m.expected, if m.publish then Creating else Opening(true, 0))])
    else if p !in s.procs then s
    else
      match m
      case Crash => s.(procs := s.procs - {p})
      case Create(f) => DoCreate(s, p, f)
      case Append(chunk) => DoAppend(s, p, chunk)
      case Abandon => DoAbandon(s, p)
      case Check => DoCheck(h, s, p)
      case Link => DoLink(s, p)
      case UnlinkOwn => DoUnlinkOwn(s, p)
      case Look => DoLook(s, p)
      case GiveUp => DoGiveUp(s, p)
      case Read => DoRead(h, s, p)
      case List => DoList(s, p)
      case Probe(f) => DoProbe(s, p, f)
      case Exhaust => DoExhaust(s, p)
      case Recheck => DoRecheck(h, s, p)
      case Remove => DoRemove(s, p)
      case Persist => DoPersist(s, p)
  }

  // ----- the invariant -----

  predicate IsBound(h: Hash, s: System, f: File)
    requires f in s.inodes
  {
    var d := h(s.inodes[f].content);
    d in s.bound && s.bound[d] == f
  }

  /** Every link count is exact, and a digest name leads to bytes of that digest. */
  ghost predicate FilesSound(h: Hash, s: System) {
    && s.staged <= s.inodes.Keys
    && (forall d :: d in s.bound ==> s.bound[d] in s.inodes && h(s.inodes[s.bound[d]].content) == d)
    && (forall f :: f in s.inodes ==>
          s.inodes[f].links == (if f in s.staged then 1 else 0) + (if IsBound(h, s, f) then 1 else 0))
  }

  /** The staging file a process has made and not yet linked. */
  function Private(phase: Phase): Option<File> {
    match phase
    case Writing(f) => Some(f)
    case Linking(f) => Some(f)
    case Losing(f) => Some(f)
    case Cleaning(f) => Some(f)
    case _ => None
  }

  function LinksOf(s: System, d: Digest): nat {
    if d in s.bound && s.bound[d] in s.inodes then s.inodes[s.bound[d]].links else 0
  }

  predicate ProcSound(h: Hash, s: System, proc: Proc) {
    var d := proc.digest;
    && (Private(proc.phase).Some? ==>
          var f := Private(proc.phase).value; f in s.staged && f in s.inodes && f !in s.bound.Values)
    && match proc.phase
       case Linking(f) => f in s.inodes && h(s.inodes[f].content) == d && SizeFits(proc.expected, |s.inodes[f].content|)
       case Losing(f) => d in s.bound
       case Unlinking(f) => d in s.bound && s.bound[d] == f && Fits(s, proc)
       case Opening(retry, left) => (left > 0 ==> d in s.bound) && (!retry ==> LinksOf(s, d) == 1)
       case Reading(f, _) => d in s.bound && s.bound[d] == f && LinksOf(s, d) == 1 && Fits(s, proc)
       case Recovering(_) => d in s.bound
       case Scanning(names, _) => d in s.bound && (LinksOf(s, d) == 2 && Fits(s, proc) ==> s.bound[d] in names)
       case Probed(f, _, _) => d in s.bound && s.bound[d] == f && Fits(s, proc)
       case Removing(f, _, _) => d in s.bound && s.bound[d] == f && Fits(s, proc)
       case Done(f) => d in s.bound && s.bound[d] == f && LinksOf(s, d) == 1 && Fits(s, proc)
       case _ => true
  }

  /** The published file has the size the process was told to expect. */
  predicate Fits(s: System, proc: Proc) {
    proc.digest in s.bound && s.bound[proc.digest] in s.inodes
    && SizeFits(proc.expected, |s.inodes[s.bound[proc.digest]].content|)
  }

  ghost predicate ProcsSound(h: Hash, s: System) {
    forall p :: p in s.procs ==> ProcSound(h, s, s.procs[p])
  }

  /** No two processes write the same staging file. */
  ghost predicate Exclusive(s: System) {
    forall p, q :: p in s.procs && q in s.procs && p != q && Private(s.procs[p].phase).Some? ==>
                     Private(s.procs[p].phase) != Private(s.procs[q].phase)
  }

  ghost predicate Inv(h: Hash, s: System) {
    FilesSound(h, s) && ProcsSound(h, s) && Exclusive(s)
  }

  /** What no step undoes: a digest name keeps its file and bytes, and one link stays one link. */
  ghost predicate Persists(before: System, after: System) {
    forall d :: d in before.bound && before.bound[d] in before.inodes ==>
                  && d in after.bound && after.bound[d] == before.bound[d]
                  && after.bound[d] in after.inodes
                  && after.inodes[after.bound[d]].content == before.inodes[before.bound[d]].content
                  && after.inodes[after.bound[d]].links <= before.inodes[before.bound[d]].links
  }
}
