/** Where each file record comes from, whatever is dropped and however handlers follow each
    other. Each handler is one step here; module Races splits the exits. */
module FileProvenance {
  import opened Wrappers
  import opened Records
  import opened Kernel
  import opened Pipeline

  /** The two families of calls that leave something pending between entry and exit. */
  datatype Family = OpenCalls | FdCalls

  predicate InFamily(nr: int, f: Family) {
    match f
    case OpenCalls => IsOpen(nr)
    case FdCalls => IsFd(nr)
  }

  datatype Payload = Pathname(p: PendingOpen) | Descriptor(fd: int)

  /** What is pending for a process in one family's map. */
  function Pending(k: State, f: Family, pid: nat): Option<Payload> {
    match f
    case OpenCalls => if pid in k.open then Some(Pathname(k.open[pid])) else None
    case FdCalls => if pid in k.fd then Some(Descriptor(k.fd[pid])) else None
  }

  /** What an entry would stash, if its argument could be read. */
  function Argument(f: Family, arg0: Option<int>, path: Option<UserStr>): Option<Payload> {
    match f
    case OpenCalls =>
      if path.Some? then Some(Pathname(PendingOpen(Padded(path.value, FILE_PATH_MAX), |path.value|))) else None
    case FdCalls => if arg0.Some? then Some(Descriptor(AsI32(arg0.value))) else None
  }

  predicate Insertable(k: State, f: Family, pid: nat, ok: Grants) {
    match f
    case OpenCalls => CanInsert(k.open, pid, ok.insert)
    case FdCalls => CanInsert(k.fd, pid, ok.insert)
  }

  /** This step stashes an argument of process `pid` and the insertion succeeds. */
  predicate Stashes(k: State, s: Step, f: Family, pid: nat) {
    && s.Fire? && s.tp.SysEnter? && s.tp.ctx.tgid == pid
    && Recorded(k, s.tp.ctx, s.tp.nr, s.tp.ok) && InFamily(s.tp.nr.value, f)
    && Argument(f, s.tp.arg0, s.tp.path).Some? && Insertable(k, f, pid, s.tp.ok)
  }

  /** This step takes away whatever is pending for process `pid`. */
  predicate Consumes(k: State, s: Step, f: Family, pid: nat) {
    && s.Fire? && s.tp.SysExit? && s.tp.ctx.tgid == pid
    && Recorded(k, s.tp.ctx, s.tp.nr, s.tp.ok) && InFamily(s.tp.nr.value, f)
  }

  lemma EnterPending(k: State, s: Step, f: Family, pid: nat)
    requires s.Fire? && s.tp.SysEnter?
    ensures Pending(Handle(k, s.tp), f, pid) ==
      if Stashes(k, s, f, pid) then Argument(f, s.tp.arg0, s.tp.path) else Pending(k, f, pid)
  {
  }

  lemma ExitPending(k: State, s: Step, f: Family, pid: nat)
    requires s.Fire? && s.tp.SysExit?
    ensures Pending(Handle(k, s.tp), f, pid) == if Consumes(k, s, f, pid) then None else Pending(k, f, pid)
  {
  }

  /** How one step changes what is pending. */
  lemma StepPending(w: World, s: Step, f: Family, pid: nat)
    ensures Pending(Next(w, s).k, f, pid) ==
      if Stashes(w.k, s, f, pid) then Argument(f, s.tp.arg0, s.tp.path)
      else if Consumes(w.k, s, f, pid) then None
      else Pending(w.k, f, pid)
  {
    if s.Fire? {
      if s.tp.SysEnter? {
        EnterPending(w.k, s, f, pid);
      } else if s.tp.SysExit? {
        ExitPending(w.k, s, f, pid);
      }
    }
  }

  function FamilyOf(kind: FileKind): Family {
    if kind == Open then OpenCalls else FdCalls
  }

  /** A file record leaves only in a step that has just put an Exit record on the syscall
      ring, and it carries what was pending for that process. */
  lemma EmissionStep(k: State, s: Step)
    requires s.Fire? && FileOut(k, s.tp) != []
    ensures |FileOut(k, s.tp)| == 1
    ensures var e := FileOut(k, s.tp)[0];
      && s.tp.SysExit? && e.pid == s.tp.ctx.tgid
      && SysOut(k, s.tp) == [SyscallEvent(e.pid, Exit, AsU64(s.tp.nr.value), s.tp.ctx.now)]
      && Consumes(k, s, FamilyOf(e.kind), e.pid)
      && Pending(k, FamilyOf(e.kind), e.pid) ==
         Some(if e.kind == Open then Pathname(PendingOpen(e.path, e.pathLen)) else Descriptor(e.fd))
  {
    assert s.tp.SysExit?;
    var e := SyscallEvent(s.tp.ctx.tgid, Exit, AsU64(s.tp.nr.value), s.tp.ctx.now);
    assert Handle(k, s.tp).events == k.events + [e];
    assert Handle(k, s.tp).file == k.file + FileOut(k, s.tp);
    assert |Handle(k, s.tp).file| <= |k.file| + 1;
  }

  // ---- over whole runs

  /** Position of the last successful stash before step `i`, or -1. */
  ghost function Source(caps: Caps, steps: seq<Step>, f: Family, pid: nat, i: nat): (p: int)
    requires i <= |steps|
    ensures -1 <= p < i
    ensures p >= 0 ==> Stashes(Run(caps, steps[..p]).k, steps[p], f, pid)
  {
    if i == 0 then -1
    else if Stashes(Run(caps, steps[..i - 1]).k, steps[i - 1], f, pid) then i - 1
    else Source(caps, steps, f, pid, i - 1)
  }

  ghost predicate ConsumedBetween(caps: Caps, steps: seq<Step>, f: Family, pid: nat, p: int, i: nat)
    requires i <= |steps|
  {
    exists q: nat :: p < q < i && Consumes(Run(caps, steps[..q]).k, steps[q], f, pid)
  }

  lemma PendingAt(caps: Caps, steps: seq<Step>, f: Family, pid: nat, i: nat)
    requires 0 < i <= |steps|
    ensures var k := Run(caps, steps[..i - 1]).k;
      Pending(Run(caps, steps[..i]).k, f, pid) ==
      if Stashes(k, steps[i - 1], f, pid) then Argument(f, steps[i - 1].tp.arg0, steps[i - 1].tp.path)
      else if Consumes(k, steps[i - 1], f, pid) then None
      else Pending(k, f, pid)
  {
    RunAt(caps, steps, i);
    StepPending(Run(caps, steps[..i - 1]), steps[i - 1], f, pid);
  }

  lemma StillUnconsumed(caps: Caps, steps: seq<Step>, f: Family, pid: nat, p: int, i: nat)
    requires 0 < i <= |steps| && !ConsumedBetween(caps, steps, f, pid, p, i - 1)
    requires !Consumes(Run(caps, steps[..i - 1]).k, steps[i - 1], f, pid)
    ensures !ConsumedBetween(caps, steps, f, pid, p, i)
  {
  }

  lemma ConsumedAt(caps: Caps, steps: seq<Step>, f: Family, pid: nat, p: int, q: nat, i: nat)
    requires p < q < i <= |steps| && Consumes(Run(caps, steps[..q]).k, steps[q], f, pid)
    ensures ConsumedBetween(caps, steps, f, pid, p, i)
  {
  }

  /** What is pending was put there by the last successful stash and not consumed since. */
  lemma {:induction false} PendingHasSource(caps: Caps, steps: seq<Step>, f: Family, pid: nat, i: nat)
    requires i <= |steps| && Pending(Run(caps, steps[..i]).k, f, pid).Some?
    ensures var p := Source(caps, steps, f, pid, i);
      && p >= 0
      && Argument(f, steps[p].tp.arg0, steps[p].tp.path) == Pending(Run(caps, steps[..i]).k, f, pid)
      && !ConsumedBetween(caps, steps, f, pid, p, i)
  {
    if i > 0 {
      PendingAt(caps, steps, f, pid, i);
      if !Stashes(Run(caps, steps[..i - 1]).k, steps[i - 1], f, pid) {
        PendingHasSource(caps, steps, f, pid, i - 1);
        StillUnconsumed(caps, steps, f, pid, Source(caps, steps, f, pid, i - 1), i);
      }
    }
  }

  ghost predicate EmitsFile(caps: Caps, steps: seq<Step>, i: int) {
    0 <= i < |steps| && steps[i].Fire? && FileOut(Run(caps, steps[..i]).k, steps[i].tp) != []
  }

  ghost function Emitted(caps: Caps, steps: seq<Step>, i: nat): FileEvent
    requires EmitsFile(caps, steps, i)
  {
    FileOut(Run(caps, steps[..i]).k, steps[i].tp)[0]
  }

  ghost function SourceOf(caps: Caps, steps: seq<Step>, i: nat): int
    requires EmitsFile(caps, steps, i)
  {
    var e := Emitted(caps, steps, i);
    Source(caps, steps, FamilyOf(e.kind), e.pid, i)
  }

  /** Every file record goes back to an earlier successful stash of the same process: a
      Read, Write or Close to an entry with that descriptor, an Open to an entry with that
      path; and its step first enqueued an Exit record. */
  lemma EveryFileRecordHasSource(caps: Caps, steps: seq<Step>, i: nat)
    requires EmitsFile(caps, steps, i)
    ensures var e, p := Emitted(caps, steps, i), SourceOf(caps, steps, i);
      && 0 <= p < i
      && Stashes(Run(caps, steps[..p]).k, steps[p], FamilyOf(e.kind), e.pid)
      && (e.kind != Open ==> e.fd == AsI32(steps[p].tp.arg0.value))
      && (e.kind == Open ==>
            && e.pathLen == |steps[p].tp.path.value|
            && e.path == Padded(steps[p].tp.path.value, FILE_PATH_MAX))
      && SysOut(Run(caps, steps[..i]).k, steps[i].tp)
         == [SyscallEvent(e.pid, Exit, AsU64(steps[i].tp.nr.value), steps[i].tp.ctx.now)]
  {
    var e := Emitted(caps, steps, i);
    EmissionStep(Run(caps, steps[..i]).k, steps[i]);
    PendingHasSource(caps, steps, FamilyOf(e.kind), e.pid, i);
  }

  /** No two file records share a source. */
  lemma SourcesAreDistinct(caps: Caps, steps: seq<Step>, i: nat, j: nat)
    requires i < j && EmitsFile(caps, steps, i) && EmitsFile(caps, steps, j)
    ensures SourceOf(caps, steps, i) != SourceOf(caps, steps, j)
  {
    EveryFileRecordHasSource(caps, steps, i);
    EveryFileRecordHasSource(caps, steps, j);
    var e, p := Emitted(caps, steps, i), SourceOf(caps, steps, i);
    if p == SourceOf(caps, steps, j) {
      EmissionStep(Run(caps, steps[..i]).k, steps[i]);
      EmissionStep(Run(caps, steps[..j]).k, steps[j]);
      PendingHasSource(caps, steps, FamilyOf(e.kind), e.pid, j);
      ConsumedAt(caps, steps, FamilyOf(e.kind), e.pid, p, i, j);
      assert false;
    }
  }
}
