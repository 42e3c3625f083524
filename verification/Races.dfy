/** File exits split where the handler looks the pending entry up and where it deletes it: two
    helper calls, between which another CPU may do anything. */
module Races {
  import opened Wrappers
  import opened Records
  import opened Kernel
  import opened Pipeline
  import opened FileProvenance

  /** What a thread's exit handler has in hand after the lookup. */
  datatype Looked = Looked(tp: Tracepoint, found: Option<Payload>)

  datatype FineWorld = FineWorld(w: World, looked: map<nat, Looked>)

  /** `Look` records the exit and looks the entry up; `Finish` deletes it and sends. Everything
      else, and every exit outside the two families, is one step as before. */
  datatype FineStep = Other(s: Step) | Look(tp: Tracepoint) | Finish(tid: nat)

  predicate IsFileExit(tp: Tracepoint) {
    tp.SysExit? && tp.nr.Some? && (IsOpen(tp.nr.value) || IsFd(tp.nr.value))
  }

  function ExitFamily(tp: Tracepoint): Family
    requires IsFileExit(tp)
  {
    if IsOpen(tp.nr.value) then OpenCalls else FdCalls
  }

  predicate Looks(k: State, s: FineStep) {
    s.Look? && IsFileExit(s.tp) && Recorded(k, s.tp.ctx, s.tp.nr, s.tp.ok)
  }

  function WithExit(k: State, tp: Tracepoint): State
    requires IsFileExit(tp)
  {
    k.(events := k.events + [SyscallEvent(tp.ctx.tgid, Exit, AsU64(tp.nr.value), tp.ctx.now)])
  }

  /** The second half: delete, read the result, send. An open deletes even if it found nothing. */
  function FinishExit(k: State, tp: Tracepoint, found: Option<Payload>): State
    requires IsFileExit(tp)
  {
    var pid, now, ret, ok := tp.ctx.tgid, tp.ctx.now, tp.ret, tp.ok;
    match found
    case None => if IsOpen(tp.nr.value) then k.(open := k.open - {pid}) else k
    case Some(Pathname(p)) =>
      var k1 := k.(open := k.open - {pid});
      if ret.None? || ret.value < 0 then k1
      else OutputFile(k1, FileEvent(pid, Open, AsI32(ret.value), 0, p.pathLen, p.path, now), ok.file)
    case Some(Descriptor(d)) =>
      var k1 := k.(fd := k.fd - {pid});
      if ret.None? || (if IsClose(tp.nr.value) then ret.value != 0 else ret.value < 0) then k1
      else if IsClose(tp.nr.value) then OutputFile(k1, FileEvent(pid, Close, d, 0, 0, NoPath(), now), ok.file)
      else
        var kind := if IsRead(tp.nr.value) then Read else Write;
        OutputFile(k1, FileEvent(pid, kind, d, ret.value, 0, NoPath(), now), ok.file)
  }

  /** Done without interruption, the two halves are the handler of the coarser model. */
  lemma ExitIsLookThenFinish(k: State, tp: Tracepoint)
    requires IsFileExit(tp) && Recorded(k, tp.ctx, tp.nr, tp.ok)
    ensures Handle(k, tp) == FinishExit(WithExit(k, tp), tp, Pending(k, ExitFamily(tp), tp.ctx.tgid))
  {
    if IsOpen(tp.nr.value) && tp.ctx.tgid !in k.open {
      assert k.open - {tp.ctx.tgid} == k.open;
    }
  }

  function FineNext(fw: FineWorld, s: FineStep): FineWorld {
    match s
    case Other(step) => if step.Fire? && IsFileExit(step.tp) then fw else fw.(w := Next(fw.w, step))
    case Look(tp) =>
      if Looks(fw.w.k, s) then
        FineWorld(World(WithExit(fw.w.k, tp), fw.w.u),
                  fw.looked[tp.ctx.tid := Looked(tp, Pending(fw.w.k, ExitFamily(tp), tp.ctx.tgid))])
      else fw
    case Finish(tid) =>
      if tid in fw.looked && IsFileExit(fw.looked[tid].tp) then
        FineWorld(World(FinishExit(fw.w.k, fw.looked[tid].tp, fw.looked[tid].found), fw.w.u), fw.looked - {tid})
      else fw
  }

  function FineRun(caps: Caps, steps: seq<FineStep>): FineWorld {
    if |steps| == 0 then FineWorld(Start(caps), map[])
    else FineNext(FineRun(caps, steps[..|steps| - 1]), steps[|steps| - 1])
  }

  function StateAt(caps: Caps, steps: seq<FineStep>, i: nat): FineWorld
    requires i <= |steps|
  {
    FineRun(caps, steps[..i])
  }

  lemma FineRunAt(caps: Caps, steps: seq<FineStep>, i: nat)
    requires i < |steps|
    ensures StateAt(caps, steps, i + 1) == FineNext(StateAt(caps, steps, i), steps[i])
  {
    assert steps[..i + 1][..i] == steps[..i];
  }

  // ---- what is pending, and since when

  predicate FineStashes(fw: FineWorld, s: FineStep, f: Family, pid: nat) {
    s.Other? && Stashes(fw.w.k, s.s, f, pid)
  }

  /** This step deletes whatever is pending for the process. */
  predicate Removes(fw: FineWorld, s: FineStep, f: Family, pid: nat) {
    && s.Finish? && s.tid in fw.looked && IsFileExit(fw.looked[s.tid].tp)
    && fw.looked[s.tid].tp.ctx.tgid == pid
    && (match fw.looked[s.tid].found
        case None => IsOpen(fw.looked[s.tid].tp.nr.value) && f == OpenCalls
        case Some(Pathname(_)) => f == OpenCalls
        case Some(Descriptor(_)) => f == FdCalls)
  }

  lemma FinishPending(k: State, tp: Tracepoint, found: Option<Payload>, f: Family, pid: nat)
    requires IsFileExit(tp)
    ensures Pending(FinishExit(k, tp, found), f, pid) ==
      if pid == tp.ctx.tgid && (match found
                                case None => IsOpen(tp.nr.value) && f == OpenCalls
                                case Some(Pathname(_)) => f == OpenCalls
                                case Some(Descriptor(_)) => f == FdCalls)
      then None else Pending(k, f, pid)
  {
  }

  lemma FinePending(fw: FineWorld, s: FineStep, f: Family, pid: nat)
    ensures Pending(FineNext(fw, s).w.k, f, pid) ==
      if FineStashes(fw, s, f, pid) then Argument(f, s.s.tp.arg0, s.s.tp.path)
      else if Removes(fw, s, f, pid) then None
      else Pending(fw.w.k, f, pid)
  {
    match s
    case Other(step) =>
      if !(step.Fire? && IsFileExit(step.tp)) {
        StepPending(fw.w, step, f, pid);
      }
    case Look(tp) =>
    case Finish(tid) =>
      if tid in fw.looked && IsFileExit(fw.looked[tid].tp) {
        FinishPending(fw.w.k, fw.looked[tid].tp, fw.looked[tid].found, f, pid);
      }
  }

  predicate StashesAt(caps: Caps, steps: seq<FineStep>, i: nat, f: Family, pid: nat)
    requires i < |steps|
  {
    FineStashes(StateAt(caps, steps, i), steps[i], f, pid)
  }

  predicate RemovesAt(caps: Caps, steps: seq<FineStep>, i: nat, f: Family, pid: nat)
    requires i < |steps|
  {
    Removes(StateAt(caps, steps, i), steps[i], f, pid)
  }

  /** The last successful stash before step `i`, or -1. */
  ghost function LastStash(caps: Caps, steps: seq<FineStep>, f: Family, pid: nat, i: nat): (p: int)
    requires i <= |steps|
    ensures -1 <= p < i
    ensures p >= 0 ==> StashesAt(caps, steps, p, f, pid)
    ensures forall q | p < q < i :: !StashesAt(caps, steps, q, f, pid)
  {
    if i == 0 then -1
    else if StashesAt(caps, steps, i - 1, f, pid) then i - 1
    else LastStash(caps, steps, f, pid, i - 1)
  }

  ghost predicate Undeleted(caps: Caps, steps: seq<FineStep>, f: Family, pid: nat, p: int, i: nat)
    requires i <= |steps|
  {
    forall q: nat | p < q < i :: !RemovesAt(caps, steps, q, f, pid)
  }

  lemma StillUndeleted(caps: Caps, steps: seq<FineStep>, f: Family, pid: nat, p: int, i: nat)
    requires i < |steps| && Undeleted(caps, steps, f, pid, p, i) && !RemovesAt(caps, steps, i, f, pid)
    ensures Undeleted(caps, steps, f, pid, p, i + 1)
  {
  }

  ghost predicate PendingSince(caps: Caps, steps: seq<FineStep>, f: Family, pid: nat, p: int, i: nat)
    requires i <= |steps|
  {
    && 0 <= p < i && StashesAt(caps, steps, p, f, pid)
    && Pending(StateAt(caps, steps, i).w.k, f, pid) == Argument(f, steps[p].s.tp.arg0, steps[p].s.tp.path)
    && Undeleted(caps, steps, f, pid, p, i)
  }

  lemma PendingNext(caps: Caps, steps: seq<FineStep>, f: Family, pid: nat, i: nat)
    requires i < |steps| && Pending(StateAt(caps, steps, i + 1).w.k, f, pid).Some?
    ensures
      if StashesAt(caps, steps, i, f, pid) then PendingSince(caps, steps, f, pid, i, i + 1)
      else
        && !RemovesAt(caps, steps, i, f, pid)
        && Pending(StateAt(caps, steps, i + 1).w.k, f, pid) == Pending(StateAt(caps, steps, i).w.k, f, pid)
  {
    FineRunAt(caps, steps, i);
    FinePending(StateAt(caps, steps, i), steps[i], f, pid);
  }

  /** What is pending was put there by the last stash and not deleted since. */
  lemma {:induction false} PendingHasStash(caps: Caps, steps: seq<FineStep>, f: Family, pid: nat, i: nat)
    requires i <= |steps| && Pending(StateAt(caps, steps, i).w.k, f, pid).Some?
    ensures PendingSince(caps, steps, f, pid, LastStash(caps, steps, f, pid, i), i)
  {
    if i > 0 {
      PendingNext(caps, steps, f, pid, i - 1);
      if !StashesAt(caps, steps, i - 1, f, pid) {
        PendingHasStash(caps, steps, f, pid, i - 1);
        StillUndeleted(caps, steps, f, pid, LastStash(caps, steps, f, pid, i - 1), i - 1);
      }
    }
  }

  // ---- what a thread has in hand, and since when

  predicate LooksAt(caps: Caps, steps: seq<FineStep>, i: nat, tid: nat)
    requires i < |steps|
  {
    Looks(StateAt(caps, steps, i).w.k, steps[i]) && steps[i].tp.ctx.tid == tid
  }

  /** The thread's last lookup before step `i`, or -1. */
  ghost function LastLook(caps: Caps, steps: seq<FineStep>, tid: nat, i: nat): (q: int)
    requires i <= |steps|
    ensures -1 <= q < i
    ensures q >= 0 ==> LooksAt(caps, steps, q, tid)
    ensures forall r | q < r < i :: !LooksAt(caps, steps, r, tid)
  {
    if i == 0 then -1
    else if LooksAt(caps, steps, i - 1, tid) then i - 1
    else LastLook(caps, steps, tid, i - 1)
  }

  lemma LookedNext(fw: FineWorld, s: FineStep, tid: nat)
    ensures var after := FineNext(fw, s).looked;
      if Looks(fw.w.k, s) && s.tp.ctx.tid == tid
      then tid in after && after[tid] == Looked(s.tp, Pending(fw.w.k, ExitFamily(s.tp), s.tp.ctx.tgid))
      else
        tid in after ==>
          && tid in fw.looked && after[tid] == fw.looked[tid]
          && (s != Finish(tid) || !IsFileExit(fw.looked[tid].tp))
  {
  }

  /** What a thread has in hand is what its last lookup saw, and it has not finished since. */
  lemma {:induction false} InHandFromLook(caps: Caps, steps: seq<FineStep>, tid: nat, i: nat)
    requires i <= |steps| && tid in StateAt(caps, steps, i).looked
    ensures var q := LastLook(caps, steps, tid, i);
      && q >= 0
      && StateAt(caps, steps, i).looked[tid] ==
         Looked(steps[q].tp, Pending(StateAt(caps, steps, q).w.k, ExitFamily(steps[q].tp), steps[q].tp.ctx.tgid))
      && forall r | q < r < i :: steps[r] != Finish(tid)
  {
    if i > 0 {
      FineRunAt(caps, steps, i - 1);
      LookedNext(StateAt(caps, steps, i - 1), steps[i - 1], tid);
      if !LooksAt(caps, steps, i - 1, tid) {
        InHandFromLook(caps, steps, tid, i - 1);
      }
    }
  }

  // ---- records

  /** Step `i` sends a file record. */
  ghost predicate SendsAt(caps: Caps, steps: seq<FineStep>, i: int) {
    0 <= i < |steps| && StateAt(caps, steps, i + 1).w.k.file != StateAt(caps, steps, i).w.k.file && steps[i].Finish?
  }

  /** The lookup of the exit that finishes at step `i`. */
  ghost function LookOf(caps: Caps, steps: seq<FineStep>, i: nat): int
    requires i < |steps| && steps[i].Finish?
  {
    LastLook(caps, steps, steps[i].tid, i)
  }

  lemma SendingFinish(fw: FineWorld, tid: nat)
    requires FineNext(fw, Finish(tid)).w.k.file != fw.w.k.file
    ensures tid in fw.looked && IsFileExit(fw.looked[tid].tp) && fw.looked[tid].found.Some?
    ensures var tp, found := fw.looked[tid].tp, fw.looked[tid].found.value;
      exists e ::
        && FineNext(fw, Finish(tid)).w.k.file == fw.w.k.file + [e] && e.pid == tp.ctx.tgid
        && (e.kind == Open <==> found.Pathname?)
        && found == if e.kind == Open then Pathname(PendingOpen(e.path, e.pathLen)) else Descriptor(e.fd)
  {
    var k' := FineNext(fw, Finish(tid)).w.k;
    var e := k'.file[|k'.file| - 1];
    assert k'.file == fw.w.k.file + [e];
  }

  lemma SendHasLook(caps: Caps, steps: seq<FineStep>, i: nat)
    requires SendsAt(caps, steps, i)
    ensures var q, fw := LookOf(caps, steps, i), StateAt(caps, steps, i);
      && 0 <= q < i && IsFileExit(steps[q].tp)
      && steps[i].tid in fw.looked && fw.looked[steps[i].tid].tp == steps[q].tp
      && fw.looked[steps[i].tid].found.Some?
      && fw.looked[steps[i].tid].found ==
         Pending(StateAt(caps, steps, q).w.k, ExitFamily(steps[q].tp), steps[q].tp.ctx.tgid)
      && forall r | q < r < i :: steps[r] != Finish(steps[i].tid)
  {
    FineRunAt(caps, steps, i);
    SendingFinish(StateAt(caps, steps, i), steps[i].tid);
    InHandFromLook(caps, steps, steps[i].tid, i);
  }

  /** The process and family of the exit, and the stash its lookup saw. */
  ghost function PidOf(caps: Caps, steps: seq<FineStep>, i: nat): nat
    requires SendsAt(caps, steps, i)
  {
    SendHasLook(caps, steps, i);
    steps[LookOf(caps, steps, i)].tp.ctx.tgid
  }

  ghost function FamilyAt(caps: Caps, steps: seq<FineStep>, i: nat): Family
    requires SendsAt(caps, steps, i)
  {
    SendHasLook(caps, steps, i);
    ExitFamily(steps[LookOf(caps, steps, i)].tp)
  }

  ghost function StashOf(caps: Caps, steps: seq<FineStep>, i: nat): int
    requires SendsAt(caps, steps, i)
  {
    SendHasLook(caps, steps, i);
    LastStash(caps, steps, FamilyAt(caps, steps, i), PidOf(caps, steps, i), LookOf(caps, steps, i))
  }

  /** Every record goes back, through its exit's lookup, to an earlier stash of the same process
      with what the record carries; nothing was deleted between that stash and the lookup. */
  lemma RecordHasStash(caps: Caps, steps: seq<FineStep>, i: nat)
    requires SendsAt(caps, steps, i)
    ensures var q := LookOf(caps, steps, i);
      && 0 <= q < i
      && var p, f, pid := StashOf(caps, steps, i), FamilyAt(caps, steps, i), PidOf(caps, steps, i);
         && 0 <= p < q && StashesAt(caps, steps, p, f, pid)
         && Undeleted(caps, steps, f, pid, p, q)
         && (forall r | q < r < i :: steps[r] != Finish(steps[i].tid))
         && exists e ::
              && StateAt(caps, steps, i + 1).w.k.file == StateAt(caps, steps, i).w.k.file + [e] && e.pid == pid
              && Argument(f, steps[p].s.tp.arg0, steps[p].s.tp.path) ==
                 Some(if e.kind == Open then Pathname(PendingOpen(e.path, e.pathLen)) else Descriptor(e.fd))
  {
    FineRunAt(caps, steps, i);
    SendingFinish(StateAt(caps, steps, i), steps[i].tid);
    SendHasLook(caps, steps, i);
    PendingHasStash(caps, steps, FamilyAt(caps, steps, i), PidOf(caps, steps, i), LookOf(caps, steps, i));
  }

  /** Two sending exits never share a lookup. */
  lemma LooksDiffer(caps: Caps, steps: seq<FineStep>, i: nat, j: nat)
    requires i < j && SendsAt(caps, steps, i) && SendsAt(caps, steps, j)
    ensures LookOf(caps, steps, i) != LookOf(caps, steps, j)
  {
    SendHasLook(caps, steps, i);
    SendHasLook(caps, steps, j);
  }

  lemma OneStasher(fw: FineWorld, s: FineStep, f: Family, pid: nat, g: Family, other: nat)
    requires FineStashes(fw, s, f, pid) && FineStashes(fw, s, g, other)
    ensures f == g && pid == other
  {
  }

  ghost predicate StashBetween(caps: Caps, steps: seq<FineStep>, f: Family, pid: nat, a: int, b: int)
    requires b <= |steps|
  {
    exists q: nat :: a < q < b && StashesAt(caps, steps, q, f, pid)
  }

  /** Exactly when two records come from one stash: their exits belong to one process and family,
      and no stash lies between their lookups. */
  lemma SharesStashIff(caps: Caps, steps: seq<FineStep>, i: nat, j: nat)
    requires SendsAt(caps, steps, i) && SendsAt(caps, steps, j)
    requires LookOf(caps, steps, i) < LookOf(caps, steps, j)
    ensures StashOf(caps, steps, i) == StashOf(caps, steps, j) <==>
      && FamilyAt(caps, steps, i) == FamilyAt(caps, steps, j) && PidOf(caps, steps, i) == PidOf(caps, steps, j)
      && !StashBetween(caps, steps, FamilyAt(caps, steps, i), PidOf(caps, steps, i),
                       LookOf(caps, steps, i), LookOf(caps, steps, j))
  {
    RecordHasStash(caps, steps, i);
    RecordHasStash(caps, steps, j);
    var f, pid := FamilyAt(caps, steps, i), PidOf(caps, steps, i);
    var g, other := FamilyAt(caps, steps, j), PidOf(caps, steps, j);
    var p, r := StashOf(caps, steps, i), StashOf(caps, steps, j);
    if p == r {
      OneStasher(StateAt(caps, steps, p), steps[p], f, pid, g, other);
    }
  }

  lemma RemovedAtFinish(caps: Caps, steps: seq<FineStep>, i: nat)
    requires SendsAt(caps, steps, i)
    ensures RemovesAt(caps, steps, i, FamilyAt(caps, steps, i), PidOf(caps, steps, i))
  {
    SendHasLook(caps, steps, i);
  }

  /** So sharing needs two exits of one process that overlap: the later lookup comes before the
      earlier exit's deletion. */
  lemma SharingNeedsOverlap(caps: Caps, steps: seq<FineStep>, i: nat, j: nat)
    requires SendsAt(caps, steps, i) && SendsAt(caps, steps, j)
    requires LookOf(caps, steps, i) < LookOf(caps, steps, j)
    requires StashOf(caps, steps, i) == StashOf(caps, steps, j)
    ensures LookOf(caps, steps, j) < i
  {
    SharesStashIff(caps, steps, i, j);
    RecordHasStash(caps, steps, i);
    RecordHasStash(caps, steps, j);
    RemovedAtFinish(caps, steps, i);
    assert LookOf(caps, steps, j) != i;
  }

  // ---- over whole runs

  ghost predicate DistinctStashes(caps: Caps, steps: seq<FineStep>) {
    forall i, j | 0 <= i < j && SendsAt(caps, steps, i) && SendsAt(caps, steps, j) ::
      StashOf(caps, steps, i) != StashOf(caps, steps, j)
  }

  /** `i` and `j` are exits of one process and family, and `i` looked first. */
  ghost predicate Rivals(caps: Caps, steps: seq<FineStep>, i: int, j: int) {
    && SendsAt(caps, steps, i) && SendsAt(caps, steps, j)
    && LookOf(caps, steps, i) < LookOf(caps, steps, j)
    && FamilyAt(caps, steps, i) == FamilyAt(caps, steps, j) && PidOf(caps, steps, i) == PidOf(caps, steps, j)
  }

  ghost predicate RivalsParted(caps: Caps, steps: seq<FineStep>) {
    forall i, j | Rivals(caps, steps, i, j) :: Parted(caps, steps, i, j)
  }

  ghost predicate Parted(caps: Caps, steps: seq<FineStep>, i: int, j: int)
    requires Rivals(caps, steps, i, j)
  {
    StashBetween(caps, steps, FamilyAt(caps, steps, i), PidOf(caps, steps, i),
                 LookOf(caps, steps, i), LookOf(caps, steps, j))
  }

  /** For two sending exits, in order of lookup. */
  lemma PairShares(caps: Caps, steps: seq<FineStep>, i: nat, j: nat)
    requires SendsAt(caps, steps, i) && SendsAt(caps, steps, j) && LookOf(caps, steps, i) < LookOf(caps, steps, j)
    ensures StashOf(caps, steps, i) == StashOf(caps, steps, j) <==>
      Rivals(caps, steps, i, j) && !Parted(caps, steps, i, j)
  {
    SharesStashIff(caps, steps, i, j);
  }

  lemma PartedAreDistinct(caps: Caps, steps: seq<FineStep>)
    requires RivalsParted(caps, steps)
    ensures DistinctStashes(caps, steps)
  {
    forall i, j | 0 <= i < j && SendsAt(caps, steps, i) && SendsAt(caps, steps, j)
      ensures StashOf(caps, steps, i) != StashOf(caps, steps, j)
    {
      LooksDiffer(caps, steps, i, j);
      if LookOf(caps, steps, i) < LookOf(caps, steps, j) {
        PairShares(caps, steps, i, j);
      } else {
        PairShares(caps, steps, j, i);
      }
    }
  }

  lemma SharedAreNotDistinct(caps: Caps, steps: seq<FineStep>, i: nat, j: nat)
    requires Rivals(caps, steps, i, j) && StashOf(caps, steps, i) == StashOf(caps, steps, j)
    ensures !DistinctStashes(caps, steps)
  {
    assert i < j || j < i;
  }

  lemma DistinctAreParted(caps: Caps, steps: seq<FineStep>)
    requires DistinctStashes(caps, steps)
    ensures RivalsParted(caps, steps)
  {
    forall i, j | Rivals(caps, steps, i, j) ensures Parted(caps, steps, i, j) {
      PairShares(caps, steps, i, j);
      if StashOf(caps, steps, i) == StashOf(caps, steps, j) {
        SharedAreNotDistinct(caps, steps, i, j);
        assert false;
      }
    }
  }

  /** In any run of the split handlers, no two records come from one stash if and only if
      between the lookups of any two sending exits of one process and family there is a stash. */
  lemma DistinctStashesIff(caps: Caps, steps: seq<FineStep>)
    ensures DistinctStashes(caps, steps) <==> RivalsParted(caps, steps)
  {
    if RivalsParted(caps, steps) {
      PartedAreDistinct(caps, steps);
    }
    if DistinctStashes(caps, steps) {
      DistinctAreParted(caps, steps);
    }
  }

  /** In particular when exits of one process and family do not overlap. */
  lemma SeparateExitsAreDistinct(caps: Caps, steps: seq<FineStep>)
    requires forall i, j | Rivals(caps, steps, i, j) :: i < LookOf(caps, steps, j)
    ensures DistinctStashes(caps, steps)
  {
    forall i, j | Rivals(caps, steps, i, j) ensures Parted(caps, steps, i, j) {
      PairShares(caps, steps, i, j);
      if StashOf(caps, steps, i) == StashOf(caps, steps, j) {
        SharingNeedsOverlap(caps, steps, i, j);
        assert false;
      }
    }
    PartedAreDistinct(caps, steps);
  }
}
