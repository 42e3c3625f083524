/** The file table against what the target's threads really did to their files. */
module FileTruth {
  import opened Wrappers
  import opened Records
  import opened Tables
  import opened Kernel
  import opened Pipeline
  import opened Files
  import opened FileProvenance

  /** A call a thread is inside of. Calls entered before tracing began were never `seen`. */
  datatype Call = Call(tgid: nat, nr: int, arg0: Option<int>, path: Option<UserStr>, seen: bool)

  /** The call each thread is inside of, by thread. */
  type Flight = map<nat, Call>

  predicate IsEntry(s: Step) {
    s.Fire? && s.tp.SysEnter? && s.tp.ctx.target
  }

  predicate IsExit(s: Step) {
    s.Fire? && s.tp.SysExit? && s.tp.ctx.target
  }

  ghost function FlightNext(fl: Flight, s: Step): Flight {
    if IsEntry(s) && s.tp.nr.Some? then
      fl[s.tp.ctx.tid := Call(s.tp.ctx.tgid, s.tp.nr.value, s.tp.arg0, s.tp.path, true)]
    else if IsExit(s) then fl - {s.tp.ctx.tid}
    else fl
  }

  ghost function FlightAfter(boot: Flight, steps: seq<Step>): Flight {
    if |steps| == 0 then boot else FlightNext(FlightAfter(boot, steps[..|steps| - 1]), steps[|steps| - 1])
  }

  /** What a call that returned `ret` did to a file, if anything. */
  ghost function Effect(c: Call, ret: int, now: nat): seq<FileEvent> {
    if !c.seen then []
    else if IsOpen(c.nr) && c.path.Some? && ret >= 0 then
      [FileEvent(c.tgid, Open, AsI32(ret), 0, |c.path.value|, Padded(c.path.value, FILE_PATH_MAX), now)]
    else if IsRead(c.nr) && c.arg0.Some? && ret >= 0 then
      [FileEvent(c.tgid, Read, AsI32(c.arg0.value), ret, 0, NoPath(), now)]
    else if IsWrite(c.nr) && c.arg0.Some? && ret >= 0 then
      [FileEvent(c.tgid, Write, AsI32(c.arg0.value), ret, 0, NoPath(), now)]
    else if IsClose(c.nr) && c.arg0.Some? && ret == 0 then
      [FileEvent(c.tgid, Close, AsI32(c.arg0.value), 0, 0, NoPath(), now)]
    else []
  }

  /** All effects of calls that were entered and left while tracing, thread by thread. */
  ghost function Effects(boot: Flight, steps: seq<Step>): seq<FileEvent> {
    if |steps| == 0 then []
    else
      var before, s := steps[..|steps| - 1], steps[|steps| - 1];
      var fl := FlightAfter(boot, before);
      Effects(boot, before) +
      if IsExit(s) && s.tp.ctx.tid in fl && s.tp.ret.Some?
      then Effect(fl[s.tp.ctx.tid], s.tp.ret.value, s.tp.ctx.now) else []
  }

  /** No thread of this process is inside a call of the family. */
  ghost predicate Idle(fl: Flight, f: Family, pid: nat) {
    forall t | t in fl :: !(InFamily(fl[t].nr, f) && fl[t].tgid == pid)
  }

  /** Everything the step reads can be read, an argument worth keeping is kept, and its records
      are accepted. */
  ghost predicate LosslessCall(k: State, s: Step) {
    && (IsEntry(s) || IsExit(s) ==> Recorded(k, s.tp.ctx, s.tp.nr, s.tp.ok))
    && (IsEntry(s) ==>
          forall f: Family | InFamily(s.tp.nr.value, f) ::
            Argument(f, s.tp.arg0, s.tp.path).Some? && Insertable(k, f, s.tp.ctx.tgid, s.tp.ok))
    && (IsExit(s) ==>
          && s.tp.ret.Some?
          && (SendsFile(k, s.tp.ctx.tgid, s.tp.nr.value, s.tp.ret) ==> s.tp.ok.file && |k.file| < k.caps.file))
  }

  /** A thread is in one call at a time and leaves the call it is in. */
  ghost predicate OneCallEach(fl: Flight, s: Step) {
    && (IsEntry(s) ==> s.tp.ctx.tid !in fl)
    && (IsExit(s) ==>
          && s.tp.nr.Some? && s.tp.ctx.tid in fl
          && fl[s.tp.ctx.tid].nr == s.tp.nr.value && fl[s.tp.ctx.tid].tgid == s.tp.ctx.tgid)
  }

  /** Moreover a process has at most one call per family in flight (one of each family may
      overlap). */
  ghost predicate OrderlyCall(k: State, fl: Flight, s: Step) {
    && LosslessCall(k, s) && OneCallEach(fl, s)
    && (IsEntry(s) ==> forall f: Family | InFamily(s.tp.nr.value, f) :: Idle(fl, f, s.tp.ctx.tgid))
  }

  ghost predicate LosslessCalls(caps: Caps, boot: Flight, steps: seq<Step>) {
    && (forall t | t in boot :: !boot[t].seen)
    && forall i | 0 <= i < |steps| ::
         LosslessCall(Run(caps, steps[..i]).k, steps[i]) && OneCallEach(FlightAfter(boot, steps[..i]), steps[i])
  }

  ghost predicate OrderlyCalls(caps: Caps, boot: Flight, steps: seq<Step>) {
    && (forall t | t in boot :: !boot[t].seen)
    && forall i | 0 <= i < |steps| :: OrderlyCall(Run(caps, steps[..i]).k, FlightAfter(boot, steps[..i]), steps[i])
  }

  // ---- the invariant: what is pending is what is in flight

  ghost predicate InFlight(fl: Flight, t: nat, f: Family, pid: nat) {
    t in fl && fl[t].seen && InFamily(fl[t].nr, f) && fl[t].tgid == pid
  }

  ghost predicate PendingIsFlight(k: State, fl: Flight, f: Family) {
    && (forall t, pid | InFlight(fl, t, f, pid) ::
          Argument(f, fl[t].arg0, fl[t].path).Some? && Pending(k, f, pid) == Argument(f, fl[t].arg0, fl[t].path))
    && (forall pid: nat | Pending(k, f, pid).Some? :: exists t :: InFlight(fl, t, f, pid))
    && (forall t, u, pid | InFlight(fl, t, f, pid) && u in fl && InFamily(fl[u].nr, f) && fl[u].tgid == pid :: t == u)
  }

  lemma IdleHasNoFlight(fl: Flight, f: Family, pid: nat)
    requires Idle(fl, f, pid)
    ensures forall t :: !InFlight(fl, t, f, pid)
  {
  }

  lemma EntryKeepsPending(w: World, fl: Flight, s: Step, f: Family)
    requires PendingIsFlight(w.k, fl, f) && OrderlyCall(w.k, fl, s) && IsEntry(s)
    ensures PendingIsFlight(Next(w, s).k, FlightNext(fl, s), f)
  {
    var tid, g := s.tp.ctx.tid, s.tp.ctx.tgid;
    var fl' := FlightNext(fl, s);
    var k' := Next(w, s).k;
    forall pid: nat
      ensures Pending(k', f, pid) ==
        if InFamily(s.tp.nr.value, f) && pid == g then Argument(f, s.tp.arg0, s.tp.path) else Pending(w.k, f, pid)
    {
      StepPending(w, s, f, pid);
    }
    forall pid: nat | Pending(k', f, pid).Some? ensures exists t :: InFlight(fl', t, f, pid) {
      if InFamily(s.tp.nr.value, f) && pid == g {
        assert InFlight(fl', tid, f, pid);
      } else {
        var t :| InFlight(fl, t, f, pid);
        assert InFlight(fl', t, f, pid);
      }
    }
    if InFamily(s.tp.nr.value, f) {
      IdleHasNoFlight(fl, f, g);
    }
    forall t, pid | InFlight(fl', t, f, pid) && t != tid ensures InFlight(fl, t, f, pid) {
    }
  }

  lemma ExitKeepsPending(w: World, fl: Flight, s: Step, f: Family)
    requires PendingIsFlight(w.k, fl, f) && OrderlyCall(w.k, fl, s) && IsExit(s)
    ensures PendingIsFlight(Next(w, s).k, FlightNext(fl, s), f)
  {
    var tid, g := s.tp.ctx.tid, s.tp.ctx.tgid;
    var fl' := FlightNext(fl, s);
    var k' := Next(w, s).k;
    forall pid: nat
      ensures Pending(k', f, pid) == if InFamily(s.tp.nr.value, f) && pid == g then None else Pending(w.k, f, pid)
    {
      StepPending(w, s, f, pid);
    }
    if InFamily(s.tp.nr.value, f) {
      forall t | InFlight(fl, t, f, g) ensures t == tid {
        assert fl[tid].tgid == g && InFamily(fl[tid].nr, f);
      }
    }
    forall t, pid | InFlight(fl', t, f, pid) ensures InFlight(fl, t, f, pid) && t != tid {
    }
    forall pid: nat | Pending(k', f, pid).Some? ensures exists t :: InFlight(fl', t, f, pid) {
      var t :| InFlight(fl, t, f, pid);
      assert InFlight(fl', t, f, pid);
    }
  }

  lemma OtherKeepsPending(w: World, fl: Flight, s: Step, f: Family)
    requires PendingIsFlight(w.k, fl, f) && !IsEntry(s) && !IsExit(s)
    ensures PendingIsFlight(Next(w, s).k, FlightNext(fl, s), f)
  {
    forall pid: nat ensures Pending(Next(w, s).k, f, pid) == Pending(w.k, f, pid) {
      StepPending(w, s, f, pid);
    }
  }

  /** An orderly exit sends exactly the effect of the call its thread was in. */
  lemma ExitSendsEffect(k: State, fl: Flight, s: Step)
    requires forall f: Family :: PendingIsFlight(k, fl, f)
    requires OrderlyCall(k, fl, s) && IsExit(s)
    ensures FileOut(k, s.tp) == Effect(fl[s.tp.ctx.tid], s.tp.ret.value, s.tp.ctx.now)
  {
    var tid, g := s.tp.ctx.tid, s.tp.ctx.tgid;
    var c := fl[tid];
    var f := if IsOpen(c.nr) then OpenCalls else FdCalls;
    if InFamily(c.nr, f) {
      assert PendingIsFlight(k, fl, f);
      if c.seen {
        assert InFlight(fl, tid, f, g);
      }
      PendingDecidesOutput(k, s, f);
      assert Handle(k, s.tp).file == k.file + Effect(c, s.tp.ret.value, s.tp.ctx.now);
    } else {
      assert Handle(k, s.tp).file == k.file;
    }
  }

  /** What an exit sends, in terms of what is pending. */
  lemma PendingDecidesOutput(k: State, s: Step, f: Family)
    requires IsExit(s) && LosslessCall(k, s) && InFamily(s.tp.nr.value, f)
    ensures var g, nr, ret, now := s.tp.ctx.tgid, s.tp.nr.value, s.tp.ret.value, s.tp.ctx.now;
      Handle(k, s.tp).file == k.file +
      match Pending(k, f, g)
      case None => []
      case Some(Pathname(p)) => if ret >= 0 then [FileEvent(g, Open, AsI32(ret), 0, p.pathLen, p.path, now)] else []
      case Some(Descriptor(d)) =>
        if IsClose(nr) then (if ret == 0 then [FileEvent(g, Close, d, 0, 0, NoPath(), now)] else [])
        else if ret >= 0 then [FileEvent(g, if IsRead(nr) then Read else Write, d, ret, 0, NoPath(), now)]
        else []
  {
    assert k.file + [] == k.file;
  }

  lemma OrderlyPrefix(caps: Caps, boot: Flight, steps: seq<Step>)
    requires OrderlyCalls(caps, boot, steps) && |steps| > 0
    ensures OrderlyCalls(caps, boot, steps[..|steps| - 1])
  {
    var before := steps[..|steps| - 1];
    forall i | 0 <= i < |before|
      ensures OrderlyCall(Run(caps, before[..i]).k, FlightAfter(boot, before[..i]), before[i])
    {
      assert before[..i] == steps[..i];
    }
  }

  lemma {:induction false} PendingFollowsFlight(caps: Caps, boot: Flight, steps: seq<Step>, f: Family)
    requires OrderlyCalls(caps, boot, steps)
    ensures PendingIsFlight(Run(caps, steps).k, FlightAfter(boot, steps), f)
  {
    if |steps| > 0 {
      var before, s := steps[..|steps| - 1], steps[|steps| - 1];
      OrderlyPrefix(caps, boot, steps);
      PendingFollowsFlight(caps, boot, before, f);
      var w, fl := Run(caps, before), FlightAfter(boot, before);
      if IsEntry(s) {
        EntryKeepsPending(w, fl, s, f);
      } else if IsExit(s) {
        ExitKeepsPending(w, fl, s, f);
      } else {
        OtherKeepsPending(w, fl, s, f);
      }
    }
  }

  lemma QuietStep(k: State, s: Step)
    requires s.Fire? && !IsExit(s)
    ensures FileOut(k, s.tp) == []
  {
  }

  /** In an orderly run the file records sent are exactly the effects of the calls made. */
  lemma {:induction false} FileLogIsTruth(caps: Caps, boot: Flight, steps: seq<Step>)
    requires OrderlyCalls(caps, boot, steps)
    ensures FileLog(caps, steps) == Effects(boot, steps)
  {
    if |steps| > 0 {
      var before, s := steps[..|steps| - 1], steps[|steps| - 1];
      OrderlyPrefix(caps, boot, steps);
      FileLogIsTruth(caps, boot, before);
      if IsExit(s) {
        forall f: Family ensures PendingIsFlight(Run(caps, before).k, FlightAfter(boot, before), f) {
          PendingFollowsFlight(caps, boot, before, f);
        }
        ExitSendsEffect(Run(caps, before).k, FlightAfter(boot, before), s);
      } else if s.Fire? {
        QuietStep(Run(caps, before).k, s);
      }
    }
  }

  /** So in every reachable state of an orderly run, once queued records are taken, a row
      exists iff the descriptor was opened or transferred on; it shows the path of the last
      successful open that returned it, the sums of the transfers since, and closed iff a
      successful close came after. */
  lemma FileTableIsTruth(caps: Caps, boot: Flight, steps: seq<Step>, key: FileKey)
    requires OrderlyCalls(caps, boot, steps)
    ensures var files, made := Absorb(Run(caps, steps)).files, Effects(boot, steps);
      && (key in files <==> Birth(made, key) >= 0)
      && (key in files ==>
            var b := Birth(made, key);
            && files[key].path == (if made[b].kind == Open then FormatPath(made[b].path, made[b].pathLen) else Unknown)
            && files[key].bytesRead == PlainBytesFrom(made, key, Read, b)
            && files[key].bytesWritten == PlainBytesFrom(made, key, Write, b)
            && (files[key].closed <==> ClosedAfter(made, key, b)))
  {
    FileLogIsTruth(caps, boot, steps);
    AbsorbIsFoldOfLogs(caps, steps);
    FileTableMeaning(FileLog(caps, steps), key);
    if key in Absorb(Run(caps, steps)).files {
      SettledBytesAreSums(caps, steps, key);
    }
  }

  /** The path shown for an open is the string the call was given, cut at the buffer. */
  lemma PathIsRecovered(path: UserStr)
    ensures FormatPath(Padded(path, FILE_PATH_MAX), |path|) == Known(path, |path| == FILE_PATH_MAX)
  {
  }

  // ---- exactly when an exit is attributed to its own call

  /** An entry or exit of this process in this family. */
  predicate Touches(s: Step, f: Family, pid: nat) {
    (IsEntry(s) || IsExit(s)) && s.tp.ctx.tgid == pid && s.tp.nr.Some? && InFamily(s.tp.nr.value, f)
  }

  /** The last of them before step `i`, or -1. */
  ghost function LastTouch(steps: seq<Step>, f: Family, pid: nat, i: nat): (p: int)
    requires i <= |steps|
    ensures -1 <= p < i
    ensures p >= 0 ==> Touches(steps[p], f, pid)
    ensures forall q | p < q < i :: !Touches(steps[q], f, pid)
  {
    if i == 0 then -1
    else if Touches(steps[i - 1], f, pid) then i - 1
    else LastTouch(steps, f, pid, i - 1)
  }

  ghost function ArgumentAt(s: Step, f: Family): Option<Payload>
    requires IsEntry(s)
  {
    Argument(f, s.tp.arg0, s.tp.path)
  }

  lemma TouchDecides(k: State, s: Step, f: Family, pid: nat)
    requires LosslessCall(k, s)
    ensures Stashes(k, s, f, pid) <==> Touches(s, f, pid) && IsEntry(s)
    ensures Consumes(k, s, f, pid) <==> Touches(s, f, pid) && IsExit(s)
  {
  }

  /** Without losses, what is pending is the argument of the last family entry of the process,
      unless an exit came after it. */
  lemma {:induction false} PendingIsLast(caps: Caps, boot: Flight, steps: seq<Step>, f: Family, pid: nat, i: nat)
    requires LosslessCalls(caps, boot, steps) && i <= |steps|
    ensures var p := LastTouch(steps, f, pid, i);
      Pending(Run(caps, steps[..i]).k, f, pid) == if p >= 0 && IsEntry(steps[p]) then ArgumentAt(steps[p], f) else None
  {
    if i == 0 {
      assert Run(caps, steps[..0]) == Start(caps);
    } else {
      PendingIsLast(caps, boot, steps, f, pid, i - 1);
      PendingAt(caps, steps, f, pid, i);
      TouchDecides(Run(caps, steps[..i - 1]).k, steps[i - 1], f, pid);
    }
  }

  /** A call seen from its entry on has an argument. */
  lemma {:induction false} SeenHasArgument(caps: Caps, boot: Flight, steps: seq<Step>, i: nat, t: nat, f: Family)
    requires LosslessCalls(caps, boot, steps) && i <= |steps|
    requires t in FlightAfter(boot, steps[..i])
    requires FlightAfter(boot, steps[..i])[t].seen && InFamily(FlightAfter(boot, steps[..i])[t].nr, f)
    ensures var c := FlightAfter(boot, steps[..i])[t]; Argument(f, c.arg0, c.path).Some?
  {
    if i > 0 {
      assert steps[..i][..i - 1] == steps[..i - 1];
      var before, after := FlightAfter(boot, steps[..i - 1]), FlightAfter(boot, steps[..i]);
      if t in before && after[t] == before[t] {
        SeenHasArgument(caps, boot, steps, i - 1, t, f);
      } else {
        assert LosslessCall(Run(caps, steps[..i - 1]).k, steps[i - 1]);
      }
    }
  }

  predicate Succeeded(nr: int, ret: int) {
    if IsClose(nr) then ret == 0 else ret >= 0
  }

  /** A successful exit finds its own call's argument: the last family entry or exit of the
      process before it is an entry with that argument; for a call entered before tracing began,
      there is none or it is an exit. */
  ghost predicate FindsOwn(steps: seq<Step>, i: nat, f: Family, c: Call)
    requires i < |steps|
  {
    var p := LastTouch(steps, f, c.tgid, i);
    if c.seen then p >= 0 && IsEntry(steps[p]) && ArgumentAt(steps[p], f) == Argument(f, c.arg0, c.path)
    else p < 0 || IsExit(steps[p])
  }

  /** What a successful exit sends, and what it should send, compared by what each carries. */
  lemma SameRecordIffSameArgument(k: State, s: Step, f: Family, c: Call)
    requires IsExit(s) && LosslessCall(k, s) && InFamily(s.tp.nr.value, f)
    requires c.nr == s.tp.nr.value && c.tgid == s.tp.ctx.tgid
    requires c.seen ==> Argument(f, c.arg0, c.path).Some?
    ensures FileOut(k, s.tp) == Effect(c, s.tp.ret.value, s.tp.ctx.now) <==>
      (Succeeded(c.nr, s.tp.ret.value) ==>
        Pending(k, f, c.tgid) == if c.seen then Argument(f, c.arg0, c.path) else None)
  {
    PendingDecidesOutput(k, s, f);
    assert Handle(k, s.tp).file == k.file + FileOut(k, s.tp);
  }

  /** In a run that loses nothing, with any overlaps, an exit sends exactly the effect of the
      call its thread was in if and only if that call failed or finds its own argument. */
  lemma AttributedIff(caps: Caps, boot: Flight, steps: seq<Step>, i: nat, f: Family)
    requires LosslessCalls(caps, boot, steps)
    requires i < |steps| && IsExit(steps[i]) && InFamily(steps[i].tp.nr.value, f)
    ensures var s, c := steps[i], FlightAfter(boot, steps[..i])[steps[i].tp.ctx.tid];
      FileOut(Run(caps, steps[..i]).k, s.tp) == Effect(c, s.tp.ret.value, s.tp.ctx.now) <==>
      (Succeeded(c.nr, s.tp.ret.value) ==> FindsOwn(steps, i, f, c))
  {
    var s, k := steps[i], Run(caps, steps[..i]).k;
    var c := FlightAfter(boot, steps[..i])[s.tp.ctx.tid];
    if c.seen {
      SeenHasArgument(caps, boot, steps, i, s.tp.ctx.tid, f);
    }
    PendingIsLast(caps, boot, steps, f, c.tgid, i);
    SameRecordIffSameArgument(k, s, f, c);
  }

  // ---- exactly when the whole log is the truth

  ghost function Sent(caps: Caps, steps: seq<Step>, i: nat): seq<FileEvent>
    requires i < |steps|
  {
    if steps[i].Fire? then FileOut(Run(caps, steps[..i]).k, steps[i].tp) else []
  }

  ghost function Done(boot: Flight, steps: seq<Step>, i: nat): seq<FileEvent>
    requires i < |steps|
  {
    var fl, s := FlightAfter(boot, steps[..i]), steps[i];
    if IsExit(s) && s.tp.ctx.tid in fl && s.tp.ret.Some?
    then Effect(fl[s.tp.ctx.tid], s.tp.ret.value, s.tp.ctx.now) else []
  }

  ghost predicate Attributed(boot: Flight, steps: seq<Step>, i: nat)
    requires i < |steps|
  {
    var fl, s := FlightAfter(boot, steps[..i]), steps[i];
    IsExit(s) && s.tp.ctx.tid in fl && s.tp.ret.Some? && Succeeded(fl[s.tp.ctx.tid].nr, s.tp.ret.value) ==>
      forall f: Family | InFamily(fl[s.tp.ctx.tid].nr, f) :: FindsOwn(steps, i, f, fl[s.tp.ctx.tid])
  }

  lemma NoFamilyNoRecord(k: State, s: Step)
    requires IsExit(s) && s.tp.nr.Some? && forall f: Family :: !InFamily(s.tp.nr.value, f)
    ensures FileOut(k, s.tp) == []
  {
    assert !InFamily(s.tp.nr.value, OpenCalls) && !InFamily(s.tp.nr.value, FdCalls);
    assert Handle(k, s.tp).file == k.file;
  }

  lemma OneFamily(nr: int, f: Family, g: Family)
    requires InFamily(nr, f) && InFamily(nr, g)
    ensures f == g
  {
  }

  lemma StepAttributed(caps: Caps, boot: Flight, steps: seq<Step>, i: nat)
    requires LosslessCalls(caps, boot, steps) && i < |steps|
    ensures Sent(caps, steps, i) == Done(boot, steps, i) <==> Attributed(boot, steps, i)
  {
    var s := steps[i];
    if IsExit(s) {
      if f: Family :| InFamily(s.tp.nr.value, f) {
        AttributedIff(caps, boot, steps, i, f);
        forall g: Family | InFamily(s.tp.nr.value, g) ensures g == f {
          OneFamily(s.tp.nr.value, f, g);
        }
      } else {
        NoFamilyNoRecord(Run(caps, steps[..i]).k, s);
        assert !InFamily(s.tp.nr.value, OpenCalls) && !InFamily(s.tp.nr.value, FdCalls);
      }
    } else if s.Fire? {
      QuietStep(Run(caps, steps[..i]).k, s);
    }
  }

  lemma StepTime(caps: Caps, boot: Flight, steps: seq<Step>, i: nat)
    requires i < |steps|
    ensures |Sent(caps, steps, i)| <= 1 && |Done(boot, steps, i)| <= 1
    ensures forall e | e in Sent(caps, steps, i) + Done(boot, steps, i) :: steps[i].Fire? && e.ts == steps[i].tp.ctx.now
  {
    if steps[i].Fire? {
      SentTime(Run(caps, steps[..i]).k, steps[i].tp);
    }
  }

  lemma SentTime(k: State, tp: Tracepoint)
    ensures |FileOut(k, tp)| <= 1
    ensures forall e | e in FileOut(k, tp) :: e.ts == tp.ctx.now
  {
    if FileOut(k, tp) != [] {
      EmissionStep(k, Fire(tp));
      var e := FileOut(k, tp)[0];
      assert Handle(k, tp).file == k.file + [e];
      assert Handle(k, tp).file[|k.file|].ts == tp.ctx.now;
    }
  }

  lemma LastTells(a: seq<FileEvent>, x: seq<FileEvent>, now: nat)
    requires |x| <= 1 && (forall e | e in x :: e.ts == now) && forall e | e in a :: e.ts < now
    ensures |a + x| > 0 ==> ((a + x)[|a + x| - 1].ts == now <==> |x| == 1)
  {
    if |x| == 0 && |a| > 0 {
      assert a[|a| - 1] in a;
    }
  }

  lemma SplitByTime(a: seq<FileEvent>, x: seq<FileEvent>, b: seq<FileEvent>, y: seq<FileEvent>, now: nat)
    requires |x| <= 1 && |y| <= 1 && forall e | e in x + y :: e.ts == now
    requires forall e | e in a + b :: e.ts < now
    ensures a + x == b + y <==> a == b && x == y
  {
    LastTells(a, x, now);
    LastTells(b, y, now);
    if a + x == b + y {
      assert |a| == |b|;
      assert a == (a + x)[..|a|] == (b + y)[..|b|] == b;
      assert x == (a + x)[|a|..] == (b + y)[|b|..] == y;
    }
  }

  ghost predicate DistinctTimes(steps: seq<Step>) {
    forall i, j | 0 <= i < j < |steps| && steps[i].Fire? && steps[j].Fire? :: steps[i].tp.ctx.now < steps[j].tp.ctx.now
  }

  lemma {:induction false} LogsBefore(caps: Caps, boot: Flight, steps: seq<Step>, n: nat, now: nat)
    requires n <= |steps| && forall i | 0 <= i < n && steps[i].Fire? :: steps[i].tp.ctx.now < now
    ensures forall e | e in FileLog(caps, steps[..n]) + Effects(boot, steps[..n]) :: e.ts < now
  {
    if n > 0 {
      LogsBefore(caps, boot, steps, n - 1, now);
      LogsGrow(caps, boot, steps, n);
      StepTime(caps, boot, steps, n - 1);
    }
  }

  lemma LogsGrow(caps: Caps, boot: Flight, steps: seq<Step>, n: nat)
    requires 0 < n <= |steps|
    ensures FileLog(caps, steps[..n]) == FileLog(caps, steps[..n - 1]) + Sent(caps, steps, n - 1)
    ensures Effects(boot, steps[..n]) == Effects(boot, steps[..n - 1]) + Done(boot, steps, n - 1)
  {
    assert steps[..n][..n - 1] == steps[..n - 1];
  }

  ghost predicate Truthful(caps: Caps, boot: Flight, steps: seq<Step>, n: nat)
    requires n <= |steps|
  {
    FileLog(caps, steps[..n]) == Effects(boot, steps[..n])
  }

  lemma TruthStep(caps: Caps, boot: Flight, steps: seq<Step>, n: nat)
    requires DistinctTimes(steps) && n < |steps|
    ensures Truthful(caps, boot, steps, n + 1) <==>
      Truthful(caps, boot, steps, n) && Sent(caps, steps, n) == Done(boot, steps, n)
  {
    LogsGrow(caps, boot, steps, n + 1);
    StepTime(caps, boot, steps, n);
    if steps[n].Fire? {
      LogsBefore(caps, boot, steps, n, steps[n].tp.ctx.now);
      SplitByTime(FileLog(caps, steps[..n]), Sent(caps, steps, n),
                  Effects(boot, steps[..n]), Done(boot, steps, n), steps[n].tp.ctx.now);
    } else {
      assert FileLog(caps, steps[..n + 1]) == FileLog(caps, steps[..n]);
      assert Effects(boot, steps[..n + 1]) == Effects(boot, steps[..n]);
    }
  }

  ghost predicate AllAttributed(boot: Flight, steps: seq<Step>, n: nat)
    requires n <= |steps|
  {
    forall i | 0 <= i < n :: Attributed(boot, steps, i)
  }

  lemma AttributedSnoc(boot: Flight, steps: seq<Step>, n: nat)
    requires n < |steps|
    ensures AllAttributed(boot, steps, n + 1) <==> AllAttributed(boot, steps, n) && Attributed(boot, steps, n)
  {
  }

  ghost predicate TruthTells(caps: Caps, boot: Flight, steps: seq<Step>, n: nat)
    requires n <= |steps|
  {
    Truthful(caps, boot, steps, n) <==> AllAttributed(boot, steps, n)
  }

  lemma TruthStarts(caps: Caps, boot: Flight, steps: seq<Step>)
    ensures TruthTells(caps, boot, steps, 0)
  {
    assert steps[..0] == [];
  }

  lemma TruthTellsNext(caps: Caps, boot: Flight, steps: seq<Step>, n: nat)
    requires LosslessCalls(caps, boot, steps) && DistinctTimes(steps) && n < |steps|
    requires TruthTells(caps, boot, steps, n)
    ensures TruthTells(caps, boot, steps, n + 1)
  {
    TruthStep(caps, boot, steps, n);
    StepAttributed(caps, boot, steps, n);
    AttributedSnoc(boot, steps, n);
  }

  lemma {:induction false} Upwards(p: nat -> bool, n: nat)
    requires p(0) && forall i: nat | i < n && p(i) :: p(i + 1)
    ensures p(n)
  {
    if n > 0 {
      Upwards(p, n - 1);
    }
  }

  ghost function Told(caps: Caps, boot: Flight, steps: seq<Step>): nat -> bool {
    (n: nat) => n <= |steps| ==> TruthTells(caps, boot, steps, n)
  }

  lemma ToldNext(caps: Caps, boot: Flight, steps: seq<Step>, i: nat)
    requires LosslessCalls(caps, boot, steps) && DistinctTimes(steps) && i < |steps|
    ensures Told(caps, boot, steps)(i) ==> Told(caps, boot, steps)(i + 1)
  {
    if TruthTells(caps, boot, steps, i) {
      TruthTellsNext(caps, boot, steps, i);
    }
  }

  lemma ToldUpwards(caps: Caps, boot: Flight, steps: seq<Step>)
    requires LosslessCalls(caps, boot, steps) && DistinctTimes(steps)
    ensures forall i: nat | i < |steps| && Told(caps, boot, steps)(i) :: Told(caps, boot, steps)(i + 1)
  {
    forall i: nat | i < |steps| ensures Told(caps, boot, steps)(i) ==> Told(caps, boot, steps)(i + 1) {
      ToldNext(caps, boot, steps, i);
    }
  }

  lemma ToldAll(caps: Caps, boot: Flight, steps: seq<Step>)
    requires forall i: nat | i < |steps| && Told(caps, boot, steps)(i) :: Told(caps, boot, steps)(i + 1)
    ensures TruthTells(caps, boot, steps, |steps|)
  {
    TruthStarts(caps, boot, steps);
    assert Told(caps, boot, steps)(0);
    Upwards(Told(caps, boot, steps), |steps|);
  }

  /** For runs that lose nothing and whose tracepoints have distinct times: the records sent are
      exactly the effects of the calls made if and only if every successful call finds its own
      argument at its exit. */
  lemma LogIsTruthIffAttributed(caps: Caps, boot: Flight, steps: seq<Step>)
    requires LosslessCalls(caps, boot, steps) && DistinctTimes(steps)
    ensures FileLog(caps, steps) == Effects(boot, steps) <==> AllAttributed(boot, steps, |steps|)
  {
    ToldUpwards(caps, boot, steps);
    ToldAll(caps, boot, steps);
    assert steps[..|steps|] == steps;
  }
}
