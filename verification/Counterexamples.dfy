/** Small runs that show why each hypothesis is there. */
module Counterexamples {
  import opened Wrappers
  import opened Records
  import opened Folds
  import opened Tables
  import opened Kernel
  import opened Pipeline
  import opened Refinement
  import opened Syscalls
  import opened SyscallTruth
  import opened Agreement
  import opened FileProvenance
  import opened FileTruth
  import opened Races

  const ACCEPT := Grants(true, true, true, true, true)
  const REFUSE := Grants(true, false, true, true, true)

  // ---- lost syscall records

  /** Two threads of process 1 make syscall 0 for one nanosecond each; the ring refuses the
      Exit of the first and the Enter of the second. */
  function LossyRun(): seq<Step> {
    [ Fire(SysEnter(Ctx(1, 1, true, 0), Some(0), None, None, ACCEPT)),
      Fire(SysExit(Ctx(1, 1, true, 1), Some(0), None, REFUSE)),
      Fire(SysEnter(Ctx(2, 1, true, 99), Some(0), None, None, REFUSE)),
      Fire(SysExit(Ctx(2, 1, true, 100), Some(0), None, ACCEPT)),
      TakeSyscall, TakeSyscall ]
  }

  lemma LossyRings()
    ensures Run(Caps(8, 8, 8, 8), LossyRun()[..4])
      == World(Init(Caps(8, 8, 8, 8)).(
           events := [SyscallEvent(1, Enter, 0, 0), SyscallEvent(1, Exit, 0, 100)]), NO_TABLES)
  {
    var steps, caps := LossyRun(), Caps(8, 8, 8, 8);
    var k0 := Init(caps);
    var k1 := k0.(events := [SyscallEvent(1, Enter, 0, 0)]);
    assert steps[..0] == [] && Run(caps, steps[..0]) == World(k0, NO_TABLES);
    RunAt(caps, steps, 1);
    assert Run(caps, steps[..1]) == World(k1, NO_TABLES);
    RunAt(caps, steps, 2);
    assert Run(caps, steps[..2]) == World(k1, NO_TABLES);
    RunAt(caps, steps, 3);
    assert Run(caps, steps[..3]) == World(k1, NO_TABLES);
    RunAt(caps, steps, 4);
  }

  lemma LossyTable()
    ensures Run(Caps(8, 8, 8, 8), LossyRun()).u.sys.stats == map[0 := SyscallStats(1, 100)]
  {
    var steps, caps := LossyRun(), Caps(8, 8, 8, 8);
    LossyRings();
    LossyDrain(caps, Run(caps, steps[..4]).k);
    RunAt(caps, steps, 5);
    RunAt(caps, steps, 6);
    assert steps[..6] == steps;
  }

  lemma LossyDrain(caps: Caps, k: State)
    requires k.events == [SyscallEvent(1, Enter, 0, 0), SyscallEvent(1, Exit, 0, 100)]
    ensures Next(Next(World(k, NO_TABLES), TakeSyscall), TakeSyscall).u.sys.stats == map[0 := SyscallStats(1, 100)]
  {
    assert SysStep(NO_SYS, k.events[0]) == SysTable(map[(1, 0) := 0], map[]);
  }

  /** With losses the table can show more time than was spent: 100ns here against 2ns. The
      lost Exit is the one whose place was taken. */
  lemma LossCanOverstate()
    ensures var steps, caps, calls := LossyRun(), Caps(8, 8, 8, 8), LossyBoundaries();
      && Describes(calls, Fires(steps)) && WellFormed(calls) && UpToNow(calls, 100)
      && StatsOf(Run(caps, steps).u.sys.stats, 0).totalNs == 100
      && TrueTime(calls, Number(0), 100, |calls|) == 2
      && ExitLostBefore(calls, [0, 3], 0, 3)
  {
    LossyTable();
    LossyCallsAre();
    LossyCalls();
  }

  function LossyBoundaries(): seq<Traced> {
    [ Traced(1, SyscallEvent(1, Enter, 0, 0)), Traced(1, SyscallEvent(1, Exit, 0, 1)),
      Traced(2, SyscallEvent(1, Enter, 0, 99)), Traced(2, SyscallEvent(1, Exit, 0, 100)) ]
  }

  lemma LossyCallsAre()
    ensures Describes(LossyBoundaries(), Fires(LossyRun()))
  {
    var steps, calls := LossyRun(), LossyBoundaries();
    var tps := [steps[0].tp, steps[1].tp, steps[2].tp, steps[3].tp];
    assert Fires(steps[..0]) == [];
    FiresOne(steps, 0, []);
    FiresOne(steps, 1, tps[..1]);
    FiresOne(steps, 2, tps[..2]);
    FiresOne(steps, 3, tps[..3]);
    FiresOne(steps, 4, tps);
    FiresOne(steps, 5, tps);
    assert steps[..6] == steps;
    DescribesFour(calls, tps);
  }

  lemma LossyCalls()
    ensures var calls := LossyBoundaries();
      && WellFormed(calls) && Nondecreasing(Events(calls))
      && TrueTime(calls, Number(0), 100, 4) == 2 && EndOf(calls, 0) == 1
  {
    var calls := LossyBoundaries();
    assert EndOf(calls, 0) == 1;
    assert NextOfThread(calls, 2, 3) == 3 && EndOf(calls, 2) == 3;
    assert TrueTime(calls, Number(0), 100, 1) == 1;
    assert TrueTime(calls, Number(0), 100, 2) == 1;
    assert TrueTime(calls, Number(0), 100, 3) == 2;
  }

  lemma FiresOne(steps: seq<Step>, n: nat, tps: seq<Tracepoint>)
    requires n < |steps| && Fires(steps[..n]) == tps
    ensures Fires(steps[..n + 1]) == tps + if steps[n].Fire? then [steps[n].tp] else []
  {
    assert steps[..n + 1][..n] == steps[..n];
  }

  lemma DescribesFour(calls: seq<Traced>, tps: seq<Tracepoint>)
    requires |calls| == 4 && |tps| == 4
    requires forall i | 0 <= i < 4 :: IsBoundary(tps[i]) && Shows(tps[i], calls[i])
    ensures Describes(calls, tps)
  {
    assert Describes(calls[..0], tps[..0]);
    assert calls[..1][..0] == calls[..0] && tps[..1][..0] == tps[..0] && Describes(calls[..1], tps[..1]);
    assert calls[..2][..1] == calls[..1] && tps[..2][..1] == tps[..1] && Describes(calls[..2], tps[..2]);
    assert calls[..3][..2] == calls[..2] && tps[..3][..2] == tps[..2] && Describes(calls[..3], tps[..3]);
    assert calls[..4][..3] == calls[..3] && tps[..4][..3] == tps[..3] && calls[..4] == calls && tps[..4] == tps;
  }

  // ---- overlapping descriptor calls

  /** Threads 1 and 2 of process 1 are both inside read: 100 bytes from descriptor 5 and one
      byte from descriptor 7. Nothing is lost. */
  function OverlappingReads(): seq<Step> {
    [ Fire(SysEnter(Ctx(1, 1, true, 0), Some(SYS_READ), Some(5), None, ACCEPT)),
      Fire(SysEnter(Ctx(2, 1, true, 1), Some(SYS_READ), Some(7), None, ACCEPT)),
      Fire(SysExit(Ctx(1, 1, true, 2), Some(SYS_READ), Some(100), ACCEPT)),
      Fire(SysExit(Ctx(2, 1, true, 3), Some(SYS_READ), Some(1), ACCEPT)) ]
  }

  /** The 100 bytes are shown on the wrong descriptor and the other read is not shown. */
  lemma OverlapMisattributes()
    ensures var steps := OverlappingReads();
      && FileLog(Caps(8, 8, 8, 8), steps) == [FileEvent(1, Read, 7, 100, 0, NoPath(), 2)]
      && Effects(map[], steps) ==
         [FileEvent(1, Read, 5, 100, 0, NoPath(), 2), FileEvent(1, Read, 7, 1, 0, NoPath(), 3)]
  {
    OverlapShown();
    OverlapMade();
  }

  lemma OverlapStashed()
    ensures Run(Caps(8, 8, 8, 8), OverlappingReads()[..2]).k ==
      Init(Caps(8, 8, 8, 8)).(fd := map[1 := 7],
        events := [SyscallEvent(1, Enter, 63, 0), SyscallEvent(1, Enter, 63, 1)])
  {
    var steps, caps := OverlappingReads(), Caps(8, 8, 8, 8);
    assert steps[..0] == [] && Run(caps, steps[..0]).k == Init(caps);
    RunAt(caps, steps, 1);
    assert Run(caps, steps[..1]).k == Init(caps).(events := [SyscallEvent(1, Enter, 63, 0)], fd := map[1 := 5]);
    RunAt(caps, steps, 2);
  }

  lemma OverlapEmitted(k: State)
    requires k.fd == map[1 := 7] && |k.events| == 2 && k.file == [] && k.caps == Caps(8, 8, 8, 8)
    ensures var steps := OverlappingReads();
      Handle(Handle(k, steps[2].tp), steps[3].tp).file == [FileEvent(1, Read, 7, 100, 0, NoPath(), 2)]
  {
    var k' := Handle(k, OverlappingReads()[2].tp);
    assert k'.fd == map[] && k'.file == [FileEvent(1, Read, 7, 100, 0, NoPath(), 2)];
  }

  lemma OverlapShown()
    ensures FileLog(Caps(8, 8, 8, 8), OverlappingReads()) == [FileEvent(1, Read, 7, 100, 0, NoPath(), 2)]
  {
    var steps, caps := OverlappingReads(), Caps(8, 8, 8, 8);
    OverlapStashed();
    OverlapEmitted(Run(caps, steps[..2]).k);
    RunAt(caps, steps, 3);
    RunAt(caps, steps, 4);
    assert steps[..4] == steps;
    NothingTaken(caps, steps, 4);
  }

  /** While nothing is taken, the file ring holds all records sent so far. */
  lemma {:induction false} NothingTaken(caps: Caps, steps: seq<Step>, n: nat)
    requires n <= |steps| && forall i | 0 <= i < n :: steps[i].Fire?
    ensures FileLog(caps, steps[..n]) == Run(caps, steps[..n]).k.file
  {
    if n > 0 {
      NothingTaken(caps, steps, n - 1);
      RunAt(caps, steps, n);
      assert steps[..n][..n - 1] == steps[..n - 1];
      OutputsAreAppended(Run(caps, steps[..n - 1]).k, steps[n - 1].tp);
    }
  }

  lemma OverlapMade()
    ensures Effects(map[], OverlappingReads()) ==
      [FileEvent(1, Read, 5, 100, 0, NoPath(), 2), FileEvent(1, Read, 7, 1, 0, NoPath(), 3)]
  {
    var steps := OverlappingReads();
    var c1, c2 := Call(1, SYS_READ, Some(5), None, true), Call(1, SYS_READ, Some(7), None, true);
    assert steps[..0] == [] && FlightAfter(map[], steps[..0]) == map[];
    assert steps[..1][..0] == steps[..0] && FlightAfter(map[], steps[..1]) == map[1 := c1];
    assert steps[..2][..1] == steps[..1] && FlightAfter(map[], steps[..2]) == map[1 := c1, 2 := c2];
    assert steps[..3][..2] == steps[..2] && FlightAfter(map[], steps[..3]) == map[2 := c2];
    assert Effects(map[], steps[..1]) == [];
    assert Effects(map[], steps[..2]) == [];
    assert Effects(map[], steps[..3]) == [FileEvent(1, Read, 5, 100, 0, NoPath(), 2)];
    assert steps[..3] == steps[..|steps| - 1];
  }

  // ---- overlapping calls of one syscall

  /** Two threads of process 1 are in syscall 0, one from 0 to 20 and one from 10 to 30.
      Nothing is lost and everything is taken. */
  function OverlappingCalls(): seq<Step> {
    [ Fire(SysEnter(Ctx(1, 1, true, 0), Some(0), None, None, ACCEPT)),
      Fire(SysEnter(Ctx(2, 1, true, 10), Some(0), None, None, ACCEPT)),
      Fire(SysExit(Ctx(1, 1, true, 20), Some(0), None, ACCEPT)),
      Fire(SysExit(Ctx(2, 1, true, 30), Some(0), None, ACCEPT)) ]
  }

  function OverlappingBoundaries(): seq<Traced> {
    [ Traced(1, SyscallEvent(1, Enter, 0, 0)), Traced(2, SyscallEvent(1, Enter, 0, 10)),
      Traced(1, SyscallEvent(1, Exit, 0, 20)), Traced(2, SyscallEvent(1, Exit, 0, 30)) ]
  }

  /** The second Enter replaces the first: one call of 10ns is shown, two of 20ns were made. */
  lemma OverlapClobbers()
    ensures var steps, caps, calls := OverlappingCalls(), Caps(8, 8, 8, 8), OverlappingBoundaries();
      && Describes(calls, Fires(steps)) && WellFormed(calls) && UpToNow(calls, 30)
      && NoneLost(caps, steps, false)
      && Absorb(Run(caps, steps)).sys == SysTable(map[], map[0 := SyscallStats(1, 10)])
      && CompletedTime(calls, Number(0), |calls|) == 40
  {
    OverlapRecorded();
    OverlapTable();
    OverlapDescribed();
    OverlapTimes();
  }

  lemma SyscallQueued(caps: Caps, steps: seq<Step>, n: nat, queued: seq<SyscallEvent>)
    requires n < |steps| && steps[n].Fire? && IsBoundary(steps[n].tp)
    requires Run(caps, steps[..n]) == World(Init(caps).(events := queued), NO_TABLES)
    requires Recorded(Init(caps).(events := queued), steps[n].tp.ctx, steps[n].tp.nr, steps[n].tp.ok)
    requires !IsOpen(steps[n].tp.nr.value) && !IsFd(steps[n].tp.nr.value)
    ensures var tp := steps[n].tp;
      var e := SyscallEvent(tp.ctx.tgid, if tp.SysEnter? then Enter else Exit, AsU64(tp.nr.value), tp.ctx.now);
      Run(caps, steps[..n + 1]) == World(Init(caps).(events := queued + [e]), NO_TABLES)
  {
    RunAt(caps, steps, n + 1);
  }

  lemma OverlapRuns(n: nat)
    requires n <= 4
    ensures Run(Caps(8, 8, 8, 8), OverlappingCalls()[..n]) ==
      World(Init(Caps(8, 8, 8, 8)).(events := Events(OverlappingBoundaries())[..n]), NO_TABLES)
  {
    var steps, caps, log := OverlappingCalls(), Caps(8, 8, 8, 8), Events(OverlappingBoundaries());
    if n == 0 {
      assert steps[..0] == [] && log[..0] == [];
    } else {
      OverlapRuns(n - 1);
      SyscallQueued(caps, steps, n - 1, log[..n - 1]);
      assert log[..n] == log[..n - 1] + [log[n - 1]];
    }
  }

  lemma OverlapRecorded()
    ensures NoneLost(Caps(8, 8, 8, 8), OverlappingCalls(), false)
  {
    var steps := OverlappingCalls();
    forall i | 0 <= i < |steps|
      ensures Recorded(Run(Caps(8, 8, 8, 8), steps[..i]).k, steps[i].tp.ctx, steps[i].tp.nr, steps[i].tp.ok)
    {
      OverlapRuns(i);
    }
  }

  lemma OverlapTable()
    ensures Absorb(Run(Caps(8, 8, 8, 8), OverlappingCalls())).sys == SysTable(map[], map[0 := SyscallStats(1, 10)])
  {
    var log := Events(OverlappingBoundaries());
    OverlapRuns(4);
    assert OverlappingCalls()[..4] == OverlappingCalls() && log[..4] == log;
    FoldOfFour(log);
    var t2 := SysTable(map[(1, 0) := 10], map[]);
    assert SysStep(SysStep(NO_SYS, log[0]), log[1]) == t2;
    assert SysStep(t2, log[2]) == SysTable(map[], map[0 := SyscallStats(1, 10)]);
  }

  lemma FoldOfFour(log: seq<SyscallEvent>)
    requires |log| == 4
    ensures Fold(SysStep, NO_SYS, log) == SysStep(SysStep(SysStep(SysStep(NO_SYS, log[0]), log[1]), log[2]), log[3])
  {
    assert Fold(SysStep, NO_SYS, log[..0]) == NO_SYS;
    FoldOne(log, 0);
    FoldOne(log, 1);
    FoldOne(log, 2);
    FoldOne(log, 3);
    assert log[..4] == log;
  }

  lemma FoldOne(log: seq<SyscallEvent>, n: nat)
    requires n < |log|
    ensures Fold(SysStep, NO_SYS, log[..n + 1]) == SysStep(Fold(SysStep, NO_SYS, log[..n]), log[n])
  {
    assert log[..n + 1][..n] == log[..n];
  }

  lemma OverlapDescribed()
    ensures Describes(OverlappingBoundaries(), Fires(OverlappingCalls()))
  {
    var steps, calls := OverlappingCalls(), OverlappingBoundaries();
    var tps := [steps[0].tp, steps[1].tp, steps[2].tp, steps[3].tp];
    assert Fires(steps[..0]) == [];
    FiresOne(steps, 0, []);
    FiresOne(steps, 1, tps[..1]);
    FiresOne(steps, 2, tps[..2]);
    FiresOne(steps, 3, tps[..3]);
    assert steps[..4] == steps;
    DescribesFour(calls, tps);
  }

  lemma OverlapTimes()
    ensures var calls := OverlappingBoundaries();
      WellFormed(calls) && UpToNow(calls, 30) && CompletedTime(calls, Number(0), 4) == 40
  {
    var calls := OverlappingBoundaries();
    assert EndOf(calls, 0) == 2 by { assert NextOfThread(calls, 1, 2) == 2; }
    assert EndOf(calls, 1) == 3 by { assert NextOfThread(calls, 2, 3) == 3; }
    assert CompletedTime(calls, Number(0), 1) == 20;
    assert CompletedTime(calls, Number(0), 2) == 40;
    assert CompletedTime(calls, Number(0), 3) == 40;
  }

  // ---- sockets that share a tuple

  function Local(): Addr4 {
    [127, 0, 0, 1]
  }

  function Reads(state: I32): NetReads {
    NetReads(Some(state), Some(80), Some(9000), Some(2), Some(Local()), Some(Local()), None, None)
  }

  /** Sockets 1 and 2 of the target have one tuple; the first closes. Nothing is lost. */
  function SharedTuple(): seq<Step> {
    [ Fire(SockState(Ctx(1, 1, true, 0), Some(1), Reads(1), ACCEPT)),
      Fire(SockState(Ctx(1, 1, true, 1), Some(2), Reads(1), ACCEPT)),
      Fire(SockState(Ctx(1, 1, true, 2), Some(1), Reads(7), ACCEPT)) ]
  }

  function SharedKey(): ConnectionKey {
    TupleOf(ReadNet(Reads(1)).value)
  }

  /** Table and tracked sockets agree while both are open; after the close the second socket is
      tracked and live, and its connection is not listed. */
  lemma SharedTupleIsDropped()
    ensures var steps, caps := SharedTuple(), Caps(8, 8, 8, 8);
      var open, end := Run(caps, steps[..2]), Run(caps, steps);
      && open.k.socks == {1, 2} && LiveAfter(steps[..2]) == map[1 := SharedKey(), 2 := SharedKey()]
      && Settled(open).Keys == {SharedKey()} == Image(open.k.socks, LiveAfter(steps[..2]))
      && end.k.socks == {2} && LiveAfter(steps) == map[2 := SharedKey()]
      && Settled(end) == map[] && Image(end.k.socks, LiveAfter(steps)) == {SharedKey()}
  {
    SharedLive();
    SharedRuns();
    SharedClose(Run(Caps(8, 8, 8, 8), SharedTuple()[..2]));
    RunAt(Caps(8, 8, 8, 8), SharedTuple(), 3);
    assert SharedTuple()[..3] == SharedTuple();
    ImageOfOne(SharedKey());
    ImageOfTwo(SharedKey());
  }

  lemma ImageOfOne(key: ConnectionKey)
    ensures Image({2}, map[2 := key]) == {key}
  {
    assert map[2 := key][2] in Image({2}, map[2 := key]);
  }

  lemma ImageOfTwo(key: ConnectionKey)
    ensures Image({1, 2}, map[1 := key, 2 := key]) == {key}
  {
    var live: Live := map[1 := key, 2 := key];
    assert live[1] in Image({1, 2}, live);
  }

  lemma SharedLive()
    ensures LiveAfter(SharedTuple()[..2]) == map[1 := SharedKey(), 2 := SharedKey()]
    ensures LiveAfter(SharedTuple()) == map[2 := SharedKey()]
  {
    var steps, key := SharedTuple(), SharedKey();
    assert steps[..0] == [] && steps[..3] == steps;
    LiveOne(steps, 0, map[]);
    LiveOne(steps, 1, map[1 := key]);
    LiveOne(steps, 2, map[1 := key, 2 := key]);
  }

  lemma SharedClose(w: World)
    requires w.k.socks == {1, 2} && |w.k.net| == 2 && w.k.caps == Caps(8, 8, 8, 8)
    requires Settled(w).Keys == {SharedKey()}
    ensures var end := Next(w, SharedTuple()[2]); end.k.socks == {2} && Settled(end) == map[]
  {
    var e := NetRecord(StateChange, ReadNet(Reads(7)).value, 2);
    NetQueued(w, SharedTuple()[2].tp, e);
    assert ConnOf(e) == SharedKey();
  }

  lemma LiveOne(steps: seq<Step>, n: nat, live: Live)
    requires n < |steps| && LiveAfter(steps[..n]) == live
    ensures LiveAfter(steps[..n + 1]) == LiveNext(live, steps[n])
  {
    assert steps[..n + 1][..n] == steps[..n];
  }

  lemma SharedRuns()
    ensures var open := Run(Caps(8, 8, 8, 8), SharedTuple()[..2]);
      && open.k.socks == {1, 2} && |open.k.net| == 2 && open.k.caps == Caps(8, 8, 8, 8)
      && Settled(open) == map[SharedKey() := ConnectionStats(1, 0)]
  {
    var steps, caps, f := SharedTuple(), Caps(8, 8, 8, 8), ReadNet(Reads(1)).value;
    assert steps[..0] == [];
    RunAt(caps, steps, 1);
    NetQueued(Start(caps), steps[0].tp, NetRecord(StateChange, f, 0));
    RunAt(caps, steps, 2);
    NetQueued(Run(caps, steps[..1]), steps[1].tp, NetRecord(StateChange, f, 1));
  }

  // ---- a socket first seen when it closes

  /** Socket 1 of the target is tracked; socket 2, opened before tracing began with the same
      tuple, closes in the target's context. Nothing is lost. */
  function UntrackedClose(): seq<Step> {
    [ Fire(SockState(Ctx(1, 1, true, 0), Some(1), Reads(1), ACCEPT)),
      Fire(SockState(Ctx(1, 1, true, 1), Some(2), Reads(7), ACCEPT)) ]
  }

  /** No two tracked sockets share a tuple before or after, and yet socket 1 is tracked and live
      and its connection is no longer listed. */
  lemma UntrackedCloseDrops()
    ensures var steps, caps := UntrackedClose(), Caps(8, 8, 8, 8);
      var open, end := Run(caps, steps[..1]), Run(caps, steps);
      && open.k.socks == {1} && Agrees(open, LiveAfter(steps[..1]))
      && end.k.socks == {1} && LiveAfter(steps) == map[1 := SharedKey()]
      && Settled(end) == map[] && Image(end.k.socks, LiveAfter(steps)) == {SharedKey()}
  {
    UntrackedOpen();
    UntrackedLive();
    UntrackedEnd(Run(Caps(8, 8, 8, 8), UntrackedClose()[..1]));
    RunAt(Caps(8, 8, 8, 8), UntrackedClose(), 2);
    assert UntrackedClose()[..2] == UntrackedClose();
    ImageOfFirst(SharedKey());
  }

  lemma UntrackedLive()
    ensures LiveAfter(UntrackedClose()[..1]) == map[1 := SharedKey()]
    ensures LiveAfter(UntrackedClose()) == map[1 := SharedKey()]
  {
    var steps := UntrackedClose();
    assert steps[..0] == [] && steps[..2] == steps;
    LiveOne(steps, 0, map[]);
    LiveOne(steps, 1, map[1 := SharedKey()]);
  }

  lemma UntrackedOpen()
    ensures var open := Run(Caps(8, 8, 8, 8), UntrackedClose()[..1]);
      && open.k.socks == {1} && |open.k.net| == 1 && open.k.caps == Caps(8, 8, 8, 8)
      && Settled(open).Keys == {SharedKey()}
  {
    var steps, caps := UntrackedClose(), Caps(8, 8, 8, 8);
    assert steps[..0] == [];
    RunAt(caps, steps, 1);
    NetQueued(Start(caps), steps[0].tp, NetRecord(StateChange, ReadNet(Reads(1)).value, 0));
  }

  lemma UntrackedEnd(w: World)
    requires w.k.socks == {1} && |w.k.net| == 1 && w.k.caps == Caps(8, 8, 8, 8)
    requires Settled(w).Keys == {SharedKey()}
    ensures var end := Next(w, UntrackedClose()[1]); end.k.socks == {1} && Settled(end) == map[]
  {
    var e := NetRecord(StateChange, ReadNet(Reads(7)).value, 1);
    NetQueued(w, UntrackedClose()[1].tp, e);
    assert ConnOf(e) == SharedKey();
  }

  lemma ImageOfFirst(key: ConnectionKey)
    ensures Image({1}, map[1 := key]) == {key}
  {
    assert map[1 := key][1] in Image({1}, map[1 := key]);
  }

  // ---- two exits that look before either deletes

  function RacingEnter(tid: nat, fd: I64, now: nat): FineStep {
    Other(Fire(SysEnter(Ctx(tid, 1, true, now), Some(SYS_READ), Some(fd), None, ACCEPT)))
  }

  function RacingExit(tid: nat, bytes: I64, now: nat): Tracepoint {
    SysExit(Ctx(tid, 1, true, now), Some(SYS_READ), Some(bytes), ACCEPT)
  }

  /** Threads 1 and 2 of process 1 leave read on two CPUs: both look up, then both delete. */
  function Race(): seq<FineStep> {
    [ RacingEnter(1, 5, 0), RacingEnter(2, 7, 1),
      Look(RacingExit(1, 100, 2)), Look(RacingExit(2, 1, 3)), Finish(1), Finish(2) ]
  }

  function RaceInHand(): map<nat, Looked> {
    map[1 := Looked(RacingExit(1, 100, 2), Some(Descriptor(7))),
        2 := Looked(RacingExit(2, 1, 3), Some(Descriptor(7)))]
  }

  /** Both records carry descriptor 7, which was stashed once. */
  lemma RaceSharesStash()
    ensures var steps, caps := Race(), Caps(8, 8, 8, 8);
      && SendsAt(caps, steps, 4) && SendsAt(caps, steps, 5)
      && StashOf(caps, steps, 4) == StashOf(caps, steps, 5) == 1
      && FineRun(caps, steps).w.k.file ==
         [FileEvent(1, Read, 7, 100, 0, NoPath(), 2), FileEvent(1, Read, 7, 1, 0, NoPath(), 3)]
  {
    var steps, caps := Race(), Caps(8, 8, 8, 8);
    RaceLooked();
    RaceFinished();
    assert steps[..6] == steps;
    RecordHasStash(caps, steps, 4);
    RecordHasStash(caps, steps, 5);
    RaceStashes();
  }

  lemma RaceStashes()
    ensures var steps, caps := Race(), Caps(8, 8, 8, 8);
      && LastLook(caps, steps, 1, 4) == 2 && LastLook(caps, steps, 2, 5) == 3
      && LastStash(caps, steps, FdCalls, 1, 2) == 1 && LastStash(caps, steps, FdCalls, 1, 3) == 1
  {
    var steps, caps := Race(), Caps(8, 8, 8, 8);
    RaceLooked();
    assert StashesAt(caps, steps, 1, FdCalls, 1);
    assert LooksAt(caps, steps, 2, 1) && LooksAt(caps, steps, 3, 2);
  }

  lemma RaceLooked()
    ensures var steps, caps := Race(), Caps(8, 8, 8, 8);
      && StateAt(caps, steps, 1).w.k == Init(caps).(events := [SyscallEvent(1, Enter, 63, 0)], fd := map[1 := 5])
      && StateAt(caps, steps, 2).w.k == Init(caps).(
           events := [SyscallEvent(1, Enter, 63, 0), SyscallEvent(1, Enter, 63, 1)], fd := map[1 := 7])
      && StateAt(caps, steps, 3).w.k.fd == map[1 := 7] && |StateAt(caps, steps, 3).w.k.events| == 3
      && StateAt(caps, steps, 4).w.k.fd == map[1 := 7] && StateAt(caps, steps, 4).w.k.file == []
      && StateAt(caps, steps, 3).w.k.caps == caps && StateAt(caps, steps, 4).w.k.caps == caps
      && StateAt(caps, steps, 4).looked ==
         RaceInHand()
  {
    var steps, caps := Race(), Caps(8, 8, 8, 8);
    assert steps[..0] == [] && StateAt(caps, steps, 0) == FineWorld(Start(caps), map[]);
    FineRunAt(caps, steps, 0);
    FineRunAt(caps, steps, 1);
    RaceLooks(StateAt(caps, steps, 2));
    FineRunAt(caps, steps, 2);
    FineRunAt(caps, steps, 3);
  }

  lemma RaceLooks(fw: FineWorld)
    requires fw.looked == map[] && fw.w.k.fd == map[1 := 7] && |fw.w.k.events| == 2
    requires fw.w.k.file == [] && fw.w.k.caps == Caps(8, 8, 8, 8)
    ensures var one := FineNext(fw, Race()[2]);
      var two := FineNext(one, Race()[3]);
      && one.w.k.fd == map[1 := 7] && |one.w.k.events| == 3 && one.w.k.caps == fw.w.k.caps
      && two.w.k.fd == map[1 := 7] && two.w.k.file == [] && two.w.k.caps == fw.w.k.caps
      && two.looked ==
         RaceInHand()
  {
    var one := FineNext(fw, Race()[2]);
    assert one.looked == map[1 := Looked(RacingExit(1, 100, 2), Some(Descriptor(7)))];
  }

  lemma RaceFinishes(fw: FineWorld)
    requires fw.w.k.fd == map[1 := 7] && fw.w.k.file == [] && fw.w.k.caps == Caps(8, 8, 8, 8)
    requires fw.looked ==
      RaceInHand()
    ensures var one := FineNext(fw, Finish(1));
      && one.w.k.file == [FileEvent(1, Read, 7, 100, 0, NoPath(), 2)]
      && FineNext(one, Finish(2)).w.k.file ==
         [FileEvent(1, Read, 7, 100, 0, NoPath(), 2), FileEvent(1, Read, 7, 1, 0, NoPath(), 3)]
  {
    var one := FineNext(fw, Finish(1));
    assert one.looked[2] == Looked(RacingExit(2, 1, 3), Some(Descriptor(7)));
  }

  lemma RaceFinished()
    ensures var steps, caps := Race(), Caps(8, 8, 8, 8);
      && StateAt(caps, steps, 4).w.k.file == []
      && StateAt(caps, steps, 5).w.k.file == [FileEvent(1, Read, 7, 100, 0, NoPath(), 2)]
      && StateAt(caps, steps, 6).w.k.file ==
         [FileEvent(1, Read, 7, 100, 0, NoPath(), 2), FileEvent(1, Read, 7, 1, 0, NoPath(), 3)]
  {
    var steps, caps := Race(), Caps(8, 8, 8, 8);
    RaceLooked();
    RaceFinishes(StateAt(caps, steps, 4));
    FineRunAt(caps, steps, 4);
    FineRunAt(caps, steps, 5);
  }
}
