/** The pipeline against a reference tracker that has no rings: it updates the tables in
    the same instant as the kernel maps. */
module Refinement {
  import opened Wrappers
  import opened Records
  import opened Folds
  import opened Tables
  import opened Kernel
  import opened Pipeline

  datatype Tracker = Tracker(fd: map<nat, int>, open: map<nat, PendingOpen>, socks: set<nat>, tables: Tables)

  const FRESH := Tracker(map[], map[], {}, NO_TABLES)

  function SeeSyscall(t: Tracker, e: SyscallEvent): Tracker {
    t.(tables := t.tables.(sys := SysStep(t.tables.sys, e)))
  }

  function SeeFile(t: Tracker, e: FileEvent, seen: bool): Tracker {
    if seen then t.(tables := t.tables.(files := FileStep(t.tables.files, e))) else t
  }

  function TrackEnter(t: Tracker, pid: nat, nr: int, arg0: Option<int>, path: Option<UserStr>, ok: Grants): Tracker {
    if IsOpen(nr) && path.Some? then
      t.(open := Insert(t.open, pid, PendingOpen(Padded(path.value, FILE_PATH_MAX), |path.value|), ok.insert))
    else if IsFd(nr) && arg0.Some? then
      t.(fd := Insert(t.fd, pid, AsI32(arg0.value), ok.insert))
    else t
  }

  function TrackExit(t: Tracker, pid: nat, nr: int, ret: Option<int>, now: nat, ok: Grants): Tracker {
    if IsOpen(nr) && pid in t.open then
      var p := t.open[pid];
      var t1 := t.(open := t.open - {pid});
      if ret.Some? && ret.value >= 0 then
        SeeFile(t1, FileEvent(pid, Open, AsI32(ret.value), 0, p.pathLen, p.path, now), ok.file)
      else t1
    else if IsFd(nr) && pid in t.fd then
      var d := t.fd[pid];
      var t1 := t.(fd := t.fd - {pid});
      if ret.None? then t1
      else if IsClose(nr) then
        if ret.value == 0 then SeeFile(t1, FileEvent(pid, Close, d, 0, 0, NoPath(), now), ok.file) else t1
      else if ret.value >= 0 then
        SeeFile(t1, FileEvent(pid, if IsRead(nr) then Read else Write, d, ret.value, 0, NoPath(), now), ok.file)
      else t1
    else t
  }

  function TrackSocket(t: Tracker, ctx: Ctx, sk: nat, fields: Option<NetFields>, ok: Grants): Tracker {
    if sk !in t.socks && !ctx.target then t
    else
      var t1 := if sk !in t.socks && ok.insert && |t.socks| < MAX_SOCKS then t.(socks := t.socks + {sk}) else t;
      if fields.None? || !ok.net then t1
      else
        var e := NetRecord(StateChange, fields.value, ctx.now);
        var t2 := t1.(tables := t1.tables.(conns := ConnStep(t1.tables.conns, e)));
        if fields.value.state == TCP_CLOSE then t2.(socks := t2.socks - {sk}) else t2
  }

  function TrackMem(t: Tracker, e: MemEvent): Tracker {
    t.(tables := t.tables.(mem := MemStep(t.tables.mem, e)))
  }

  function Track(t: Tracker, tp: Tracepoint): Tracker {
    match tp
    case SysEnter(c, nr, arg0, path, ok) =>
      if !c.target || nr.None? || !ok.events then t
      else
        var t1 := SeeSyscall(t, SyscallEvent(c.tgid, Enter, AsU64(nr.value), c.now));
        TrackEnter(t1, c.tgid, nr.value, arg0, path, ok)
    case SysExit(c, nr, ret, ok) =>
      if !c.target || nr.None? || !ok.events then t
      else
        var t1 := SeeSyscall(t, SyscallEvent(c.tgid, Exit, AsU64(nr.value), c.now));
        TrackExit(t1, c.tgid, nr.value, ret, c.now, ok)
    case SockState(c, sk, fields, ok) =>
      if sk.None? then t else TrackSocket(t, c, sk.value, ReadNet(fields), ok)
    case SockRetransmit(c, sk, fields, ok) =>
      if sk.Some? && sk.value in t.socks && ReadNet(fields).Some? && ok.net then
        t.(tables := t.tables.(conns := ConnStep(t.tables.conns, NetRecord(Retransmit, ReadNet(fields).value, c.now))))
      else t
    case Kmalloc(c, bytes, ok) =>
      if c.target && bytes.Some? && ok.mem then TrackMem(t, MemEvent(c.tgid, Alloc, bytes.value, c.now)) else t
    case Kfree(c, ok) =>
      if c.target && ok.mem then TrackMem(t, MemEvent(c.tgid, Free, 0, c.now)) else t
  }

  function TrackAll(tps: seq<Tracepoint>): Tracker {
    Fold(Track, FRESH, tps)
  }

  /** The tracepoints of a run, without the drain steps. */
  function Fires(steps: seq<Step>): seq<Tracepoint> {
    if |steps| == 0 then []
    else
      Fires(steps[..|steps| - 1]) +
      if steps[|steps| - 1].Fire? then [steps[|steps| - 1].tp] else []
  }

  /** Every ring this tracepoint gets as far as writing to has room: the filter lets it
      through, the reads before it succeed, and the output is not refused for another reason. */
  predicate HasRoom(k: State, tp: Tracepoint) {
    match tp
    case SysEnter(c, nr, _, _, ok) => c.target && nr.Some? && ok.events ==> |k.events| < k.caps.events
    case SysExit(c, nr, ret, ok) =>
      c.target && nr.Some? && ok.events ==>
        && |k.events| < k.caps.events
        && (SendsFile(k, c.tgid, nr.value, ret) && ok.file ==> |k.file| < k.caps.file)
    case SockState(c, sk, fields, ok) =>
      sk.Some? && (sk.value in k.socks || c.target) && ReadNet(fields).Some? && ok.net ==> |k.net| < k.caps.net
    case SockRetransmit(c, sk, fields, ok) =>
      sk.Some? && sk.value in k.socks && ReadNet(fields).Some? && ok.net ==> |k.net| < k.caps.net
    case Kmalloc(c, bytes, ok) => c.target && bytes.Some? && ok.mem ==> |k.mem| < k.caps.mem
    case Kfree(c, ok) => c.target && ok.mem ==> |k.mem| < k.caps.mem
  }

  /** The same state with one more place in each ring. */
  function Larger(k: State): State {
    k.(caps := Caps(k.caps.events + 1, k.caps.net + 1, k.caps.file + 1, k.caps.mem + 1))
  }

  /** With one more place in each ring, the step would not have sent more. */
  predicate SendsNoMore(k: State, tp: Tracepoint) {
    var a, b := Handle(k, tp), Handle(Larger(k), tp);
    |a.events| == |b.events| && |a.net| == |b.net| && |a.file| == |b.file| && |a.mem| == |b.mem|
  }

  lemma ExitSendsIff(k: State, c: Ctx, nr: Option<I64>, ret: Option<I64>, ok: Grants)
    ensures var a, sends := OnExit(k, c, nr, ret, ok), Recorded(k, c, nr, ok) && SendsFile(k, c.tgid, nr.value, ret);
      && a.net == k.net && a.mem == k.mem
      && |a.events| == |k.events| + (if Recorded(k, c, nr, ok) then 1 else 0)
      && |a.file| == |k.file| + if sends && ok.file && |k.file| < k.caps.file then 1 else 0
  {
  }

  lemma SocketSendsIff(k: State, c: Ctx, sk: Option<nat>, fields: NetReads, ok: Grants)
    ensures var a := OnSockState(k, c, sk, fields, ok);
      && a.events == k.events && a.file == k.file && a.mem == k.mem
      && |a.net| == |k.net| +
           if sk.Some? && (sk.value in k.socks || c.target) && ReadNet(fields).Some? && NetAccepted(k, ok) then 1 else 0
  {
  }

  /** That is all the refinement needs to exclude: there is room if and only if nothing is lost
      to a full ring. */
  lemma RoomIsExact(k: State, tp: Tracepoint)
    requires Bounded(k)
    ensures HasRoom(k, tp) <==> SendsNoMore(k, tp)
  {
    match tp
    case SysEnter(_, _, _, _, _) =>
    case SysExit(c, nr, ret, ok) =>
      ExitSendsIff(k, c, nr, ret, ok);
      ExitSendsIff(Larger(k), c, nr, ret, ok);
    case SockState(c, sk, fields, ok) =>
      SocketSendsIff(k, c, sk, fields, ok);
      SocketSendsIff(Larger(k), c, sk, fields, ok);
    case SockRetransmit(_, _, _, _) =>
    case Kmalloc(_, _, _) =>
    case Kfree(_, _) =>
  }

  /** No ring was full when a tracepoint wanted to write to it. */
  ghost predicate NoOverflow(caps: Caps, steps: seq<Step>) {
    forall i | 0 <= i < |steps| && steps[i].Fire? :: HasRoom(Run(caps, steps[..i]).k, steps[i].tp)
  }

  function View(w: World): Tracker {
    Tracker(w.k.fd, w.k.open, w.k.socks, Absorb(w))
  }

  /** Taking a record changes nothing the tracker can see. */
  lemma TakeKeepsView(w: World, s: Step)
    requires !s.Fire?
    ensures View(Next(w, s)) == View(w)
  {
    match s
    case TakeSyscall => if |w.k.events| > 0 { FoldPop(SysStep, w.u.sys, w.k.events); }
    case TakeNet => if |w.k.net| > 0 { FoldPop(ConnStep, w.u.conns, w.k.net); }
    case TakeFile => if |w.k.file| > 0 { FoldPop(FileStep, w.u.files, w.k.file); }
    case TakeMem => if |w.k.mem| > 0 { FoldPop(MemStep, w.u.mem, w.k.mem); }
  }

  /** Queueing one more syscall record is the tracker seeing that syscall. */
  lemma QueueSyscall(w: World, e: SyscallEvent)
    ensures View(World(w.k.(events := w.k.events + [e]), w.u)) == SeeSyscall(View(w), e)
  {
    FoldPush(SysStep, w.u.sys, w.k.events, e);
  }

  lemma QueueFile(w: World, e: FileEvent, grant: bool)
    requires grant ==> |w.k.file| < w.k.caps.file
    ensures View(World(OutputFile(w.k, e, grant), w.u)) == SeeFile(View(w), e, grant)
  {
    FoldPush(FileStep, w.u.files, w.k.file, e);
  }

  lemma EnterSimulates(w: World, pid: nat, nr: int, arg0: Option<int>, path: Option<UserStr>, ok: Grants)
    ensures View(World(FileOnEnter(w.k, pid, nr, arg0, path, ok), w.u)) == TrackEnter(View(w), pid, nr, arg0, path, ok)
  {
  }

  lemma ExitSimulates(w: World, pid: nat, nr: int, ret: Option<int>, now: nat, ok: Grants)
    requires SendsFile(w.k, pid, nr, ret) && ok.file ==> |w.k.file| < w.k.caps.file
    ensures View(World(FileOnExit(w.k, pid, nr, ret, now, ok), w.u)) == TrackExit(View(w), pid, nr, ret, now, ok)
  {
    if IsOpen(nr) && pid in w.k.open {
      var p := w.k.open[pid];
      var w1 := World(w.k.(open := w.k.open - {pid}), w.u);
      assert View(w1) == View(w).(open := w.k.open - {pid});
      if ret.Some? && ret.value >= 0 {
        QueueFile(w1, FileEvent(pid, Open, AsI32(ret.value), 0, p.pathLen, p.path, now), ok.file);
      }
    } else if IsFd(nr) && pid in w.k.fd {
      var w1 := World(w.k.(fd := w.k.fd - {pid}), w.u);
      assert View(w1) == View(w).(fd := w.k.fd - {pid});
      if ret.Some? {
        var d := w.k.fd[pid];
        if IsClose(nr) && ret.value == 0 {
          QueueFile(w1, FileEvent(pid, Close, d, 0, 0, NoPath(), now), ok.file);
        } else if !IsClose(nr) && ret.value >= 0 {
          QueueFile(w1, FileEvent(pid, if IsRead(nr) then Read else Write, d, ret.value, 0, NoPath(), now), ok.file);
        }
      }
    }
  }

  lemma QueueNet(w: World, e: NetEvent)
    ensures View(World(w.k.(net := w.k.net + [e]), w.u)) ==
      View(w).(tables := View(w).tables.(conns := ConnStep(View(w).tables.conns, e)))
  {
    FoldPush(ConnStep, w.u.conns, w.k.net, e);
  }

  lemma SocketSimulates(w: World, ctx: Ctx, sk: Option<nat>, fields: NetReads, ok: Grants)
    requires HasRoom(w.k, SockState(ctx, sk, fields, ok))
    ensures View(World(OnSockState(w.k, ctx, sk, fields, ok), w.u)) ==
      if sk.None? then View(w) else TrackSocket(View(w), ctx, sk.value, ReadNet(fields), ok)
  {
    var read := ReadNet(fields);
    if sk.Some? && (sk.value in w.k.socks || ctx.target) && read.Some? {
      var tracked := w.k.(socks := if sk.value !in w.k.socks && ok.insert && |w.k.socks| < MAX_SOCKS
                                   then w.k.socks + {sk.value} else w.k.socks);
      QueueNet(World(tracked, w.u), NetRecord(StateChange, read.value, ctx.now));
    }
  }

  /** With room in the rings, one tracepoint does to the view what the tracker does. */
  lemma FireSimulates(w: World, tp: Tracepoint)
    requires HasRoom(w.k, tp)
    ensures View(Next(w, Fire(tp))) == Track(View(w), tp)
  {
    match tp
    case SysEnter(c, nr, arg0, path, ok) =>
      if c.target && nr.Some? && ok.events {
        var e := SyscallEvent(c.tgid, Enter, AsU64(nr.value), c.now);
        QueueSyscall(w, e);
        EnterSimulates(World(w.k.(events := w.k.events + [e]), w.u), c.tgid, nr.value, arg0, path, ok);
      }
    case SysExit(c, nr, ret, ok) =>
      if c.target && nr.Some? && ok.events {
        var e := SyscallEvent(c.tgid, Exit, AsU64(nr.value), c.now);
        QueueSyscall(w, e);
        ExitSimulates(World(w.k.(events := w.k.events + [e]), w.u), c.tgid, nr.value, ret, c.now, ok);
      }
    case SockState(c, sk, fields, ok) =>
      SocketSimulates(w, c, sk, fields, ok);
    case SockRetransmit(c, sk, fields, ok) =>
      var read := ReadNet(fields);
      if read.Some? {
        FoldPush(ConnStep, w.u.conns, w.k.net, NetRecord(Retransmit, read.value, c.now));
      }
    case Kmalloc(c, bytes, ok) =>
      if bytes.Some? {
        FoldPush(MemStep, w.u.mem, w.k.mem, MemEvent(c.tgid, Alloc, bytes.value, c.now));
      }
    case Kfree(c, ok) =>
      FoldPush(MemStep, w.u.mem, w.k.mem, MemEvent(c.tgid, Free, 0, c.now));
  }

  lemma NoOverflowPrefix(caps: Caps, steps: seq<Step>)
    requires NoOverflow(caps, steps) && |steps| > 0
    ensures NoOverflow(caps, steps[..|steps| - 1])
  {
    var before := steps[..|steps| - 1];
    forall i | 0 <= i < |before| && before[i].Fire? ensures HasRoom(Run(caps, before[..i]).k, before[i].tp) {
      assert before[..i] == steps[..i];
    }
  }

  /** For every interleaving without overflow, current tables plus queued records are
      exactly the reference tracker's tables, and the kernel maps are its maps. */
  lemma {:induction false} PipelineRefinesTracker(caps: Caps, steps: seq<Step>)
    requires NoOverflow(caps, steps)
    ensures View(Run(caps, steps)) == TrackAll(Fires(steps))
  {
    if |steps| > 0 {
      var before, s := steps[..|steps| - 1], steps[|steps| - 1];
      NoOverflowPrefix(caps, steps);
      PipelineRefinesTracker(caps, before);
      if s.Fire? {
        assert HasRoom(Run(caps, steps[..|steps| - 1]).k, s.tp);
        FireSimulates(Run(caps, before), s.tp);
        FoldPush(Track, FRESH, Fires(before), s.tp);
      } else {
        TakeKeepsView(Run(caps, before), s);
        assert Fires(steps) == Fires(before);
      }
    }
  }

  ghost predicate Drained(k: State) {
    k.events == [] && k.net == [] && k.file == [] && k.mem == []
  }

  /** Ring sizes, batching and the order of the four drains do not matter: two overflow-free
      runs of the same tracepoints show the same tables once both are drained. */
  lemma SchedulesAgree(caps1: Caps, steps1: seq<Step>, caps2: Caps, steps2: seq<Step>)
    requires NoOverflow(caps1, steps1) && NoOverflow(caps2, steps2)
    requires Fires(steps1) == Fires(steps2)
    requires Drained(Run(caps1, steps1).k) && Drained(Run(caps2, steps2).k)
    ensures Run(caps1, steps1).u == Run(caps2, steps2).u
  {
    PipelineRefinesTracker(caps1, steps1);
    PipelineRefinesTracker(caps2, steps2);
    assert Absorb(Run(caps1, steps1)) == Run(caps1, steps1).u;
    assert Absorb(Run(caps2, steps2)) == Run(caps2, steps2).u;
  }
}
