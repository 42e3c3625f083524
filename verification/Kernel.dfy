/** What each tracepoint handler does to the kernel-side maps and rings, as a function
    of the state before it. Every helper that can fail (context reads, the user-string
    read, map insertion, ring output) is an input of the step. */
module Kernel {
  import opened Wrappers
  import opened Records

  const MAX_SOCKS := 1024
  const MAX_PENDING := 128

  const SYS_OPENAT := 56
  const SYS_CLOSE := 57
  const SYS_READ := 63
  const SYS_WRITE := 64
  const SYS_PREAD64 := 67
  const SYS_PWRITE64 := 68
  const SYS_OPENAT2 := 437

  predicate IsOpen(nr: int) { nr == SYS_OPENAT || nr == SYS_OPENAT2 }
  predicate IsRead(nr: int) { nr == SYS_READ || nr == SYS_PREAD64 }
  predicate IsWrite(nr: int) { nr == SYS_WRITE || nr == SYS_PWRITE64 }
  predicate IsClose(nr: int) { nr == SYS_CLOSE }
  predicate IsFd(nr: int) { IsRead(nr) || IsWrite(nr) || IsClose(nr) }

  /** How many records each ring can hold. */
  datatype Caps = Caps(events: nat, net: nat, file: nat, mem: nat)

  /** The current task: `target` is the outcome of the pid/cgroup filter for it. */
  datatype Ctx = Ctx(tid: nat, tgid: nat, target: bool, now: nat)

  /** Whether a helper goes through when there is room for it. */
  datatype Grants = Grants(insert: bool, events: bool, net: bool, file: bool, mem: bool)

  /** The context reads a network handler makes after the socket address. */
  datatype NetReads = NetReads(
    state: Option<I32>, sport: Option<nat>, dport: Option<nat>, family: Option<nat>,
    saddr4: Option<Addr4>, daddr4: Option<Addr4>, saddr6: Option<Addr6>, daddr6: Option<Addr6>)

  type Addr4 = a: seq<Byte> | |a| == 4 witness [0, 0, 0, 0]
  type Addr6 = a: seq<Byte> | |a| == 16 witness seq(16, _ => 0)

  datatype Tracepoint =
    | SysEnter(ctx: Ctx, nr: Option<I64>, arg0: Option<I64>, path: Option<UserStr>, ok: Grants)
    | SysExit(ctx: Ctx, nr: Option<I64>, ret: Option<I64>, ok: Grants)
    | SockState(ctx: Ctx, sk: Option<nat>, fields: NetReads, ok: Grants)
    | SockRetransmit(ctx: Ctx, sk: Option<nat>, fields: NetReads, ok: Grants)
    | Kmalloc(ctx: Ctx, bytes: Option<nat>, ok: Grants)
    | Kfree(ctx: Ctx, ok: Grants)

  datatype PendingOpen = PendingOpen(path: seq<Byte>, pathLen: nat)

  datatype State = State(
    caps: Caps,
    fd: map<nat, int>,
    open: map<nat, PendingOpen>,
    socks: set<nat>,
    events: seq<SyscallEvent>,
    net: seq<NetEvent>,
    file: seq<FileEvent>,
    mem: seq<MemEvent>)

  function Init(caps: Caps): State {
    State(caps, map[], map[], {}, [], [], [], [])
  }

  // ---- bounded maps and rings

  predicate CanInsert<V>(m: map<nat, V>, key: nat, grant: bool) {
    grant && (key in m || |m| < MAX_PENDING)
  }

  function Insert<V>(m: map<nat, V>, key: nat, v: V, grant: bool): map<nat, V> {
    if CanInsert(m, key, grant) then m[key := v] else m
  }

  function OutputFile(k: State, e: FileEvent, grant: bool): State {
    if grant && |k.file| < k.caps.file then k.(file := k.file + [e]) else k
  }

  // ---- syscall handlers

  function StashOpenPath(k: State, pid: nat, path: Option<UserStr>, ok: Grants): State {
    if path.None? then k
    else k.(open := Insert(k.open, pid, PendingOpen(Padded(path.value, FILE_PATH_MAX), |path.value|), ok.insert))
  }

  function EmitOpenResult(k: State, pid: nat, ret: Option<int>, now: nat, ok: Grants): State {
    if pid !in k.open then k
    else
      var pending := k.open[pid];
      var k1 := k.(open := k.open - {pid});
      if ret.None? || ret.value < 0 then k1
      else OutputFile(k1, FileEvent(pid, Open, AsI32(ret.value), 0, pending.pathLen, pending.path, now), ok.file)
  }

  function StashFd(k: State, pid: nat, arg0: Option<int>, ok: Grants): State {
    if arg0.None? then k else k.(fd := Insert(k.fd, pid, AsI32(arg0.value), ok.insert))
  }

  function NoPath(): seq<Byte> {
    Padded([], FILE_PATH_MAX)
  }

  function EmitReadWrite(k: State, pid: nat, kind: FileKind, ret: Option<int>, now: nat, ok: Grants): State {
    if pid !in k.fd then k
    else
      var fd := k.fd[pid];
      var k1 := k.(fd := k.fd - {pid});
      if ret.None? || ret.value < 0 then k1
      else OutputFile(k1, FileEvent(pid, kind, fd, ret.value, 0, NoPath(), now), ok.file)
  }

  function EmitClose(k: State, pid: nat, ret: Option<int>, now: nat, ok: Grants): State {
    if pid !in k.fd then k
    else
      var fd := k.fd[pid];
      var k1 := k.(fd := k.fd - {pid});
      if ret.None? || ret.value != 0 then k1
      else OutputFile(k1, FileEvent(pid, Close, fd, 0, 0, NoPath(), now), ok.file)
  }

  function FileOnEnter(k: State, pid: nat, nr: int, arg0: Option<int>, path: Option<UserStr>, ok: Grants): State {
    if IsOpen(nr) then StashOpenPath(k, pid, path, ok)
    else if IsFd(nr) then StashFd(k, pid, arg0, ok)
    else k
  }

  function FileOnExit(k: State, pid: nat, nr: int, ret: Option<int>, now: nat, ok: Grants): State {
    if IsOpen(nr) then EmitOpenResult(k, pid, ret, now, ok)
    else if IsRead(nr) then EmitReadWrite(k, pid, Read, ret, now, ok)
    else if IsWrite(nr) then EmitReadWrite(k, pid, Write, ret, now, ok)
    else if IsClose(nr) then EmitClose(k, pid, ret, now, ok)
    else k
  }

  /** This exit has a file record to send: something is pending and the call succeeded. */
  predicate SendsFile(k: State, pid: nat, nr: int, ret: Option<int>) {
    && ret.Some?
    && (IsOpen(nr) ==> pid in k.open && ret.value >= 0)
    && (IsRead(nr) || IsWrite(nr) ==> pid in k.fd && ret.value >= 0)
    && (IsClose(nr) ==> pid in k.fd && ret.value == 0)
    && (IsOpen(nr) || IsFd(nr))
  }

  /** The filter, the syscall-number read and the syscall ring all let this record through. */
  predicate Recorded(k: State, ctx: Ctx, nr: Option<int>, ok: Grants) {
    ctx.target && nr.Some? && ok.events && |k.events| < k.caps.events
  }

  /** Records the syscall; when that fails nothing else happens, file tracking included. */
  function OnEnter(k: State, ctx: Ctx, nr: Option<int>, arg0: Option<int>, path: Option<UserStr>, ok: Grants): State {
    if !Recorded(k, ctx, nr, ok) then k
    else
      var k1 := k.(events := k.events + [SyscallEvent(ctx.tgid, Enter, AsU64(nr.value), ctx.now)]);
      FileOnEnter(k1, ctx.tgid, nr.value, arg0, path, ok)
  }

  function OnExit(k: State, ctx: Ctx, nr: Option<int>, ret: Option<int>, ok: Grants): State {
    if !Recorded(k, ctx, nr, ok) then k
    else
      var k1 := k.(events := k.events + [SyscallEvent(ctx.tgid, Exit, AsU64(nr.value), ctx.now)]);
      FileOnExit(k1, ctx.tgid, nr.value, ret, ctx.now, ok)
  }

  // ---- network handlers

  datatype NetFields = NetFields(
    state: nat, family: nat, sport: nat, dport: nat, saddr: seq<Byte>, daddr: seq<Byte>)

  /** All remaining reads of a network handler; addresses end up in 16-byte buffers,
      IPv4 ones in the first four bytes. */
  function ReadNet(r: NetReads): Option<NetFields> {
    if r.state.None? || r.sport.None? || r.dport.None? || r.family.None? then None
    else if r.family.value == AF_INET6 then
      if r.saddr6.None? || r.daddr6.None? then None
      else Some(NetFields(AsU16(r.state.value), r.family.value, r.sport.value, r.dport.value,
                          r.saddr6.value, r.daddr6.value))
    else
      if r.saddr4.None? || r.daddr4.None? then None
      else Some(NetFields(AsU16(r.state.value), r.family.value, r.sport.value, r.dport.value,
                          Padded(r.saddr4.value, 16), Padded(r.daddr4.value, 16)))
  }

  function NetRecord(kind: NetKind, f: NetFields, now: nat): NetEvent {
    NetEvent(kind, f.family, f.state, f.sport, f.dport, f.saddr, f.daddr, now)
  }

  predicate NetAccepted(k: State, ok: Grants) {
    ok.net && |k.net| < k.caps.net
  }

  /** The socket is remembered before the rest is read, and forgotten only after a
      CLOSE record actually went out. */
  function OnSockState(k: State, ctx: Ctx, sk: Option<nat>, fields: NetReads, ok: Grants): State {
    if sk.None? || (sk.value !in k.socks && !ctx.target) then k
    else
      var socks := if sk.value !in k.socks && ok.insert && |k.socks| < MAX_SOCKS then k.socks + {sk.value} else k.socks;
      var k1 := k.(socks := socks);
      var read := ReadNet(fields);
      if read.None? || !NetAccepted(k1, ok) then k1
      else
        var k2 := k1.(net := k1.net + [NetRecord(StateChange, read.value, ctx.now)]);
        if read.value.state == TCP_CLOSE then k2.(socks := k2.socks - {sk.value}) else k2
  }

  function OnRetransmit(k: State, ctx: Ctx, sk: Option<nat>, fields: NetReads, ok: Grants): State {
    if sk.None? || sk.value !in k.socks then k
    else
      var read := ReadNet(fields);
      if read.None? || !NetAccepted(k, ok) then k
      else k.(net := k.net + [NetRecord(Retransmit, read.value, ctx.now)])
  }

  // ---- memory handlers

  function OutputMem(k: State, e: MemEvent, ok: Grants): State {
    if ok.mem && |k.mem| < k.caps.mem then k.(mem := k.mem + [e]) else k
  }

  function OnKmalloc(k: State, ctx: Ctx, bytes: Option<nat>, ok: Grants): State {
    if !ctx.target || bytes.None? then k
    else OutputMem(k, MemEvent(ctx.tgid, Alloc, bytes.value, ctx.now), ok)
  }

  function OnKfree(k: State, ctx: Ctx, ok: Grants): State {
    if !ctx.target then k else OutputMem(k, MemEvent(ctx.tgid, Free, 0, ctx.now), ok)
  }

  function Handle(k: State, tp: Tracepoint): State {
    match tp
    case SysEnter(ctx, nr, arg0, path, ok) => OnEnter(k, ctx, nr, arg0, path, ok)
    case SysExit(ctx, nr, ret, ok) => OnExit(k, ctx, nr, ret, ok)
    case SockState(ctx, sk, fields, ok) => OnSockState(k, ctx, sk, fields, ok)
    case SockRetransmit(ctx, sk, fields, ok) => OnRetransmit(k, ctx, sk, fields, ok)
    case Kmalloc(ctx, bytes, ok) => OnKmalloc(k, ctx, bytes, ok)
    case Kfree(ctx, ok) => OnKfree(k, ctx, ok)
  }

  /** Every map and ring stays within its declared size. */
  ghost predicate Bounded(k: State) {
    && |k.fd| <= MAX_PENDING && |k.open| <= MAX_PENDING && |k.socks| <= MAX_SOCKS
    && |k.events| <= k.caps.events && |k.net| <= k.caps.net
    && |k.file| <= k.caps.file && |k.mem| <= k.caps.mem
  }

  // ---- what one tracepoint adds to each ring

  ghost predicate Extends(before: State, after: State) {
    && after.caps == before.caps
    && |before.events| <= |after.events| && after.events[..|before.events|] == before.events
    && |before.net| <= |after.net| && after.net[..|before.net|] == before.net
    && |before.file| <= |after.file| && after.file[..|before.file|] == before.file
    && |before.mem| <= |after.mem| && after.mem[..|before.mem|] == before.mem
  }

  lemma EnterExtends(k: State, ctx: Ctx, nr: Option<int>, arg0: Option<int>, path: Option<UserStr>, ok: Grants)
    ensures Extends(k, OnEnter(k, ctx, nr, arg0, path, ok))
  {
  }

  lemma ExitExtends(k: State, ctx: Ctx, nr: Option<int>, ret: Option<int>, ok: Grants)
    ensures Extends(k, OnExit(k, ctx, nr, ret, ok))
  {
  }

  lemma SockStateExtends(k: State, ctx: Ctx, sk: Option<nat>, fields: NetReads, ok: Grants)
    ensures Extends(k, OnSockState(k, ctx, sk, fields, ok))
  {
  }

  lemma RetransmitExtends(k: State, ctx: Ctx, sk: Option<nat>, fields: NetReads, ok: Grants)
    ensures Extends(k, OnRetransmit(k, ctx, sk, fields, ok))
  {
  }

  lemma HandleExtends(k: State, tp: Tracepoint)
    ensures Extends(k, Handle(k, tp))
  {
    match tp
    case SysEnter(ctx, nr, arg0, path, ok) => EnterExtends(k, ctx, nr, arg0, path, ok);
    case SysExit(ctx, nr, ret, ok) => ExitExtends(k, ctx, nr, ret, ok);
    case SockState(ctx, sk, fields, ok) => SockStateExtends(k, ctx, sk, fields, ok);
    case SockRetransmit(ctx, sk, fields, ok) => RetransmitExtends(k, ctx, sk, fields, ok);
    case Kmalloc(_, _, _) =>
    case Kfree(_, _) =>
  }

  lemma InsertKeepsBound<V>(m: map<nat, V>, key: nat, v: V, grant: bool)
    requires |m| <= MAX_PENDING
    ensures |Insert(m, key, v, grant)| <= MAX_PENDING
  {
    if key in m {
      assert m[key := v].Keys == m.Keys;
      assert |m[key := v].Keys| == |m.Keys|;
    } else {
      assert m[key := v].Keys == m.Keys + {key};
    }
  }

  lemma RemoveKeepsBound<V>(m: map<nat, V>, key: nat)
    ensures |m - {key}| <= |m|
  {
    assert (m - {key}).Keys == m.Keys - {key};
    assert |(m - {key}).Keys| <= |m.Keys|;
  }

  lemma FileOnEnterKeepsBounds(k: State, pid: nat, nr: int, arg0: Option<int>, path: Option<UserStr>, ok: Grants)
    requires Bounded(k)
    ensures Bounded(FileOnEnter(k, pid, nr, arg0, path, ok))
  {
    if IsOpen(nr) && path.Some? {
      InsertKeepsBound(k.open, pid, PendingOpen(Padded(path.value, FILE_PATH_MAX), |path.value|), ok.insert);
    } else if IsFd(nr) && arg0.Some? {
      InsertKeepsBound(k.fd, pid, AsI32(arg0.value), ok.insert);
    }
  }

  lemma FileOnExitShape(k: State, pid: nat, nr: int, ret: Option<int>, now: nat, ok: Grants)
    ensures var r := FileOnExit(k, pid, nr, ret, now, ok);
      && r == k.(fd := r.fd, open := r.open, file := r.file)
      && (r.fd == k.fd || r.fd == k.fd - {pid})
      && (r.open == k.open || r.open == k.open - {pid})
      && (r.file == k.file || (|k.file| < k.caps.file && |r.file| == |k.file| + 1))
  {
  }

  lemma FileOnExitKeepsBounds(k: State, pid: nat, nr: int, ret: Option<int>, now: nat, ok: Grants)
    requires Bounded(k)
    ensures Bounded(FileOnExit(k, pid, nr, ret, now, ok))
  {
    FileOnExitShape(k, pid, nr, ret, now, ok);
    var r := FileOnExit(k, pid, nr, ret, now, ok);
    assert |r.fd| <= MAX_PENDING by { RemoveKeepsBound(k.fd, pid); }
    assert |r.open| <= MAX_PENDING by { RemoveKeepsBound(k.open, pid); }
  }

  lemma SocketsKeepBounds(k: State, tp: Tracepoint)
    requires Bounded(k) && (tp.SockState? || tp.SockRetransmit?)
    ensures Bounded(Handle(k, tp))
  {
    SocketsShape(k, tp);
    if tp.sk.Some? {
      RemoveFromSet(k.socks, tp.sk.value);
      assert k.socks + {tp.sk.value} - {tp.sk.value} == k.socks - {tp.sk.value};
    }
  }

  lemma SocketsShape(k: State, tp: Tracepoint)
    requires tp.SockState? || tp.SockRetransmit?
    ensures var r := Handle(k, tp);
      && r == k.(socks := r.socks, net := r.net)
      && (r.net == k.net || (|k.net| < k.caps.net && |r.net| == |k.net| + 1))
      && (r.socks == k.socks || (tp.sk.Some? &&
            (r.socks == k.socks - {tp.sk.value} || r.socks == k.socks + {tp.sk.value} - {tp.sk.value}
             || (|k.socks| < MAX_SOCKS && r.socks == k.socks + {tp.sk.value}))))
  {
  }

  lemma RemoveFromSet(s: set<nat>, x: nat)
    ensures |s - {x}| <= |s|
  {
  }

  /** No map or ring ever grows past its size, whichever tracepoint fires. */
  lemma HandleKeepsBounds(k: State, tp: Tracepoint)
    requires Bounded(k)
    ensures Bounded(Handle(k, tp))
  {
    match tp
    case SysEnter(ctx, nr, arg0, path, ok) =>
      if Recorded(k, ctx, nr, ok) {
        var k1 := k.(events := k.events + [SyscallEvent(ctx.tgid, Enter, AsU64(nr.value), ctx.now)]);
        FileOnEnterKeepsBounds(k1, ctx.tgid, nr.value, arg0, path, ok);
      }
    case SysExit(ctx, nr, ret, ok) =>
      if Recorded(k, ctx, nr, ok) {
        var k1 := k.(events := k.events + [SyscallEvent(ctx.tgid, Exit, AsU64(nr.value), ctx.now)]);
        FileOnExitKeepsBounds(k1, ctx.tgid, nr.value, ret, ctx.now, ok);
      }
    case SockState(_, _, _, _) => SocketsKeepBounds(k, tp);
    case SockRetransmit(_, _, _, _) => SocketsKeepBounds(k, tp);
    case Kmalloc(_, _, _) =>
    case Kfree(_, _) =>
  }

  ghost function SysOut(k: State, tp: Tracepoint): seq<SyscallEvent> {
    HandleExtends(k, tp);
    Handle(k, tp).events[|k.events|..]
  }

  ghost function NetOut(k: State, tp: Tracepoint): seq<NetEvent> {
    HandleExtends(k, tp);
    Handle(k, tp).net[|k.net|..]
  }

  ghost function FileOut(k: State, tp: Tracepoint): seq<FileEvent> {
    HandleExtends(k, tp);
    Handle(k, tp).file[|k.file|..]
  }

  ghost function MemOut(k: State, tp: Tracepoint): seq<MemEvent> {
    HandleExtends(k, tp);
    Handle(k, tp).mem[|k.mem|..]
  }
}
