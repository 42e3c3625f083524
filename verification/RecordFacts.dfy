/** What goes into each ring and each map, in terms of what the handler read and of the kernel's
    own numbers. */
module RecordFacts {
  import opened Wrappers
  import opened Records
  import opened Kernel
  import opened Pipeline

  // ---- syscall records

  /** One record per recorded boundary: its process, direction and time, and the number as an
      unsigned 64-bit value. */
  lemma SyscallRecordSays(k: State, tp: Tracepoint)
    ensures SysOut(k, tp) != [] <==>
      && (tp.SysEnter? || tp.SysExit?) && tp.ctx.target && tp.nr.Some?
      && tp.ok.events && |k.events| < k.caps.events
    ensures SysOut(k, tp) != [] ==>
      && |SysOut(k, tp)| == 1
      && var e := SysOut(k, tp)[0];
         && e.pid == tp.ctx.tgid && e.ts == tp.ctx.now && (e.kind == Enter <==> tp.SysEnter?)
         && e.nr as int == if tp.nr.value >= 0 then tp.nr.value else tp.nr.value + 0x1_0000_0000_0000_0000
  {
    match tp
    case SysEnter(c, nr, arg0, path, ok) =>
      if Recorded(k, c, nr, ok) {
        assert Handle(k, tp).events == k.events + [SyscallEvent(c.tgid, Enter, AsU64(nr.value), c.now)];
      }
    case SysExit(c, nr, ret, ok) =>
      if Recorded(k, c, nr, ok) {
        assert Handle(k, tp).events == k.events + [SyscallEvent(c.tgid, Exit, AsU64(nr.value), c.now)];
      }
    case SockState(_, _, _, _) =>
    case SockRetransmit(_, _, _, _) =>
    case Kmalloc(_, _, _) =>
    case Kfree(_, _) =>
  }

  // ---- file records

  /** The syscall ring took this boundary, so file handling went ahead. */
  predicate Accepted(k: State, tp: Tracepoint) {
    && (tp.SysEnter? || tp.SysExit?) && tp.ctx.target && tp.nr.Some?
    && tp.ok.events && |k.events| < k.caps.events
  }

  predicate OpenNumber(nr: int) {
    nr == 56 || nr == 437
  }

  predicate ReadNumber(nr: int) {
    nr == 63 || nr == 67
  }

  predicate WriteNumber(nr: int) {
    nr == 64 || nr == 68
  }

  /** Which exits send a file record: an open or a transfer with something pending and no error,
      a close with something pending and result zero; and the ring takes it. */
  lemma FileRecordIff(k: State, tp: Tracepoint)
    ensures FileOut(k, tp) != [] <==>
      && tp.SysExit? && Accepted(k, tp) && tp.ret.Some? && tp.ok.file && |k.file| < k.caps.file
      && (|| (OpenNumber(tp.nr.value) && tp.ctx.tgid in k.open && tp.ret.value >= 0)
          || ((ReadNumber(tp.nr.value) || WriteNumber(tp.nr.value)) && tp.ctx.tgid in k.fd && tp.ret.value >= 0)
          || (tp.nr.value == 57 && tp.ctx.tgid in k.fd && tp.ret.value == 0))
  {
    match tp
    case SysEnter(_, _, _, _, _) =>
    case SysExit(c, nr, ret, ok) =>
      assert |Handle(k, tp).file| == |k.file| + |FileOut(k, tp)|;
    case SockState(_, _, _, _) =>
    case SockRetransmit(_, _, _, _) =>
    case Kmalloc(_, _, _) =>
    case Kfree(_, _) =>
  }

  /** What it says: Open for openat and openat2, Read for read and pread64, Write for write and
      pwrite64, Close for close, and never anything else. */
  lemma FileRecordSays(k: State, tp: Tracepoint)
    requires FileOut(k, tp) != []
    ensures tp.SysExit? && tp.nr.Some? && tp.ret.Some? && |FileOut(k, tp)| == 1
    ensures var e, nr := FileOut(k, tp)[0], tp.nr.value;
      && (e.kind == Open <==> nr == 56 || nr == 437)
      && (e.kind == Read <==> nr == 63 || nr == 67)
      && (e.kind == Write <==> nr == 64 || nr == 68)
      && (e.kind == Close <==> nr == 57)
    ensures var e, pid, ret := FileOut(k, tp)[0], tp.ctx.tgid, tp.ret.value;
      && e.pid == pid && e.ts == tp.ctx.now
      && (e.kind == Read || e.kind == Write ==> pid in k.fd && e.fd == k.fd[pid] && e.bytes == ret)
      && (e.kind == Close ==> pid in k.fd && e.fd == k.fd[pid] && e.bytes == 0)
      && (e.kind == Open ==>
            && pid in k.open && e.path == k.open[pid].path && e.pathLen == k.open[pid].pathLen && e.bytes == 0
            && LowBits(e.fd, ret))
      && (e.kind != Open ==> e.pathLen == 0 && e.path == seq(64, _ => 0))
  {
    FileRecordIff(k, tp);
    var after := Handle(k, tp).file;
    assert |after| == |k.file| + 1 && FileOut(k, tp)[0] == after[|k.file|];
  }

  predicate FdNumber(nr: int) {
    ReadNumber(nr) || WriteNumber(nr) || nr == 57
  }

  /** The path in a buffer of 64 bytes, zeros behind it, and its length. */
  predicate HoldsPath(p: PendingOpen, path: UserStr) {
    p.pathLen == |path| && |p.path| == 64 && p.path[..|path|] == path && forall i | |path| <= i < 64 :: p.path[i] == 0
  }

  /** The low 32 bits of `x`, read as a signed number. */
  predicate LowBits(fd: int, x: int) {
    -0x8000_0000 <= fd < 0x8000_0000 && (x - fd) % 0x1_0000_0000 == 0
  }

  lemma OpenEntryLeaves(k: State, tp: Tracepoint)
    requires tp.SysEnter? && Accepted(k, tp) && OpenNumber(tp.nr.value)
    requires tp.path.Some? && tp.ok.insert && (tp.ctx.tgid in k.open || |k.open| < 128)
    ensures var k', pid := Handle(k, tp), tp.ctx.tgid;
      && k'.fd == k.fd && pid in k'.open && k'.open == k.open[pid := k'.open[pid]]
      && HoldsPath(k'.open[pid], tp.path.value)
  {
  }

  lemma FdEntryLeaves(k: State, tp: Tracepoint)
    requires tp.SysEnter? && Accepted(k, tp) && FdNumber(tp.nr.value)
    requires tp.arg0.Some? && tp.ok.insert && (tp.ctx.tgid in k.fd || |k.fd| < 128)
    ensures var k', pid := Handle(k, tp), tp.ctx.tgid;
      k'.open == k.open && pid in k'.fd && LowBits(k'.fd[pid], tp.arg0.value) && k'.fd == k.fd[pid := k'.fd[pid]]
  {
  }

  lemma OtherEntryLeavesNothing(k: State, tp: Tracepoint)
    requires tp.SysEnter? && Accepted(k, tp) && !OpenNumber(tp.nr.value) && !FdNumber(tp.nr.value)
    ensures Handle(k, tp).open == k.open && Handle(k, tp).fd == k.fd
  {
  }

  /** What an entry leaves pending: openat and openat2 their path in one map; read, write,
      pread64, pwrite64 and close their descriptor in the other; other calls nothing. */
  lemma EntryLeaves(k: State, tp: Tracepoint)
    requires tp.SysEnter? && Accepted(k, tp) && tp.arg0.Some? && tp.path.Some? && tp.ok.insert
    requires tp.ctx.tgid !in k.open && |k.open| < 128 && tp.ctx.tgid !in k.fd && |k.fd| < 128
    ensures var k', pid, nr := Handle(k, tp), tp.ctx.tgid, tp.nr.value;
      && (pid in k'.open <==> nr == 56 || nr == 437)
      && (pid in k'.fd <==> nr == 57 || nr == 63 || nr == 64 || nr == 67 || nr == 68)
      && (pid in k'.open ==> HoldsPath(k'.open[pid], tp.path.value))
      && (pid in k'.fd ==> LowBits(k'.fd[pid], tp.arg0.value))
  {
    if OpenNumber(tp.nr.value) {
      OpenEntryLeaves(k, tp);
    } else if FdNumber(tp.nr.value) {
      FdEntryLeaves(k, tp);
    } else {
      OtherEntryLeavesNothing(k, tp);
    }
  }

  /** A new key enters a pending map only below 128 entries; a key that is there is replaced. */
  lemma PendingMapsHold128<V>(m: map<nat, V>, key: nat, v: V)
    ensures Insert(m, key, v, true) == if key in m || |m| < 128 then m[key := v] else m
    ensures Insert(m, key, v, false) == m
  {
  }

  /** What an exit takes away: whatever is pending in the map of its family, sent or not. */
  lemma ExitTakes(k: State, tp: Tracepoint)
    requires tp.SysExit? && Accepted(k, tp)
    ensures var k', pid, nr := Handle(k, tp), tp.ctx.tgid, tp.nr.value;
      && k'.open == (if nr == 56 || nr == 437 then k.open - {pid} else k.open)
      && k'.fd == (if nr == 57 || nr == 63 || nr == 64 || nr == 67 || nr == 68 then k.fd - {pid} else k.fd)
  {
  }

  /** A boundary the syscall ring did not take changes nothing at all. */
  lemma RefusedChangesNothing(k: State, tp: Tracepoint)
    requires (tp.SysEnter? || tp.SysExit?) && !Accepted(k, tp)
    ensures Handle(k, tp) == k
  {
  }

  // ---- network records

  /** Every read the handler needs for this address family succeeded. */
  predicate AllRead(r: NetReads) {
    && r.state.Some? && r.sport.Some? && r.dport.Some? && r.family.Some?
    && (if r.family.value == 10 then r.saddr6.Some? && r.daddr6.Some? else r.saddr4.Some? && r.daddr4.Some?)
  }

  /** Which socket tracepoints send a record. */
  lemma NetRecordIff(k: State, tp: Tracepoint)
    ensures NetOut(k, tp) != [] <==>
      && (tp.SockState? || tp.SockRetransmit?) && tp.sk.Some?
      && (tp.sk.value in k.socks || (tp.SockState? && tp.ctx.target))
      && AllRead(tp.fields) && tp.ok.net && |k.net| < k.caps.net
  {
    match tp
    case SysEnter(_, _, _, _, _) =>
    case SysExit(_, _, _, _) =>
    case SockState(_, _, _, _) => assert |Handle(k, tp).net| == |k.net| + |NetOut(k, tp)|;
    case SockRetransmit(_, _, _, _) => assert |Handle(k, tp).net| == |k.net| + |NetOut(k, tp)|;
    case Kmalloc(_, _, _) =>
    case Kfree(_, _) =>
  }

  /** An address as read: an IPv4 one in the first four of sixteen bytes, the rest zero. */
  predicate Holds4(buf: seq<Byte>, addr: Addr4) {
    |buf| == 16 && buf[..4] == addr && forall i | 4 <= i < 16 :: buf[i] == 0
  }

  /** What the record says: the ports and the family as read, the state cut to 16 bits, and each
      address in its own place. */
  lemma NetRecordSays(k: State, tp: Tracepoint)
    requires NetOut(k, tp) != []
    ensures (tp.SockState? || tp.SockRetransmit?) && AllRead(tp.fields) && |NetOut(k, tp)| == 1
    ensures var e, r := NetOut(k, tp)[0], tp.fields;
      && (e.kind == StateChange <==> tp.SockState?) && e.ts == tp.ctx.now
      && e.sport == r.sport.value && e.dport == r.dport.value && e.family == r.family.value
      && 0 <= e.state < 65536 && (r.state.value - e.state) % 65536 == 0
      && (r.family.value == 10 ==> e.saddr == r.saddr6.value && e.daddr == r.daddr6.value)
      && (r.family.value != 10 ==> Holds4(e.saddr, r.saddr4.value) && Holds4(e.daddr, r.daddr4.value))
  {
    NetRecordIff(k, tp);
    var after := Handle(k, tp).net;
    assert |after| == |k.net| + 1 && NetOut(k, tp)[0] == after[|k.net|];
  }

  /** Which sockets are tracked after a state change: an untracked one in the target's context is
      added while there are fewer than 1024, and a CLOSE (state 7) whose record went out removes
      its socket. */
  lemma TrackedAfter(k: State, tp: Tracepoint)
    requires tp.SockState? && tp.sk.Some?
    ensures var k', sk := Handle(k, tp), tp.sk.value;
      && k'.socks - {sk} == k.socks - {sk}
      && (sk in k'.socks <==>
            && (sk in k.socks || (tp.ctx.target && tp.ok.insert && |k.socks| < 1024))
            && !(NetOut(k, tp) != [] && tp.fields.state.value % 65536 == 7))
  {
    NetRecordIff(k, tp);
  }

  lemma OnlyStateChangesTrack(k: State, tp: Tracepoint)
    requires !tp.SockState? || tp.sk.None?
    ensures Handle(k, tp).socks == k.socks
  {
  }

  // ---- allocation records

  lemma MemRecordSays(k: State, tp: Tracepoint)
    ensures MemOut(k, tp) != [] <==>
      && (tp.Kfree? || (tp.Kmalloc? && tp.bytes.Some?)) && tp.ctx.target && tp.ok.mem && |k.mem| < k.caps.mem
    ensures MemOut(k, tp) != [] ==>
      && |MemOut(k, tp)| == 1
      && var e := MemOut(k, tp)[0];
         && e.pid == tp.ctx.tgid && e.ts == tp.ctx.now && (e.kind == Alloc <==> tp.Kmalloc?)
         && e.bytes == if tp.Kmalloc? then tp.bytes.value else 0
  {
    var after := Handle(k, tp).mem;
    match tp
    case SysEnter(_, _, _, _, _) =>
    case SysExit(_, _, _, _) =>
    case SockState(_, _, _, _) =>
    case SockRetransmit(_, _, _, _) =>
    case Kmalloc(_, _, _) => assert |after| > |k.mem| ==> MemOut(k, tp) == [after[|k.mem|]];
    case Kfree(_, _) => assert |after| > |k.mem| ==> MemOut(k, tp) == [after[|k.mem|]];
  }

  /** In every reachable state. */
  lemma MapsStaySmall(caps: Caps, steps: seq<Step>)
    ensures var k := Run(caps, steps).k; |k.fd| <= 128 && |k.open| <= 128 && |k.socks| <= 1024
  {
    RunBounded(caps, steps);
  }
}
