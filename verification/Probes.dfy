/** The kernel side as it runs: handlers that update bounded maps and four rings in
    place. Each handler is proved against the step function of module Kernel. */
module ProbesClass {
  import opened Wrappers
  import opened Records
  import opened Kernel

  class Probes {
    const caps: Caps
    var fd: map<nat, int>
    var open: map<nat, PendingOpen>
    var socks: set<nat>
    var events: seq<SyscallEvent>
    var net: seq<NetEvent>
    var file: seq<FileEvent>
    var mem: seq<MemEvent>

    ghost function Now(): State
      reads this
    {
      State(caps, fd, open, socks, events, net, file, mem)
    }

    ghost predicate Valid()
      reads this
    {
      Bounded(Now())
    }

    constructor (caps: Caps)
      ensures Valid() && Now() == Init(caps)
    {
      this.caps := caps;
      fd, open, socks := map[], map[], {};
      events, net, file, mem := [], [], [], [];
    }

    /** A tracepoint fires. */
    method Fire(tp: Tracepoint)
      requires Valid()
      modifies this
      ensures Valid() && Now() == Handle(old(Now()), tp)
    {
      HandleKeepsBounds(Now(), tp);
      match tp
      case SysEnter(ctx, nr, arg0, path, ok) => TryEmit(ctx, Enter, nr, arg0, path, ok);
      case SysExit(ctx, nr, ret, ok) => TryEmit(ctx, Exit, nr, ret, None, ok);
      case SockState(ctx, sk, fields, ok) => TryNetState(ctx, sk, fields, ok);
      case SockRetransmit(ctx, sk, fields, ok) => TryNetRetransmit(ctx, sk, fields, ok);
      case Kmalloc(ctx, bytes, ok) => TryKmalloc(ctx, bytes, ok);
      case Kfree(ctx, ok) => TryKfree(ctx, ok);
    }

    /** `word` is the value at offset 16: the first argument on entry, the result on exit. */
    method TryEmit(ctx: Ctx, kind: SyscallKind, nr: Option<int>, word: Option<int>, path: Option<UserStr>, ok: Grants)
      modifies this
      ensures kind == Enter ==> Now() == OnEnter(old(Now()), ctx, nr, word, path, ok)
      ensures kind == Exit ==> Now() == OnExit(old(Now()), ctx, nr, word, ok)
    {
      if !ctx.target {
        return;
      }
      if nr.None? {
        return;
      }
      if !(ok.events && |events| < caps.events) {
        return;
      }
      events := events + [SyscallEvent(ctx.tgid, kind, AsU64(nr.value), ctx.now)];
      HandleFileSyscall(ctx, kind, nr.value, word, path, ok);
    }

    method HandleFileSyscall(ctx: Ctx, kind: SyscallKind, nr: int, word: Option<int>, path: Option<UserStr>, ok: Grants)
      modifies this
      ensures kind == Enter ==> Now() == FileOnEnter(old(Now()), ctx.tgid, nr, word, path, ok)
      ensures kind == Exit ==> Now() == FileOnExit(old(Now()), ctx.tgid, nr, word, ctx.now, ok)
    {
      if kind == Enter && IsOpen(nr) {
        StashOpen(ctx.tgid, path, ok);
      } else if kind == Exit && IsOpen(nr) {
        EmitOpen(ctx, word, ok);
      } else if kind == Enter && IsFd(nr) {
        StashDescriptor(ctx.tgid, word, ok);
      } else if kind == Exit && IsRead(nr) {
        EmitMove(ctx, Read, word, ok);
      } else if kind == Exit && IsWrite(nr) {
        EmitMove(ctx, Write, word, ok);
      } else if kind == Exit && IsClose(nr) {
        EmitClosed(ctx, word, ok);
      }
    }

    method StashOpen(pid: nat, path: Option<UserStr>, ok: Grants)
      modifies this
      ensures Now() == StashOpenPath(old(Now()), pid, path, ok)
    {
      if path.Some? {
        if CanInsert(open, pid, ok.insert) {
          open := open[pid := PendingOpen(Padded(path.value, FILE_PATH_MAX), |path.value|)];
        }
      }
    }

    method EmitOpen(ctx: Ctx, ret: Option<int>, ok: Grants)
      modifies this
      ensures Now() == EmitOpenResult(old(Now()), ctx.tgid, ret, ctx.now, ok)
    {
      var pending := if ctx.tgid in open then Some(open[ctx.tgid]) else None;
      open := open - {ctx.tgid};
      if pending.None? {
        assert open == old(open);
        return;
      }
      if ret.None? || ret.value < 0 {
        return;
      }
      var event := FileEvent(ctx.tgid, Open, AsI32(ret.value), 0, pending.value.pathLen, pending.value.path, ctx.now);
      Output(event, ok.file);
    }

    method StashDescriptor(pid: nat, arg0: Option<int>, ok: Grants)
      modifies this
      ensures Now() == StashFd(old(Now()), pid, arg0, ok)
    {
      if arg0.Some? {
        if CanInsert(fd, pid, ok.insert) {
          fd := fd[pid := AsI32(arg0.value)];
        }
      }
    }

    method EmitMove(ctx: Ctx, kind: FileKind, ret: Option<int>, ok: Grants)
      modifies this
      ensures Now() == EmitReadWrite(old(Now()), ctx.tgid, kind, ret, ctx.now, ok)
    {
      if ctx.tgid !in fd {
        return;
      }
      var stashed := fd[ctx.tgid];
      fd := fd - {ctx.tgid};
      if ret.None? || ret.value < 0 {
        return;
      }
      Output(FileEvent(ctx.tgid, kind, stashed, ret.value, 0, NoPath(), ctx.now), ok.file);
    }

    method EmitClosed(ctx: Ctx, ret: Option<int>, ok: Grants)
      modifies this
      ensures Now() == EmitClose(old(Now()), ctx.tgid, ret, ctx.now, ok)
    {
      if ctx.tgid !in fd {
        return;
      }
      var stashed := fd[ctx.tgid];
      fd := fd - {ctx.tgid};
      if ret.None? || ret.value != 0 {
        return;
      }
      Output(FileEvent(ctx.tgid, Close, stashed, 0, 0, NoPath(), ctx.now), ok.file);
    }

    /** Ring output: dropped when the ring is full. */
    method Output(e: FileEvent, grant: bool)
      modifies this
      ensures Now() == OutputFile(old(Now()), e, grant)
    {
      if grant && |file| < caps.file {
        file := file + [e];
      }
    }

    method TryNetState(ctx: Ctx, sk: Option<nat>, fields: NetReads, ok: Grants)
      modifies this
      ensures Now() == OnSockState(old(Now()), ctx, sk, fields, ok)
    {
      if sk.None? {
        return;
      }
      var alreadyTracked := sk.value in socks;
      if !alreadyTracked && !ctx.target {
        return;
      }
      if !alreadyTracked {
        if ok.insert && |socks| < MAX_SOCKS {
          socks := socks + {sk.value};
        }
      }
      var read := ReadNet(fields);
      if read.None? {
        return;
      }
      if !(ok.net && |net| < caps.net) {
        return;
      }
      net := net + [NetRecord(StateChange, read.value, ctx.now)];
      if read.value.state == TCP_CLOSE {
        socks := socks - {sk.value};
      }
    }

    method TryNetRetransmit(ctx: Ctx, sk: Option<nat>, fields: NetReads, ok: Grants)
      modifies this
      ensures Now() == OnRetransmit(old(Now()), ctx, sk, fields, ok)
    {
      if sk.None? || sk.value !in socks {
        return;
      }
      var read := ReadNet(fields);
      if read.None? {
        return;
      }
      if ok.net && |net| < caps.net {
        net := net + [NetRecord(Retransmit, read.value, ctx.now)];
      }
    }

    method TryKmalloc(ctx: Ctx, bytes: Option<nat>, ok: Grants)
      modifies this
      ensures Now() == OnKmalloc(old(Now()), ctx, bytes, ok)
    {
      if !ctx.target || bytes.None? {
        return;
      }
      if ok.mem && |mem| < caps.mem {
        mem := mem + [MemEvent(ctx.tgid, Alloc, bytes.value, ctx.now)];
      }
    }

    method TryKfree(ctx: Ctx, ok: Grants)
      modifies this
      ensures Now() == OnKfree(old(Now()), ctx, ok)
    {
      if !ctx.target {
        return;
      }
      if ok.mem && |mem| < caps.mem {
        mem := mem + [MemEvent(ctx.tgid, Free, 0, ctx.now)];
      }
    }
  }
}
