/** Both sides together: tracepoints of any thread interleave freely with userspace taking
    one record at a time from any ring. */
module Pipeline {
  import opened Records
  import opened Folds
  import opened Tables
  import opened Kernel

  datatype Step = Fire(tp: Tracepoint) | TakeSyscall | TakeNet | TakeFile | TakeMem

  datatype World = World(k: State, u: Tables)

  function Start(caps: Caps): World {
    World(Init(caps), NO_TABLES)
  }

  function Next(w: World, s: Step): World {
    match s
    case Fire(tp) => World(Handle(w.k, tp), w.u)
    case TakeSyscall =>
      if |w.k.events| == 0 then w
      else World(w.k.(events := w.k.events[1..]), w.u.(sys := SysStep(w.u.sys, w.k.events[0])))
    case TakeNet =>
      if |w.k.net| == 0 then w
      else World(w.k.(net := w.k.net[1..]), w.u.(conns := ConnStep(w.u.conns, w.k.net[0])))
    case TakeFile =>
      if |w.k.file| == 0 then w
      else World(w.k.(file := w.k.file[1..]), w.u.(files := FileStep(w.u.files, w.k.file[0])))
    case TakeMem =>
      if |w.k.mem| == 0 then w
      else World(w.k.(mem := w.k.mem[1..]), w.u.(mem := MemStep(w.u.mem, w.k.mem[0])))
  }

  /** The state after a whole run; every reachable state is of this form. */
  function Run(caps: Caps, steps: seq<Step>): World {
    if |steps| == 0 then Start(caps)
    else Next(Run(caps, steps[..|steps| - 1]), steps[|steps| - 1])
  }

  lemma RunSnoc(caps: Caps, steps: seq<Step>, s: Step)
    ensures Run(caps, steps + [s]) == Next(Run(caps, steps), s)
  {
    assert (steps + [s])[..|steps|] == steps;
  }

  lemma RunAt(caps: Caps, steps: seq<Step>, i: nat)
    requires 0 < i <= |steps|
    ensures Run(caps, steps[..i]) == Next(Run(caps, steps[..i - 1]), steps[i - 1])
  {
    assert steps[..i][..i - 1] == steps[..i - 1];
  }

  /** The records each ring accepted during the run, in order. */
  ghost function SysLog(caps: Caps, steps: seq<Step>): seq<SyscallEvent> {
    if |steps| == 0 then []
    else
      var before, s := steps[..|steps| - 1], steps[|steps| - 1];
      SysLog(caps, before) + if s.Fire? then SysOut(Run(caps, before).k, s.tp) else []
  }

  ghost function NetLog(caps: Caps, steps: seq<Step>): seq<NetEvent> {
    if |steps| == 0 then []
    else
      var before, s := steps[..|steps| - 1], steps[|steps| - 1];
      NetLog(caps, before) + if s.Fire? then NetOut(Run(caps, before).k, s.tp) else []
  }

  ghost function FileLog(caps: Caps, steps: seq<Step>): seq<FileEvent> {
    if |steps| == 0 then []
    else
      var before, s := steps[..|steps| - 1], steps[|steps| - 1];
      FileLog(caps, before) + if s.Fire? then FileOut(Run(caps, before).k, s.tp) else []
  }

  ghost function MemLog(caps: Caps, steps: seq<Step>): seq<MemEvent> {
    if |steps| == 0 then []
    else
      var before, s := steps[..|steps| - 1], steps[|steps| - 1];
      MemLog(caps, before) + if s.Fire? then MemOut(Run(caps, before).k, s.tp) else []
  }

  lemma {:induction false} RunBounded(caps: Caps, steps: seq<Step>)
    ensures Bounded(Run(caps, steps).k)
    ensures Run(caps, steps).k.caps == caps
  {
    if |steps| > 0 {
      var before, s := steps[..|steps| - 1], steps[|steps| - 1];
      RunBounded(caps, before);
      if s.Fire? {
        HandleKeepsBounds(Run(caps, before).k, s.tp);
        HandleExtends(Run(caps, before).k, s.tp);
      }
    }
  }

  /** One ring's share of the accounting: nothing is lost, reordered or taken twice
      between acceptance and table. */
  ghost predicate Accounted<S, E>(log: seq<E>, queue: seq<E>, table: S, step: (S, E) -> S, empty: S) {
    Tail(log, queue) && table == Fold(step, empty, Consumed(log, queue))
  }

  lemma AccountedPush<S, E>(log: seq<E>, queue: seq<E>, table: S, step: (S, E) -> S, empty: S, more: seq<E>)
    requires Accounted(log, queue, table, step, empty)
    ensures Accounted(log + more, queue + more, table, step, empty)
  {
    PushKeepsTail(log, queue, more);
  }

  lemma AccountedTake<S, E>(log: seq<E>, queue: seq<E>, table: S, step: (S, E) -> S, empty: S)
    requires Accounted(log, queue, table, step, empty) && |queue| > 0
    ensures Accounted(log, queue[1..], step(table, queue[0]), step, empty)
  {
    PopKeepsTail(log, queue);
    FoldPush(step, empty, Consumed(log, queue), queue[0]);
  }

  ghost predicate AllAccounted(caps: Caps, steps: seq<Step>) {
    var w := Run(caps, steps);
    && Accounted(SysLog(caps, steps), w.k.events, w.u.sys, SysStep, NO_SYS)
    && Accounted(NetLog(caps, steps), w.k.net, w.u.conns, ConnStep, NO_CONNS)
    && Accounted(FileLog(caps, steps), w.k.file, w.u.files, FileStep, NO_FILES)
    && Accounted(MemLog(caps, steps), w.k.mem, w.u.mem, MemStep, NO_MEM)
  }

  /** One step keeps the accounts. */
  lemma StepKeepsAccounts(caps: Caps, before: seq<Step>, s: Step, steps: seq<Step>)
    requires steps == before + [s] && AllAccounted(caps, before)
    ensures AllAccounted(caps, steps)
  {
    var w := Run(caps, before);
    RunSnoc(caps, before, s);
    match s
    case Fire(tp) => FireKeepsAccounts(caps, before, tp, steps);
    case TakeSyscall =>
      if |w.k.events| > 0 { AccountedTake(SysLog(caps, before), w.k.events, w.u.sys, SysStep, NO_SYS); }
      TakeKeepsLogs(caps, before, s, steps);
    case TakeNet =>
      if |w.k.net| > 0 { AccountedTake(NetLog(caps, before), w.k.net, w.u.conns, ConnStep, NO_CONNS); }
      TakeKeepsLogs(caps, before, s, steps);
    case TakeFile =>
      if |w.k.file| > 0 { AccountedTake(FileLog(caps, before), w.k.file, w.u.files, FileStep, NO_FILES); }
      TakeKeepsLogs(caps, before, s, steps);
    case TakeMem =>
      if |w.k.mem| > 0 { AccountedTake(MemLog(caps, before), w.k.mem, w.u.mem, MemStep, NO_MEM); }
      TakeKeepsLogs(caps, before, s, steps);
  }

  /** In every reachable state each table is the fold of exactly the accepted records that
      are no longer queued, whatever was dropped and however the drains were scheduled. */
  lemma {:induction false} TablesAreFolds(caps: Caps, steps: seq<Step>)
    ensures AllAccounted(caps, steps)
  {
    if |steps| > 0 {
      var before, s := steps[..|steps| - 1], steps[|steps| - 1];
      TablesAreFolds(caps, before);
      StepKeepsAccounts(caps, before, s, steps);
    }
  }

  /** The syscall records userspace has taken so far. */
  ghost function TakenSyscalls(caps: Caps, steps: seq<Step>): seq<SyscallEvent> {
    TablesAreFolds(caps, steps);
    Consumed(SysLog(caps, steps), Run(caps, steps).k.events)
  }

  lemma TakeKeepsLogs(caps: Caps, before: seq<Step>, s: Step, steps: seq<Step>)
    requires steps == before + [s] && !s.Fire?
    ensures SysLog(caps, steps) == SysLog(caps, before) && NetLog(caps, steps) == NetLog(caps, before)
    ensures FileLog(caps, steps) == FileLog(caps, before) && MemLog(caps, steps) == MemLog(caps, before)
  {
    assert steps[..|steps| - 1] == before;
  }

  lemma FireGrowsLogs(caps: Caps, before: seq<Step>, tp: Tracepoint, steps: seq<Step>)
    requires steps == before + [Fire(tp)]
    ensures var k := Run(caps, before).k;
      && SysLog(caps, steps) == SysLog(caps, before) + SysOut(k, tp)
      && NetLog(caps, steps) == NetLog(caps, before) + NetOut(k, tp)
      && FileLog(caps, steps) == FileLog(caps, before) + FileOut(k, tp)
      && MemLog(caps, steps) == MemLog(caps, before) + MemOut(k, tp)
  {
    assert steps[..|steps| - 1] == before;
  }

  lemma OutputsAreAppended(k: State, tp: Tracepoint)
    ensures Handle(k, tp).events == k.events + SysOut(k, tp)
    ensures Handle(k, tp).net == k.net + NetOut(k, tp)
    ensures Handle(k, tp).file == k.file + FileOut(k, tp)
    ensures Handle(k, tp).mem == k.mem + MemOut(k, tp)
  {
    HandleExtends(k, tp);
    var h := Handle(k, tp);
    assert h.events == h.events[..|k.events|] + h.events[|k.events|..];
    assert h.net == h.net[..|k.net|] + h.net[|k.net|..];
    assert h.file == h.file[..|k.file|] + h.file[|k.file|..];
    assert h.mem == h.mem[..|k.mem|] + h.mem[|k.mem|..];
  }

  lemma FireKeepsAccounts(caps: Caps, before: seq<Step>, tp: Tracepoint, steps: seq<Step>)
    requires steps == before + [Fire(tp)] && AllAccounted(caps, before)
    ensures AllAccounted(caps, steps)
  {
    var w := Run(caps, before);
    RunSnoc(caps, before, Fire(tp));
    FireGrowsLogs(caps, before, tp, steps);
    OutputsAreAppended(w.k, tp);
    AccountedPush(SysLog(caps, before), w.k.events, w.u.sys, SysStep, NO_SYS, SysOut(w.k, tp));
    AccountedPush(NetLog(caps, before), w.k.net, w.u.conns, ConnStep, NO_CONNS, NetOut(w.k, tp));
    AccountedPush(FileLog(caps, before), w.k.file, w.u.files, FileStep, NO_FILES, FileOut(w.k, tp));
    AccountedPush(MemLog(caps, before), w.k.mem, w.u.mem, MemStep, NO_MEM, MemOut(w.k, tp));
  }

  /** The tables once everything still queued has been taken. */
  function Absorb(w: World): Tables {
    Tables(
      Fold(SysStep, w.u.sys, w.k.events), Fold(ConnStep, w.u.conns, w.k.net),
      Fold(FileStep, w.u.files, w.k.file), Fold(MemStep, w.u.mem, w.k.mem))
  }

  ghost function LoggedTables(caps: Caps, steps: seq<Step>): Tables {
    Tables(
      Fold(SysStep, NO_SYS, SysLog(caps, steps)), Fold(ConnStep, NO_CONNS, NetLog(caps, steps)),
      Fold(FileStep, NO_FILES, FileLog(caps, steps)), Fold(MemStep, NO_MEM, MemLog(caps, steps)))
  }

  lemma AbsorbOne<S, E>(log: seq<E>, queue: seq<E>, table: S, step: (S, E) -> S, empty: S)
    requires Accounted(log, queue, table, step, empty)
    ensures Fold(step, table, queue) == Fold(step, empty, log)
  {
    FoldConcat(step, empty, Consumed(log, queue), queue);
    assert Consumed(log, queue) + queue == log;
  }

  /** Current tables plus still-queued records amount to the fold of all accepted records. */
  lemma AbsorbIsFoldOfLogs(caps: Caps, steps: seq<Step>)
    ensures Absorb(Run(caps, steps)) == LoggedTables(caps, steps)
  {
    TablesAreFolds(caps, steps);
    var w := Run(caps, steps);
    AbsorbOne(SysLog(caps, steps), w.k.events, w.u.sys, SysStep, NO_SYS);
    AbsorbOne(NetLog(caps, steps), w.k.net, w.u.conns, ConnStep, NO_CONNS);
    AbsorbOne(FileLog(caps, steps), w.k.file, w.u.files, FileStep, NO_FILES);
    AbsorbOne(MemLog(caps, steps), w.k.mem, w.u.mem, MemStep, NO_MEM);
  }
}
