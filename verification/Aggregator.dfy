/** The userspace side as it runs: four drain loops over the rings, updating hash maps in
    place with wrapping 64-bit accumulators. */
module AggregatorClass {
  import opened Records
  import opened Folds
  import opened Tables
  import opened ProbesClass

  /** The 64-bit update of one statistics entry is the residue of the unbounded one. */
  lemma StatsWrap(stats: map<nat, SyscallStats>, nr: nat, dur: nat)
    ensures var s, w := StatsOf(stats, nr), StatsOf(WrapStats(stats), nr);
      WrapStats(stats[nr := SyscallStats(s.count + 1, s.totalNs + dur)]) ==
      WrapStats(stats)[nr := SyscallStats(Wrap(w.count + 1), Wrap(w.totalNs + dur))]
  {
    var s := StatsOf(stats, nr);
    WrapAdd(s.count, 1);
    WrapAdd(s.totalNs, dur);
  }

  lemma ConnStepWraps(t: ConnTable, e: NetEvent)
    ensures var key := ConnOf(e);
      var entry := if key in WrapConns(t) then WrapConns(t)[key] else ConnectionStats(0, 0);
      WrapConns(ConnStep(t, e)) ==
      if IsClosing(e) then WrapConns(t) - {key}
      else if e.kind == StateChange then WrapConns(t)[key := entry.(state := e.state)]
      else WrapConns(t)[key := ConnectionStats(e.state, Wrap(entry.retransmits + 1))]
  {
    var key := ConnOf(e);
    WrapAdd(if key in t then t[key].retransmits else 0, 1);
  }

  lemma FileStepWraps(t: FileTable, e: FileEvent)
    ensures var key := FileOf(e);
      var w := WrapFiles(t);
      var entry := if key in w then w[key] else UNKNOWN_FILE;
      WrapFiles(FileStep(t, e)) ==
      match e.kind
      case Open => w[key := FileStats(FormatPath(e.path, e.pathLen), 0, 0, false)]
      case Close => if key in w then w[key := w[key].(closed := true)] else w
      case Read => w[key := entry.(bytesRead := Wrap(entry.bytesRead + AsU64(e.bytes)))]
      case Write => w[key := entry.(bytesWritten := Wrap(entry.bytesWritten + AsU64(e.bytes)))]
  {
    var key := FileOf(e);
    WrapAdd(if key in t then t[key].bytesRead else 0, AsU64(e.bytes));
    WrapAdd(if key in t then t[key].bytesWritten else 0, AsU64(e.bytes));
  }

  class Aggregator {
    var pending: map<CallKey, nat>
    var stats: map<nat, SyscallStats>
    var conns: ConnTable
    var files: FileTable
    var mem: MemStats

    // The same tables with unbounded accumulators.
    ghost var sysIdeal: SysTable
    ghost var connsIdeal: ConnTable
    ghost var filesIdeal: FileTable
    ghost var memIdeal: MemStats

    ghost function Ideal(): Tables
      reads this
    {
      Tables(sysIdeal, connsIdeal, filesIdeal, memIdeal)
    }

    function Shown(): Tables
      reads this
    {
      Tables(SysTable(pending, stats), conns, files, mem)
    }

    ghost predicate Valid()
      reads this
    {
      && pending == sysIdeal.pending && stats == WrapStats(sysIdeal.stats)
      && conns == WrapConns(connsIdeal)
      && files == WrapFiles(filesIdeal)
      && mem == WrapMem(memIdeal)
    }

    constructor ()
      ensures Valid() && Ideal() == NO_TABLES
    {
      pending, stats, conns, files, mem := map[], map[], map[], map[], NO_MEM;
      sysIdeal, connsIdeal, filesIdeal, memIdeal := NO_SYS, NO_CONNS, NO_FILES, NO_MEM;
    }

    /** One syscall record. */
    method TakeSyscall(event: SyscallEvent)
      requires pending == sysIdeal.pending && stats == WrapStats(sysIdeal.stats)
      modifies this`pending, this`stats, this`sysIdeal
      ensures pending == sysIdeal.pending && stats == WrapStats(sysIdeal.stats)
      ensures sysIdeal == SysStep(old(sysIdeal), event)
    {
      var key := (event.pid, event.nr);
      match event.kind {
        case Enter =>
          pending := pending[key := event.ts];
        case Exit =>
          if key in pending {
            var dur := SatSub(event.ts, pending[key]);
            pending := pending - {key};
            var entry := StatsOf(stats, event.nr);
            StatsWrap(sysIdeal.stats, event.nr, dur);
            stats := stats[event.nr := SyscallStats(Wrap(entry.count + 1), Wrap(entry.totalNs + dur))];
          }
      }
      sysIdeal := SysStep(sysIdeal, event);
    }

    method DrainSyscalls(p: Probes)
      requires Valid()
      modifies this`pending, this`stats, this`sysIdeal, p`events
      ensures Valid() && p.events == []
      ensures sysIdeal == Fold(SysStep, old(sysIdeal), old(p.events))
    {
      while |p.events| > 0
        invariant pending == sysIdeal.pending && stats == WrapStats(sysIdeal.stats)
        invariant Fold(SysStep, sysIdeal, p.events) == Fold(SysStep, old(sysIdeal), old(p.events))
        decreases |p.events|
      {
        var event := p.events[0];
        FoldPop(SysStep, sysIdeal, p.events);
        p.events := p.events[1..];
        TakeSyscall(event);
      }
    }

    /** One network record. */
    method TakeNet(event: NetEvent)
      requires conns == WrapConns(connsIdeal)
      modifies this`conns, this`connsIdeal
      ensures conns == WrapConns(connsIdeal)
      ensures connsIdeal == ConnStep(old(connsIdeal), event)
    {
      ConnStepWraps(connsIdeal, event);
      var key := ConnectionKey(event.family, event.sport, event.dport, event.saddr, event.daddr);
      if event.kind == StateChange && event.state == TCP_CLOSE {
        conns := conns - {key};
      } else {
        var entry := if key in conns then conns[key] else ConnectionStats(0, 0);
        if event.kind == StateChange {
          conns := conns[key := entry.(state := event.state)];
        } else {
          conns := conns[key := ConnectionStats(event.state, Wrap(entry.retransmits + 1))];
        }
      }
      connsIdeal := ConnStep(connsIdeal, event);
    }

    method DrainNetEvents(p: Probes)
      requires Valid()
      modifies this`conns, this`connsIdeal, p`net
      ensures Valid() && p.net == []
      ensures connsIdeal == Fold(ConnStep, old(connsIdeal), old(p.net))
    {
      while |p.net| > 0
        invariant conns == WrapConns(connsIdeal)
        invariant Fold(ConnStep, connsIdeal, p.net) == Fold(ConnStep, old(connsIdeal), old(p.net))
        decreases |p.net|
      {
        var event := p.net[0];
        FoldPop(ConnStep, connsIdeal, p.net);
        p.net := p.net[1..];
        TakeNet(event);
      }
    }

    /** One file record. */
    method TakeFile(event: FileEvent)
      requires files == WrapFiles(filesIdeal)
      modifies this`files, this`filesIdeal
      ensures files == WrapFiles(filesIdeal)
      ensures filesIdeal == FileStep(old(filesIdeal), event)
    {
      FileStepWraps(filesIdeal, event);
      var key := (event.pid, event.fd);
      match event.kind {
        case Open =>
          files := files[key := FileStats(FormatPath(event.path, event.pathLen), 0, 0, false)];
        case Close =>
          if key in files {
            files := files[key := files[key].(closed := true)];
          }
        case Read =>
          var entry := if key in files then files[key] else UNKNOWN_FILE;
          files := files[key := entry.(bytesRead := Wrap(entry.bytesRead + AsU64(event.bytes)))];
        case Write =>
          var entry := if key in files then files[key] else UNKNOWN_FILE;
          files := files[key := entry.(bytesWritten := Wrap(entry.bytesWritten + AsU64(event.bytes)))];
      }
      filesIdeal := FileStep(filesIdeal, event);
    }

    method DrainFileEvents(p: Probes)
      requires Valid()
      modifies this`files, this`filesIdeal, p`file
      ensures Valid() && p.file == []
      ensures filesIdeal == Fold(FileStep, old(filesIdeal), old(p.file))
    {
      while |p.file| > 0
        invariant files == WrapFiles(filesIdeal)
        invariant Fold(FileStep, filesIdeal, p.file) == Fold(FileStep, old(filesIdeal), old(p.file))
        decreases |p.file|
      {
        var event := p.file[0];
        FoldPop(FileStep, filesIdeal, p.file);
        p.file := p.file[1..];
        TakeFile(event);
      }
    }

    /** One memory record. */
    method TakeMem(event: MemEvent)
      requires mem == WrapMem(memIdeal)
      modifies this`mem, this`memIdeal
      ensures mem == WrapMem(memIdeal)
      ensures memIdeal == MemStep(old(memIdeal), event)
    {
      WrapAdd(memIdeal.allocCount, 1);
      WrapAdd(memIdeal.allocBytes, event.bytes);
      WrapAdd(memIdeal.freeCount, 1);
      match event.kind {
        case Alloc =>
          mem := MemStats(Wrap(mem.allocCount + 1), Wrap(mem.allocBytes + event.bytes), mem.freeCount);
        case Free =>
          mem := mem.(freeCount := Wrap(mem.freeCount + 1));
      }
      memIdeal := MemStep(memIdeal, event);
    }

    method DrainMemEvents(p: Probes)
      requires Valid()
      modifies this`mem, this`memIdeal, p`mem
      ensures Valid() && p.mem == []
      ensures memIdeal == Fold(MemStep, old(memIdeal), old(p.mem))
    {
      while |p.mem| > 0
        invariant mem == WrapMem(memIdeal)
        invariant Fold(MemStep, memIdeal, p.mem) == Fold(MemStep, old(memIdeal), old(p.mem))
        decreases |p.mem|
      {
        var event := p.mem[0];
        FoldPop(MemStep, memIdeal, p.mem);
        p.mem := p.mem[1..];
        TakeMem(event);
      }
    }

    /** One poll: every ring is emptied into its table. */
    method PollEvents(p: Probes)
      requires Valid()
      modifies this, p`events, p`net, p`file, p`mem
      ensures Valid()
      ensures p.Now() == old(p.Now()).(events := [], net := [], file := [], mem := [])
      ensures Ideal() == Tables(
        Fold(SysStep, old(sysIdeal), old(p.events)),
        Fold(ConnStep, old(connsIdeal), old(p.net)),
        Fold(FileStep, old(filesIdeal), old(p.file)),
        Fold(MemStep, old(memIdeal), old(p.mem)))
    {
      DrainSyscalls(p);
      DrainNetEvents(p);
      DrainFileEvents(p);
      DrainMemEvents(p);
    }
  }
}
