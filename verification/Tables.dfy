/** What one record does to the userspace tables. Accumulators are unbounded here; class
    Aggregator keeps them in 64 bits and is proved to hold exactly the residues. */
module Tables {
  import opened Records

  type CallKey = (nat, nat)

  datatype SyscallStats = SyscallStats(count: nat, totalNs: nat) {
    function AvgNs(): nat {
      if count == 0 then 0 else totalNs / count
    }
  }

  datatype SysTable = SysTable(pending: map<CallKey, nat>, stats: map<nat, SyscallStats>)

  datatype ConnectionKey = ConnectionKey(family: nat, sport: nat, dport: nat, saddr: seq<Byte>, daddr: seq<Byte>)
  datatype ConnectionStats = ConnectionStats(state: nat, retransmits: nat)
  type ConnTable = map<ConnectionKey, ConnectionStats>

  /** The bytes shown for a path, and whether an ellipsis follows them. */
  datatype Path = Unknown | Known(text: seq<Byte>, ellipsis: bool)
  datatype FileStats = FileStats(path: Path, bytesRead: nat, bytesWritten: nat, closed: bool)
  type FileKey = (nat, int)
  type FileTable = map<FileKey, FileStats>

  datatype MemStats = MemStats(allocCount: nat, allocBytes: nat, freeCount: nat)

  datatype Tables = Tables(sys: SysTable, conns: ConnTable, files: FileTable, mem: MemStats)

  const NO_SYS := SysTable(map[], map[])
  const NO_CONNS: ConnTable := map[]
  const NO_FILES: FileTable := map[]
  const NO_MEM := MemStats(0, 0, 0)
  const NO_TABLES := Tables(NO_SYS, NO_CONNS, NO_FILES, NO_MEM)

  function SatSub(a: nat, b: nat): nat {
    if a >= b then a - b else 0
  }

  function CallOf(e: SyscallEvent): CallKey {
    (e.pid, e.nr)
  }

  function StatsOf(stats: map<nat, SyscallStats>, nr: nat): SyscallStats {
    if nr in stats then stats[nr] else SyscallStats(0, 0)
  }

  /** Enters overwrite; an Exit consumes the pending Enter of its (pid, number), if any. */
  function SysStep(t: SysTable, e: SyscallEvent): SysTable {
    var key := CallOf(e);
    match e.kind
    case Enter => SysTable(t.pending[key := e.ts], t.stats)
    case Exit =>
      if key !in t.pending then t
      else
        var s := StatsOf(t.stats, e.nr);
        SysTable(t.pending - {key},
                 t.stats[e.nr := SyscallStats(s.count + 1, s.totalNs + SatSub(e.ts, t.pending[key]))])
  }

  function ConnOf(e: NetEvent): ConnectionKey {
    ConnectionKey(e.family, e.sport, e.dport, e.saddr, e.daddr)
  }

  predicate IsClosing(e: NetEvent) {
    e.kind == StateChange && e.state == TCP_CLOSE
  }

  function ConnStep(t: ConnTable, e: NetEvent): ConnTable {
    var key := ConnOf(e);
    var was := if key in t then t[key] else ConnectionStats(0, 0);
    if IsClosing(e) then t - {key}
    else if e.kind == StateChange then t[key := ConnectionStats(e.state, was.retransmits)]
    else t[key := ConnectionStats(e.state, was.retransmits + 1)]
  }

  function FormatPath(path: seq<Byte>, len: nat): Path {
    Known(path[..if len <= |path| then len else |path|], len >= FILE_PATH_MAX)
  }

  const UNKNOWN_FILE := FileStats(Unknown, 0, 0, false)

  function FileOf(e: FileEvent): FileKey {
    (e.pid, e.fd)
  }

  function FileStep(t: FileTable, e: FileEvent): FileTable {
    var key := FileOf(e);
    var was := if key in t then t[key] else UNKNOWN_FILE;
    match e.kind
    case Open => t[key := FileStats(FormatPath(e.path, e.pathLen), 0, 0, false)]
    case Close => if key in t then t[key := was.(closed := true)] else t
    case Read => t[key := was.(bytesRead := was.bytesRead + AsU64(e.bytes))]
    case Write => t[key := was.(bytesWritten := was.bytesWritten + AsU64(e.bytes))]
  }

  function MemStep(t: MemStats, e: MemEvent): MemStats {
    match e.kind
    case Alloc => MemStats(t.allocCount + 1, t.allocBytes + e.bytes, t.freeCount)
    case Free => t.(freeCount := t.freeCount + 1)
  }

  // ---- the same tables held in 64-bit accumulators

  function Wrap(x: nat): nat {
    x % U64
  }

  lemma WrapAdd(x: nat, y: nat)
    ensures Wrap(Wrap(x) + y) == Wrap(x + y)
  {
  }

  lemma WrapSum(x: nat, y: nat)
    ensures Wrap(Wrap(x) + Wrap(y)) == Wrap(x + y)
  {
  }

  function WrapSys(s: SyscallStats): SyscallStats {
    SyscallStats(Wrap(s.count), Wrap(s.totalNs))
  }

  function WrapConn(s: ConnectionStats): ConnectionStats {
    ConnectionStats(s.state, Wrap(s.retransmits))
  }

  function WrapFile(s: FileStats): FileStats {
    s.(bytesRead := Wrap(s.bytesRead), bytesWritten := Wrap(s.bytesWritten))
  }

  function WrapStats(t: map<nat, SyscallStats>): map<nat, SyscallStats> {
    map nr | nr in t :: WrapSys(t[nr])
  }

  function WrapConns(t: ConnTable): ConnTable {
    map c | c in t :: WrapConn(t[c])
  }

  function WrapFiles(t: FileTable): FileTable {
    map f | f in t :: WrapFile(t[f])
  }

  function WrapMem(s: MemStats): MemStats {
    MemStats(Wrap(s.allocCount), Wrap(s.allocBytes), Wrap(s.freeCount))
  }

  function Wrapped(t: Tables): Tables {
    Tables(SysTable(t.sys.pending, WrapStats(t.sys.stats)), WrapConns(t.conns), WrapFiles(t.files), WrapMem(t.mem))
  }

  /** Every accumulator is below 2^64. */
  ghost predicate InRange(t: Tables) {
    && (forall nr | nr in t.sys.stats :: t.sys.stats[nr].count < U64 && t.sys.stats[nr].totalNs < U64)
    && (forall c | c in t.conns :: t.conns[c].retransmits < U64)
    && (forall f | f in t.files :: t.files[f].bytesRead < U64 && t.files[f].bytesWritten < U64)
    && t.mem.allocCount < U64 && t.mem.allocBytes < U64 && t.mem.freeCount < U64
  }

  /** What the 64-bit accumulators show is the true total exactly when every total fits. */
  lemma WrappedIsExactIffInRange(t: Tables)
    ensures Wrapped(t) == t <==> InRange(t)
  {
    if Wrapped(t) == t {
      forall nr | nr in t.sys.stats ensures t.sys.stats[nr].count < U64 && t.sys.stats[nr].totalNs < U64 {
        assert WrapStats(t.sys.stats)[nr] == WrapSys(t.sys.stats[nr]);
      }
      forall c | c in t.conns ensures t.conns[c].retransmits < U64 {
        assert WrapConns(t.conns)[c] == WrapConn(t.conns[c]);
      }
      forall f | f in t.files ensures t.files[f].bytesRead < U64 && t.files[f].bytesWritten < U64 {
        assert WrapFiles(t.files)[f] == WrapFile(t.files[f]);
      }
    }
    if InRange(t) {
      assert WrapStats(t.sys.stats) == t.sys.stats;
      assert WrapConns(t.conns) == t.conns;
      assert WrapFiles(t.files) == t.files;
    }
  }
}
