/** A summary of the tables: three lists with one row per entry, largest first. Hash maps
    hand out their entries in any order, so that order is a parameter. */
module Summaries {
  import opened Records
  import opened Folds
  import opened Sums
  import opened Sorting
  import opened Tables
  import opened Text
  import opened Kernel
  import opened Pipeline
  import opened Syscalls

  datatype SyscallRow = SyscallRow(name: string, category: string, count: nat, totalNs: nat, avgNs: nat)
  datatype ConnectionRow = ConnectionRow(local: string, remote: string, state: string, retransmits: nat)
  datatype FileRow = FileRow(path: Path, pid: nat, fd: int, closed: bool, bytesRead: nat, bytesWritten: nat)

  datatype Summary = Summary(
    syscalls: seq<SyscallRow>, connections: seq<ConnectionRow>, files: seq<FileRow>,
    allocs: nat, allocBytes: nat, frees: nat)

  /** The lookups that turn numbers into text. */
  datatype Names = Names(syscall: nat -> (string, string), address: (nat, seq<Byte>) -> string, state: nat -> string)

  /** The order in which each table hands out its keys. */
  datatype Orders = Orders(syscalls: seq<nat>, conns: seq<ConnectionKey>, files: seq<FileKey>)

  ghost function Elements<K>(s: seq<K>): set<K> {
    set k | k in s
  }

  ghost predicate Lists<K, V>(order: seq<K>, m: map<K, V>) {
    Distinct(order) && Elements(order) == m.Keys
  }

  ghost predicate ListsAll(o: Orders, t: Tables) {
    Lists(o.syscalls, t.sys.stats) && Lists(o.conns, t.conns) && Lists(o.files, t.files)
  }

  function Rows<K, V, R>(order: seq<K>, m: map<K, V>, row: (K, V) -> R): seq<R>
    requires forall k | k in order :: k in m
  {
    if |order| == 0 then []
    else
      var k := order[|order| - 1];
      Rows(order[..|order| - 1], m, row) + [row(k, m[k])]
  }

  function SyscallRowOf(names: Names): (nat, SyscallStats) -> SyscallRow {
    (nr: nat, s: SyscallStats) =>
      SyscallRow(names.syscall(nr).0, names.syscall(nr).1, s.count, s.totalNs, s.AvgNs())
  }

  function ConnectionRowOf(names: Names): (ConnectionKey, ConnectionStats) -> ConnectionRow {
    (k: ConnectionKey, s: ConnectionStats) =>
      ConnectionRow(
        names.address(k.family, k.saddr) + ":" + Print(k.sport),
        names.address(k.family, k.daddr) + ":" + Print(k.dport),
        names.state(s.state), s.retransmits)
  }

  function FileRowOf(): (FileKey, FileStats) -> FileRow {
    (k: FileKey, s: FileStats) => FileRow(s.path, k.0, k.1, s.closed, s.bytesRead, s.bytesWritten)
  }

  function ByTime(): SyscallRow -> nat {
    (r: SyscallRow) => r.totalNs
  }

  function ByRetransmits(): ConnectionRow -> nat {
    (r: ConnectionRow) => r.retransmits
  }

  function ByBytes(): FileRow -> nat {
    (r: FileRow) => Wrap(r.bytesRead + r.bytesWritten)
  }

  function Build(t: Tables, o: Orders, names: Names): Summary
    requires ListsAll(o, t)
  {
    assert forall k :: k in Elements(o.syscalls) <==> k in t.sys.stats;
    assert forall k :: k in Elements(o.conns) <==> k in t.conns;
    assert forall k :: k in Elements(o.files) <==> k in t.files;
    Summary(
      SortDesc(Rows(o.syscalls, t.sys.stats, SyscallRowOf(names)), ByTime()),
      SortDesc(Rows(o.conns, t.conns, ConnectionRowOf(names)), ByRetransmits()),
      SortDesc(Rows(o.files, t.files, FileRowOf()), ByBytes()),
      t.mem.allocCount, t.mem.allocBytes, t.mem.freeCount)
  }

  // ---- one row per entry

  /** The entries among `ks` that are shown as this row. */
  ghost function ShownAs<K, V, R>(ks: set<K>, m: map<K, V>, row: (K, V) -> R, r: R): set<K> {
    set k | k in ks && k in m && row(k, m[k]) == r
  }

  /** Each row value occurs once for every table entry it stands for, and nothing else does. */
  ghost predicate OneRowPerEntry<K, V, R(!new)>(rows: seq<R>, m: map<K, V>, row: (K, V) -> R) {
    && |rows| == |m|
    && forall r :: multiset(rows)[r] == |ShownAs(m.Keys, m, row, r)|
  }

  lemma ShownAsPush<K, V, R>(ks: set<K>, k: K, m: map<K, V>, row: (K, V) -> R, r: R)
    requires k !in ks && k in m
    ensures |ShownAs(ks + {k}, m, row, r)| == |ShownAs(ks, m, row, r)| + if row(k, m[k]) == r then 1 else 0
  {
    if row(k, m[k]) == r {
      assert ShownAs(ks + {k}, m, row, r) == ShownAs(ks, m, row, r) + {k};
    } else {
      assert ShownAs(ks + {k}, m, row, r) == ShownAs(ks, m, row, r);
    }
  }

  lemma PushCount<R>(s: seq<R>, x: R, r: R)
    ensures multiset(s + [x])[r] == multiset(s)[r] + if x == r then 1 else 0
  {
  }

  lemma ElementsPush<K>(s: seq<K>)
    requires |s| > 0 && Distinct(s)
    ensures s[|s| - 1] !in Elements(s[..|s| - 1])
    ensures Elements(s) == Elements(s[..|s| - 1]) + {s[|s| - 1]}
  {
    assert s == s[..|s| - 1] + [s[|s| - 1]];
  }

  lemma {:induction false} RowsCounted<K, V, R>(order: seq<K>, m: map<K, V>, row: (K, V) -> R, r: R)
    requires Distinct(order) && forall k | k in order :: k in m
    ensures multiset(Rows(order, m, row))[r] == |ShownAs(Elements(order), m, row, r)|
  {
    if |order| == 0 {
      assert ShownAs(Elements(order), m, row, r) == {};
    } else {
      var front, last := order[..|order| - 1], order[|order| - 1];
      RowsCounted(front, m, row, r);
      ElementsPush(order);
      PushCount(Rows(front, m, row), row(last, m[last]), r);
      ShownAsPush(Elements(front), last, m, row, r);
    }
  }

  lemma {:induction false} DistinctCounts<K>(s: seq<K>)
    requires Distinct(s)
    ensures |Elements(s)| == |s|
  {
    if |s| > 0 {
      DistinctCounts(s[..|s| - 1]);
      ElementsPush(s);
    }
  }

  lemma {:induction false} AsManyRows<K, V, R>(order: seq<K>, m: map<K, V>, row: (K, V) -> R)
    requires forall k | k in order :: k in m
    ensures |Rows(order, m, row)| == |order|
  {
    if |order| > 0 {
      AsManyRows(order[..|order| - 1], m, row);
    }
  }

  lemma SortedRows<K, V, R(!new)>(order: seq<K>, m: map<K, V>, row: (K, V) -> R, key: R -> nat)
    requires Lists(order, m)
    ensures forall k | k in order :: k in m
    ensures OneRowPerEntry(SortDesc(Rows(order, m, row), key), m, row)
    ensures Nonincreasing(SortDesc(Rows(order, m, row), key), key)
  {
    assert forall k :: k in Elements(order) <==> k in m;
    var rows := Rows(order, m, row);
    SortDescSorts(rows, key);
    AsManyRows(order, m, row);
    DistinctCounts(order);
    assert |SortDesc(rows, key)| == |multiset(SortDesc(rows, key))| == |multiset(rows)| == |rows|;
    assert |m| == |m.Keys|;
    forall r ensures multiset(rows)[r] == |ShownAs(m.Keys, m, row, r)| {
      RowsCounted(order, m, row, r);
    }
  }

  /** Every entry of every table is listed exactly once, in descending order. */
  lemma SummaryIsFaithful(t: Tables, o: Orders, names: Names)
    requires ListsAll(o, t)
    ensures var s := Build(t, o, names);
      && OneRowPerEntry(s.syscalls, t.sys.stats, SyscallRowOf(names)) && Nonincreasing(s.syscalls, ByTime())
      && OneRowPerEntry(s.connections, t.conns, ConnectionRowOf(names)) && Nonincreasing(s.connections, ByRetransmits())
      && OneRowPerEntry(s.files, t.files, FileRowOf()) && Nonincreasing(s.files, ByBytes())
  {
    SortedRows(o.syscalls, t.sys.stats, SyscallRowOf(names), ByTime());
    SortedRows(o.conns, t.conns, ConnectionRowOf(names), ByRetransmits());
    SortedRows(o.files, t.files, FileRowOf(), ByBytes());
  }

  /** Same rows, and the same figure at each rank. */
  ghost predicate EqualUpToTies<R>(a: seq<R>, b: seq<R>, key: R -> nat) {
    && multiset(a) == multiset(b)
    && |a| == |b|
    && forall i | 0 <= i < |a| :: key(a[i]) == key(b[i])
  }

  lemma SortedRowsAgree<K, V, R(!new)>(a: seq<R>, b: seq<R>, m: map<K, V>, row: (K, V) -> R, key: R -> nat)
    requires OneRowPerEntry(a, m, row) && OneRowPerEntry(b, m, row)
    requires Nonincreasing(a, key) && Nonincreasing(b, key)
    ensures EqualUpToTies(a, b, key)
  {
    assert multiset(a) == multiset(b) by {
      forall r ensures multiset(a)[r] == multiset(b)[r] {
      }
    }
    PermutationsHaveSameCounts(a, b, key);
    RanksAgree(a, b, key);
  }

  /** The hash maps' iteration order can only swap rows that tie. */
  lemma OrderOnlyBreaksTies(t: Tables, o: Orders, p: Orders, names: Names)
    requires ListsAll(o, t) && ListsAll(p, t)
    ensures var s, s' := Build(t, o, names), Build(t, p, names);
      && EqualUpToTies(s.syscalls, s'.syscalls, ByTime())
      && EqualUpToTies(s.connections, s'.connections, ByRetransmits())
      && EqualUpToTies(s.files, s'.files, ByBytes())
  {
    var s, s' := Build(t, o, names), Build(t, p, names);
    SummaryIsFaithful(t, o, names);
    SummaryIsFaithful(t, p, names);
    SortedRowsAgree(s.syscalls, s'.syscalls, t.sys.stats, SyscallRowOf(names), ByTime());
    SortedRowsAgree(s.connections, s'.connections, t.conns, ConnectionRowOf(names), ByRetransmits());
    SortedRowsAgree(s.files, s'.files, t.files, FileRowOf(), ByBytes());
  }

  // ---- what the lists show, figure by figure

  /** Time never rises along the syscalls, retransmits along the connections, and the bytes moved,
      added up in 64 bits, along the files. */
  lemma ListsDescend(t: Tables, o: Orders, names: Names)
    requires ListsAll(o, t)
    ensures var s := Build(t, o, names);
      && (forall i, j | 0 <= i <= j < |s.syscalls| :: s.syscalls[i].totalNs >= s.syscalls[j].totalNs)
      && (forall i, j | 0 <= i <= j < |s.connections| :: s.connections[i].retransmits >= s.connections[j].retransmits)
      && (forall i, j | 0 <= i <= j < |s.files| ::
            (s.files[i].bytesRead + s.files[i].bytesWritten) % 0x1_0000_0000_0000_0000 >=
            (s.files[j].bytesRead + s.files[j].bytesWritten) % 0x1_0000_0000_0000_0000)
  {
    SummaryIsFaithful(t, o, names);
    var s := Build(t, o, names);
    forall i, j | 0 <= i <= j < |s.syscalls| ensures s.syscalls[i].totalNs >= s.syscalls[j].totalNs {
      assert ByTime()(s.syscalls[i]) >= ByTime()(s.syscalls[j]);
    }
    forall i, j | 0 <= i <= j < |s.connections| ensures s.connections[i].retransmits >= s.connections[j].retransmits {
      assert ByRetransmits()(s.connections[i]) >= ByRetransmits()(s.connections[j]);
    }
    forall i, j | 0 <= i <= j < |s.files|
      ensures (s.files[i].bytesRead + s.files[i].bytesWritten) % 0x1_0000_0000_0000_0000 >=
              (s.files[j].bytesRead + s.files[j].bytesWritten) % 0x1_0000_0000_0000_0000
    {
      assert ByBytes()(s.files[i]) >= ByBytes()(s.files[j]);
    }
  }

  predicate SaysSyscall(r: SyscallRow, names: Names, nr: nat, count: nat, total: nat) {
    && r.name == names.syscall(nr).0 && r.category == names.syscall(nr).1
    && r.count == count && r.totalNs == total
    && r.avgNs == if count == 0 then 0 else total / count
  }

  /** The local side is the source address and port, the remote side the destination's. */
  predicate SaysConnection(r: ConnectionRow, names: Names, k: ConnectionKey, state: nat, retransmits: nat) {
    && r.local == names.address(k.family, k.saddr) + ":" + Print(k.sport)
    && r.remote == names.address(k.family, k.daddr) + ":" + Print(k.dport)
    && r.state == names.state(state) && r.retransmits == retransmits
  }

  predicate SaysFile(r: FileRow, pid: nat, fd: int, f: FileStats) {
    && r.pid == pid && r.fd == fd && r.path == f.path && r.closed == f.closed
    && r.bytesRead == f.bytesRead && r.bytesWritten == f.bytesWritten
  }

  lemma EntryHasRow<K, V, R(!new)>(rows: seq<R>, m: map<K, V>, row: (K, V) -> R, k: K)
    requires OneRowPerEntry(rows, m, row) && k in m
    ensures row(k, m[k]) in rows
  {
    assert k in ShownAs(m.Keys, m, row, row(k, m[k]));
    assert multiset(rows)[row(k, m[k])] > 0;
  }

  lemma RowHasEntry<K, V, R(!new)>(rows: seq<R>, m: map<K, V>, row: (K, V) -> R, r: R) returns (k: K)
    requires OneRowPerEntry(rows, m, row) && r in rows
    ensures k in m && row(k, m[k]) == r
  {
    assert multiset(rows)[r] > 0;
    assert ShownAs(m.Keys, m, row, r) != {};
    k :| k in ShownAs(m.Keys, m, row, r);
  }

  /** Each syscall has a row with its own figures, and each row is that of some syscall. */
  lemma SyscallRowsSay(t: Tables, o: Orders, names: Names)
    requires ListsAll(o, t)
    ensures var rows, stats := Build(t, o, names).syscalls, t.sys.stats;
      && |rows| == |stats|
      && (forall nr | nr in stats ::
            exists r :: r in rows && SaysSyscall(r, names, nr, stats[nr].count, stats[nr].totalNs))
      && forall r | r in rows ::
           exists nr :: nr in stats && SaysSyscall(r, names, nr, stats[nr].count, stats[nr].totalNs)
  {
    SummaryIsFaithful(t, o, names);
    var rows, stats := Build(t, o, names).syscalls, t.sys.stats;
    forall nr | nr in stats
      ensures exists r :: r in rows && SaysSyscall(r, names, nr, stats[nr].count, stats[nr].totalNs)
    {
      EntryHasRow(rows, stats, SyscallRowOf(names), nr);
      assert SaysSyscall(SyscallRowOf(names)(nr, stats[nr]), names, nr, stats[nr].count, stats[nr].totalNs);
    }
    forall r | r in rows
      ensures exists nr :: nr in stats && SaysSyscall(r, names, nr, stats[nr].count, stats[nr].totalNs)
    {
      var nr := RowHasEntry(rows, stats, SyscallRowOf(names), r);
      assert SaysSyscall(r, names, nr, stats[nr].count, stats[nr].totalNs);
    }
  }

  /** Each connection has a row with its own sides, state and counter, and each row is that of
      some connection. */
  lemma ConnectionRowsSay(t: Tables, o: Orders, names: Names)
    requires ListsAll(o, t)
    ensures var rows, conns := Build(t, o, names).connections, t.conns;
      && |rows| == |conns|
      && (forall k | k in conns ::
            exists r :: r in rows && SaysConnection(r, names, k, conns[k].state, conns[k].retransmits))
      && forall r | r in rows ::
           exists k :: k in conns && SaysConnection(r, names, k, conns[k].state, conns[k].retransmits)
  {
    SummaryIsFaithful(t, o, names);
    var rows, conns := Build(t, o, names).connections, t.conns;
    forall k | k in conns
      ensures exists r :: r in rows && SaysConnection(r, names, k, conns[k].state, conns[k].retransmits)
    {
      EntryHasRow(rows, conns, ConnectionRowOf(names), k);
      assert SaysConnection(ConnectionRowOf(names)(k, conns[k]), names, k, conns[k].state, conns[k].retransmits);
    }
    forall r | r in rows
      ensures exists k :: k in conns && SaysConnection(r, names, k, conns[k].state, conns[k].retransmits)
    {
      var k := RowHasEntry(rows, conns, ConnectionRowOf(names), r);
      assert SaysConnection(r, names, k, conns[k].state, conns[k].retransmits);
    }
  }

  /** Each descriptor has a row with its own pid, number, path, bytes and status, and each row is
      that of some descriptor. */
  lemma FileRowsSay(t: Tables, o: Orders, names: Names)
    requires ListsAll(o, t)
    ensures var rows, files := Build(t, o, names).files, t.files;
      && |rows| == |files|
      && (forall k: FileKey | k in files :: exists r :: r in rows && SaysFile(r, k.0, k.1, files[k]))
      && forall r | r in rows :: exists k: FileKey :: k in files && SaysFile(r, k.0, k.1, files[k])
  {
    SummaryIsFaithful(t, o, names);
    var rows, files := Build(t, o, names).files, t.files;
    forall k: FileKey | k in files ensures exists r :: r in rows && SaysFile(r, k.0, k.1, files[k]) {
      EntryHasRow(rows, files, FileRowOf(), k);
      assert SaysFile(FileRowOf()(k, files[k]), k.0, k.1, files[k]);
    }
    forall r | r in rows ensures exists k: FileKey :: k in files && SaysFile(r, k.0, k.1, files[k]) {
      var k := RowHasEntry(rows, files, FileRowOf(), r);
      assert SaysFile(r, k.0, k.1, files[k]);
    }
  }

  /** The three allocation counters, each in its own place. */
  lemma CountersSay(t: Tables, o: Orders, names: Names)
    requires ListsAll(o, t)
    ensures var s := Build(t, o, names);
      s.allocs == t.mem.allocCount && s.allocBytes == t.mem.allocBytes && s.frees == t.mem.freeCount
  {
  }

  // ---- the counts add up

  function CountShown(): SyscallRow -> nat {
    (r: SyscallRow) => r.count
  }

  lemma WrapTwo(shown: nat, total: nat, more: nat)
    requires Wrap(shown) == Wrap(total) && shown <= total
    ensures Wrap(shown + Wrap(more)) == Wrap(total + more) && shown + Wrap(more) <= total + more
  {
    WrapSum(shown, more);
    WrapSum(total, more);
    WrapAdd(more, shown);
  }

  lemma OneMoreRowShown(stats: map<nat, SyscallStats>, front: seq<nat>, nr: nat, names: Names)
    requires nr in stats && forall k | k in front :: k in stats
    ensures forall k | k in front + [nr] :: k in WrapStats(stats)
    ensures SumOver(Rows(front + [nr], WrapStats(stats), SyscallRowOf(names)), CountShown()) ==
      SumOver(Rows(front, WrapStats(stats), SyscallRowOf(names)), CountShown()) + Wrap(stats[nr].count)
    ensures SumOver(front + [nr], CountIn(stats)) == SumOver(front, CountIn(stats)) + stats[nr].count
  {
    var w := WrapStats(stats);
    assert (front + [nr])[..|front|] == front;
    var row: (nat, SyscallStats) -> SyscallRow := SyscallRowOf(names);
    SumOverOne(Rows<nat, SyscallStats, SyscallRow>(front, w, row), row(nr, w[nr]), CountShown());
    SumOverOne(front, nr, CountIn(stats));
  }

  /** All wrapped counts together are the residue of all counts together. */
  lemma {:induction false} CountsOfWrappedRows(stats: map<nat, SyscallStats>, order: seq<nat>, names: Names)
    requires forall nr | nr in order :: nr in stats
    ensures forall nr | nr in order :: nr in WrapStats(stats)
    ensures var shown := SumOver(Rows(order, WrapStats(stats), SyscallRowOf(names)), CountShown());
      Wrap(shown) == Wrap(SumOver(order, CountIn(stats))) && shown <= SumOver(order, CountIn(stats))
  {
    if |order| > 0 {
      var front, nr := order[..|order| - 1], order[|order| - 1];
      CountsOfWrappedRows(stats, front, names);
      OneMoreRowShown(stats, front, nr, names);
      assert order == front + [nr];
      WrapTwo(SumOver(Rows(front, WrapStats(stats), SyscallRowOf(names)), CountShown()),
              SumOver(front, CountIn(stats)), stats[nr].count);
    }
  }

  lemma SortedCounts(stats: map<nat, SyscallStats>, order: seq<nat>, names: Names)
    requires forall nr | nr in order :: nr in WrapStats(stats)
    ensures var rows := Rows(order, WrapStats(stats), SyscallRowOf(names));
      var shown := SumOver(SortDesc(rows, ByTime()), CountShown());
      Wrap(shown) == Wrap(SumOver(order, CountIn(stats))) && shown <= SumOver(order, CountIn(stats))
  {
    var rows := Rows(order, WrapStats(stats), SyscallRowOf(names));
    SortDescSorts(rows, ByTime());
    SumOverPermutation(SortDesc(rows, ByTime()), rows, CountShown());
    CountsOfWrappedRows(stats, order, names);
  }

  lemma SameResidue(x: nat, y: nat)
    requires Wrap(x) == Wrap(y) && x <= y < U64
    ensures x == y
  {
  }

  lemma TotalIsMatched(log: seq<SyscallEvent>, stats: map<nat, SyscallStats>, order: seq<nat>)
    requires stats == Fold(SysStep, NO_SYS, log).stats && Lists(order, WrapStats(stats))
    ensures SumOver(order, CountIn(stats)) == Matched(log, AllCalls())
  {
    forall nr: nat | nr in stats ensures nr in order {
      assert nr in WrapStats(stats).Keys;
    }
    RowCountsSumToMatched(log, order);
  }

  lemma ListedCounts(log: seq<SyscallEvent>, t: Tables, o: Orders, names: Names)
    requires t.sys == Fold(SysStep, NO_SYS, log) && ListsAll(o, Wrapped(t))
    ensures var shown := SumOver(Build(Wrapped(t), o, names).syscalls, CountShown());
      Wrap(shown) == Wrap(Matched(log, AllCalls())) && shown <= Matched(log, AllCalls())
  {
    assert forall k | k in o.syscalls :: k in Elements(o.syscalls);
    SortedCounts(t.sys.stats, o.syscalls, names);
    TotalIsMatched(log, t.sys.stats, o.syscalls);
  }

  /** In a summary of any reachable state, the listed counts add up to the matched calls among
      the records taken so far: modulo 2^64 always, exactly while that number fits. */
  lemma ListedCountsAreMatchedCalls(caps: Caps, steps: seq<Step>, o: Orders, names: Names)
    requires ListsAll(o, Wrapped(Run(caps, steps).u))
    ensures var matched := Matched(TakenSyscalls(caps, steps), AllCalls());
      var shown := SumOver(Build(Wrapped(Run(caps, steps).u), o, names).syscalls, CountShown());
      && Wrap(shown) == Wrap(matched)
      && (matched < U64 ==> shown == matched)
  {
    TablesAreFolds(caps, steps);
    ListedCounts(TakenSyscalls(caps, steps), Run(caps, steps).u, o, names);
    var matched := Matched(TakenSyscalls(caps, steps), AllCalls());
    if matched < U64 {
      SameResidue(SumOver(Build(Wrapped(Run(caps, steps).u), o, names).syscalls, CountShown()), matched);
    }
  }
}
