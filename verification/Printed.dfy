/** What the printed tables say about the tracepoints that arrived: the theorems about runs, at
    the states the headless loop prints. */
module Printed {
  import opened Tables
  import opened Records
  import opened Kernel
  import opened Pipeline
  import opened Syscalls
  import opened SyscallTruth
  import opened SyscallExact
  import opened TableFacts
  import opened Agreement
  import opened Files
  import opened FileTruth
  import opened Headless

  /** The tables shown by a line for poll `n`. */
  function ShownAt(caps: Caps, arrivals: nat -> seq<Tracepoint>, n: nat): Tables {
    Wrapped(WorldAt(caps, arrivals, n).u)
  }

  lemma WrapAtMost(x: nat)
    ensures Wrap(x) <= x
  {
  }

  lemma ShownRow(stats: map<nat, SyscallStats>, nr: nat)
    ensures StatsOf(WrapStats(stats), nr) == WrapSys(StatsOf(stats, nr))
  {
  }

  /** A printed time is at most the time the target's threads really spent in that syscall,
      whatever was lost, unless a matched Exit stands in for a lost one. */
  lemma PrintedTimeNeverOverstates(caps: Caps, arrivals: nat -> seq<Tracepoint>, n: nat, calls: seq<Traced>,
                                   nr: nat, now: nat)
    requires Describes(calls, Arrived(arrivals, n)) && WellFormed(calls) && UpToNow(calls, now)
    requires NoLeak(calls, KeptIn(caps, StepsOf(caps, arrivals, n)))
    ensures StatsOf(ShownAt(caps, arrivals, n).sys.stats, nr).totalNs <= TrueTime(calls, Number(nr), now, |calls|)
  {
    WorldAtIsReachable(caps, arrivals, n);
    ReportedTimeNeverOverstates(caps, StepsOf(caps, arrivals, n), calls, nr, now);
    var stats := WorldAt(caps, arrivals, n).u.sys.stats;
    ShownRow(stats, nr);
    WrapAtMost(StatsOf(stats, nr).totalNs);
  }

  lemma NothingLeft(caps: Caps, arrivals: nat -> seq<Tracepoint>, n: nat)
    ensures WorldAt(caps, arrivals, n).k.events == [] && WorldAt(caps, arrivals, n).k.net == []
    ensures Absorb(WorldAt(caps, arrivals, n)) == WorldAt(caps, arrivals, n).u
  {
  }

  /** Without losses and overlaps it is exactly the time of the completed calls, modulo 2^64. */
  lemma PrintedTimeIsExact(caps: Caps, arrivals: nat -> seq<Tracepoint>, n: nat, calls: seq<Traced>, nr: nat)
    requires Describes(calls, Arrived(arrivals, n)) && WellFormed(calls) && NoOverlap(calls, Number(nr))
    requires NoneLost(caps, StepsOf(caps, arrivals, n), false)
    ensures StatsOf(ShownAt(caps, arrivals, n).sys.stats, nr).totalNs == Wrap(CompletedTime(calls, Number(nr), |calls|))
  {
    WorldAtIsReachable(caps, arrivals, n);
    NothingLeft(caps, arrivals, n);
    ExactWithoutOverlap(caps, StepsOf(caps, arrivals, n), calls, nr);
    ShownRow(WorldAt(caps, arrivals, n).u.sys.stats, nr);
  }

  /** Without losses, and however calls overlap: if every Exit of the syscall has its own Enter,
      the printed time is that of the completed calls if and only if every Exit is paired with
      its own thread's Enter, as long as that time fits in 64 bits. */
  lemma PrintedTimeIsExactIff(caps: Caps, arrivals: nat -> seq<Tracepoint>, n: nat, calls: seq<Traced>, nr: nat)
    requires Describes(calls, Arrived(arrivals, n)) && Traceable(calls, Number(nr))
    requires NoneLost(caps, StepsOf(caps, arrivals, n), false)
    requires CompletedTime(calls, Number(nr), |calls|) < U64
    ensures StatsOf(ShownAt(caps, arrivals, n).sys.stats, nr).totalNs == CompletedTime(calls, Number(nr), |calls|)
      <==> AllOwnMatches(calls, Number(nr), |calls|)
  {
    WorldAtIsReachable(caps, arrivals, n);
    NothingLeft(caps, arrivals, n);
    ShownIsExactIff(caps, StepsOf(caps, arrivals, n), calls, nr);
    ShownRow(WorldAt(caps, arrivals, n).u.sys.stats, nr);
    WrapSmall(StatsOf(WorldAt(caps, arrivals, n).u.sys.stats, nr).totalNs, CompletedTime(calls, Number(nr), |calls|));
  }

  /** In every reachable state the row that is shown, while it fits in 64 bits, has a positive
      count, and its average lies between two durations measured among the records taken. */
  lemma ShownAverageIsReal(caps: Caps, steps: seq<Step>, nr: nat)
    requires var stats := Run(caps, steps).u.sys.stats;
      nr in stats && stats[nr].count < U64 && stats[nr].totalNs < U64
    ensures var row := StatsOf(Wrapped(Run(caps, steps).u).sys.stats, nr);
      && row.count > 0 && row.AvgNs() * row.count <= row.totalNs < (row.AvgNs() + 1) * row.count
      && BetweenMeasured(TakenSyscalls(caps, steps), Number(nr), row.AvgNs())
  {
    var stats := Run(caps, steps).u.sys.stats;
    TablesAreFolds(caps, steps);
    ShownRow(stats, nr);
    WrapSmall(stats[nr].count, stats[nr].count);
    WrapSmall(stats[nr].totalNs, stats[nr].totalNs);
    assert StatsOf(WrapStats(stats), nr) == stats[nr];
    AverageIsReal(TakenSyscalls(caps, steps), nr);
    AverageBrackets(stats[nr]);
  }

  /** In every reachable state whose taken records are in time order, whatever was lost, the time
      shown is at most distinct processes times the span of those records. */
  lemma ShownTimeWithinWallClock(caps: Caps, steps: seq<Step>, nr: nat)
    requires TakenSyscalls(caps, steps) != [] && Nondecreasing(TakenSyscalls(caps, steps))
    ensures var taken := TakenSyscalls(caps, steps);
      StatsOf(Wrapped(Run(caps, steps).u).sys.stats, nr).totalNs <= |Pids(taken, nr)| * Span(taken)
  {
    TablesAreFolds(caps, steps);
    TotalWithinWallClock(TakenSyscalls(caps, steps), nr);
    var stats := Run(caps, steps).u.sys.stats;
    ShownRow(stats, nr);
    WrapAtMost(StatsOf(stats, nr).totalNs);
  }

  /** In every reachable state, with timestamps in any order and whatever was lost, the time shown
      is at most the number of taken Exits later than their Enter times the spread of the
      timestamps of that syscall. */
  lemma ShownTimeWithinSpread(caps: Caps, steps: seq<Step>, nr: nat, lo: nat, hi: nat)
    requires lo <= hi
    requires var taken := TakenSyscalls(caps, steps);
      forall i | 0 <= i < |taken| && taken[i].nr == nr :: lo <= taken[i].ts <= hi
    ensures StatsOf(Wrapped(Run(caps, steps).u).sys.stats, nr).totalNs
      <= Forward(TakenSyscalls(caps, steps), Number(nr)) * (hi - lo)
  {
    TablesAreFolds(caps, steps);
    TotalWithinSpread(TakenSyscalls(caps, steps), nr, lo, hi);
    var stats := Run(caps, steps).u.sys.stats;
    ShownRow(stats, nr);
    WrapAtMost(StatsOf(stats, nr).totalNs);
  }

  /** In an orderly run a printed file row is what the calls that arrived did to that file. */
  lemma PrintedFilesAreTrue(caps: Caps, boot: Flight, arrivals: nat -> seq<Tracepoint>, n: nat, key: FileKey)
    requires OrderlyCalls(caps, boot, StepsOf(caps, arrivals, n))
    ensures var made, files := Effects(boot, StepsOf(caps, arrivals, n)), ShownAt(caps, arrivals, n).files;
      && (key in files <==> Birth(made, key) >= 0)
      && (key in files ==> files[key] == WrapFile(RowFromBirth(made, key)))
  {
    var steps := StepsOf(caps, arrivals, n);
    WorldAtIsReachable(caps, arrivals, n);
    NothingLeft(caps, arrivals, n);
    AbsorbIsFoldOfLogs(caps, steps);
    FileLogIsTruth(caps, boot, steps);
    FileTableMeaning(Effects(boot, steps), key);
  }

  /** In an orderly run the printed connections are exactly the tracked sockets' tuples. */
  lemma PrintedConnectionsAreTracked(caps: Caps, arrivals: nat -> seq<Tracepoint>, n: nat)
    requires OrderlyNet(caps, StepsOf(caps, arrivals, n))
    ensures ShownAt(caps, arrivals, n).conns.Keys ==
      Image(WorldAt(caps, arrivals, n).k.socks, LiveAfter(StepsOf(caps, arrivals, n)))
  {
    WorldAtIsReachable(caps, arrivals, n);
    NothingLeft(caps, arrivals, n);
    ConnectionsAgree(caps, StepsOf(caps, arrivals, n));
    assert WrapConns(WorldAt(caps, arrivals, n).u.conns).Keys == WorldAt(caps, arrivals, n).u.conns.Keys;
  }
}
