/** What the syscall table means, for every log of syscall records, lossy or not. */
module Syscalls {
  import opened Records
  import opened Folds
  import opened Repeats
  import opened Sums
  import opened Tables

  // ---- pairing, read off the log

  /** Position of the last record of this call key, or -1. */
  ghost function LastOf(log: seq<SyscallEvent>, key: CallKey): (p: int)
    ensures -1 <= p < |log|
    ensures p >= 0 ==> CallOf(log[p]) == key
    ensures forall i | p < i < |log| :: CallOf(log[i]) != key
  {
    if |log| == 0 then -1
    else if CallOf(log[|log| - 1]) == key then |log| - 1
    else LastOf(log[..|log| - 1], key)
  }

  /** Record `j` has an unanswered Enter of its own key right before it. */
  ghost predicate AfterEnter(log: seq<SyscallEvent>, j: nat)
    requires j < |log|
  {
    var p := LastOf(log[..j], CallOf(log[j]));
    p >= 0 && log[p].kind == Enter
  }

  ghost predicate IsMatched(log: seq<SyscallEvent>, j: nat)
    requires j < |log|
  {
    log[j].kind == Exit && AfterEnter(log, j)
  }

  /** The Enter a matched Exit is paired with. */
  ghost function EnterOf(log: seq<SyscallEvent>, j: nat): (p: nat)
    requires j < |log| && IsMatched(log, j)
    ensures p < j && log[p].kind == Enter && CallOf(log[p]) == CallOf(log[j])
    ensures forall i | p < i < j :: CallOf(log[i]) != CallOf(log[j])
  {
    LastOf(log[..j], CallOf(log[j]))
  }

  ghost function Duration(log: seq<SyscallEvent>, j: nat): nat
    requires j < |log| && IsMatched(log, j)
  {
    SatSub(log[j].ts, log[EnterOf(log, j)].ts)
  }

  // ---- tallies over the records whose key is in a given set

  ghost function Enters(log: seq<SyscallEvent>, ks: iset<CallKey>): nat {
    if |log| == 0 then 0
    else
      var n := |log| - 1;
      Enters(log[..n], ks) + if CallOf(log[n]) in ks && log[n].kind == Enter then 1 else 0
  }

  ghost function Exits(log: seq<SyscallEvent>, ks: iset<CallKey>): nat {
    if |log| == 0 then 0
    else
      var n := |log| - 1;
      Exits(log[..n], ks) + if CallOf(log[n]) in ks && log[n].kind == Exit then 1 else 0
  }

  ghost function Matched(log: seq<SyscallEvent>, ks: iset<CallKey>): nat {
    if |log| == 0 then 0
    else
      var n := |log| - 1;
      Matched(log[..n], ks) + if CallOf(log[n]) in ks && IsMatched(log, n) then 1 else 0
  }

  ghost function MatchedNs(log: seq<SyscallEvent>, ks: iset<CallKey>): nat {
    if |log| == 0 then 0
    else
      var n := |log| - 1;
      MatchedNs(log[..n], ks) + if CallOf(log[n]) in ks && IsMatched(log, n) then Duration(log, n) else 0
  }

  /** Enters that replaced a still-pending Enter of the same key. */
  ghost function Overwritten(log: seq<SyscallEvent>, ks: iset<CallKey>): nat {
    if |log| == 0 then 0
    else
      var n := |log| - 1;
      Overwritten(log[..n], ks) + if CallOf(log[n]) in ks && log[n].kind == Enter && AfterEnter(log, n) then 1 else 0
  }

  /** Exits that found no pending Enter. */
  ghost function Orphaned(log: seq<SyscallEvent>, ks: iset<CallKey>): nat {
    if |log| == 0 then 0
    else
      var n := |log| - 1;
      Orphaned(log[..n], ks) + if CallOf(log[n]) in ks && log[n].kind == Exit && !AfterEnter(log, n) then 1 else 0
  }

  ghost predicate StillPending(log: seq<SyscallEvent>, key: CallKey) {
    var p := LastOf(log, key);
    p >= 0 && log[p].kind == Enter
  }

  ghost function Number(nr: nat): iset<CallKey> {
    iset k: CallKey | k.1 == nr
  }

  // ---- the table is these tallies

  lemma {:induction false} PendingMeaning(log: seq<SyscallEvent>, key: CallKey)
    ensures var t := Fold(SysStep, NO_SYS, log);
      && (key in t.pending <==> StillPending(log, key))
      && (key in t.pending ==> t.pending[key] == log[LastOf(log, key)].ts)
  {
    if |log| > 0 {
      PendingMeaning(log[..|log| - 1], key);
    }
  }

  lemma {:induction false} RowMeaning(log: seq<SyscallEvent>, nr: nat)
    ensures var t := Fold(SysStep, NO_SYS, log);
      && StatsOf(t.stats, nr) == SyscallStats(Matched(log, Number(nr)), MatchedNs(log, Number(nr)))
      && (nr in t.stats <==> Matched(log, Number(nr)) > 0)
  {
    if |log| > 0 {
      var before, e := log[..|log| - 1], log[|log| - 1];
      RowMeaning(before, nr);
      PendingMeaning(before, CallOf(e));
      assert AfterEnter(log, |log| - 1) <==> StillPending(before, CallOf(e));
      assert CallOf(e) in Number(nr) <==> e.nr == nr;
    }
  }

  /** The pending map holds the last record of a key iff that record is an Enter; each
      statistics row is the number and the total duration of the matched Exits of that
      syscall number, over all processes. */
  lemma SysTableMeaning(log: seq<SyscallEvent>)
    ensures var t := Fold(SysStep, NO_SYS, log);
      && (forall key: CallKey :: key in t.pending <==> StillPending(log, key))
      && (forall key: CallKey | key in t.pending :: t.pending[key] == log[LastOf(log, key)].ts)
      && (forall nr: nat :: StatsOf(t.stats, nr) == SyscallStats(Matched(log, Number(nr)), MatchedNs(log, Number(nr))))
      && (forall nr: nat :: nr in t.stats <==> Matched(log, Number(nr)) > 0)
  {
    var t := Fold(SysStep, NO_SYS, log);
    forall key: CallKey
      ensures key in t.pending <==> StillPending(log, key)
      ensures key in t.pending ==> t.pending[key] == log[LastOf(log, key)].ts
    {
      PendingMeaning(log, key);
    }
    forall nr: nat
      ensures StatsOf(t.stats, nr) == SyscallStats(Matched(log, Number(nr)), MatchedNs(log, Number(nr)))
      ensures nr in t.stats <==> Matched(log, Number(nr)) > 0
    {
      RowMeaning(log, nr);
    }
  }

  // ---- conservation

  /** Every Enter is matched, overwritten or still pending; every Exit is matched or orphaned. */
  lemma {:induction false} Conservation(log: seq<SyscallEvent>, key: CallKey)
    ensures Enters(log, iset{key}) ==
      Matched(log, iset{key}) + Overwritten(log, iset{key}) + if StillPending(log, key) then 1 else 0
    ensures Exits(log, iset{key}) == Matched(log, iset{key}) + Orphaned(log, iset{key})
  {
    if |log| > 0 {
      Conservation(log[..|log| - 1], key);
    }
  }

  lemma {:induction false} TallySplit(log: seq<SyscallEvent>, a: iset<CallKey>, b: iset<CallKey>)
    requires a !! b
    ensures Matched(log, a + b) == Matched(log, a) + Matched(log, b)
    ensures MatchedNs(log, a + b) == MatchedNs(log, a) + MatchedNs(log, b)
  {
    if |log| > 0 {
      TallySplit(log[..|log| - 1], a, b);
    }
  }

  /** Tallies only see the keys that occur. */
  lemma {:induction false} TallySameKeys(log: seq<SyscallEvent>, a: iset<CallKey>, b: iset<CallKey>)
    requires forall i | 0 <= i < |log| :: CallOf(log[i]) in a <==> CallOf(log[i]) in b
    ensures Matched(log, a) == Matched(log, b) && MatchedNs(log, a) == MatchedNs(log, b)
    ensures Enters(log, a) == Enters(log, b) && Exits(log, a) == Exits(log, b)
  {
    if |log| > 0 {
      var before := log[..|log| - 1];
      forall i | 0 <= i < |before| ensures CallOf(before[i]) in a <==> CallOf(before[i]) in b {
        assert before[i] == log[i];
      }
      TallySameKeys(before, a, b);
    }
  }

  /** Matched Exits never outnumber Exits, nor Enters, whatever set of calls is looked at. */
  lemma {:induction false} MatchedAtMostExits(log: seq<SyscallEvent>, ks: iset<CallKey>)
    ensures Matched(log, ks) <= Exits(log, ks)
  {
    if |log| > 0 {
      MatchedAtMostExits(log[..|log| - 1], ks);
    }
  }

  // ---- per process

  ghost function Pids(log: seq<SyscallEvent>, nr: nat): set<nat> {
    set e | e in log && e.nr == nr :: e.pid
  }

  ghost function CallsOf(pids: set<nat>, nr: nat): iset<CallKey> {
    iset k: CallKey | k.1 == nr && k.0 in pids
  }

  ghost function Pick(s: set<nat>): (x: nat)
    requires s != {}
    ensures x in s
  {
    var x :| x in s; x
  }

  /** A tally summed process by process. */
  ghost function PerPid(log: seq<SyscallEvent>, pids: set<nat>, nr: nat,
                        tally: (seq<SyscallEvent>, iset<CallKey>) -> nat): nat {
    if pids == {} then 0
    else
      var p := Pick(pids);
      PerPid(log, pids - {p}, nr, tally) + tally(log, iset{(p, nr)})
  }

  lemma {:induction false} EntersSplit(log: seq<SyscallEvent>, a: iset<CallKey>, b: iset<CallKey>)
    requires a !! b
    ensures Enters(log, a + b) == Enters(log, a) + Enters(log, b)
  {
    if |log| > 0 {
      EntersSplit(log[..|log| - 1], a, b);
    }
  }

  lemma {:induction false} NoCalls(log: seq<SyscallEvent>)
    ensures Matched(log, iset{}) == 0 && MatchedNs(log, iset{}) == 0 && Enters(log, iset{}) == 0
  {
    if |log| > 0 {
      NoCalls(log[..|log| - 1]);
    }
  }

  lemma {:induction false} PerPidIsTotal(log: seq<SyscallEvent>, pids: set<nat>, nr: nat)
    ensures PerPid(log, pids, nr, Matched) == Matched(log, CallsOf(pids, nr))
    ensures PerPid(log, pids, nr, Enters) == Enters(log, CallsOf(pids, nr))
    decreases pids
  {
    if pids == {} {
      NoCalls(log);
      assert CallsOf(pids, nr) == iset{};
    } else {
      var p := Pick(pids);
      PerPidIsTotal(log, pids - {p}, nr);
      assert CallsOf(pids, nr) == CallsOf(pids - {p}, nr) + iset{(p, nr)};
      TallySplit(log, CallsOf(pids - {p}, nr), iset{(p, nr)});
      EntersSplit(log, CallsOf(pids - {p}, nr), iset{(p, nr)});
    }
  }

  lemma {:induction false} PerPidMatchedAtMostEnters(log: seq<SyscallEvent>, pids: set<nat>, nr: nat)
    ensures PerPid(log, pids, nr, Matched) <= PerPid(log, pids, nr, Enters)
    decreases pids
  {
    if pids != {} {
      var p := Pick(pids);
      PerPidMatchedAtMostEnters(log, pids - {p}, nr);
      Conservation(log, (p, nr));
    }
  }

  /** Only pids that occur matter. */
  lemma PidsCoverNumber(log: seq<SyscallEvent>, nr: nat)
    ensures Matched(log, Number(nr)) == Matched(log, CallsOf(Pids(log, nr), nr))
    ensures MatchedNs(log, Number(nr)) == MatchedNs(log, CallsOf(Pids(log, nr), nr))
    ensures Enters(log, Number(nr)) == Enters(log, CallsOf(Pids(log, nr), nr))
  {
    forall i | 0 <= i < |log|
      ensures CallOf(log[i]) in Number(nr) <==> CallOf(log[i]) in CallsOf(Pids(log, nr), nr)
    {
      assert log[i] in log;
    }
    TallySameKeys(log, Number(nr), CallsOf(Pids(log, nr), nr));
  }

  /** The shown count of a syscall is its matched calls summed over the processes seen
      making it, so it exceeds neither the Enters nor the Exits of that syscall. */
  lemma CountsAreConserved(log: seq<SyscallEvent>, nr: nat)
    ensures var count := StatsOf(Fold(SysStep, NO_SYS, log).stats, nr).count;
      && count == PerPid(log, Pids(log, nr), nr, Matched)
      && count <= Enters(log, Number(nr))
      && count <= Exits(log, Number(nr))
  {
    RowMeaning(log, nr);
    PidsCoverNumber(log, nr);
    PerPidIsTotal(log, Pids(log, nr), nr);
    PerPidMatchedAtMostEnters(log, Pids(log, nr), nr);
    MatchedAtMostExits(log, Number(nr));
  }

  // ---- all rows together

  ghost function AllCalls(): iset<CallKey> {
    iset k: CallKey | 0 <= k.1
  }

  function CountIn(stats: map<nat, SyscallStats>): nat -> nat {
    (nr: nat) => StatsOf(stats, nr).count
  }

  ghost predicate Distinct<T>(s: seq<T>) {
    forall i, j | 0 <= i < j < |s| :: s[i] != s[j]
  }

  ghost function InRows(rows: seq<nat>): iset<CallKey> {
    iset k: CallKey | k.1 in rows
  }

  lemma OneMoreRow(log: seq<SyscallEvent>, front: seq<nat>, nr: nat)
    requires nr !in front
    ensures Matched(log, InRows(front + [nr])) == Matched(log, InRows(front)) + Matched(log, Number(nr))
  {
    TallySplit(log, InRows(front), Number(nr));
    TallySameKeys(log, InRows(front) + Number(nr), InRows(front + [nr]));
  }

  lemma {:induction false} CountsOfRows(log: seq<SyscallEvent>, rows: seq<nat>)
    requires Distinct(rows)
    ensures SumOver(rows, CountIn(Fold(SysStep, NO_SYS, log).stats)) == Matched(log, InRows(rows))
  {
    if |rows| == 0 {
      NoCalls(log);
      TallySameKeys(log, iset{}, InRows(rows));
    } else {
      var front, nr := rows[..|rows| - 1], rows[|rows| - 1];
      CountsOfRows(log, front);
      RowMeaning(log, nr);
      OneMoreRow(log, front, nr);
      assert rows == front + [nr];
    }
  }

  /** In whatever order the rows are listed, their counts add up to all matched calls. */
  lemma RowCountsSumToMatched(log: seq<SyscallEvent>, rows: seq<nat>)
    requires Distinct(rows)
    requires forall nr: nat :: nr in Fold(SysStep, NO_SYS, log).stats ==> nr in rows
    ensures SumOver(rows, CountIn(Fold(SysStep, NO_SYS, log).stats)) == Matched(log, AllCalls())
  {
    CountsOfRows(log, rows);
    SysTableMeaning(log);
    MatchedOnlyInRows(log, |log|, rows);
    assert log[..|log|] == log;
  }

  lemma MatchedHasRow(whole: seq<SyscallEvent>, n: nat)
    requires n < |whole| && IsMatched(whole[..n + 1], n)
    ensures Matched(whole, Number(whole[n].nr)) > 0
  {
    MatchedGrows(whole, n + 1, Number(whole[n].nr));
  }

  lemma {:induction false} MatchedOnlyInRows(whole: seq<SyscallEvent>, n: nat, rows: seq<nat>)
    requires n <= |whole|
    requires forall nr: nat :: Matched(whole, Number(nr)) > 0 ==> nr in rows
    ensures Matched(whole[..n], AllCalls()) == Matched(whole[..n], InRows(rows))
  {
    if n > 0 {
      MatchedOnlyInRows(whole, n - 1, rows);
      assert whole[..n][..n - 1] == whole[..n - 1];
      if IsMatched(whole[..n], n - 1) {
        MatchedHasRow(whole, n - 1);
      }
    }
  }

  lemma {:induction false} MatchedGrows(log: seq<SyscallEvent>, n: nat, ks: iset<CallKey>)
    requires n <= |log|
    ensures Matched(log[..n], ks) <= Matched(log, ks)
    ensures MatchedNs(log[..n], ks) <= MatchedNs(log, ks)
    decreases |log|
  {
    if n == |log| {
      assert log[..n] == log;
    } else {
      var before := log[..|log| - 1];
      MatchedGrows(before, n, ks);
      assert before[..n] == log[..n];
    }
  }

  // ---- wall clock

  ghost predicate Nondecreasing(log: seq<SyscallEvent>) {
    forall i, j | 0 <= i <= j < |log| :: log[i].ts <= log[j].ts
  }

  /** Matched intervals of one key never overlap: the later one starts after the earlier one
      ended, in the log, and therefore in time where timestamps do not decrease. */
  lemma MatchedIntervalsDisjoint(log: seq<SyscallEvent>, i: nat, j: nat)
    requires i < j < |log| && IsMatched(log, i) && IsMatched(log, j)
    requires CallOf(log[i]) == CallOf(log[j])
    ensures EnterOf(log, i) < i < EnterOf(log, j) < j
    ensures Nondecreasing(log) ==>
      log[EnterOf(log, i)].ts <= log[i].ts <= log[EnterOf(log, j)].ts <= log[j].ts
  {
    assert EnterOf(log, j) != i;
  }

  ghost function Span(log: seq<SyscallEvent>): nat {
    if |log| == 0 then 0 else SatSub(log[|log| - 1].ts, log[0].ts)
  }

  ghost function OpenFor(log: seq<SyscallEvent>, key: CallKey, now: nat): nat {
    if StillPending(log, key) then SatSub(now, log[LastOf(log, key)].ts) else 0
  }

  lemma {:induction false} OneCallWithinWindow(log: seq<SyscallEvent>, key: CallKey, now: nat)
    requires |log| > 0 && Nondecreasing(log) && log[|log| - 1].ts <= now
    ensures MatchedNs(log, iset{key}) + OpenFor(log, key, now) <= now - log[0].ts
  {
    var n := |log| - 1;
    var before := log[..n];
    if n == 0 {
      assert before == [];
      assert !IsMatched(log, 0);
    } else {
      assert log[0] == before[0];
      if CallOf(log[n]) == key {
        OneCallWithinWindow(before, key, log[n].ts);
      } else {
        OneCallWithinWindow(before, key, now);
      }
    }
  }

  lemma OneMorePid(log: seq<SyscallEvent>, pids: set<nat>, p: nat, nr: nat)
    requires p in pids
    ensures MatchedNs(log, CallsOf(pids, nr)) == MatchedNs(log, CallsOf(pids - {p}, nr)) + MatchedNs(log, iset{(p, nr)})
  {
    assert CallsOf(pids, nr) == CallsOf(pids - {p}, nr) + iset{(p, nr)};
    TallySplit(log, CallsOf(pids - {p}, nr), iset{(p, nr)});
  }

  lemma {:induction false} PidsWithinWindow(log: seq<SyscallEvent>, pids: set<nat>, nr: nat, window: nat)
    requires forall p: nat :: MatchedNs(log, iset{(p, nr)}) <= window
    ensures MatchedNs(log, CallsOf(pids, nr)) <= Times(|pids|, window)
    decreases pids
  {
    if pids == {} {
      NoCalls(log);
      assert CallsOf(pids, nr) == iset{};
    } else {
      var p := Pick(pids);
      PidsWithinWindow(log, pids - {p}, nr, window);
      OneMorePid(log, pids, p, nr);
      var n := |pids - {p}|;
      assert |pids| == n + 1;
      assert Times(n + 1, window) == Times(n, window) + window;
    }
  }

  lemma NumberWithinWindow(log: seq<SyscallEvent>, nr: nat)
    requires |log| > 0 && Nondecreasing(log)
    ensures MatchedNs(log, Number(nr)) <= |Pids(log, nr)| * Span(log)
  {
    forall p: nat ensures MatchedNs(log, iset{(p, nr)}) <= Span(log) {
      OneCallWithinWindow(log, (p, nr), log[|log| - 1].ts);
    }
    PidsWithinWindow(log, Pids(log, nr), nr, Span(log));
    TimesIsProduct(|Pids(log, nr)|, Span(log));
    PidsCoverNumber(log, nr);
  }

  lemma WrapSmall(x: nat, bound: nat)
    requires x <= bound < U64
    ensures Wrap(x) == x
  {
  }

  /** Whatever was lost, the time shown for a syscall is at most the number of processes
      seen times the span of the log, and while that product fits in 64 bits so does the
      accumulator. */
  lemma TotalWithinWallClock(log: seq<SyscallEvent>, nr: nat)
    requires |log| > 0 && Nondecreasing(log)
    ensures StatsOf(Fold(SysStep, NO_SYS, log).stats, nr).totalNs <= |Pids(log, nr)| * Span(log)
    ensures |Pids(log, nr)| * Span(log) < U64 ==>
      var total := StatsOf(Fold(SysStep, NO_SYS, log).stats, nr).totalNs; Wrap(total) == total
  {
    NumberWithinWindow(log, nr);
    RowMeaning(log, nr);
    if |Pids(log, nr)| * Span(log) < U64 {
      WrapSmall(MatchedNs(log, Number(nr)), |Pids(log, nr)| * Span(log));
    }
  }

  // ---- average

  ghost predicate Measured(log: seq<SyscallEvent>, ks: iset<CallKey>, j: int) {
    0 <= j < |log| && CallOf(log[j]) in ks && IsMatched(log, j)
  }

  lemma MeasuredPrefix(log: seq<SyscallEvent>, ks: iset<CallKey>, j: nat)
    requires |log| > 0 && Measured(log[..|log| - 1], ks, j)
    ensures Measured(log, ks, j) && Duration(log, j) == Duration(log[..|log| - 1], j)
  {
    assert log[..|log| - 1][..j] == log[..j];
  }

  ghost predicate AllAtLeast(log: seq<SyscallEvent>, ks: iset<CallKey>, lo: nat) {
    forall j: nat | Measured(log, ks, j) :: lo <= Duration(log, j)
  }

  ghost predicate AllBelow(log: seq<SyscallEvent>, ks: iset<CallKey>, hi: nat) {
    forall j: nat | Measured(log, ks, j) :: Duration(log, j) < hi
  }

  lemma BoundsOfPrefix(log: seq<SyscallEvent>, ks: iset<CallKey>, x: nat)
    requires |log| > 0
    ensures AllAtLeast(log, ks, x) ==> AllAtLeast(log[..|log| - 1], ks, x)
    ensures AllBelow(log, ks, x) ==> AllBelow(log[..|log| - 1], ks, x)
  {
    var before := log[..|log| - 1];
    forall j: nat | Measured(before, ks, j) ensures Measured(log, ks, j) && Duration(log, j) == Duration(before, j) {
      MeasuredPrefix(log, ks, j);
    }
  }

  /** One more record adds its duration if it is a measured Exit, and nothing otherwise. */
  lemma TallyStep(log: seq<SyscallEvent>, ks: iset<CallKey>)
    requires |log| > 0
    ensures var n := |log| - 1;
      if Measured(log, ks, n)
      then
        && Matched(log, ks) == Matched(log[..n], ks) + 1
        && MatchedNs(log, ks) == MatchedNs(log[..n], ks) + Duration(log, n)
      else Matched(log, ks) == Matched(log[..n], ks) && MatchedNs(log, ks) == MatchedNs(log[..n], ks)
  {
  }

  lemma OneMore(m: nat, x: nat)
    ensures Times(m + 1, x) == Times(m, x) + x
  {
  }

  lemma {:induction false} TotalAtLeast(log: seq<SyscallEvent>, ks: iset<CallKey>, lo: nat)
    requires AllAtLeast(log, ks, lo)
    ensures Times(Matched(log, ks), lo) <= MatchedNs(log, ks)
  {
    if |log| > 0 {
      BoundsOfPrefix(log, ks, lo);
      TotalAtLeast(log[..|log| - 1], ks, lo);
      TallyStep(log, ks);
      OneMore(Matched(log[..|log| - 1], ks), lo);
    }
  }

  lemma {:induction false} TotalBelow(log: seq<SyscallEvent>, ks: iset<CallKey>, hi: nat)
    requires AllBelow(log, ks, hi)
    ensures MatchedNs(log, ks) + Matched(log, ks) <= Times(Matched(log, ks), hi)
  {
    if |log| > 0 {
      BoundsOfPrefix(log, ks, hi);
      TotalBelow(log[..|log| - 1], ks, hi);
      TallyStep(log, ks);
      OneMore(Matched(log[..|log| - 1], ks), hi);
    }
  }

  lemma DivisionBrackets(total: nat, count: nat)
    requires count > 0
    ensures var avg := total / count; avg * count <= total < (avg + 1) * count
  {
    var avg := total / count;
    assert total == avg * count + total % count;
    assert (avg + 1) * count == avg * count + count;
  }

  /** The average is the total divided by the count, rounded down. */
  lemma AverageBrackets(s: SyscallStats)
    requires s.count > 0
    ensures s.AvgNs() * s.count <= s.totalNs < (s.AvgNs() + 1) * s.count
  {
    DivisionBrackets(s.totalNs, s.count);
  }

  lemma AverageTimes(s: SyscallStats)
    requires s.count > 0
    ensures Times(s.count, s.AvgNs()) <= s.totalNs < Times(s.count, s.AvgNs() + 1)
  {
    AverageBrackets(s);
    TimesIsProduct(s.count, s.AvgNs());
    TimesIsProduct(s.count, s.AvgNs() + 1);
  }

  /** Some measured call of these took at most `avg` and some at least `avg`. */
  ghost predicate BetweenMeasured(log: seq<SyscallEvent>, ks: iset<CallKey>, avg: nat) {
    && (exists j: nat :: Measured(log, ks, j) && Duration(log, j) <= avg)
    && (exists j: nat :: Measured(log, ks, j) && Duration(log, j) >= avg)
  }

  /** The average shown lies between two durations that really were measured. */
  lemma AverageIsReal(log: seq<SyscallEvent>, nr: nat)
    requires nr in Fold(SysStep, NO_SYS, log).stats
    ensures var s := Fold(SysStep, NO_SYS, log).stats[nr];
      s.count > 0 && BetweenMeasured(log, Number(nr), s.AvgNs())
  {
    RowMeaning(log, nr);
    RowAverage(log, Number(nr), Fold(SysStep, NO_SYS, log).stats[nr]);
  }

  lemma RowAverage(log: seq<SyscallEvent>, ks: iset<CallKey>, s: SyscallStats)
    requires s.count > 0 && s == SyscallStats(Matched(log, ks), MatchedNs(log, ks))
    ensures BetweenMeasured(log, ks, s.AvgNs())
  {
    AverageTimes(s);
    SomeShort(log, ks, s.AvgNs());
    SomeLong(log, ks, s.AvgNs());
  }

  /** If the total is less than avg + 1 per match, some match took at most avg. */
  lemma SomeShort(log: seq<SyscallEvent>, ks: iset<CallKey>, avg: nat)
    requires MatchedNs(log, ks) < Times(Matched(log, ks), avg + 1)
    ensures exists j: nat :: Measured(log, ks, j) && Duration(log, j) <= avg
  {
    if forall j: nat | Measured(log, ks, j) :: avg + 1 <= Duration(log, j) {
      TotalAtLeast(log, ks, avg + 1);
      assert false;
    }
  }

  lemma SomeLong(log: seq<SyscallEvent>, ks: iset<CallKey>, avg: nat)
    requires Matched(log, ks) > 0 && Times(Matched(log, ks), avg) <= MatchedNs(log, ks)
    ensures exists j: nat :: Measured(log, ks, j) && Duration(log, j) >= avg
  {
    if forall j: nat | Measured(log, ks, j) :: Duration(log, j) < avg {
      TotalBelow(log, ks, avg);
      assert false;
    }
  }
}
