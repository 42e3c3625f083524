/** Exactly when the time shown for a syscall is the time spent in its completed calls. */
module SyscallExact {
  import opened Records
  import opened Tables
  import opened Kernel
  import opened Pipeline
  import opened Refinement
  import opened Syscalls
  import opened SyscallTruth

  /** The thread's last boundary before position `n`, or -1. */
  ghost function PrevOf(calls: seq<Traced>, tid: nat, n: nat): (p: int)
    requires n <= |calls|
    ensures -1 <= p < n
    ensures p >= 0 ==> calls[p].tid == tid
    ensures forall i | p < i < n :: calls[i].tid != tid
  {
    if n == 0 then -1 else if calls[n - 1].tid == tid then n - 1 else PrevOf(calls, tid, n - 1)
  }

  ghost predicate IsExitOf(calls: seq<Traced>, ks: iset<CallKey>, j: int) {
    0 <= j < |calls| && calls[j].ev.kind == Exit && CallOf(calls[j].ev) in ks
  }

  /** The Enter of the call that ends at `j` was traced too. */
  ghost predicate HasOwnEnter(calls: seq<Traced>, j: nat)
    requires j < |calls|
  {
    var p := PrevOf(calls, calls[j].tid, j);
    p >= 0 && calls[p].ev.kind == Enter
  }

  ghost predicate ExitsEntered(calls: seq<Traced>, ks: iset<CallKey>) {
    forall j: nat | IsExitOf(calls, ks, j) :: HasOwnEnter(calls, j)
  }

  /** Threads are in one call at a time, boundaries of one call key have distinct times, and every
      Exit of these calls has its own Enter. Calls may still be in flight. */
  ghost predicate Traceable(calls: seq<Traced>, ks: iset<CallKey>) {
    WellFormed(calls) && StrictlyIncreasing(Events(calls)) && ExitsEntered(calls, ks)
  }

  /** The Exit at `j` is paired with the last boundary of its own thread. */
  ghost predicate OwnMatch(calls: seq<Traced>, j: nat)
    requires j < |calls|
  {
    IsMatched(Events(calls), j) && EnterOf(Events(calls), j) == PrevOf(calls, calls[j].tid, j)
  }

  ghost predicate AllOwnMatches(calls: seq<Traced>, ks: iset<CallKey>, n: nat)
    requires n <= |calls|
  {
    forall j: nat | j < n && IsExitOf(calls, ks, j) :: OwnMatch(calls, j)
  }

  // ---- completed time, re-indexed by Exit

  /** Time of the calls entered before `m` and left before `n`. */
  ghost function CompletedBy(calls: seq<Traced>, ks: iset<CallKey>, m: nat, n: nat): nat
    requires m <= |calls| && n <= |calls|
  {
    if m == 0 then 0
    else
      var end := EndOf(calls, m - 1);
      CompletedBy(calls, ks, m - 1, n) +
      if IsCall(calls, ks, m - 1) && end < n then SatSub(calls[end].ev.ts, calls[m - 1].ev.ts) else 0
  }

  lemma {:induction false} CompletedByAll(calls: seq<Traced>, ks: iset<CallKey>, m: nat)
    requires m <= |calls|
    ensures CompletedBy(calls, ks, m, |calls|) == CompletedTime(calls, ks, m)
  {
    if m > 0 {
      CompletedByAll(calls, ks, m - 1);
    }
  }

  lemma {:induction false} CompletedByNone(calls: seq<Traced>, ks: iset<CallKey>, m: nat)
    requires m <= |calls|
    ensures CompletedBy(calls, ks, m, 0) == 0
  {
    if m > 0 {
      CompletedByNone(calls, ks, m - 1);
    }
  }

  /** The length of the call that ends at `n`, if its Enter was traced. */
  ghost function OwnNs(calls: seq<Traced>, ks: iset<CallKey>, n: nat): nat
    requires n < |calls|
  {
    if IsExitOf(calls, ks, n) && HasOwnEnter(calls, n)
    then SatSub(calls[n].ev.ts, calls[PrevOf(calls, calls[n].tid, n)].ev.ts) else 0
  }

  lemma EndIffPrev(calls: seq<Traced>, i: nat, n: nat)
    requires i < n < |calls|
    ensures EndOf(calls, i) == n <==> PrevOf(calls, calls[n].tid, n) == i
  {
  }

  lemma {:induction false} OneMoreEnds(calls: seq<Traced>, ks: iset<CallKey>, m: nat, n: nat)
    requires WellFormed(calls) && m <= |calls| && n < |calls|
    ensures CompletedBy(calls, ks, m, n + 1) ==
      CompletedBy(calls, ks, m, n) + if PrevOf(calls, calls[n].tid, n) < m then OwnNs(calls, ks, n) else 0
  {
    var p := PrevOf(calls, calls[n].tid, n);
    if m == 0 {
      assert p < 0 ==> OwnNs(calls, ks, n) == 0;
    } else {
      OneMoreEnds(calls, ks, m - 1, n);
      OwnCallEnds(calls, ks, m - 1, n);
    }
  }

  lemma OwnCallEnds(calls: seq<Traced>, ks: iset<CallKey>, i: nat, n: nat)
    requires WellFormed(calls) && i < |calls| && n < |calls|
    ensures EndOf(calls, i) == n <==> PrevOf(calls, calls[n].tid, n) == i
    ensures EndOf(calls, i) == n ==>
      OwnNs(calls, ks, n) == if IsCall(calls, ks, i) then SatSub(calls[n].ev.ts, calls[i].ev.ts) else 0
  {
    if i < n {
      EndIffPrev(calls, i, n);
    }
  }

  // ---- Exit by Exit

  ghost function MatchedPart(calls: seq<Traced>, ks: iset<CallKey>, n: nat): nat
    requires n < |calls|
  {
    if CallOf(calls[n].ev) in ks && IsMatched(Events(calls), n) then Duration(Events(calls), n) else 0
  }

  lemma MatchedNsStep(calls: seq<Traced>, ks: iset<CallKey>, n: nat)
    requires n < |calls|
    ensures MatchedNs(Events(calls)[..n + 1], ks) == MatchedNs(Events(calls)[..n], ks) + MatchedPart(calls, ks, n)
  {
    var log := Events(calls);
    assert log[..n + 1][..n] == log[..n];
  }

  /** One Exit with a traced Enter is credited at most its own call, and all of it exactly when
      it is paired with that Enter. */
  lemma OneExit(calls: seq<Traced>, ks: iset<CallKey>, n: nat)
    requires WellFormed(calls) && StrictlyIncreasing(Events(calls)) && n < |calls|
    requires IsExitOf(calls, ks, n) ==> HasOwnEnter(calls, n)
    ensures MatchedPart(calls, ks, n) <= OwnNs(calls, ks, n)
    ensures MatchedPart(calls, ks, n) == OwnNs(calls, ks, n) <==> (IsExitOf(calls, ks, n) ==> OwnMatch(calls, n))
  {
    if IsExitOf(calls, ks, n) {
      var log, p := Events(calls), PrevOf(calls, calls[n].tid, n);
      EndIffPrev(calls, p, n);
      assert CallOf(log[p]) == CallOf(log[n]);
      assert CallOf(log[..n][p]) == CallOf(log[n]);
      assert LastOf(log[..n], CallOf(log[n])) >= p;
      assert log[p].ts < log[n].ts;
    }
  }

  ghost function Gap(calls: seq<Traced>, ks: iset<CallKey>, n: nat): int
    requires n <= |calls|
  {
    CompletedBy(calls, ks, |calls|, n) - MatchedNs(Events(calls)[..n], ks)
  }

  lemma GapStep(calls: seq<Traced>, ks: iset<CallKey>, n: nat)
    requires Traceable(calls, ks) && n < |calls|
    ensures Gap(calls, ks, n) <= Gap(calls, ks, n + 1)
    ensures Gap(calls, ks, n) == Gap(calls, ks, n + 1) <==> (IsExitOf(calls, ks, n) ==> OwnMatch(calls, n))
  {
    MatchedNsStep(calls, ks, n);
    OneMoreEnds(calls, ks, |calls|, n);
    assert IsExitOf(calls, ks, n) ==> HasOwnEnter(calls, n);
    OneExit(calls, ks, n);
  }

  lemma GapStart(calls: seq<Traced>, ks: iset<CallKey>)
    ensures Gap(calls, ks, 0) == 0 && AllOwnMatches(calls, ks, 0)
  {
    CompletedByNone(calls, ks, |calls|);
  }

  lemma OneMoreOwnMatch(calls: seq<Traced>, ks: iset<CallKey>, n: nat)
    requires n < |calls|
    ensures AllOwnMatches(calls, ks, n + 1) <==>
      AllOwnMatches(calls, ks, n) && (IsExitOf(calls, ks, n) ==> OwnMatch(calls, n))
  {
  }

  ghost predicate GapTells(calls: seq<Traced>, ks: iset<CallKey>, n: nat)
    requires n <= |calls|
  {
    Gap(calls, ks, n) >= 0 && (Gap(calls, ks, n) == 0 <==> AllOwnMatches(calls, ks, n))
  }

  lemma GapTellsNext(calls: seq<Traced>, ks: iset<CallKey>, n: nat)
    requires Traceable(calls, ks) && n < |calls| && GapTells(calls, ks, n)
    ensures GapTells(calls, ks, n + 1)
  {
    GapStep(calls, ks, n);
    OneMoreOwnMatch(calls, ks, n);
  }

  lemma {:induction false} GapCloses(calls: seq<Traced>, ks: iset<CallKey>, n: nat)
    requires Traceable(calls, ks) && n <= |calls|
    ensures GapTells(calls, ks, n)
  {
    if n == 0 {
      GapStart(calls, ks);
    } else {
      GapCloses(calls, ks, n - 1);
      GapTellsNext(calls, ks, n - 1);
    }
  }

  /** For any trace in which every Exit of these calls has its own Enter, whatever is still in
      flight: the matched time is at most the completed time, and equal to it if and only if
      every Exit is paired with the last boundary of its own thread. */
  lemma ExactIffOwnMatches(calls: seq<Traced>, ks: iset<CallKey>)
    requires Traceable(calls, ks)
    ensures MatchedNs(Events(calls), ks) <= CompletedTime(calls, ks, |calls|)
    ensures MatchedNs(Events(calls), ks) == CompletedTime(calls, ks, |calls|) <==> AllOwnMatches(calls, ks, |calls|)
  {
    GapCloses(calls, ks, |calls|);
    CompletedByAll(calls, ks, |calls|);
    assert Events(calls)[..|calls|] == Events(calls);
  }

  /** In every drained state of a lossless run: the time shown is at most the time of the
      completed calls, and exactly that if and only if every Exit of the syscall is paired with
      its own thread's Enter. */
  lemma ShownIsExactIff(caps: Caps, steps: seq<Step>, calls: seq<Traced>, nr: nat)
    requires Describes(calls, Fires(steps)) && NoneLost(caps, steps, false) && Run(caps, steps).k.events == []
    requires Traceable(calls, Number(nr))
    ensures var total := StatsOf(Run(caps, steps).u.sys.stats, nr).totalNs;
      && total <= CompletedTime(calls, Number(nr), |calls|)
      && (total == CompletedTime(calls, Number(nr), |calls|) <==> AllOwnMatches(calls, Number(nr), |calls|))
  {
    LosslessLog(caps, steps, calls);
    TablesAreFolds(caps, steps);
    assert TakenSyscalls(caps, steps) == Events(calls);
    RowMeaning(Events(calls), nr);
    ExactIffOwnMatches(calls, Number(nr));
  }
}
