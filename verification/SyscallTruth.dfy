/** Reported syscall time against the time threads really spent in calls. The kernel
    record carries the process, not the thread; the truth below knows the thread. */
module SyscallTruth {
  import opened Records
  import opened Folds
  import opened Tables
  import opened Kernel
  import opened Pipeline
  import opened Refinement
  import opened Syscalls

  /** A traced syscall boundary together with the thread that crossed it. */
  datatype Traced = Traced(tid: nat, ev: SyscallEvent)

  ghost function Events(calls: seq<Traced>): (log: seq<SyscallEvent>)
    ensures |log| == |calls|
    ensures forall i | 0 <= i < |log| :: log[i] == calls[i].ev
  {
    seq(|calls|, i requires 0 <= i < |calls| => calls[i].ev)
  }

  /** First position at or after `from` with this call key, or the length. */
  ghost function NextOf(log: seq<SyscallEvent>, key: CallKey, from: nat): (j: nat)
    requires from <= |log|
    ensures from <= j <= |log|
    ensures j < |log| ==> CallOf(log[j]) == key
    ensures forall i | from <= i < j :: CallOf(log[i]) != key
    decreases |log| - from
  {
    if from == |log| || CallOf(log[from]) == key then from else NextOf(log, key, from + 1)
  }

  /** First position at or after `from` of this thread, or the length. */
  ghost function NextOfThread(calls: seq<Traced>, tid: nat, from: nat): (j: nat)
    requires from <= |calls|
    ensures from <= j <= |calls|
    ensures j < |calls| ==> calls[j].tid == tid
    ensures forall i | from <= i < j :: calls[i].tid != tid
    decreases |calls| - from
  {
    if from == |calls| || calls[from].tid == tid then from else NextOfThread(calls, tid, from + 1)
  }

  /** Where the call entered at `i` ends: the same thread's next boundary, if traced. */
  ghost function EndOf(calls: seq<Traced>, i: nat): (j: nat)
    requires i < |calls|
    ensures i < j <= |calls|
  {
    NextOfThread(calls, calls[i].tid, i + 1)
  }

  /** A thread is in one call at a time: after an Enter its next boundary leaves that call.
      Exits of calls entered before tracing began are allowed. */
  ghost predicate WellFormed(calls: seq<Traced>) {
    forall i | 0 <= i < |calls| && calls[i].ev.kind == Enter && EndOf(calls, i) < |calls| ::
      var e := calls[EndOf(calls, i)].ev;
      e.kind == Exit && CallOf(e) == CallOf(calls[i].ev)
  }

  ghost predicate IsCall(calls: seq<Traced>, ks: iset<CallKey>, i: int) {
    0 <= i < |calls| && calls[i].ev.kind == Enter && CallOf(calls[i].ev) in ks
  }

  /** Time really spent in the call entered at `i`; a call still in flight counts up to `now`. */
  ghost function TrueNs(calls: seq<Traced>, i: nat, now: nat): nat
    requires i < |calls|
  {
    var j := EndOf(calls, i);
    SatSub(if j < |calls| then calls[j].ev.ts else now, calls[i].ev.ts)
  }

  ghost function TrueTime(calls: seq<Traced>, ks: iset<CallKey>, now: nat, n: nat): nat
    requires n <= |calls|
  {
    if n == 0 then 0
    else TrueTime(calls, ks, now, n - 1) + if IsCall(calls, ks, n - 1) then TrueNs(calls, n - 1, now) else 0
  }

  /** The time the table credits to the Enter at `i`: until the next record of its key,
      if that is an Exit. */
  ghost function CreditedNs(log: seq<SyscallEvent>, i: nat): nat
    requires i < |log|
  {
    var j := NextOf(log, CallOf(log[i]), i + 1);
    if j < |log| && log[j].kind == Exit then SatSub(log[j].ts, log[i].ts) else 0
  }

  ghost function Credited(log: seq<SyscallEvent>, ks: iset<CallKey>, n: nat): nat
    requires n <= |log|
  {
    if n == 0 then 0
    else
      Credited(log, ks, n - 1) +
      if CallOf(log[n - 1]) in ks && log[n - 1].kind == Enter then CreditedNs(log, n - 1) else 0
  }

  // ---- re-indexing: by matched Exit or by credited Enter, the total is the same

  lemma {:induction false} NextOfPrefix(log: seq<SyscallEvent>, key: CallKey, from: nat)
    requires |log| > 0 && from < |log|
    ensures var n := |log| - 1;
      var before := NextOf(log[..n], key, from);
      NextOf(log, key, from) == if before < n then before else if CallOf(log[n]) == key then n else n + 1
    decreases |log| - from
  {
    if from < |log| - 1 && CallOf(log[from]) != key {
      NextOfPrefix(log, key, from + 1);
    }
  }

  lemma CreditChange(log: seq<SyscallEvent>, i: nat)
    requires |log| > 0 && i < |log| - 1 && log[i].kind == Enter
    ensures var n := |log| - 1;
      CreditedNs(log, i) == CreditedNs(log[..n], i) +
      if IsMatched(log, n) && EnterOf(log, n) == i then Duration(log, n) else 0
  {
    var n := |log| - 1;
    NextOfPrefix(log, CallOf(log[i]), i + 1);
    var j := NextOf(log[..n], CallOf(log[i]), i + 1);
    if j == n && CallOf(log[n]) == CallOf(log[i]) {
      assert LastOf(log[..n], CallOf(log[n])) == i;
    }
  }

  lemma {:induction false} CreditedPrefix(log: seq<SyscallEvent>, ks: iset<CallKey>, m: nat)
    requires |log| > 0 && m <= |log| - 1
    ensures var n := |log| - 1;
      Credited(log, ks, m) == Credited(log[..n], ks, m) +
      if CallOf(log[n]) in ks && IsMatched(log, n) && EnterOf(log, n) < m then Duration(log, n) else 0
  {
    if m > 0 {
      CreditedPrefix(log, ks, m - 1);
      if log[m - 1].kind == Enter {
        CreditChange(log, m - 1);
      }
    }
  }

  lemma {:induction false} CreditedIsMatched(log: seq<SyscallEvent>, ks: iset<CallKey>)
    ensures Credited(log, ks, |log|) == MatchedNs(log, ks)
  {
    if |log| > 0 {
      var n := |log| - 1;
      CreditedIsMatched(log[..n], ks);
      CreditedPrefix(log, ks, n);
      assert NextOf(log, CallOf(log[n]), n + 1) == n + 1;
    }
  }

  // ---- logs that lost some boundaries

  /** Positions of the boundaries that were kept, in order. */
  ghost predicate Selects(kept: seq<nat>, n: nat) {
    && (forall i | 0 <= i < |kept| :: kept[i] < n)
    && forall i, j | 0 <= i < j < |kept| :: kept[i] < kept[j]
  }

  ghost function Kept(calls: seq<Traced>, kept: seq<nat>): (log: seq<SyscallEvent>)
    requires Selects(kept, |calls|)
    ensures |log| == |kept|
    ensures forall i | 0 <= i < |log| :: log[i] == calls[kept[i]].ev
  {
    seq(|kept|, i requires 0 <= i < |kept| => calls[kept[i]].ev)
  }

  /** The call entered at `a` ended before `b`, and that end was lost. */
  ghost predicate ExitLostBefore(calls: seq<Traced>, kept: seq<nat>, a: nat, b: nat)
    requires a < |calls|
  {
    EndOf(calls, a) < b && EndOf(calls, a) !in kept
  }

  lemma OwnExitIsNext(calls: seq<Traced>, kept: seq<nat>, i: nat, m: nat, j: nat)
    requires WellFormed(calls) && Selects(kept, |calls|)
    requires i < |kept| && m < |kept| && kept[m] == EndOf(calls, kept[i])
    requires j < |kept| && IsMatched(Kept(calls, kept), j) && EnterOf(Kept(calls, kept), j) == i
    ensures j <= m
  {
    var log := Kept(calls, kept);
    assert i < m by {
      assert kept[i] < kept[m];
    }
    assert CallOf(log[m]) == CallOf(log[i]);
  }

  /** Whichever boundaries were lost, the interval of a matched Exit lies inside the call of
      the thread whose Enter it used if and only if that thread's own Exit was not lost before
      it; with distinct timestamps, exactly then does the interval not exceed the call. */
  lemma InsideIffExitNotLost(calls: seq<Traced>, kept: seq<nat>, j: nat, now: nat)
    requires WellFormed(calls) && Selects(kept, |calls|)
    requires j < |kept| && IsMatched(Kept(calls, kept), j)
    ensures var log := Kept(calls, kept);
      var a := kept[EnterOf(log, j)];
      && (a < kept[j] <= EndOf(calls, a) <==> !ExitLostBefore(calls, kept, a, kept[j]))
      && (StrictlyIncreasing(Events(calls)) && calls[kept[j]].ev.ts <= now ==>
            (Duration(log, j) <= TrueNs(calls, a, now) <==> !ExitLostBefore(calls, kept, a, kept[j])))
  {
    var log := Kept(calls, kept);
    var i := EnterOf(log, j);
    var end := EndOf(calls, kept[i]);
    if end < kept[j] && end in kept {
      var m :| 0 <= m < |kept| && kept[m] == end;
      OwnExitIsNext(calls, kept, i, m, j);
      assert false;
    }
  }

  /** No Enter was credited past its call: no matched Exit stands in for a lost one. */
  ghost predicate NoLeak(calls: seq<Traced>, kept: seq<nat>) {
    Selects(kept, |calls|) &&
    forall j | 0 <= j < |kept| && IsMatched(Kept(calls, kept), j) ::
      !ExitLostBefore(calls, kept, kept[EnterOf(Kept(calls, kept), j)], kept[j])
  }

  /** Losing Enters, in any number, leaks nothing. */
  lemma KeptExitsLeakNothing(calls: seq<Traced>, kept: seq<nat>)
    requires WellFormed(calls) && Selects(kept, |calls|)
    requires forall i: nat | i < |calls| && calls[i].ev.kind == Exit :: i in kept
    ensures NoLeak(calls, kept)
  {
    forall j | 0 <= j < |kept| && IsMatched(Kept(calls, kept), j)
      ensures !ExitLostBefore(calls, kept, kept[EnterOf(Kept(calls, kept), j)], kept[j])
    {
      var a := kept[EnterOf(Kept(calls, kept), j)];
      assert calls[a].ev.kind == Enter;
    }
  }

  /** A credited Enter is matched by the Exit that follows it. */
  lemma CreditIsDuration(log: seq<SyscallEvent>, i: nat)
    requires i < |log| && log[i].kind == Enter
    ensures var j := NextOf(log, CallOf(log[i]), i + 1);
      j < |log| && log[j].kind == Exit ==>
        IsMatched(log, j) && EnterOf(log, j) == i && CreditedNs(log, i) == Duration(log, j)
  {
    var j := NextOf(log, CallOf(log[i]), i + 1);
    if j < |log| && log[j].kind == Exit {
      assert CallOf(log[..j][i]) == CallOf(log[j]);
      assert LastOf(log[..j], CallOf(log[j])) == i;
    }
  }

  // ---- never overstated

  /** When an Exit is matched to an Enter and nothing was lost, the thread that made that Enter
      is still in its call: the reported interval lies inside a real one. */
  lemma MatchedIntervalInsideCall(calls: seq<Traced>, j: nat)
    requires WellFormed(calls)
    requires j < |calls| && IsMatched(Events(calls), j)
    ensures var i := EnterOf(Events(calls), j); i < j <= EndOf(calls, i)
  {
    var log := Events(calls);
    var i := EnterOf(log, j);
    var end := EndOf(calls, i);
    if end < j {
      assert false;
    }
  }

  /** Boundaries of one call key are recorded in time order, and none after `now`. Boundaries of
      different processes or numbers may come in any order. */
  ghost predicate UpToNow(calls: seq<Traced>, now: nat) {
    && (forall i, j | 0 <= i < j < |calls| && CallOf(calls[i].ev) == CallOf(calls[j].ev) ::
          calls[i].ev.ts <= calls[j].ev.ts)
    && forall k | 0 <= k < |calls| :: calls[k].ev.ts <= now
  }

  lemma CreditWithinCall(calls: seq<Traced>, kept: seq<nat>, i: nat, now: nat)
    requires WellFormed(calls) && UpToNow(calls, now)
    requires NoLeak(calls, kept)
    requires i < |kept| && calls[kept[i]].ev.kind == Enter
    ensures CreditedNs(Kept(calls, kept), i) <= TrueNs(calls, kept[i], now)
  {
    var log := Kept(calls, kept);
    CreditIsDuration(log, i);
    var j := NextOf(log, CallOf(log[i]), i + 1);
    if j < |log| && log[j].kind == Exit {
      InsideIffExitNotLost(calls, kept, j, now);
      var end := EndOf(calls, kept[i]);
      assert end < |calls| ==> CallOf(calls[end].ev) == CallOf(calls[kept[j]].ev);
    }
  }

  lemma {:induction false} TrueTimeGrows(calls: seq<Traced>, ks: iset<CallKey>, now: nat, m: nat, n: nat)
    requires m <= n <= |calls|
    ensures TrueTime(calls, ks, now, m) <= TrueTime(calls, ks, now, n)
  {
    if m < n {
      TrueTimeGrows(calls, ks, now, m, n - 1);
    }
  }

  /** One past the `m`-th kept boundary. */
  ghost function Past(kept: seq<nat>, m: nat): nat
    requires m <= |kept|
  {
    if m == 0 then 0 else kept[m - 1] + 1
  }

  /** By how much the true time up to the `m`-th kept boundary exceeds the credited time. */
  ghost function Slack(calls: seq<Traced>, kept: seq<nat>, ks: iset<CallKey>, now: nat, m: nat): int
    requires Selects(kept, |calls|) && m <= |kept|
  {
    TrueTime(calls, ks, now, Past(kept, m)) - Credited(Kept(calls, kept), ks, m)
  }

  lemma SlackGrows(calls: seq<Traced>, kept: seq<nat>, ks: iset<CallKey>, now: nat, m: nat)
    requires WellFormed(calls) && UpToNow(calls, now)
    requires NoLeak(calls, kept) && m < |kept|
    ensures Slack(calls, kept, ks, now, m) <= Slack(calls, kept, ks, now, m + 1)
  {
    TrueTimeGrows(calls, ks, now, Past(kept, m), kept[m]);
    if IsCall(calls, ks, kept[m]) {
      CreditWithinCall(calls, kept, m, now);
    }
  }

  lemma {:induction false} CreditedAtMostTrue(calls: seq<Traced>, kept: seq<nat>, ks: iset<CallKey>, now: nat, m: nat)
    requires WellFormed(calls) && UpToNow(calls, now)
    requires NoLeak(calls, kept) && m <= |kept|
    ensures Slack(calls, kept, ks, now, m) >= 0
  {
    if m > 0 {
      CreditedAtMostTrue(calls, kept, ks, now, m - 1);
      SlackGrows(calls, kept, ks, now, m - 1);
    }
  }

  /** Whatever was lost, the matched time of the kept records is at most the true time, as long
      as no matched Exit stands in for a lost one. */
  lemma MatchedAtMostTrue(calls: seq<Traced>, kept: seq<nat>, ks: iset<CallKey>, now: nat)
    requires WellFormed(calls) && UpToNow(calls, now)
    requires NoLeak(calls, kept)
    ensures MatchedNs(Kept(calls, kept), ks) <= TrueTime(calls, ks, now, |calls|)
  {
    CreditedIsMatched(Kept(calls, kept), ks);
    CreditedAtMostTrue(calls, kept, ks, now, |kept|);
    TrueTimeGrows(calls, ks, now, Past(kept, |kept|), |calls|);
  }

  // ---- exactly when nothing is lost to overlap

  /** Boundaries of one call key have distinct times, in order. */
  ghost predicate StrictlyIncreasing(log: seq<SyscallEvent>) {
    forall i, j | 0 <= i < j < |log| && CallOf(log[i]) == CallOf(log[j]) :: log[i].ts < log[j].ts
  }

  /** No boundary of another thread with the same (process, number) falls inside a call. */
  ghost predicate NoOverlap(calls: seq<Traced>, ks: iset<CallKey>) {
    forall i: nat | IsCall(calls, ks, i) :: NextOf(Events(calls), CallOf(calls[i].ev), i + 1) == EndOf(calls, i)
  }

  ghost predicate AllCompleted(calls: seq<Traced>, ks: iset<CallKey>) {
    forall i: nat | IsCall(calls, ks, i) :: EndOf(calls, i) < |calls|
  }

  lemma CreditFullIffAlone(calls: seq<Traced>, i: nat, now: nat)
    requires WellFormed(calls) && StrictlyIncreasing(Events(calls))
    requires i < |calls| && calls[i].ev.kind == Enter && EndOf(calls, i) < |calls|
    ensures CreditedNs(Events(calls), i) <= TrueNs(calls, i, now)
    ensures CreditedNs(Events(calls), i) == TrueNs(calls, i, now) <==>
      NextOf(Events(calls), CallOf(calls[i].ev), i + 1) == EndOf(calls, i)
  {
    var log := Events(calls);
    var end, next := EndOf(calls, i), NextOf(log, CallOf(log[i]), i + 1);
    assert CallOf(log[end]) == CallOf(log[i]);
    assert next <= end;
    assert log[i].ts < log[end].ts;
  }

  lemma {:induction false} CreditedEqualIff(calls: seq<Traced>, ks: iset<CallKey>, now: nat, n: nat)
    requires WellFormed(calls) && StrictlyIncreasing(Events(calls)) && AllCompleted(calls, ks)
    requires n <= |calls|
    ensures Credited(Events(calls), ks, n) <= TrueTime(calls, ks, now, n)
    ensures Credited(Events(calls), ks, n) == TrueTime(calls, ks, now, n) <==>
      forall i: nat | i < n && IsCall(calls, ks, i) ::
        NextOf(Events(calls), CallOf(calls[i].ev), i + 1) == EndOf(calls, i)
  {
    if n > 0 {
      CreditedEqualIff(calls, ks, now, n - 1);
      if IsCall(calls, ks, n - 1) {
        CreditFullIffAlone(calls, n - 1, now);
      }
    }
  }

  /** For completed calls with distinct timestamps, the table shows the true total of a
      syscall if and only if no two calls of it in one process overlap. */
  lemma ExactIffNoOverlap(calls: seq<Traced>, nr: nat, now: nat)
    requires WellFormed(calls) && StrictlyIncreasing(Events(calls)) && AllCompleted(calls, Number(nr))
    ensures StatsOf(Fold(SysStep, NO_SYS, Events(calls)).stats, nr).totalNs == TrueTime(calls, Number(nr), now, |calls|)
      <==> NoOverlap(calls, Number(nr))
  {
    CreditedEqualIff(calls, Number(nr), now, |calls|);
    CreditedIsMatched(Events(calls), Number(nr));
    RowMeaning(Events(calls), nr);
  }

  // ---- at the level of runs

  /** A thread of the target crosses a syscall boundary. */
  predicate IsBoundary(tp: Tracepoint) {
    (tp.SysEnter? || tp.SysExit?) && tp.ctx.target
  }

  predicate Shows(tp: Tracepoint, c: Traced)
    requires IsBoundary(tp)
  {
    && c.tid == tp.ctx.tid && c.ev.pid == tp.ctx.tgid && c.ev.ts == tp.ctx.now
    && c.ev.kind == (if tp.SysEnter? then Enter else Exit)
    && (tp.nr.Some? ==> c.ev.nr == AsU64(tp.nr.value))
  }

  /** `calls` lists every boundary the target's threads crossed, in order: with the true
      number also where the handler failed to read it, recorded or not. */
  ghost predicate Describes(calls: seq<Traced>, tps: seq<Tracepoint>) {
    if |tps| == 0 then calls == []
    else
      var before, tp := tps[..|tps| - 1], tps[|tps| - 1];
      if IsBoundary(tp) then |calls| > 0 && Describes(calls[..|calls| - 1], before) && Shows(tp, calls[|calls| - 1])
      else Describes(calls, before)
  }

  ghost function Crossed(steps: seq<Step>): nat {
    if |steps| == 0 then 0
    else
      var s := steps[|steps| - 1];
      Crossed(steps[..|steps| - 1]) + if s.Fire? && IsBoundary(s.tp) then 1 else 0
  }

  /** Which of the boundaries crossed were put on the ring. */
  ghost function KeptIn(caps: Caps, steps: seq<Step>): seq<nat> {
    if |steps| == 0 then []
    else
      var before, s := steps[..|steps| - 1], steps[|steps| - 1];
      KeptIn(caps, before) +
      if s.Fire? && IsBoundary(s.tp) && Recorded(Run(caps, before).k, s.tp.ctx, s.tp.nr, s.tp.ok)
      then [Crossed(before)] else []
  }

  lemma RecordedGoesOut(k: State, tp: Tracepoint)
    ensures SysOut(k, tp) ==
      if IsBoundary(tp) && Recorded(k, tp.ctx, tp.nr, tp.ok)
      then [SyscallEvent(tp.ctx.tgid, if tp.SysEnter? then Enter else Exit, AsU64(tp.nr.value), tp.ctx.now)] else []
  {
    match tp
    case SysEnter(c, nr, arg0, path, ok) =>
      if Recorded(k, c, nr, ok) {
        var e := SyscallEvent(c.tgid, Enter, AsU64(nr.value), c.now);
        assert Handle(k, tp).events == k.events + [e];
      }
    case SysExit(c, nr, ret, ok) =>
      if Recorded(k, c, nr, ok) {
        var e := SyscallEvent(c.tgid, Exit, AsU64(nr.value), c.now);
        assert Handle(k, tp).events == k.events + [e];
      }
    case _ =>
  }

  lemma FiresSnoc(steps: seq<Step>)
    requires |steps| > 0
    ensures var s := steps[|steps| - 1];
      if s.Fire? then Fires(steps) != [] && Fires(steps)[..|Fires(steps)| - 1] == Fires(steps[..|steps| - 1])
                      && Fires(steps)[|Fires(steps)| - 1] == s.tp
      else Fires(steps) == Fires(steps[..|steps| - 1])
  {
  }

  lemma KeptSnoc(calls: seq<Traced>, kept: seq<nat>, c: Traced, more: seq<nat>)
    requires Selects(kept, |calls|) && (more == [] || more == [|calls|])
    ensures Selects(kept + more, |calls + [c]|)
    ensures Kept(calls + [c], kept + more) == Kept(calls, kept) + if more == [] then [] else [c.ev]
  {
  }

  lemma LogStep(caps: Caps, steps: seq<Step>)
    requires |steps| > 0
    ensures var before, s := steps[..|steps| - 1], steps[|steps| - 1];
      var rec := s.Fire? && IsBoundary(s.tp) && Recorded(Run(caps, before).k, s.tp.ctx, s.tp.nr, s.tp.ok);
      && KeptIn(caps, steps) == KeptIn(caps, before) + (if rec then [Crossed(before)] else [])
      && SysLog(caps, steps) == SysLog(caps, before) +
         if rec
         then [SyscallEvent(s.tp.ctx.tgid, if s.tp.SysEnter? then Enter else Exit, AsU64(s.tp.nr.value), s.tp.ctx.now)]
         else []
  {
    var before, s := steps[..|steps| - 1], steps[|steps| - 1];
    if s.Fire? {
      RecordedGoesOut(Run(caps, before).k, s.tp);
    }
  }

  lemma DescribedLast(calls: seq<Traced>, steps: seq<Step>)
    requires Describes(calls, Fires(steps)) && |steps| > 0
    ensures var before, s := steps[..|steps| - 1], steps[|steps| - 1];
      if s.Fire? && IsBoundary(s.tp)
      then |calls| > 0 && Describes(calls[..|calls| - 1], Fires(before)) && Shows(s.tp, calls[|calls| - 1])
      else Describes(calls, Fires(before))
  {
    FiresSnoc(steps);
  }

  /** The ring's log is what was kept of these boundaries. */
  ghost predicate LogKept(caps: Caps, steps: seq<Step>, calls: seq<Traced>) {
    && |calls| == Crossed(steps) && Selects(KeptIn(caps, steps), |calls|)
    && SysLog(caps, steps) == Kept(calls, KeptIn(caps, steps))
  }

  lemma BoundaryKept(caps: Caps, steps: seq<Step>, front: seq<Traced>, c: Traced)
    requires |steps| > 0
    requires var s := steps[|steps| - 1]; s.Fire? && IsBoundary(s.tp) && Shows(s.tp, c)
    requires LogKept(caps, steps[..|steps| - 1], front)
    ensures LogKept(caps, steps, front + [c])
  {
    var before, s := steps[..|steps| - 1], steps[|steps| - 1];
    LogStep(caps, steps);
    var rec := Recorded(Run(caps, before).k, s.tp.ctx, s.tp.nr, s.tp.ok);
    KeptSnoc(front, KeptIn(caps, before), c, if rec then [|front|] else []);
  }

  lemma NoBoundaryKept(caps: Caps, steps: seq<Step>, calls: seq<Traced>)
    requires |steps| > 0
    requires var s := steps[|steps| - 1]; !(s.Fire? && IsBoundary(s.tp))
    requires LogKept(caps, steps[..|steps| - 1], calls)
    ensures LogKept(caps, steps, calls)
  {
    LogStep(caps, steps);
    assert KeptIn(caps, steps) == KeptIn(caps, steps[..|steps| - 1]);
  }

  /** The records the ring accepted are the kept boundaries. */
  lemma {:induction false} LogIsKept(caps: Caps, steps: seq<Step>, calls: seq<Traced>)
    requires Describes(calls, Fires(steps))
    ensures LogKept(caps, steps, calls)
  {
    if |steps| > 0 {
      var before, s := steps[..|steps| - 1], steps[|steps| - 1];
      DescribedLast(calls, steps);
      if s.Fire? && IsBoundary(s.tp) {
        var front, c := calls[..|calls| - 1], calls[|calls| - 1];
        LogIsKept(caps, before, front);
        BoundaryKept(caps, steps, front, c);
        assert calls == front + [c];
      } else {
        LogIsKept(caps, before, calls);
        NoBoundaryKept(caps, steps, calls);
      }
    }
  }

  /** Whatever was dropped and whatever could not be read, in every reachable state and with
      any records still queued: if clocks do not run backwards and no matched Exit stands in
      for a lost one, the time shown for a syscall is at most the time threads really spent in
      it up to now. */
  lemma ReportedTimeNeverOverstates(caps: Caps, steps: seq<Step>, calls: seq<Traced>, nr: nat, now: nat)
    requires Describes(calls, Fires(steps)) && WellFormed(calls) && UpToNow(calls, now)
    requires NoLeak(calls, KeptIn(caps, steps))
    ensures StatsOf(Run(caps, steps).u.sys.stats, nr).totalNs <= TrueTime(calls, Number(nr), now, |calls|)
  {
    LogIsKept(caps, steps, calls);
    TablesAreFolds(caps, steps);
    var log, seen := SysLog(caps, steps), TakenSyscalls(caps, steps);
    RowMeaning(seen, nr);
    MatchedGrows(log, |seen|, Number(nr));
    MatchedAtMostTrue(calls, KeptIn(caps, steps), Number(nr), now);
  }

  /** Every boundary of this kind could be read and was accepted. */
  ghost predicate NoneLost(caps: Caps, steps: seq<Step>, exitsOnly: bool) {
    forall i | 0 <= i < |steps| && steps[i].Fire? && IsBoundary(steps[i].tp) && (exitsOnly ==> steps[i].tp.SysExit?) ::
      Recorded(Run(caps, steps[..i]).k, steps[i].tp.ctx, steps[i].tp.nr, steps[i].tp.ok)
  }

  lemma NoneLostPrefix(caps: Caps, steps: seq<Step>, exitsOnly: bool)
    requires NoneLost(caps, steps, exitsOnly) && |steps| > 0
    ensures NoneLost(caps, steps[..|steps| - 1], exitsOnly)
  {
    var before := steps[..|steps| - 1];
    forall i | 0 <= i < |before| && before[i].Fire? && IsBoundary(before[i].tp) && (exitsOnly ==> before[i].tp.SysExit?)
      ensures Recorded(Run(caps, before[..i]).k, before[i].tp.ctx, before[i].tp.nr, before[i].tp.ok)
    {
      assert before[..i] == steps[..i];
    }
  }

  lemma {:induction false} NoneLostAllKept(caps: Caps, steps: seq<Step>, calls: seq<Traced>, exitsOnly: bool)
    requires Describes(calls, Fires(steps)) && NoneLost(caps, steps, exitsOnly)
    ensures |calls| == Crossed(steps)
    ensures forall i: nat | i < |calls| && (exitsOnly ==> calls[i].ev.kind == Exit) :: i in KeptIn(caps, steps)
  {
    if |steps| > 0 {
      var before, s := steps[..|steps| - 1], steps[|steps| - 1];
      FiresSnoc(steps);
      NoneLostPrefix(caps, steps, exitsOnly);
      if s.Fire? && IsBoundary(s.tp) {
        var front := calls[..|calls| - 1];
        NoneLostAllKept(caps, before, front, exitsOnly);
        forall i: nat | i < |calls| && (exitsOnly ==> calls[i].ev.kind == Exit) ensures i in KeptIn(caps, steps) {
          if i < |front| {
            assert front[i] == calls[i];
            assert i in KeptIn(caps, before);
          } else if exitsOnly ==> s.tp.SysExit? {
            assert Recorded(Run(caps, steps[..|steps| - 1]).k, s.tp.ctx, s.tp.nr, s.tp.ok);
          }
        }
      } else {
        NoneLostAllKept(caps, before, calls, exitsOnly);
      }
    }
  }

  /** In particular when every Exit was recorded, however many Enters were lost. */
  lemma LostEntersNeverOverstate(caps: Caps, steps: seq<Step>, calls: seq<Traced>, nr: nat, now: nat)
    requires Describes(calls, Fires(steps)) && WellFormed(calls) && UpToNow(calls, now)
    requires NoneLost(caps, steps, true)
    ensures StatsOf(Run(caps, steps).u.sys.stats, nr).totalNs <= TrueTime(calls, Number(nr), now, |calls|)
  {
    LogIsKept(caps, steps, calls);
    NoneLostAllKept(caps, steps, calls, true);
    KeptExitsLeakNothing(calls, KeptIn(caps, steps));
    ReportedTimeNeverOverstates(caps, steps, calls, nr, now);
  }

  lemma {:induction false} SelectsAll(kept: seq<nat>, n: nat)
    requires Selects(kept, n) && forall i: nat | i < n :: i in kept
    ensures |kept| == n && forall i | 0 <= i < n :: kept[i] == i
  {
    assert |kept| > 0 ==> 0 <= kept[0] < n;
    if n > 0 {
      var last := |kept| - 1;
      var top: nat := n - 1;
      assert top in kept;
      assert kept[last] < n;
      var m :| 0 <= m < |kept| && kept[m] == top;
      assert m == last;
      var front := kept[..last];
      forall i: nat | i < n - 1 ensures i in front {
        assert i in kept;
        var q :| 0 <= q < |kept| && kept[q] == i;
        assert front[q] == i;
      }
      SelectsAll(front, n - 1);
      assert forall i | 0 <= i < n - 1 :: kept[i] == front[i];
    }
  }

  lemma LosslessLog(caps: Caps, steps: seq<Step>, calls: seq<Traced>)
    requires Describes(calls, Fires(steps)) && NoneLost(caps, steps, false)
    ensures SysLog(caps, steps) == Events(calls)
  {
    LogIsKept(caps, steps, calls);
    NoneLostAllKept(caps, steps, calls, false);
    SelectsAll(KeptIn(caps, steps), |calls|);
  }

  /** Time spent in the calls whose Enter and Exit were both crossed while tracing. */
  ghost function CompletedTime(calls: seq<Traced>, ks: iset<CallKey>, n: nat): nat
    requires n <= |calls|
  {
    if n == 0 then 0
    else
      var end := EndOf(calls, n - 1);
      CompletedTime(calls, ks, n - 1) +
      if IsCall(calls, ks, n - 1) && end < |calls| then SatSub(calls[end].ev.ts, calls[n - 1].ev.ts) else 0
  }

  lemma CreditAlone(calls: seq<Traced>, ks: iset<CallKey>, i: nat)
    requires WellFormed(calls) && NoOverlap(calls, ks) && IsCall(calls, ks, i)
    ensures CreditedNs(Events(calls), i) ==
      if EndOf(calls, i) < |calls| then SatSub(calls[EndOf(calls, i)].ev.ts, calls[i].ev.ts) else 0
  {
    assert NextOf(Events(calls), CallOf(calls[i].ev), i + 1) == EndOf(calls, i);
  }

  lemma {:induction false} CreditedIsCompleted(calls: seq<Traced>, ks: iset<CallKey>, n: nat)
    requires WellFormed(calls) && NoOverlap(calls, ks) && n <= |calls|
    ensures Credited(Events(calls), ks, n) == CompletedTime(calls, ks, n)
  {
    if n > 0 {
      CreditedIsCompleted(calls, ks, n - 1);
      if IsCall(calls, ks, n - 1) {
        CreditAlone(calls, ks, n - 1);
      }
    }
  }

  /** In every drained state of a run that lost no syscall record, and in which no two calls of
      this syscall overlapped in one process, the time shown is exactly the time spent in its
      completed calls, whatever other syscalls did. */
  lemma ExactWithoutOverlap(caps: Caps, steps: seq<Step>, calls: seq<Traced>, nr: nat)
    requires Describes(calls, Fires(steps)) && NoneLost(caps, steps, false) && Run(caps, steps).k.events == []
    requires WellFormed(calls) && NoOverlap(calls, Number(nr))
    ensures StatsOf(Run(caps, steps).u.sys.stats, nr).totalNs == CompletedTime(calls, Number(nr), |calls|)
  {
    LosslessLog(caps, steps, calls);
    TablesAreFolds(caps, steps);
    assert TakenSyscalls(caps, steps) == Events(calls);
    RowMeaning(Events(calls), nr);
    CreditedIsMatched(Events(calls), Number(nr));
    CreditedIsCompleted(calls, Number(nr), |calls|);
  }
}
