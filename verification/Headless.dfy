/** The non-interactive loop: poll, maybe print, sleep. Tracepoints keep firing while it
    sleeps; the clock only promises not to run backwards and to outlast each sleep. */
module Headless {
  import opened Wrappers
  import opened Folds
  import opened Repeats
  import opened Tables
  import opened Kernel
  import opened Pipeline
  import opened Refinement
  import opened ProbesClass
  import opened AggregatorClass
  import opened MemStats

  /** 50 milliseconds, in nanoseconds. */
  const SLEEP := 50_000_000

  const SECOND := 1_000_000_000

  /** What was asked of the clock, and what it said. */
  datatype ClockEvent = ReadAt(t: nat) | Slept(until: nat)

  class Clock {
    const jitter: nat -> nat
    var now: nat
    var ticks: nat
    ghost var history: seq<ClockEvent>

    constructor (jitter: nat -> nat, now: nat)
      ensures this.now == now && history == []
    {
      this.jitter := jitter;
      this.now := now;
      ticks := 0;
      history := [];
    }

    method Instant() returns (t: nat)
      modifies this
      ensures t == now >= old(now)
      ensures history == old(history) + [ReadAt(t)]
    {
      now := now + jitter(ticks);
      ticks := ticks + 1;
      t := now;
      history := history + [ReadAt(t)];
    }

    method Sleep(ns: nat)
      modifies this
      ensures now >= old(now) + ns
      ensures history == old(history) + [Slept(now)]
    {
      now := now + ns + jitter(ticks);
      ticks := ticks + 1;
      history := history + [Slept(now)];
    }
  }

  // ---- what the polls amount to

  function Emptied(k: State): State {
    k.(events := [], net := [], file := [], mem := [])
  }

  function FireAll(w: World, tps: seq<Tracepoint>): World {
    World(Fold(Handle, w.k, tps), w.u)
  }

  function Polled(w: World): World {
    World(Emptied(w.k), Absorb(w))
  }

  /** The world after `n` polls, when `arrivals(i)` fires between polls i and i + 1. */
  function WorldAt(caps: Caps, arrivals: nat -> seq<Tracepoint>, n: nat): World {
    if n == 0 then Start(caps) else Polled(FireAll(WorldAt(caps, arrivals, n - 1), arrivals(n - 1)))
  }

  function Arrived(arrivals: nat -> seq<Tracepoint>, n: nat): seq<Tracepoint> {
    if n == 0 then [] else Arrived(arrivals, n - 1) + arrivals(n - 1)
  }

  /** Every tracepoint of the batch finds room in its rings. */
  ghost predicate BatchFits(k: State, tps: seq<Tracepoint>) {
    forall i | 0 <= i < |tps| :: HasRoom(Fold(Handle, k, tps[..i]), tps[i])
  }

  ghost predicate AllFit(caps: Caps, arrivals: nat -> seq<Tracepoint>, n: nat) {
    n == 0 || (AllFit(caps, arrivals, n - 1) && BatchFits(WorldAt(caps, arrivals, n - 1).k, arrivals(n - 1)))
  }

  lemma {:induction false} BatchSimulates(w: World, tps: seq<Tracepoint>)
    requires BatchFits(w.k, tps)
    ensures View(FireAll(w, tps)) == Fold(Track, View(w), tps)
  {
    if |tps| > 0 {
      var n := |tps| - 1;
      var front := tps[..n];
      forall i | 0 <= i < |front| ensures HasRoom(Fold(Handle, w.k, front[..i]), front[i]) {
        assert front[..i] == tps[..i];
      }
      BatchSimulates(w, front);
      assert HasRoom(Fold(Handle, w.k, tps[..n]), tps[n]);
      FireSimulates(FireAll(w, front), tps[n]);
    }
  }

  lemma PollKeepsView(w: World)
    ensures View(Polled(w)) == View(w)
  {
  }

  lemma OnePollReflects(w: World, seen: seq<Tracepoint>, batch: seq<Tracepoint>)
    requires View(w) == TrackAll(seen) && BatchFits(w.k, batch)
    ensures View(Polled(FireAll(w, batch))) == TrackAll(seen + batch)
  {
    BatchSimulates(w, batch);
    FoldConcat(Track, FRESH, seen, batch);
    PollKeepsView(FireAll(w, batch));
  }

  lemma {:induction false} ViewAfterPolls(caps: Caps, arrivals: nat -> seq<Tracepoint>, n: nat)
    requires AllFit(caps, arrivals, n)
    ensures View(WorldAt(caps, arrivals, n)) == TrackAll(Arrived(arrivals, n))
  {
    if n > 0 {
      ViewAfterPolls(caps, arrivals, n - 1);
      OnePollReflects(WorldAt(caps, arrivals, n - 1), Arrived(arrivals, n - 1), arrivals(n - 1));
    }
  }

  /** When no batch overflows a ring, the tables after `n` polls reflect exactly all the
      tracepoints that fired before the n-th poll. */
  lemma PollsReflectEverything(caps: Caps, arrivals: nat -> seq<Tracepoint>, n: nat)
    requires AllFit(caps, arrivals, n)
    ensures WorldAt(caps, arrivals, n).u == TrackAll(Arrived(arrivals, n)).tables
  {
    ViewAfterPolls(caps, arrivals, n);
    NothingQueued(caps, arrivals, n);
  }

  lemma NothingQueued(caps: Caps, arrivals: nat -> seq<Tracepoint>, n: nat)
    ensures Absorb(WorldAt(caps, arrivals, n)) == WorldAt(caps, arrivals, n).u
  {
  }

  lemma {:induction false} BatchBounded(k: State, tps: seq<Tracepoint>)
    requires Bounded(k)
    ensures Bounded(Fold(Handle, k, tps))
  {
    if |tps| > 0 {
      BatchBounded(k, tps[..|tps| - 1]);
      HandleKeepsBounds(Fold(Handle, k, tps[..|tps| - 1]), tps[|tps| - 1]);
    }
  }

  lemma {:induction false} PollsBounded(caps: Caps, arrivals: nat -> seq<Tracepoint>, n: nat)
    ensures Bounded(WorldAt(caps, arrivals, n).k)
  {
    if n > 0 {
      PollsBounded(caps, arrivals, n - 1);
      BatchBounded(WorldAt(caps, arrivals, n - 1).k, arrivals(n - 1));
    }
  }

  // ---- polling is a run of the pipeline

  function Again(s: Step, n: nat): seq<Step> {
    seq(n, _ => s)
  }

  ghost function Repeat(w: World, s: Step, n: nat): World
    decreases n
  {
    if n == 0 then w else Repeat(Next(w, s), s, n - 1)
  }

  lemma {:induction false} RunRepeat(caps: Caps, steps: seq<Step>, s: Step, n: nat)
    ensures Run(caps, steps + Again(s, n)) == Repeat(Run(caps, steps), s, n)
    decreases n
  {
    if n == 0 {
      assert steps + Again(s, n) == steps;
    } else {
      RunSnoc(caps, steps, s);
      RunRepeat(caps, steps + [s], s, n - 1);
      assert steps + Again(s, n) == (steps + [s]) + Again(s, n - 1);
    }
  }

  lemma {:induction false} TakeAllSyscalls(w: World)
    ensures Repeat(w, TakeSyscall, |w.k.events|) ==
      World(w.k.(events := []), w.u.(sys := Fold(SysStep, w.u.sys, w.k.events)))
    decreases |w.k.events|
  {
    if |w.k.events| > 0 {
      TakeAllSyscalls(Next(w, TakeSyscall));
      FoldPop(SysStep, w.u.sys, w.k.events);
    }
  }

  lemma {:induction false} TakeAllNet(w: World)
    ensures Repeat(w, TakeNet, |w.k.net|) == World(w.k.(net := []), w.u.(conns := Fold(ConnStep, w.u.conns, w.k.net)))
    decreases |w.k.net|
  {
    if |w.k.net| > 0 {
      TakeAllNet(Next(w, TakeNet));
      FoldPop(ConnStep, w.u.conns, w.k.net);
    }
  }

  lemma {:induction false} TakeAllFile(w: World)
    ensures Repeat(w, TakeFile, |w.k.file|) ==
      World(w.k.(file := []), w.u.(files := Fold(FileStep, w.u.files, w.k.file)))
    decreases |w.k.file|
  {
    if |w.k.file| > 0 {
      TakeAllFile(Next(w, TakeFile));
      FoldPop(FileStep, w.u.files, w.k.file);
    }
  }

  lemma {:induction false} TakeAllMem(w: World)
    ensures Repeat(w, TakeMem, |w.k.mem|) == World(w.k.(mem := []), w.u.(mem := Fold(MemStep, w.u.mem, w.k.mem)))
    decreases |w.k.mem|
  {
    if |w.k.mem| > 0 {
      TakeAllMem(Next(w, TakeMem));
      FoldPop(MemStep, w.u.mem, w.k.mem);
    }
  }

  function PollSteps(k: State): seq<Step> {
    Again(TakeSyscall, |k.events|) + Again(TakeNet, |k.net|) + Again(TakeFile, |k.file|) + Again(TakeMem, |k.mem|)
  }

  /** One poll is a stretch of take steps that empties the rings. */
  lemma PollIsRun(caps: Caps, steps: seq<Step>)
    ensures Run(caps, steps + PollSteps(Run(caps, steps).k)) == Polled(Run(caps, steps))
  {
    var w := Run(caps, steps);
    var k := w.k;
    var s1 := steps + Again(TakeSyscall, |k.events|);
    var s2 := s1 + Again(TakeNet, |k.net|);
    var s3 := s2 + Again(TakeFile, |k.file|);
    var s4 := s3 + Again(TakeMem, |k.mem|);
    assert steps + PollSteps(k) == s4;
    var all := Absorb(w);
    var w1 := World(k.(events := []), w.u.(sys := all.sys));
    var w2 := World(k.(events := [], net := []), w.u.(sys := all.sys, conns := all.conns));
    var w3 := World(k.(events := [], net := [], file := []), all.(mem := w.u.mem));
    assert Run(caps, s1) == w1 by {
      RunRepeat(caps, steps, TakeSyscall, |k.events|);
      TakeAllSyscalls(w);
    }
    assert Run(caps, s2) == w2 by {
      RunRepeat(caps, s1, TakeNet, |k.net|);
      TakeAllNet(w1);
    }
    assert Run(caps, s3) == w3 by {
      RunRepeat(caps, s2, TakeFile, |k.file|);
      TakeAllFile(w2);
    }
    assert Run(caps, s4) == Polled(w) by {
      RunRepeat(caps, s3, TakeMem, |k.mem|);
      TakeAllMem(w3);
    }
  }

  function FireSteps(tps: seq<Tracepoint>): seq<Step> {
    seq(|tps|, i requires 0 <= i < |tps| => Fire(tps[i]))
  }

  lemma FiresPush(steps: seq<Step>, tp: Tracepoint)
    ensures Fires(steps + [Fire(tp)]) == Fires(steps) + [tp]
  {
    assert (steps + [Fire(tp)])[..|steps|] == steps;
  }

  lemma FireStepsPush(tps: seq<Tracepoint>)
    requires |tps| > 0
    ensures FireSteps(tps) == FireSteps(tps[..|tps| - 1]) + [Fire(tps[|tps| - 1])]
  {
  }

  lemma {:induction false} BatchFires(steps: seq<Step>, tps: seq<Tracepoint>)
    ensures Fires(steps + FireSteps(tps)) == Fires(steps) + tps
  {
    if |tps| == 0 {
      assert steps + FireSteps(tps) == steps;
    } else {
      var n := |tps| - 1;
      BatchFires(steps, tps[..n]);
      FireStepsPush(tps);
      assert steps + FireSteps(tps) == steps + FireSteps(tps[..n]) + [Fire(tps[n])];
      FiresPush(steps + FireSteps(tps[..n]), tps[n]);
    }
  }

  lemma {:induction false} BatchIsRun(caps: Caps, steps: seq<Step>, tps: seq<Tracepoint>)
    ensures Run(caps, steps + FireSteps(tps)) == FireAll(Run(caps, steps), tps)
  {
    if |tps| == 0 {
      assert steps + FireSteps(tps) == steps;
    } else {
      var n := |tps| - 1;
      BatchIsRun(caps, steps, tps[..n]);
      FireStepsPush(tps);
      assert steps + FireSteps(tps) == steps + FireSteps(tps[..n]) + [Fire(tps[n])];
      RunSnoc(caps, steps + FireSteps(tps[..n]), Fire(tps[n]));
    }
  }

  lemma {:induction false} TakesFireNothing(steps: seq<Step>, takes: seq<Step>)
    requires forall s | s in takes :: !s.Fire?
    ensures Fires(steps + takes) == Fires(steps)
  {
    if |takes| == 0 {
      assert steps + takes == steps;
    } else {
      TakesFireNothing(steps, takes[..|takes| - 1]);
      assert (steps + takes)[..|steps + takes| - 1] == steps + takes[..|takes| - 1];
    }
  }

  /** The run behind the first `n` polls: each batch fires, then the rings are emptied. */
  ghost function StepsOf(caps: Caps, arrivals: nat -> seq<Tracepoint>, n: nat): seq<Step> {
    if n == 0 then []
    else
      var fired := StepsOf(caps, arrivals, n - 1) + FireSteps(arrivals(n - 1));
      fired + PollSteps(Run(caps, fired).k)
  }

  lemma OnePollIsRun(caps: Caps, before: seq<Step>, tps: seq<Tracepoint>)
    ensures var fired := before + FireSteps(tps);
      var all := fired + PollSteps(Run(caps, fired).k);
      Run(caps, all) == Polled(FireAll(Run(caps, before), tps)) && Fires(all) == Fires(before) + tps
  {
    var fired := before + FireSteps(tps);
    BatchIsRun(caps, before, tps);
    BatchFires(before, tps);
    PollIsRun(caps, fired);
    TakesFireNothing(fired, PollSteps(Run(caps, fired).k));
  }

  ghost predicate Reached(caps: Caps, arrivals: nat -> seq<Tracepoint>, n: nat) {
    && Run(caps, StepsOf(caps, arrivals, n)) == WorldAt(caps, arrivals, n)
    && Fires(StepsOf(caps, arrivals, n)) == Arrived(arrivals, n)
  }

  lemma ReachedNext(caps: Caps, arrivals: nat -> seq<Tracepoint>, n: nat)
    requires Reached(caps, arrivals, n)
    ensures Reached(caps, arrivals, n + 1)
  {
    OnePollIsRun(caps, StepsOf(caps, arrivals, n), arrivals(n));
  }

  lemma ReachedStart(caps: Caps, arrivals: nat -> seq<Tracepoint>)
    ensures Reached(caps, arrivals, 0)
  {
  }

  lemma {:induction false} ReachedFrom(caps: Caps, arrivals: nat -> seq<Tracepoint>, m: nat, n: nat)
    requires m <= n && Reached(caps, arrivals, m)
    ensures Reached(caps, arrivals, n)
    decreases n - m
  {
    if m < n {
      ReachedNext(caps, arrivals, m);
      ReachedFrom(caps, arrivals, m + 1, n);
    }
  }

  /** What the loop sees after any number of polls is the state reached by that run, whose
      tracepoints are the arrivals so far. */
  lemma WorldAtIsReachable(caps: Caps, arrivals: nat -> seq<Tracepoint>, n: nat)
    ensures Run(caps, StepsOf(caps, arrivals, n)) == WorldAt(caps, arrivals, n)
    ensures Fires(StepsOf(caps, arrivals, n)) == Arrived(arrivals, n)
  {
    ReachedStart(caps, arrivals);
    ReachedFrom(caps, arrivals, 0, n);
  }

  // ---- the loop

  /** One printed summary: after which poll, at what uptime in seconds, from which tables, and
      the memory figures and page faults read for it, if they could be. */
  datatype Line = Line(poll: nat, uptime: nat, tables: Tables,
                       memory: Option<MemReport>, faults: Option<Faults>, final: bool)

  /** What goes on around the loop: the tracepoints that fire before each poll, the shutdown
      flag as read after it, and what the memory readers would find then. */
  datatype Env = Env(arrivals: nat -> seq<Tracepoint>, shutdown: nat -> bool, hosts: nat -> Host)

  ghost function SummaryLine(tables: Tables, host: Host, poll: nat, uptime: nat, final: bool): Line {
    Line(poll, uptime, tables, MemoryOf(host), FaultsIn(host), final)
  }

  /** The line a summary made after poll `poll` must be. */
  ghost function LineAt(caps: Caps, env: Env, poll: nat, uptime: nat, final: bool): Line {
    SummaryLine(Wrapped(WorldAt(caps, env.arrivals, poll).u), env.hosts(poll), poll, uptime, final)
  }

  function Uptime(start: nat, now: nat): nat {
    SatSub(now, start) / SECOND
  }

  datatype Settings = Settings(duration: Option<nat>, refresh: nat)

  /** The clock readings of one iteration that did not end the loop: the elapsed-time test; if
      it printed, the summary's and the new `last_emit`; and the end of its sleep. */
  datatype Round = Round(checked: nat, shown: nat, emitted: nat, woke: nat)

  predicate Prints(s: Settings, lastEmit: nat, r: Round) {
    s.duration.None? && SatSub(r.checked, lastEmit) >= s.refresh
  }

  ghost function NextEmit(s: Settings, lastEmit: nat, r: Round): nat {
    if Prints(s, lastEmit, r) then r.emitted else lastEmit
  }

  /** When the last line was printed; `first` before there is one. */
  ghost function LastEmit(s: Settings, first: nat, rounds: seq<Round>): nat {
    if |rounds| == 0 then first
    else NextEmit(s, LastEmit(s, first, rounds[..|rounds| - 1]), rounds[|rounds| - 1])
  }

  ghost function Readings(r: Round, prints: bool): seq<ClockEvent> {
    [ReadAt(r.checked)] + (if prints then [ReadAt(r.shown), ReadAt(r.emitted)] else []) + [Slept(r.woke)]
  }

  /** All the loop asked of the clock in these rounds. */
  ghost function EventsOf(s: Settings, first: nat, rounds: seq<Round>): seq<ClockEvent> {
    if |rounds| == 0 then []
    else
      var front, r := rounds[..|rounds| - 1], rounds[|rounds| - 1];
      EventsOf(s, first, front) + Readings(r, Prints(s, LastEmit(s, first, front), r))
  }

  ghost function RoundLines(s: Settings, start: nat, lastEmit: nat, r: Round, poll: nat,
                            caps: Caps, env: Env): seq<Line> {
    if Prints(s, lastEmit, r) then [LineAt(caps, env, poll, Uptime(start, r.shown), false)] else []
  }

  /** All the lines it printed: poll n prints iff `refresh` had passed by its own reading of the
      clock, and shows the tables as that poll left them. */
  ghost function LinesOf(s: Settings, start: nat, first: nat, rounds: seq<Round>, caps: Caps, env: Env): seq<Line> {
    if |rounds| == 0 then []
    else
      var front, r := rounds[..|rounds| - 1], rounds[|rounds| - 1];
      LinesOf(s, start, first, front, caps, env) +
      RoundLines(s, start, LastEmit(s, first, front), r, |rounds|, caps, env)
  }

  ghost function WokeAt(first: nat, rounds: seq<Round>): nat {
    if |rounds| == 0 then first else rounds[|rounds| - 1].woke
  }

  /** In this round the clock did not run backwards and the sleep took its 50 milliseconds. */
  ghost predicate RoundTimely(s: Settings, woke: nat, lastEmit: nat, r: Round) {
    && woke <= r.checked && r.checked + SLEEP <= r.woke
    && (Prints(s, lastEmit, r) ==> r.checked <= r.shown <= r.emitted && r.emitted + SLEEP <= r.woke)
  }

  ghost predicate Timely(s: Settings, first: nat, rounds: seq<Round>) {
    |rounds| == 0 ||
    var front := rounds[..|rounds| - 1];
    Timely(s, first, front) && RoundTimely(s, WokeAt(first, front), LastEmit(s, first, front), rounds[|rounds| - 1])
  }

  /** After this poll the flag was clear and the duration had not passed. */
  ghost predicate GoesOn(s: Settings, start: nat, env: Env, poll: nat, r: Round) {
    !env.shutdown(poll) && (s.duration.Some? ==> SatSub(r.checked, start) < s.duration.value)
  }

  ghost predicate KeptGoing(s: Settings, start: nat, env: Env, rounds: seq<Round>) {
    && (forall n | 1 <= n <= |rounds| :: !env.shutdown(n))
    && (s.duration.Some? ==> forall n | 0 <= n < |rounds| :: SatSub(rounds[n].checked, start) < s.duration.value)
  }

  /** After poll `n`, with these readings made for it, the loop ends. */
  ghost predicate Ends(s: Settings, start: nat, env: Env, n: nat, tail: seq<ClockEvent>) {
    if env.shutdown(n) then tail == []
    else
      && s.duration.Some? && |tail| == 1 && tail[0].ReadAt?
      && SatSub(tail[0].t, start) >= s.duration.value
  }

  /** The round that follows poll `poll`, begun when the clock stood at `woke`. */
  ghost predicate WentOn(s: Settings, start: nat, env: Env, poll: nat, woke: nat, lastEmit: nat, r: Round) {
    GoesOn(s, start, env, poll, r) && RoundTimely(s, woke, lastEmit, r)
  }

  method FireBatch(p: Probes, tps: seq<Tracepoint>)
    requires p.Valid()
    modifies p
    ensures p.Valid() && p.Now() == Fold(Handle, old(p.Now()), tps)
  {
    for i := 0 to |tps|
      invariant p.Valid() && p.Now() == Fold(Handle, old(p.Now()), tps[..i])
    {
      p.Fire(tps[i]);
      assert tps[..i + 1] == tps[..i] + [tps[i]];
      FoldPush(Handle, old(p.Now()), tps[..i], tps[i]);
    }
    assert tps[..|tps|] == tps;
  }

  /** Both sides stand where `n` polls leave them. */
  ghost predicate InStep(p: Probes, a: Aggregator, arrivals: nat -> seq<Tracepoint>, n: nat)
    reads p, a
  {
    World(p.Now(), a.Ideal()) == WorldAt(p.caps, arrivals, n) && a.Shown() == Wrapped(a.Ideal())
  }

  method PollEvents(p: Probes, a: Aggregator, arrivals: nat -> seq<Tracepoint>, polls: nat)
    requires InStep(p, a, arrivals, polls)
    modifies p, a
    ensures InStep(p, a, arrivals, polls + 1)
  {
    PollsBounded(p.caps, arrivals, polls);
    FireBatch(p, arrivals(polls));
    assert World(p.Now(), a.Ideal()) == FireAll(WorldAt(p.caps, arrivals, polls), arrivals(polls));
    a.PollEvents(p);
  }

  method BuildSummary(a: Aggregator, clock: Clock, host: Host, start: nat, poll: nat, final: bool)
    returns (line: Line)
    modifies clock
    ensures clock.now >= old(clock.now) && clock.history == old(clock.history) + [ReadAt(clock.now)]
    ensures line == SummaryLine(a.Shown(), host, poll, Uptime(start, clock.now), final)
  {
    var at := clock.Instant();
    var memory := ReadMemory(host);
    var faults := ReadHostFaults(host);
    line := Line(poll, SatSub(at, start) / SECOND, a.Shown(), memory, faults, final);
  }

  /** The exit test of one iteration, made right after poll `poll`; the reading it makes, if any. */
  method ShouldStop(clock: Clock, s: Settings, start: nat, env: Env, poll: nat)
    returns (stop: bool, ghost tail: seq<ClockEvent>)
    modifies clock
    ensures clock.now >= old(clock.now) && clock.history == old(clock.history) + tail
    ensures stop <==> env.shutdown(poll) || (s.duration.Some? && SatSub(clock.now, start) >= s.duration.value)
    ensures tail == if s.duration.Some? && !env.shutdown(poll) then [ReadAt(clock.now)] else []
    ensures stop ==> Ends(s, start, env, poll, tail)
  {
    tail := [];
    if env.shutdown(poll) {
      return true, tail;
    }
    if s.duration.Some? {
      var t := clock.Instant();
      tail := [ReadAt(t)];
      return SatSub(t, start) >= s.duration.value, tail;
    }
    return false, tail;
  }

  /** The streaming branch of one iteration: prints iff `refresh` has passed. */
  method StreamIfDue(a: Aggregator, clock: Clock, host: Host, s: Settings, start: nat, lastEmit: nat, poll: nat,
                     lines: seq<Line>)
    returns (emitted: nat, more: seq<Line>, ghost checked: nat, ghost shown: nat)
    requires s.duration.None?
    modifies clock
    ensures old(clock.now) <= checked <= clock.now
    ensures var due := SatSub(checked, lastEmit) >= s.refresh;
      && emitted == (if due then clock.now else lastEmit)
      && (due ==> checked <= shown <= clock.now)
      && clock.history ==
         old(clock.history) + [ReadAt(checked)] + (if due then [ReadAt(shown), ReadAt(emitted)] else [])
      && more == lines + if due then [SummaryLine(a.Shown(), host, poll, Uptime(start, shown), false)] else []
  {
    var t := clock.Instant();
    checked, shown := t, t;
    if SatSub(t, lastEmit) >= s.refresh {
      var line := BuildSummary(a, clock, host, start, poll, false);
      shown := clock.now;
      more := lines + [line];
      emitted := clock.Instant();
      assert clock.history == old(clock.history) + [ReadAt(checked)] + [ReadAt(shown), ReadAt(emitted)];
    } else {
      more, emitted := lines, lastEmit;
      assert clock.history == old(clock.history) + [ReadAt(checked)] + [];
    }
  }

  lemma RoundSnoc(s: Settings, start: nat, first: nat, rounds: seq<Round>, r: Round, caps: Caps, env: Env)
    requires Timely(s, first, rounds) && KeptGoing(s, start, env, rounds)
    requires RoundTimely(s, WokeAt(first, rounds), LastEmit(s, first, rounds), r)
    requires GoesOn(s, start, env, |rounds| + 1, r)
    ensures Timely(s, first, rounds + [r]) && KeptGoing(s, start, env, rounds + [r])
    ensures var lastEmit := LastEmit(s, first, rounds);
      && LastEmit(s, first, rounds + [r]) == NextEmit(s, lastEmit, r)
      && EventsOf(s, first, rounds + [r]) == EventsOf(s, first, rounds) + Readings(r, Prints(s, lastEmit, r))
      && LinesOf(s, start, first, rounds + [r], caps, env) ==
         LinesOf(s, start, first, rounds, caps, env) + RoundLines(s, start, lastEmit, r, |rounds| + 1, caps, env)
    ensures WokeAt(first, rounds + [r]) == r.woke
  {
    var all := rounds + [r];
    assert all[..|rounds|] == rounds;
  }

  /** What follows the exit test when the loop goes on: perhaps print, then sleep. In the timed
      mode the test has already read the clock; otherwise the streaming branch does. */
  method FinishRound(a: Aggregator, clock: Clock, s: Settings, start: nat, lastEmit: nat, poll: nat, lines: seq<Line>,
                     env: Env, ghost woke: nat, ghost was: seq<ClockEvent>, ghost caps: Caps)
    returns (emitted: nat, more: seq<Line>, ghost r: Round)
    requires !env.shutdown(poll) && woke <= clock.now
    requires s.duration.Some? ==> SatSub(clock.now, start) < s.duration.value
    requires clock.history == was + if s.duration.Some? then [ReadAt(clock.now)] else []
    requires a.Shown() == Wrapped(WorldAt(caps, env.arrivals, poll).u)
    modifies clock
    ensures r.woke == clock.now && WentOn(s, start, env, poll, woke, lastEmit, r)
    ensures emitted == NextEmit(s, lastEmit, r)
    ensures clock.history == was + Readings(r, Prints(s, lastEmit, r))
    ensures more == lines + RoundLines(s, start, lastEmit, r, poll, caps, env)
  {
    emitted, more := lastEmit, lines;
    ghost var checked, shown := clock.now, clock.now;
    if s.duration.None? {
      emitted, more, checked, shown := StreamIfDue(a, clock, env.hosts(poll), s, start, lastEmit, poll, lines);
    }
    clock.Sleep(SLEEP);
    r := Round(checked, shown, emitted, clock.now);
  }

  /** One iteration: poll, test for the end, perhaps print, sleep. */
  method Iterate(p: Probes, a: Aggregator, clock: Clock, s: Settings, start: nat,
                 env: Env, polls: nat, lastEmit: nat, lines: seq<Line>)
    returns (stop: bool, emitted: nat, more: seq<Line>, ghost r: Round, ghost tail: seq<ClockEvent>)
    requires InStep(p, a, env.arrivals, polls)
    modifies p, a, clock
    ensures InStep(p, a, env.arrivals, polls + 1)
    ensures stop ==> clock.now >= old(clock.now) && clock.history == old(clock.history) + tail
    ensures stop ==> Ends(s, start, env, polls + 1, tail) && more == lines && emitted == lastEmit
    ensures !stop ==> r.woke == clock.now && clock.history == old(clock.history) + Readings(r, Prints(s, lastEmit, r))
    ensures !stop ==> WentOn(s, start, env, polls + 1, old(clock.now), lastEmit, r)
    ensures !stop ==> emitted == NextEmit(s, lastEmit, r)
    ensures !stop ==> more == lines + RoundLines(s, start, lastEmit, r, polls + 1, p.caps, env)
  {
    PollEvents(p, a, env.arrivals, polls);
    emitted, more, r := lastEmit, lines, Round(0, 0, 0, 0);
    stop, tail := ShouldStop(clock, s, start, env, polls + 1);
    if !stop {
      emitted, more, r := FinishRound(a, clock, s, start, lastEmit, polls + 1, lines, env, old(clock.now),
                                      old(clock.history), p.caps);
    }
  }

  /** How many more iterations there can be. */
  ghost function Remaining(s: Settings, stopBy: nat, polls: nat, stop: bool): int {
    if stop then 0 else if s.duration.Some? then s.duration.value + SLEEP + 1 - SLEEP * polls else stopBy - polls
  }

  lemma {:induction false} SleepsAddUp(s: Settings, first: nat, rounds: seq<Round>)
    requires Timely(s, first, rounds)
    ensures first + SLEEP * |rounds| <= WokeAt(first, rounds)
  {
    if |rounds| > 0 {
      SleepsAddUp(s, first, rounds[..|rounds| - 1]);
    }
  }

  /** A loop that kept going for these rounds made at most this many of them. */
  lemma RoundsWithinDuration(s: Settings, start: nat, first: nat, rounds: seq<Round>, env: Env)
    requires start <= first && Timely(s, first, rounds) && KeptGoing(s, start, env, rounds)
    ensures s.duration.Some? && |rounds| > 0 ==> SLEEP * (|rounds| - 1) < s.duration.value
  {
    if |rounds| > 0 {
      var n := |rounds| - 1;
      SleepsAddUp(s, first, rounds[..n]);
      assert s.duration.Some? ==> SatSub(rounds[n].checked, start) < s.duration.value;
    }
  }

  lemma ShutdownNotYet(s: Settings, start: nat, rounds: seq<Round>, env: Env, stopBy: nat)
    requires KeptGoing(s, start, env, rounds) && stopBy > 0 && env.shutdown(stopBy)
    ensures |rounds| < stopBy
  {
    if stopBy <= |rounds| {
      assert false;
    }
  }

  lemma RemainingShrinks(s: Settings, start: nat, first: nat, rounds: seq<Round>, env: Env, stopBy: nat)
    requires start <= first && Timely(s, first, rounds) && KeptGoing(s, start, env, rounds)
    requires s.duration.None? ==> stopBy > 0 && env.shutdown(stopBy)
    ensures 0 < Remaining(s, stopBy, |rounds|, false)
    ensures |rounds| > 0 ==> Remaining(s, stopBy, |rounds|, false) < Remaining(s, stopBy, |rounds| - 1, false)
  {
    RoundsWithinDuration(s, start, first, rounds, env);
    if s.duration.None? {
      ShutdownNotYet(s, start, rounds, env, stopBy);
    }
  }

  /** What the rounds so far account for: the time of the last line, and the lines. */
  ghost predicate Trail(s: Settings, start: nat, first: nat, rounds: seq<Round>,
                        lastEmit: nat, lines: seq<Line>, caps: Caps, env: Env) {
    && start <= first && Timely(s, first, rounds) && KeptGoing(s, start, env, rounds)
    && lastEmit == LastEmit(s, first, rounds)
    && lines == LinesOf(s, start, first, rounds, caps, env)
  }

  lemma TrailSnoc(s: Settings, start: nat, first: nat, rounds: seq<Round>, r: Round, woke: nat,
                  lastEmit: nat, lines: seq<Line>, caps: Caps, env: Env)
    requires Trail(s, start, first, rounds, lastEmit, lines, caps, env)
    requires WokeAt(first, rounds) <= woke && WentOn(s, start, env, |rounds| + 1, woke, lastEmit, r)
    ensures Trail(s, start, first, rounds + [r], NextEmit(s, lastEmit, r),
                  lines + RoundLines(s, start, lastEmit, r, |rounds| + 1, caps, env), caps, env)
    ensures EventsOf(s, first, rounds + [r]) == EventsOf(s, first, rounds) + Readings(r, Prints(s, lastEmit, r))
    ensures WokeAt(first, rounds + [r]) == r.woke
  {
    RoundSnoc(s, start, first, rounds, r, caps, env);
  }

  /** Where the loop stands: `was` is what the clock had been asked before it. */
  ghost predicate At(p: Probes, a: Aggregator, clock: Clock, s: Settings, start: nat, first: nat,
                     rounds: seq<Round>, lastEmit: nat, lines: seq<Line>, env: Env, stop: bool,
                     tail: seq<ClockEvent>, was: seq<ClockEvent>)
    reads p, a, clock
  {
    && InStep(p, a, env.arrivals, |rounds| + if stop then 1 else 0)
    && Trail(s, start, first, rounds, lastEmit, lines, p.caps, env)
    && WokeAt(first, rounds) <= clock.now
    && clock.history == was + EventsOf(s, first, rounds) + tail
    && if stop then Ends(s, start, env, |rounds| + 1, tail) else tail == []
  }

  lemma Regroup(a: seq<ClockEvent>, b: seq<ClockEvent>, c: seq<ClockEvent>)
    ensures a + b + c == a + (b + c) + []
  {
  }

  /** One iteration, with the rounds kept up to date. */
  method Advance(p: Probes, a: Aggregator, clock: Clock, s: Settings, start: nat, ghost first: nat,
                 ghost rounds: seq<Round>, lastEmit: nat, lines: seq<Line>, env: Env, polls: nat,
                 ghost was: seq<ClockEvent>)
    returns (stop: bool, emitted: nat, more: seq<Line>, ghost after: seq<Round>, ghost tail: seq<ClockEvent>)
    requires At(p, a, clock, s, start, first, rounds, lastEmit, lines, env, false, [], was)
    requires polls == |rounds|
    modifies p, a, clock
    ensures At(p, a, clock, s, start, first, after, emitted, more, env, stop, tail, was)
    ensures if stop then after == rounds else |after| == |rounds| + 1
  {
    ghost var r;
    ghost var woke, asked := clock.now, clock.history;
    assert asked == was + EventsOf(s, first, rounds) + [] == was + EventsOf(s, first, rounds);
    stop, emitted, more, r, tail := Iterate(p, a, clock, s, start, env, polls, lastEmit, lines);
    after := rounds;
    if !stop {
      TrailSnoc(s, start, first, rounds, r, woke, lastEmit, lines, p.caps, env);
      after, tail := rounds + [r], [];
      Regroup(was, EventsOf(s, first, rounds), Readings(r, Prints(s, lastEmit, r)));
    }
  }

  /** The loop proper. */
  method PollUntilDone(p: Probes, a: Aggregator, clock: Clock, s: Settings, start: nat, first: nat,
                       env: Env, ghost stopBy: nat)
    returns (lines: seq<Line>, polls: nat, ghost rounds: seq<Round>, ghost lastEmit: nat, ghost tail: seq<ClockEvent>)
    requires InStep(p, a, env.arrivals, 0) && start <= first <= clock.now
    requires s.duration.None? ==> stopBy > 0 && env.shutdown(stopBy)
    modifies p, a, clock
    ensures At(p, a, clock, s, start, first, rounds, lastEmit, lines, env, true, tail, old(clock.history))
    ensures polls == |rounds| + 1
  {
    var emitted, stop := first, false;
    rounds, tail, lines, polls := [], [], [], 0;
    while !stop
      invariant At(p, a, clock, s, start, first, rounds, emitted, lines, env, stop, tail, old(clock.history))
      invariant polls == |rounds| + if stop then 1 else 0
      decreases Remaining(s, stopBy, polls, stop)
    {
      RemainingShrinks(s, start, first, rounds, env, stopBy);
      stop, emitted, lines, rounds, tail :=
        Advance(p, a, clock, s, start, first, rounds, emitted, lines, env, polls, old(clock.history));
      polls := polls + 1;
      RemainingShrinks(s, start, first, rounds, env, stopBy);
    }
    lastEmit := emitted;
  }

  /** Ends when the duration has passed or on shutdown (`shutdown(n)` is the flag as read
      after poll n); without either it would print forever, so one of them is required. The
      ghost results say which clock readings were made for what. */
  method RunHeadless(p: Probes, a: Aggregator, clock: Clock, s: Settings, env: Env, ghost stopBy: nat)
    returns (lines: seq<Line>, last: Line, start: nat,
             ghost first: nat, ghost rounds: seq<Round>, ghost tail: seq<ClockEvent>)
    requires a.Valid() && p.Now() == Init(p.caps) && a.Ideal() == NO_TABLES
    requires s.duration.None? ==> stopBy > 0 && env.shutdown(stopBy)
    modifies p, a, clock
    // What the clock was asked, in order, is what these rounds ask.
    ensures clock.history == old(clock.history) + [ReadAt(start), ReadAt(first)] + EventsOf(s, first, rounds) +
      tail + [ReadAt(clock.now)]
    ensures start <= first && Timely(s, first, rounds)
    // The loop went on after each round's poll, and ended with the one after them.
    ensures KeptGoing(s, start, env, rounds) && Ends(s, start, env, |rounds| + 1, tail)
    // The lines are those the rounds print, and one final line from the last poll.
    ensures lines == LinesOf(s, start, first, rounds, p.caps, env)
    ensures last == LineAt(p.caps, env, |rounds| + 1, Uptime(start, clock.now), true)
  {
    start := clock.Instant();
    var lastEmit := clock.Instant();
    first := lastEmit;
    assert clock.history == old(clock.history) + [ReadAt(start), ReadAt(first)];
    var polls;
    ghost var emitted;
    lines, polls, rounds, emitted, tail := PollUntilDone(p, a, clock, s, start, lastEmit, env, stopBy);
    last := BuildSummary(a, clock, env.hosts(polls), start, polls, true);
  }

  // ---- what the readings amount to

  function CeilDiv(a: nat, b: nat): nat
    requires b > 0
  {
    (a + b - 1) / b
  }

  /** With a duration, the loop makes at most ceil(duration / 50 ms) + 1 polls and prints
      nothing on the way. */
  lemma PollsWithinDuration(s: Settings, start: nat, first: nat, rounds: seq<Round>,
                            caps: Caps, env: Env)
    requires s.duration.Some?
    requires start <= first && Timely(s, first, rounds) && KeptGoing(s, start, env, rounds)
    ensures |rounds| + 1 <= CeilDiv(s.duration.value, SLEEP) + 1
    ensures LinesOf(s, start, first, rounds, caps, env) == []
  {
    RoundsWithinDuration(s, start, first, rounds, env);
    NothingStreamed(s, start, first, rounds, caps, env);
  }

  lemma {:induction false} NothingStreamed(s: Settings, start: nat, first: nat, rounds: seq<Round>,
                                           caps: Caps, env: Env)
    requires s.duration.Some?
    ensures LinesOf(s, start, first, rounds, caps, env) == []
  {
    if |rounds| > 0 {
      NothingStreamed(s, start, first, rounds[..|rounds| - 1], caps, env);
    }
  }

  /** A poll made when `refresh` has already passed since the last line must print. */
  lemma ElapsedMustPrint(s: Settings, first: nat, rounds: seq<Round>, n: nat)
    requires n < |rounds| && Timely(s, first, rounds) && s.duration.None?
    requires SatSub(WokeAt(first, rounds[..n]), LastEmit(s, first, rounds[..n])) >= s.refresh
    ensures Prints(s, LastEmit(s, first, rounds[..n]), rounds[n])
  {
    TimelyAt(s, first, rounds, n);
  }

  lemma {:induction false} TimelyAt(s: Settings, first: nat, rounds: seq<Round>, n: nat)
    requires n < |rounds| && Timely(s, first, rounds)
    ensures Timely(s, first, rounds[..n + 1]) && WokeAt(first, rounds[..n]) <= rounds[n].checked
    decreases |rounds|
  {
    if n == |rounds| - 1 {
      assert rounds[..n + 1] == rounds;
    } else {
      var front := rounds[..|rounds| - 1];
      TimelyAt(s, first, front, n);
      assert front[..n + 1] == rounds[..n + 1] && front[..n] == rounds[..n];
    }
  }

  ghost predicate HasLine(lines: seq<Line>, poll: nat) {
    exists k :: 0 <= k < |lines| && lines[k].poll == poll
  }

  lemma HasLineConcat(a: seq<Line>, b: seq<Line>, poll: nat)
    ensures HasLine(a + b, poll) <==> HasLine(a, poll) || HasLine(b, poll)
  {
    if k :| 0 <= k < |a| && a[k].poll == poll {
      assert (a + b)[k].poll == poll;
    }
    if k :| 0 <= k < |b| && b[k].poll == poll {
      assert (a + b)[|a| + k].poll == poll;
    }
  }

  /** There is a line for a poll if and only if that poll's reading was due, and each line shows
      exactly the records accepted before its poll. */
  lemma {:induction false} LineIffDue(s: Settings, start: nat, first: nat, rounds: seq<Round>,
                                      caps: Caps, env: Env, poll: nat)
    ensures var lines := LinesOf(s, start, first, rounds, caps, env);
      && (HasLine(lines, poll) <==>
          1 <= poll <= |rounds| && Prints(s, LastEmit(s, first, rounds[..poll - 1]), rounds[poll - 1]))
      && forall l | l in lines :: l == LineAt(caps, env, l.poll, l.uptime, false)
  {
    if |rounds| > 0 {
      var front, r := rounds[..|rounds| - 1], rounds[|rounds| - 1];
      LineIffDue(s, start, first, front, caps, env, poll);
      var now := RoundLines(s, start, LastEmit(s, first, front), r, |rounds|, caps, env);
      HasLineConcat(LinesOf(s, start, first, front, caps, env), now, poll);
      assert HasLine(now, poll) <==> poll == |rounds| && Prints(s, LastEmit(s, first, front), r) by {
        if Prints(s, LastEmit(s, first, front), r) {
          assert now[0].poll == |rounds|;
        }
      }
      if 1 <= poll <= |front| {
        assert front[..poll - 1] == rounds[..poll - 1];
      }
    }
  }

  ghost predicate Spaced(lines: seq<Line>, refresh: nat) {
    forall k | 0 <= k < |lines| :: lines[k].uptime >= Times(k + 1, refresh) / SECOND
  }

  lemma SpacedSnoc(s: Settings, start: nat, lastEmit: nat, r: Round, lines: seq<Line>, line: Line)
    requires Spaced(lines, s.refresh) && lastEmit >= start + Times(|lines|, s.refresh)
    requires Prints(s, lastEmit, r) && lastEmit <= r.checked <= r.shown <= r.emitted
    requires line.uptime == Uptime(start, r.shown)
    ensures Spaced(lines + [line], s.refresh) && r.emitted >= start + Times(|lines| + 1, s.refresh)
  {
    assert Times(|lines| + 1, s.refresh) == Times(|lines|, s.refresh) + s.refresh;
    Seconds(Times(|lines| + 1, s.refresh), SatSub(r.shown, start));
  }

  lemma {:induction false} EmittedBeforeWaking(s: Settings, first: nat, rounds: seq<Round>)
    requires Timely(s, first, rounds)
    ensures LastEmit(s, first, rounds) <= WokeAt(first, rounds)
  {
    if |rounds| > 0 {
      EmittedBeforeWaking(s, first, rounds[..|rounds| - 1]);
    }
  }

  /** Lines spaced by at least `refresh`, the last of them no later than `lastEmit`. */
  ghost predicate SpacedUntil(lines: seq<Line>, refresh: nat, start: nat, lastEmit: nat) {
    Spaced(lines, refresh) && lastEmit >= start + Times(|lines|, refresh)
  }

  lemma SpacedNext(s: Settings, start: nat, lastEmit: nat, woke: nat, r: Round, poll: nat, lines: seq<Line>,
                   caps: Caps, env: Env)
    requires SpacedUntil(lines, s.refresh, start, lastEmit) && lastEmit <= woke && RoundTimely(s, woke, lastEmit, r)
    ensures SpacedUntil(lines + RoundLines(s, start, lastEmit, r, poll, caps, env), s.refresh, start,
                        NextEmit(s, lastEmit, r))
  {
    if Prints(s, lastEmit, r) {
      SpacedSnoc(s, start, lastEmit, r, lines, LineAt(caps, env, poll, Uptime(start, r.shown), false));
    } else {
      assert lines + [] == lines;
    }
  }

  /** The k-th streamed line is at least k intervals old. */
  lemma {:induction false} LinesAreSpaced(s: Settings, start: nat, first: nat, rounds: seq<Round>,
                                          caps: Caps, env: Env)
    requires start <= first && Timely(s, first, rounds)
    ensures SpacedUntil(LinesOf(s, start, first, rounds, caps, env), s.refresh, start, LastEmit(s, first, rounds))
  {
    if |rounds| > 0 {
      var front, r := rounds[..|rounds| - 1], rounds[|rounds| - 1];
      LinesAreSpaced(s, start, first, front, caps, env);
      EmittedBeforeWaking(s, first, front);
      SpacedNext(s, start, LastEmit(s, first, front), WokeAt(first, front), r, |rounds|,
                 LinesOf(s, start, first, front, caps, env), caps, env);
    }
  }

  lemma Seconds(a: nat, b: nat)
    requires a <= b
    ensures a / SECOND <= b / SECOND
  {
  }
}
