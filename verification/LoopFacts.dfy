/** The headless loop in plain nanoseconds: what a line carries, when one is due, when the loop
    ends and how long it sleeps. */
module LoopFacts {
  import opened Wrappers
  import opened Tables
  import opened Kernel
  import opened Pipeline
  import opened MemStats
  import opened Headless

  /** A line carries its own poll's tables and readings, and the whole seconds since the start. */
  lemma LineSays(caps: Caps, env: Env, poll: nat, start: nat, now: nat, final: bool)
    requires start <= now
    ensures var l := LineAt(caps, env, poll, Uptime(start, now), final);
      && l.poll == poll && l.final == final
      && l.uptime * 1_000_000_000 <= now - start < (l.uptime + 1) * 1_000_000_000
      && l.tables == Wrapped(WorldAt(caps, env.arrivals, poll).u)
      && l.memory == MemoryOf(env.hosts(poll)) && l.faults == FaultsIn(env.hosts(poll))
  {
  }

  /** Each round that goes on sleeps 50 milliseconds or more after its last reading. */
  lemma SleepsLast(s: Settings, first: nat, rounds: seq<Round>, n: nat)
    requires n < |rounds| && Timely(s, first, rounds)
    ensures rounds[n].checked + 50_000_000 <= rounds[n].woke
    ensures Prints(s, LastEmit(s, first, rounds[..n]), rounds[n]) ==> rounds[n].emitted + 50_000_000 <= rounds[n].woke
  {
    TimelyAt(s, first, rounds, n);
    assert rounds[..n + 1][..n] == rounds[..n];
  }

  /** With a duration of d nanoseconds there are fewer than d / 50 ms + 1 rounds that go on. */
  lemma RoundsInPlain(s: Settings, start: nat, first: nat, rounds: seq<Round>, env: Env)
    requires s.duration.Some? && start <= first && Timely(s, first, rounds) && KeptGoing(s, start, env, rounds)
    ensures |rounds| > 0 ==> (|rounds| - 1) * 50_000_000 < s.duration.value
  {
    RoundsWithinDuration(s, start, first, rounds, env);
  }

  /** A poll prints exactly when the loop streams and `refresh` nanoseconds or more have passed,
      by that poll's reading, since the last line. */
  lemma DueInPlain(s: Settings, first: nat, rounds: seq<Round>, n: nat)
    requires n < |rounds| && Timely(s, first, rounds)
    ensures Prints(s, LastEmit(s, first, rounds[..n]), rounds[n]) <==>
      s.duration.None? && rounds[n].checked >= LastEmit(s, first, rounds[..n]) + s.refresh
  {
    TimelyAt(s, first, rounds, n);
    assert rounds[..n + 1][..n] == rounds[..n];
    EmittedBeforeWaking(s, first, rounds[..n]);
  }

  /** The loop goes on while the flag is clear and less than the duration has passed since the
      start; it ends at the first poll where one of the two no longer holds. */
  lemma EndsInPlain(s: Settings, start: nat, first: nat, rounds: seq<Round>, env: Env, tail: seq<ClockEvent>)
    requires start <= first && Timely(s, first, rounds)
    requires KeptGoing(s, start, env, rounds) && Ends(s, start, env, |rounds| + 1, tail)
    ensures forall n | 0 <= n < |rounds| ::
      !env.shutdown(n + 1) && (s.duration.Some? ==> rounds[n].checked < start + s.duration.value)
    ensures env.shutdown(|rounds| + 1) ==> tail == []
    ensures !env.shutdown(|rounds| + 1) ==>
      && s.duration.Some?
      && exists t: nat :: tail == [ReadAt(t)] && (s.duration.value > 0 ==> t >= start + s.duration.value)
  {
    forall n | 0 <= n < |rounds|
      ensures !env.shutdown(n + 1) && (s.duration.Some? ==> rounds[n].checked < start + s.duration.value)
    {
      assert 1 <= n + 1 <= |rounds|;
      TimelyBefore(s, first, rounds, n);
      SleepsAddUp(s, first, rounds[..n]);
      TimelyAt(s, first, rounds, n);
    }
    if !env.shutdown(|rounds| + 1) {
      assert tail == [ReadAt(tail[0].t)];
    }
  }

  lemma TimelyBefore(s: Settings, first: nat, rounds: seq<Round>, n: nat)
    requires n < |rounds| && Timely(s, first, rounds)
    ensures Timely(s, first, rounds[..n])
  {
    TimelyAt(s, first, rounds, n);
    assert rounds[..n + 1][..n] == rounds[..n];
  }
}
