/** Polls during which tracepoints keep firing: what the tables then reflect. */
module MidPoll {
  import opened Folds
  import opened Tables
  import opened Kernel
  import opened Pipeline

  /** Between two states of one ring: nothing accepted is forgotten or put back. */
  ghost predicate Onward<E>(log: seq<E>, queue: seq<E>, log': seq<E>, queue': seq<E>) {
    log <= log' && |log| - |queue| <= |log'| - |queue'|
  }

  ghost predicate AllOnward(caps: Caps, a: seq<Step>, b: seq<Step>) {
    var k, k' := Run(caps, a).k, Run(caps, b).k;
    && Onward(SysLog(caps, a), k.events, SysLog(caps, b), k'.events)
    && Onward(NetLog(caps, a), k.net, NetLog(caps, b), k'.net)
    && Onward(FileLog(caps, a), k.file, FileLog(caps, b), k'.file)
    && Onward(MemLog(caps, a), k.mem, MemLog(caps, b), k'.mem)
  }

  lemma OneStepOnward(caps: Caps, before: seq<Step>, s: Step)
    ensures AllOnward(caps, before, before + [s])
  {
    RunSnoc(caps, before, s);
    if s.Fire? {
      FireGrowsLogs(caps, before, s.tp, before + [s]);
      OutputsAreAppended(Run(caps, before).k, s.tp);
    } else {
      TakeKeepsLogs(caps, before, s, before + [s]);
    }
  }

  lemma {:induction false} RunOnward(caps: Caps, steps: seq<Step>, more: seq<Step>)
    ensures AllOnward(caps, steps, steps + more)
  {
    if |more| == 0 {
      assert steps + more == steps;
    } else {
      var front, s := more[..|more| - 1], more[|more| - 1];
      RunOnward(caps, steps, front);
      OneStepOnward(caps, steps + front, s);
      assert steps + more == steps + front + [s];
    }
  }

  /** One ring that was empty at some point in between: by now everything from before has been
      taken, and nothing that was not accepted by now. */
  lemma EmptiedReflects<E>(log: seq<E>, queue: seq<E>, mid: seq<E>, left: seq<E>, log': seq<E>, queue': seq<E>)
    requires Onward(log, queue, mid, left) && left == []
    requires Onward(mid, left, log', queue') && |queue'| <= |log'|
    ensures log <= Consumed(log', queue') <= log'
  {
  }

  /** The drains of a poll, with any tracepoints firing in between: in turn, each ring is seen
      empty. */
  ghost predicate IsPoll(caps: Caps, steps: seq<Step>, during: seq<Step>, a: nat, b: nat, c: nat) {
    && a <= b <= c <= |during|
    && Run(caps, steps + during[..a]).k.events == [] && Run(caps, steps + during[..b]).k.net == []
    && Run(caps, steps + during[..c]).k.file == [] && Run(caps, steps + during).k.mem == []
  }

  ghost predicate Reflects<S, E>(table: S, step: (S, E) -> S, empty: S, before: seq<E>, after: seq<E>) {
    before <= after && exists n :: |before| <= n <= |after| && table == Fold(step, empty, after[..n])
  }

  lemma RingReflects(caps: Caps, steps: seq<Step>, during: seq<Step>, m: nat)
    requires m <= |during|
    ensures AllOnward(caps, steps, steps + during[..m]) && AllOnward(caps, steps + during[..m], steps + during)
  {
    RunOnward(caps, steps, during[..m]);
    RunOnward(caps, steps + during[..m], during[m..]);
    assert steps + during[..m] + during[m..] == steps + during;
  }

  lemma TableReflects<S, E>(log: seq<E>, queue: seq<E>, mid: seq<E>, left: seq<E>, log': seq<E>, queue': seq<E>,
                            table: S, step: (S, E) -> S, empty: S)
    requires Onward(log, queue, mid, left) && left == [] && Onward(mid, left, log', queue')
    requires Accounted(log', queue', table, step, empty)
    ensures Reflects(table, step, empty, log, log')
  {
    EmptiedReflects(log, queue, mid, left, log', queue');
    assert Consumed(log', queue') == log'[..|log'| - |queue'|];
  }

  /** After a poll into which tracepoints fired, every table reflects at least the records
      accepted before the poll and at most those accepted by its end, in order. */
  lemma MidPollReflects(caps: Caps, steps: seq<Step>, during: seq<Step>, a: nat, b: nat, c: nat)
    requires IsPoll(caps, steps, during, a, b, c)
    ensures var all, u := steps + during, Run(caps, steps + during).u;
      && Reflects(u.sys, SysStep, NO_SYS, SysLog(caps, steps), SysLog(caps, all))
      && Reflects(u.conns, ConnStep, NO_CONNS, NetLog(caps, steps), NetLog(caps, all))
      && Reflects(u.files, FileStep, NO_FILES, FileLog(caps, steps), FileLog(caps, all))
      && Reflects(u.mem, MemStep, NO_MEM, MemLog(caps, steps), MemLog(caps, all))
  {
    var all := steps + during;
    var k, k', u := Run(caps, steps).k, Run(caps, all).k, Run(caps, all).u;
    TablesAreFolds(caps, all);
    RingReflects(caps, steps, during, a);
    var m := steps + during[..a];
    TableReflects(SysLog(caps, steps), k.events, SysLog(caps, m), Run(caps, m).k.events,
                  SysLog(caps, all), k'.events, u.sys, SysStep, NO_SYS);
    RingReflects(caps, steps, during, b);
    m := steps + during[..b];
    TableReflects(NetLog(caps, steps), k.net, NetLog(caps, m), Run(caps, m).k.net,
                  NetLog(caps, all), k'.net, u.conns, ConnStep, NO_CONNS);
    RingReflects(caps, steps, during, c);
    m := steps + during[..c];
    TableReflects(FileLog(caps, steps), k.file, FileLog(caps, m), Run(caps, m).k.file,
                  FileLog(caps, all), k'.file, u.files, FileStep, NO_FILES);
    RingReflects(caps, steps, during, |during|);
    assert during[..|during|] == during;
    TableReflects(MemLog(caps, steps), k.mem, MemLog(caps, all), k'.mem,
                  MemLog(caps, all), k'.mem, u.mem, MemStep, NO_MEM);
  }
}
