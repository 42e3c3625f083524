/** What the kernel allocation counters mean. */
module Memory {
  import opened Records
  import opened Folds
  import opened Sums
  import opened Tables
  import opened Kernel
  import opened Pipeline

  function IsAlloc(): MemEvent -> nat {
    (e: MemEvent) => if e.kind == Alloc then 1 else 0
  }

  function IsFree(): MemEvent -> nat {
    (e: MemEvent) => if e.kind == Free then 1 else 0
  }

  function AllocBytes(): MemEvent -> nat {
    (e: MemEvent) => if e.kind == Alloc then e.bytes else 0
  }

  ghost function Counted(log: seq<MemEvent>): MemStats {
    MemStats(SumOver(log, IsAlloc()), SumOver(log, AllocBytes()), SumOver(log, IsFree()))
  }

  /** Allocations, their bytes and frees are counted apart, in whatever order they came. */
  lemma {:induction false} MemTableMeaning(log: seq<MemEvent>)
    ensures Fold(MemStep, NO_MEM, log) == Counted(log)
  {
    if |log| > 0 {
      MemTableMeaning(log[..|log| - 1]);
    }
  }

  predicate ConcernsMem(s: Step) {
    s.Fire? && (s.tp.Kmalloc? || s.tp.Kfree?) && s.tp.ctx.target
  }

  function MemEffect(s: Step): seq<MemEvent> {
    if !ConcernsMem(s) then []
    else if s.tp.Kfree? then [MemEvent(s.tp.ctx.tgid, Free, 0, s.tp.ctx.now)]
    else if s.tp.bytes.Some? then [MemEvent(s.tp.ctx.tgid, Alloc, s.tp.bytes.value, s.tp.ctx.now)]
    else []
  }

  /** What the target's own context did to kernel memory, as far as it could be read. */
  ghost function MemMade(steps: seq<Step>): seq<MemEvent> {
    if |steps| == 0 then [] else MemMade(steps[..|steps| - 1]) + MemEffect(steps[|steps| - 1])
  }

  /** The record of this step could be read and was accepted. */
  predicate MemRecorded(k: State, s: Step)
    requires ConcernsMem(s)
  {
    (s.tp.Kmalloc? ==> s.tp.bytes.Some?) && s.tp.ok.mem && |k.mem| < k.caps.mem
  }

  /** Every allocation and free of the target was recorded. */
  ghost predicate NoMemLost(caps: Caps, steps: seq<Step>) {
    forall i | 0 <= i < |steps| && ConcernsMem(steps[i]) :: MemRecorded(Run(caps, steps[..i]).k, steps[i])
  }

  lemma RecordedIsSent(k: State, tp: Tracepoint)
    requires ConcernsMem(Fire(tp)) ==> MemRecorded(k, Fire(tp))
    ensures MemOut(k, tp) == MemEffect(Fire(tp))
  {
    if ConcernsMem(Fire(tp)) {
      assert Handle(k, tp).mem == k.mem + MemEffect(Fire(tp));
    }
  }

  lemma NoMemLostPrefix(caps: Caps, steps: seq<Step>)
    requires NoMemLost(caps, steps) && |steps| > 0
    ensures NoMemLost(caps, steps[..|steps| - 1])
  {
    var before := steps[..|steps| - 1];
    forall i | 0 <= i < |before| && ConcernsMem(before[i]) ensures MemRecorded(Run(caps, before[..i]).k, before[i]) {
      assert before[..i] == steps[..i];
    }
  }

  lemma {:induction false} MemLogIsTruth(caps: Caps, steps: seq<Step>)
    requires NoMemLost(caps, steps)
    ensures MemLog(caps, steps) == MemMade(steps)
  {
    if |steps| > 0 {
      var n := |steps| - 1;
      NoMemLostPrefix(caps, steps);
      MemLogIsTruth(caps, steps[..n]);
      if steps[n].Fire? {
        RecordedIsSent(Run(caps, steps[..n]).k, steps[n].tp);
      }
    }
  }

  /** Without lost records, the settled counters are the target's allocations, the bytes they
      were given and its frees. */
  lemma MemTableIsTruth(caps: Caps, steps: seq<Step>)
    requires NoMemLost(caps, steps)
    ensures Absorb(Run(caps, steps)).mem == Counted(MemMade(steps))
  {
    AbsorbIsFoldOfLogs(caps, steps);
    MemLogIsTruth(caps, steps);
    MemTableMeaning(MemLog(caps, steps));
  }
}
