/** What one record does to each table, in plain arithmetic, and what follows for syscall times
    when timestamps come in any order. */
module TableFacts {
  import opened Records
  import opened Folds
  import opened Repeats
  import opened Tables
  import opened Syscalls

  // ---- syscalls

  /** Record `p` is an Enter of this process and number, and the last record of either. */
  ghost predicate OpenSince(log: seq<SyscallEvent>, p: int, pid: nat, nr: nat) {
    && 0 <= p < |log| && log[p].kind == Enter && log[p].pid == pid && log[p].nr == nr
    && forall i | p < i < |log| :: log[i].pid != pid || log[i].nr != nr
  }

  lemma OpenSinceIsLast(log: seq<SyscallEvent>, p: nat, pid: nat, nr: nat)
    requires OpenSince(log, p, pid, nr)
    ensures LastOf(log, (pid, nr)) == p
  {
  }

  lemma StepOf(log: seq<SyscallEvent>, e: SyscallEvent)
    ensures Fold(SysStep, NO_SYS, log + [e]) == SysStep(Fold(SysStep, NO_SYS, log), e)
  {
    FoldPush(SysStep, NO_SYS, log, e);
  }

  /** For every log: an Exit that finds the Enter of its process and number raises the count of
      that number by one, and its time by Exit minus Enter if the Exit is later, by nothing if it
      is not. No other row changes. */
  lemma MatchedExitAdds(log: seq<SyscallEvent>, p: nat, e: SyscallEvent)
    requires e.kind == Exit && OpenSince(log, p, e.pid, e.nr)
    ensures var before, after := Fold(SysStep, NO_SYS, log).stats, Fold(SysStep, NO_SYS, log + [e]).stats;
      && e.nr in after && after[e.nr].count == StatsOf(before, e.nr).count + 1
      && (e.ts <= log[p].ts ==> after[e.nr].totalNs == StatsOf(before, e.nr).totalNs)
      && (e.ts >= log[p].ts ==> after[e.nr].totalNs == StatsOf(before, e.nr).totalNs + (e.ts - log[p].ts))
      && (forall nr | nr != e.nr :: nr in after <==> nr in before)
      && forall nr | nr != e.nr && nr in before :: after[nr] == before[nr]
  {
    StepOf(log, e);
    OpenSinceIsLast(log, p, e.pid, e.nr);
    PendingMeaning(log, (e.pid, e.nr));
  }

  /** An Exit that finds none changes nothing. */
  lemma OrphanedExitAddsNothing(log: seq<SyscallEvent>, e: SyscallEvent)
    requires e.kind == Exit && forall p :: !OpenSince(log, p, e.pid, e.nr)
    ensures Fold(SysStep, NO_SYS, log + [e]) == Fold(SysStep, NO_SYS, log)
  {
    StepOf(log, e);
    PendingMeaning(log, (e.pid, e.nr));
    var p := LastOf(log, (e.pid, e.nr));
    if p >= 0 && log[p].kind == Enter {
      forall i | p < i < |log| ensures log[i].pid != e.pid || log[i].nr != e.nr {
        assert CallOf(log[i]) != (e.pid, e.nr);
      }
      assert OpenSince(log, p, e.pid, e.nr);
    }
  }

  /** An Enter changes no row. */
  lemma EnterAddsNothing(log: seq<SyscallEvent>, e: SyscallEvent)
    requires e.kind == Enter
    ensures Fold(SysStep, NO_SYS, log + [e]).stats == Fold(SysStep, NO_SYS, log).stats
  {
    StepOf(log, e);
  }

  /** Matched Exits that are later than their Enter. */
  ghost function Forward(log: seq<SyscallEvent>, ks: iset<CallKey>): nat {
    if |log| == 0 then 0
    else
      var n := |log| - 1;
      Forward(log[..n], ks) +
      if CallOf(log[n]) in ks && IsMatched(log, n) && log[EnterOf(log, n)].ts < log[n].ts then 1 else 0
  }

  ghost predicate Within(log: seq<SyscallEvent>, ks: iset<CallKey>, lo: nat, hi: nat) {
    lo <= hi && forall i | 0 <= i < |log| && CallOf(log[i]) in ks :: lo <= log[i].ts <= hi
  }

  lemma {:induction false} ForwardBounds(log: seq<SyscallEvent>, ks: iset<CallKey>, lo: nat, hi: nat)
    requires Within(log, ks, lo, hi)
    ensures MatchedNs(log, ks) <= Times(Forward(log, ks), hi - lo)
    ensures Forward(log, ks) <= Matched(log, ks)
  {
    if |log| > 0 {
      var before := log[..|log| - 1];
      forall i | 0 <= i < |before| && CallOf(before[i]) in ks ensures lo <= before[i].ts <= hi {
        assert before[i] == log[i];
      }
      ForwardBounds(before, ks, lo, hi);
      LastForward(log, ks, lo, hi);
      assert Times(Forward(before, ks) + 1, hi - lo) == Times(Forward(before, ks), hi - lo) + (hi - lo);
    }
  }

  /** The last record adds at most the spread, and nothing unless it is a later Exit. */
  lemma LastForward(log: seq<SyscallEvent>, ks: iset<CallKey>, lo: nat, hi: nat)
    requires |log| > 0 && Within(log, ks, lo, hi)
    ensures var n := |log| - 1;
      if Forward(log, ks) == Forward(log[..n], ks)
      then MatchedNs(log, ks) == MatchedNs(log[..n], ks)
      else Forward(log, ks) == Forward(log[..n], ks) + 1 && MatchedNs(log, ks) <= MatchedNs(log[..n], ks) + (hi - lo)
  {
    var n := |log| - 1;
    if CallOf(log[n]) in ks && IsMatched(log, n) {
      assert CallOf(log[EnterOf(log, n)]) == CallOf(log[n]);
    }
  }

  /** For every log, in any order of timestamps: the time of a syscall is at most the number of its
      Exits that are later than their Enter, times the spread of its timestamps; and there are no
      more of those than its count. */
  lemma TotalWithinSpread(log: seq<SyscallEvent>, nr: nat, lo: nat, hi: nat)
    requires lo <= hi && forall i | 0 <= i < |log| && log[i].nr == nr :: lo <= log[i].ts <= hi
    ensures var row := StatsOf(Fold(SysStep, NO_SYS, log).stats, nr);
      row.totalNs <= Forward(log, Number(nr)) * (hi - lo) && Forward(log, Number(nr)) <= row.count
  {
    RowMeaning(log, nr);
    ForwardBounds(log, Number(nr), lo, hi);
    TimesIsProduct(Forward(log, Number(nr)), hi - lo);
  }

  // ---- connections

  /** A record updates the connection with exactly its family, ports and addresses: state 7 in a
      state change takes it off, anything else lists it with the reported state, and only a
      retransmit counts. */
  lemma NetRecordUpdates(t: ConnTable, e: NetEvent)
    ensures var key, after := ConnectionKey(e.family, e.sport, e.dport, e.saddr, e.daddr), ConnStep(t, e);
      && after - {key} == t - {key}
      && (key !in after <==> e.kind == StateChange && e.state == 7)
      && (key in after ==>
            && after[key].state == e.state
            && after[key].retransmits ==
               (if key in t then t[key].retransmits else 0) + (if e.kind == Retransmit then 1 else 0))
  {
  }

  // ---- files

  /** A record updates the row of exactly its process and descriptor. */
  lemma FileRecordUpdates(t: FileTable, e: FileEvent)
    requires 0 <= e.bytes < 0x8000_0000_0000_0000 && e.pathLen <= |e.path| == 64
    ensures var key: FileKey, after := (e.pid, e.fd), FileStep(t, e);
      && after - {key} == t - {key}
      && (e.kind == Open ==>
            key in after && after[key] == FileStats(Known(e.path[..e.pathLen], e.pathLen == 64), 0, 0, false))
      && (e.kind == Close ==> (key in after <==> key in t) && (key in t ==> after[key] == t[key].(closed := true)))
      && (e.kind == Read || e.kind == Write ==>
            var was := if key in t then t[key] else FileStats(Unknown, 0, 0, false);
            && key in after
            && after[key].bytesRead == was.bytesRead + (if e.kind == Read then e.bytes else 0)
            && after[key].bytesWritten == was.bytesWritten + (if e.kind == Write then e.bytes else 0)
            && after[key].path == was.path && after[key].closed == was.closed)
  {
  }

  // ---- what is shown

  /** The 64-bit accumulators show totals modulo 2^64, with the rest unchanged. */
  lemma ShownModulo(t: Tables)
    ensures var s := Wrapped(t);
      && s.sys.pending == t.sys.pending
      && s.sys.stats.Keys == t.sys.stats.Keys && s.conns.Keys == t.conns.Keys && s.files.Keys == t.files.Keys
      && (forall nr | nr in t.sys.stats ::
            && s.sys.stats[nr].count == t.sys.stats[nr].count % 0x1_0000_0000_0000_0000
            && s.sys.stats[nr].totalNs == t.sys.stats[nr].totalNs % 0x1_0000_0000_0000_0000)
      && (forall c | c in t.conns ::
            && s.conns[c].state == t.conns[c].state
            && s.conns[c].retransmits == t.conns[c].retransmits % 0x1_0000_0000_0000_0000)
      && (forall f | f in t.files ::
            && s.files[f].path == t.files[f].path && s.files[f].closed == t.files[f].closed
            && s.files[f].bytesRead == t.files[f].bytesRead % 0x1_0000_0000_0000_0000
            && s.files[f].bytesWritten == t.files[f].bytesWritten % 0x1_0000_0000_0000_0000)
      && s.mem.allocCount == t.mem.allocCount % 0x1_0000_0000_0000_0000
      && s.mem.allocBytes == t.mem.allocBytes % 0x1_0000_0000_0000_0000
      && s.mem.freeCount == t.mem.freeCount % 0x1_0000_0000_0000_0000
  {
    assert Wrapped(t).sys.stats.Keys == t.sys.stats.Keys;
    assert Wrapped(t).conns.Keys == t.conns.Keys;
    assert Wrapped(t).files.Keys == t.files.Keys;
  }

  /** A row without calls shows an average of zero. */
  lemma AverageOfNothing(s: SyscallStats)
    requires s.count == 0
    ensures s.AvgNs() == 0
  {
  }
}
