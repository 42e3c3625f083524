/** What the file table means for any log of file records, and what every record that
    reaches userspace looks like. */
module Files {
  import opened Wrappers
  import opened Records
  import opened Folds
  import opened Tables
  import opened Kernel
  import opened Pipeline

  // ---- any log

  ghost function LastOpen(log: seq<FileEvent>, key: FileKey): (p: int)
    ensures -1 <= p < |log|
    ensures p >= 0 ==> FileOf(log[p]) == key && log[p].kind == Open
    ensures forall i | p < i < |log| && FileOf(log[i]) == key :: log[i].kind != Open
  {
    if |log| == 0 then -1
    else if FileOf(log[|log| - 1]) == key && log[|log| - 1].kind == Open then |log| - 1
    else LastOpen(log[..|log| - 1], key)
  }

  predicate IsMove(e: FileEvent) {
    e.kind == Read || e.kind == Write
  }

  ghost function FirstMove(log: seq<FileEvent>, key: FileKey): (p: int)
    ensures -1 <= p < |log|
    ensures p >= 0 ==> FileOf(log[p]) == key && IsMove(log[p])
    ensures forall i | 0 <= i < (if p >= 0 then p else |log|) && FileOf(log[i]) == key :: !IsMove(log[i])
  {
    if |log| == 0 then -1
    else if FirstMove(log[..|log| - 1], key) >= 0 then FirstMove(log[..|log| - 1], key)
    else if FileOf(log[|log| - 1]) == key && IsMove(log[|log| - 1]) then |log| - 1
    else -1
  }

  /** Where the row for this descriptor starts: its last open, else the first transfer. */
  ghost function Birth(log: seq<FileEvent>, key: FileKey): (p: int)
    ensures -1 <= p < |log|
  {
    if LastOpen(log, key) >= 0 then LastOpen(log, key) else FirstMove(log, key)
  }

  /** Bytes of one kind of transfer on this descriptor, from position `from` on. */
  ghost function BytesFrom(log: seq<FileEvent>, key: FileKey, kind: FileKind, from: int): nat {
    if |log| == 0 || |log| <= from then 0
    else
      var n := |log| - 1;
      BytesFrom(log[..n], key, kind, from) +
      if FileOf(log[n]) == key && log[n].kind == kind then AsU64(log[n].bytes) else 0
  }

  ghost predicate ClosedAfter(log: seq<FileEvent>, key: FileKey, p: int) {
    exists i: nat :: p < i < |log| && FileOf(log[i]) == key && log[i].kind == Close
  }

  lemma ClosedAfterSnoc(log: seq<FileEvent>, key: FileKey, p: int)
    requires |log| > 0
    ensures var n := |log| - 1;
      ClosedAfter(log, key, p) <==>
      ClosedAfter(log[..n], key, p) || (p < n && FileOf(log[n]) == key && log[n].kind == Close)
  {
    var n := |log| - 1;
    if ClosedAfter(log[..n], key, p) {
      var i: nat :| p < i < n && FileOf(log[..n][i]) == key && log[..n][i].kind == Close;
      assert FileOf(log[i]) == key && log[i].kind == Close;
    }
    if ClosedAfter(log, key, p) {
      var i: nat :| p < i < |log| && FileOf(log[i]) == key && log[i].kind == Close;
      if i < n {
        assert log[..n][i] == log[i];
      }
    }
  }

  ghost function RowFromBirth(log: seq<FileEvent>, key: FileKey): FileStats
    requires Birth(log, key) >= 0
  {
    var b := Birth(log, key);
    FileStats(
      if log[b].kind == Open then FormatPath(log[b].path, log[b].pathLen) else Unknown,
      BytesFrom(log, key, Read, b), BytesFrom(log, key, Write, b), ClosedAfter(log, key, b))
  }

  lemma BytesAtEnd(log: seq<FileEvent>, key: FileKey, kind: FileKind)
    requires |log| > 0
    ensures BytesFrom(log, key, kind, |log| - 1) ==
      if FileOf(log[|log| - 1]) == key && log[|log| - 1].kind == kind then AsU64(log[|log| - 1].bytes) else 0
  {
    assert BytesFrom(log[..|log| - 1], key, kind, |log| - 1) == 0;
  }

  /** A descriptor is listed iff it was opened or transferred on; its path is that of its
      last open, else unknown; its byte counts are the transfers since its birth; it is shown
      closed iff a close followed that birth. */
  lemma {:induction false} FileTableMeaning(log: seq<FileEvent>, key: FileKey)
    ensures var t := Fold(FileStep, NO_FILES, log);
      && (key in t <==> Birth(log, key) >= 0)
      && (key in t ==> t[key] == RowFromBirth(log, key))
  {
    if |log| > 0 {
      var n := |log| - 1;
      var before, e := log[..n], log[n];
      FileTableMeaning(before, key);
      var b := Birth(log, key);
      ClosedAfterSnoc(log, key, b);
      BytesAtEnd(log, key, Read);
      BytesAtEnd(log, key, Write);
      assert b == n ==> !ClosedAfter(log, key, b);
      assert 0 <= b < n ==> b == Birth(before, key) && log[b] == before[b];
    }
  }

  // ---- every record the kernel sends

  /** The shape the userspace casts rely on. */
  predicate WellShaped(e: FileEvent) {
    && 0 <= e.bytes < 0x8000_0000_0000_0000
    && (e.kind == Open || e.kind == Close ==> e.bytes == 0)
    && (e.kind != Open ==> e.pathLen == 0)
    && e.pathLen <= FILE_PATH_MAX
    && |e.path| == FILE_PATH_MAX
    && -0x8000_0000 <= e.fd < 0x8000_0000
  }

  ghost predicate StashesWellShaped(k: State) {
    && (forall p | p in k.open :: |k.open[p].path| == FILE_PATH_MAX && k.open[p].pathLen <= FILE_PATH_MAX)
    && (forall p | p in k.fd :: -0x8000_0000 <= k.fd[p] < 0x8000_0000)
    && (forall e | e in k.file :: WellShaped(e))
  }

  lemma EnterKeepsShape(k: State, pid: nat, nr: int, arg0: Option<int>, path: Option<UserStr>, ok: Grants)
    requires StashesWellShaped(k)
    ensures StashesWellShaped(FileOnEnter(k, pid, nr, arg0, path, ok))
  {
  }

  lemma ExitKeepsShape(k: State, pid: nat, nr: int, ret: Option<I64>, now: nat, ok: Grants)
    requires StashesWellShaped(k)
    ensures StashesWellShaped(FileOnExit(k, pid, nr, ret, now, ok))
  {
  }

  lemma HandleKeepsShape(k: State, tp: Tracepoint)
    requires StashesWellShaped(k)
    ensures StashesWellShaped(Handle(k, tp))
  {
    match tp
    case SysEnter(c, nr, arg0, path, ok) =>
      if Recorded(k, c, nr, ok) {
        var k1 := k.(events := k.events + [SyscallEvent(c.tgid, Enter, AsU64(nr.value), c.now)]);
        EnterKeepsShape(k1, c.tgid, nr.value, arg0, path, ok);
      }
    case SysExit(c, nr, ret, ok) =>
      if Recorded(k, c, nr, ok) {
        var k1 := k.(events := k.events + [SyscallEvent(c.tgid, Exit, AsU64(nr.value), c.now)]);
        ExitKeepsShape(k1, c.tgid, nr.value, ret, c.now, ok);
      }
    case SockState(_, _, _, _) =>
      var k' := Handle(k, tp);
      assert k'.file == k.file && k'.open == k.open && k'.fd == k.fd;
    case SockRetransmit(_, _, _, _) =>
    case Kmalloc(_, _, _) =>
    case Kfree(_, _) =>
  }

  /** In every run, whatever is dropped or fails: each file record has nonnegative bytes, no
      path unless it is an Open, and a path length within the buffer. */
  lemma {:induction false} EveryFileRecordWellShaped(caps: Caps, steps: seq<Step>)
    ensures StashesWellShaped(Run(caps, steps).k)
    ensures forall e | e in FileLog(caps, steps) :: WellShaped(e)
  {
    if |steps| > 0 {
      var before, s := steps[..|steps| - 1], steps[|steps| - 1];
      EveryFileRecordWellShaped(caps, before);
      var k := Run(caps, before).k;
      if s.Fire? {
        HandleKeepsShape(k, s.tp);
        OutputsAreAppended(k, s.tp);
      }
    }
  }

  ghost function PlainBytesFrom(log: seq<FileEvent>, key: FileKey, kind: FileKind, from: int): int {
    if |log| == 0 || |log| <= from then 0
    else
      var n := |log| - 1;
      PlainBytesFrom(log[..n], key, kind, from) +
      if FileOf(log[n]) == key && log[n].kind == kind then log[n].bytes else 0
  }

  lemma {:induction false} CastsKeepSums(log: seq<FileEvent>, key: FileKey, kind: FileKind, from: int)
    requires forall e | e in log :: WellShaped(e)
    ensures BytesFrom(log, key, kind, from) == PlainBytesFrom(log, key, kind, from)
  {
    if |log| > 0 {
      assert log[|log| - 1] in log;
      CastsKeepSums(log[..|log| - 1], key, kind, from);
    }
  }

  /** So in every run the totals a settled row shows are the plain sums of the signed byte
      counts, casts and all. */
  lemma SettledBytesAreSums(caps: Caps, steps: seq<Step>, key: FileKey)
    requires key in Absorb(Run(caps, steps)).files
    ensures var row, log := Absorb(Run(caps, steps)).files[key], FileLog(caps, steps);
      && Birth(log, key) >= 0
      && row.bytesRead == PlainBytesFrom(log, key, Read, Birth(log, key))
      && row.bytesWritten == PlainBytesFrom(log, key, Write, Birth(log, key))
  {
    var log := FileLog(caps, steps);
    AbsorbIsFoldOfLogs(caps, steps);
    EveryFileRecordWellShaped(caps, steps);
    FileTableMeaning(log, key);
    CastsKeepSums(log, key, Read, Birth(log, key));
    CastsKeepSums(log, key, Write, Birth(log, key));
  }
}
