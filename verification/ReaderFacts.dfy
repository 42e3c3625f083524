/** What the memory readers report for files printed as the kernel prints them. */
module ReaderFacts {
  import opened Wrappers
  import opened Records
  import opened Tables
  import opened Text
  import opened TextFacts
  import opened Sums
  import opened MemStats

  // ---- /proc/<pid>/status

  /** The key, a tab, blanks, the number and its unit. */
  function StatusLine(key: string, pad: nat, n: nat): string {
    key + "\t" + Blanks(pad) + Print(n) + " kB"
  }

  lemma StatusLineWords(key: string, pad: nat, n: nat)
    requires IsToken(key)
    ensures Words(StatusLine(key, pad, n)) == [key, Print(n), "kB"]
  {
    var tail := Print(n) + [' '] + "kB";
    assert StatusLine(key, pad, n) == key + ['\t'] + (Blanks(pad) + tail);
    WordsSplitAtSpace(key, '\t', Blanks(pad) + tail);
    BlanksAreNoWords(pad, tail);
    WordsSplitAtSpace(Print(n), ' ', "kB");
    PrintIsToken(n);
    OneWord(key);
    OneWord(Print(n));
    OneWord("kB");
  }

  /** A printed line counts its number for its own key and nothing for any other. */
  lemma StatusLineCounts(key: string, pad: nat, n: nat, other: string)
    requires IsToken(key) && n < U64
    ensures LineValue(StatusLine(key, pad, n), other) == if other == key then n else 0
  {
    StatusLineWords(key, pad, n);
    ParsePrint(n, U64);
  }

  predicate About(line: string, key: string) {
    |Words(line)| > 0 && Words(line)[0] == key
  }

  /** Line `i` gives `n` for this key, and no other line is about it. */
  ghost predicate GivesOnce(lines: seq<string>, key: string, n: nat, i: nat, pad: nat) {
    && i < |lines| && lines[i] == StatusLine(key, pad, n)
    && forall j | 0 <= j < |lines| && j != i :: !About(lines[j], key)
  }

  lemma {:induction false} NothingAbout(lines: seq<string>, key: string)
    requires forall j | 0 <= j < |lines| :: !About(lines[j], key)
    ensures ValueSum(lines, key) == 0
  {
    if |lines| > 0 {
      NothingAbout(lines[..|lines| - 1], key);
    }
  }

  lemma GivenIsSum(lines: seq<string>, key: string, n: nat, i: nat, pad: nat)
    requires GivesOnce(lines, key, n, i, pad) && IsToken(key) && n < U64
    ensures ValueSum(lines, key) == n
  {
    var a, b := lines[..i], lines[i + 1..];
    assert lines == a + [lines[i]] + b;
    ValueSumConcat(a + [lines[i]], b, key);
    ValueSumConcat(a, [lines[i]], key);
    assert [lines[i]][..0] == [];
    NothingAbout(a, key);
    NothingAbout(b, key);
    StatusLineCounts(key, pad, n, key);
  }

  /** What a status file printed by the kernel says. */
  datatype Status = Status(rss: nat, anon: nat, file: nat, shmem: nat)

  ghost predicate Gives(lines: seq<string>, key: string, n: nat) {
    n < U64 && exists i, pad :: GivesOnce(lines, key, n, i, pad)
  }

  /** Among any other lines, in any order. */
  ghost predicate Prints(lines: seq<string>, s: Status) {
    && (forall l | l in lines :: IsLine(l))
    && Gives(lines, "VmRSS:", s.rss) && Gives(lines, "RssAnon:", s.anon)
    && Gives(lines, "RssFile:", s.file) && Gives(lines, "RssShmem:", s.shmem)
  }

  lemma GivesSum(lines: seq<string>, key: string, n: nat)
    requires Gives(lines, key, n) && IsToken(key)
    ensures ValueSum(lines, key) == n
  {
    var i, pad :| GivesOnce(lines, key, n, i, pad);
    GivenIsSum(lines, key, n, i, pad);
  }

  lemma KeysAreTokens()
    ensures IsToken("VmRSS:") && IsToken("RssAnon:") && IsToken("RssFile:") && IsToken("RssShmem:")
  {
  }

  lemma SumOfOne(pid: nat, f: nat -> nat)
    ensures SumOver([pid], f) == f(pid)
  {
    SumOverOne([], pid, f);
    assert [] + [pid] == [pid];
  }

  lemma OneBytes(read: nat -> Option<string>, pid: nat, lines: seq<string>, key: string, n: nat)
    requires read(pid) == Some(Unlines(lines)) && (forall l | l in lines :: IsLine(l))
    requires Gives(lines, key, n) && IsToken(key)
    ensures Bytes(read, [pid], key) == 1024 * n % 0x1_0000_0000_0000_0000
  {
    LinesOfUnlines(lines);
    GivesSum(lines, key, n);
    SumOfOne(pid, Kilobytes(read, key));
  }

  /** A process whose status file says so is reported with 1024 times each figure, in its own
      place, modulo 2^64. */
  lemma StatusIsReported(read: nat -> Option<string>, pid: nat, lines: seq<string>, s: Status)
    requires read(pid) == Some(Unlines(lines)) && Prints(lines, s)
    ensures ProcessesOf(read, [pid]).Some?
    ensures var r := ProcessesOf(read, [pid]).value;
      && r.rss == 1024 * s.rss % 0x1_0000_0000_0000_0000 && r.anon == 1024 * s.anon % 0x1_0000_0000_0000_0000
      && r.file == 1024 * s.file % 0x1_0000_0000_0000_0000 && r.shmem == 1024 * s.shmem % 0x1_0000_0000_0000_0000
      && r.processes == 1
  {
    KeysAreTokens();
    OneBytes(read, pid, lines, "VmRSS:", s.rss);
    OneBytes(read, pid, lines, "RssAnon:", s.anon);
    OneBytes(read, pid, lines, "RssFile:", s.file);
    OneBytes(read, pid, lines, "RssShmem:", s.shmem);
    SumOfOne(pid, Alive(read));
    assert read([pid][0]).Some?;
  }

  // ---- the cgroup controller's files

  /** A line of `memory.stat`. */
  function StatLine(key: string, n: nat): string {
    key + " " + Print(n)
  }

  lemma StatLineWords(key: string, n: nat)
    requires IsToken(key)
    ensures Words(StatLine(key, n)) == [key, Print(n)]
  {
    assert StatLine(key, n) == key + [' '] + Print(n);
    WordsSplitAtSpace(key, ' ', Print(n));
    PrintIsToken(n);
    OneWord(key);
    OneWord(Print(n));
  }

  ghost predicate LastAbout(lines: seq<string>, key: string, n: nat, i: nat) {
    && i < |lines| && lines[i] == StatLine(key, n)
    && forall j | i < j < |lines| :: !About(lines[j], key)
  }

  /** Some line gives `n` for this key, and no later line is about it. */
  ghost predicate GivesLast(lines: seq<string>, key: string, n: nat) {
    n < U64 && exists i :: LastAbout(lines, key, n, i)
  }

  lemma {:induction false} GivenIsLast(lines: seq<string>, key: string, n: nat, i: nat)
    requires LastAbout(lines, key, n, i) && n < U64 && IsToken(key)
    ensures LastValue(lines, key) == n
  {
    if i == |lines| - 1 {
      StatLineWords(key, n);
      ParsePrint(n, U64);
    } else {
      assert LastAbout(lines[..|lines| - 1], key, n, i);
      GivenIsLast(lines[..|lines| - 1], key, n, i);
      assert !About(lines[|lines| - 1], key);
    }
  }

  lemma GivesLastValue(lines: seq<string>, key: string, n: nat)
    requires GivesLast(lines, key, n) && IsToken(key)
    ensures LastValue(lines, key) == n
  {
    var i :| LastAbout(lines, key, n, i);
    GivenIsLast(lines, key, n, i);
  }

  /** What the controller's two files printed by the kernel say. */
  ghost predicate PrintsCgroup(current: string, lines: seq<string>, r: CgroupReport) {
    && r.current < U64 && current == Print(r.current) + "\n"
    && (forall l | l in lines :: IsLine(l))
    && GivesLast(lines, "anon", r.anon) && GivesLast(lines, "file", r.file)
    && GivesLast(lines, "active_anon", r.activeAnon) && GivesLast(lines, "inactive_anon", r.inactiveAnon)
  }

  lemma CurrentIsRead(n: nat)
    requires n < U64
    ensures ParseUint(Trim(Print(n) + "\n"), U64) == Some(n)
  {
    PrintIsToken(n);
    TrimStrips("", Print(n), "\n");
    assert "" + Print(n) + "\n" == Print(n) + "\n";
    ParsePrint(n, U64);
  }

  lemma StatKeysAreTokens()
    ensures IsToken("anon") && IsToken("file") && IsToken("active_anon") && IsToken("inactive_anon")
  {
  }

  lemma FiguresFrom(lines: seq<string>, r: CgroupReport)
    requires GivesLast(lines, "anon", r.anon) && GivesLast(lines, "file", r.file)
    requires GivesLast(lines, "active_anon", r.activeAnon) && GivesLast(lines, "inactive_anon", r.inactiveAnon)
    ensures LastValue(lines, "anon") == r.anon && LastValue(lines, "file") == r.file
    ensures LastValue(lines, "active_anon") == r.activeAnon && LastValue(lines, "inactive_anon") == r.inactiveAnon
  {
    StatKeysAreTokens();
    GivesLastValue(lines, "anon", r.anon);
    GivesLastValue(lines, "file", r.file);
    GivesLastValue(lines, "active_anon", r.activeAnon);
    GivesLastValue(lines, "inactive_anon", r.inactiveAnon);
  }

  lemma ReportFrom(current: string, stat: string, n: nat, lines: seq<string>)
    requires ParseUint(Trim(current), U64) == Some(n) && Lines(stat) == lines
    ensures CgroupOf(Some(current), Some(stat)) == Some(CgroupReport(n,
      LastValue(lines, "anon"), LastValue(lines, "file"),
      LastValue(lines, "active_anon"), LastValue(lines, "inactive_anon")))
  {
  }

  /** Each figure comes back in its own place. */
  lemma CgroupIsReported(current: string, lines: seq<string>, r: CgroupReport)
    requires PrintsCgroup(current, lines, r)
    ensures CgroupOf(Some(current), Some(Unlines(lines))) == Some(r)
  {
    CurrentIsRead(r.current);
    LinesOfUnlines(lines);
    ReportFrom(current, Unlines(lines), r.current, lines);
    FiguresFrom(lines, r);
  }

  /** The controller is available exactly when both files can be read and `memory.current`, once
      trimmed, writes a number of 64 bits. */
  lemma CgroupReadsIff(current: Option<string>, stat: Option<string>)
    ensures CgroupOf(current, stat).Some? <==>
      current.Some? && stat.Some? && WritesNumber(Trim(current.value))
  {
    if current.Some? {
      NumberReadsIff(Trim(current.value));
      assert CgroupOf(current, stat).Some? <==> stat.Some? && ParseUint(Trim(current.value), U64).Some?;
    }
  }

  ghost predicate WritesNumber(s: string) {
    exists n: nat :: Writes(s, n) && n < 0x1_0000_0000_0000_0000
  }

  lemma NumberReadsIff(s: string)
    ensures ParseUint(s, U64).Some? <==> WritesNumber(s)
  {
    var parsed := ParseUint(s, U64);
    if parsed.Some? {
      ParsesIff(s, parsed.value, U64);
    }
    if n: nat :| Writes(s, n) && n < U64 {
      ParsesIff(s, n, U64);
    }
  }

  // ---- which reader is used

  /** Where the controller can be read its figures are reported, whatever the processes say. */
  lemma ControllerIsPreferred(h: Host, current: string, lines: seq<string>, procs: Option<string>, r: CgroupReport)
    requires h.target == Cgroup(Some(current), Some(Unlines(lines)), procs) && PrintsCgroup(current, lines, r)
    ensures MemoryOf(h) == Some(FromCgroup(r))
  {
    CgroupIsReported(current, lines, r);
  }

  /** Where it cannot, the sums over exactly the processes listed in `cgroup.procs`; page faults
      are summed over those in any case. */
  lemma FallsBackToProcesses(h: Host, current: Option<string>, stat: Option<string>, pids: seq<nat>)
    requires h.target == Cgroup(current, stat, Some(Unlines(Printed(pids)))) && forall p | p in pids :: p < U32
    ensures CgroupOf(current, stat).None? ==>
      MemoryOf(h) == if NoneReadable(h.status, pids) then None else Some(FromProcesses(Collected(h.status, pids)))
    ensures FaultsIn(h) == if NoneParse(h.stats, pids) then None else Some(FaultsOver(h.stats, pids))
  {
    ProcsRoundTrip(pids);
  }

  /** Without `cgroup.procs` there is nothing to sum over. */
  lemma NoProcsNoSums(h: Host, current: Option<string>, stat: Option<string>)
    requires h.target == Cgroup(current, stat, None)
    ensures CgroupOf(current, stat).None? ==> MemoryOf(h) == None
    ensures FaultsIn(h) == None
  {
  }

  lemma StatIsReported(read: nat -> Option<string>, pid: nat, comm: string, state: char, numbers: seq<nat>)
    requires read(pid) == Some(PrintStat(pid, comm, StatFields(state, numbers)))
    requires IsField([state]) && |numbers| > 8 && numbers[6] < U64 && numbers[8] < U64
    ensures !NoneParse(read, [pid]) && FaultsOver(read, [pid]) == Faults(numbers[6], numbers[8])
  {
    StatRoundTrip(pid, comm, state, numbers);
    assert Parses(read, [pid][0]);
    SumOfOne(pid, MinorOf(read));
    SumOfOne(pid, MajorOf(read));
  }

  /** A single process is reported by its own files, end to end: its status figures and the two
      counters of its stat line. */
  lemma OneProcessReported(h: Host, pid: nat, lines: seq<string>, s: Status,
                           comm: string, state: char, numbers: seq<nat>)
    requires h.target == OnePid(pid)
    requires h.status(pid) == Some(Unlines(lines)) && Prints(lines, s)
    requires h.stats(pid) == Some(PrintStat(pid, comm, StatFields(state, numbers)))
    requires IsField([state]) && |numbers| > 8 && numbers[6] < U64 && numbers[8] < U64
    ensures MemoryOf(h) == Some(FromProcesses(ProcessReport(
      1024 * s.rss % 0x1_0000_0000_0000_0000, 1024 * s.anon % 0x1_0000_0000_0000_0000,
      1024 * s.file % 0x1_0000_0000_0000_0000, 1024 * s.shmem % 0x1_0000_0000_0000_0000, 1)))
    ensures FaultsIn(h) == Some(Faults(numbers[6], numbers[8]))
  {
    StatusIsReported(h.status, pid, lines, s);
    StatIsReported(h.stats, pid, comm, state, numbers);
    assert PidsOf(h.target) == Some([pid]);
  }

  // ---- what counts as a figure

  /** A status line counts for a key exactly when its first word is the key and its second writes a
      64-bit number; then it counts that number. */
  lemma LineCountsIff(line: string, key: string, n: nat)
    ensures var w := Words(line);
      |w| >= 2 && w[0] == key && Writes(w[1], n) && n < 0x1_0000_0000_0000_0000 ==> LineValue(line, key) == n
    ensures var w := Words(line);
      |w| < 2 || w[0] != key || !WritesNumber(w[1]) ==> LineValue(line, key) == 0
  {
    var w := Words(line);
    if |w| >= 2 {
      ParsesIff(w[1], n, U64);
      NumberReadsIff(w[1]);
    }
  }

  /** In `memory.stat` such a line replaces the figure; any other line leaves it. */
  lemma LineReplacesIff(lines: seq<string>, line: string, key: string, n: nat)
    ensures var w := Words(line);
      |w| >= 2 && w[0] == key && Writes(w[1], n) && n < 0x1_0000_0000_0000_0000 ==> LastValue(lines + [line], key) == n
    ensures var w := Words(line);
      |w| < 2 || w[0] != key || !WritesNumber(w[1]) ==> LastValue(lines + [line], key) == LastValue(lines, key)
    ensures LastValue([], key) == 0
  {
    var w := Words(line);
    assert (lines + [line])[..|lines|] == lines;
    if |w| >= 2 {
      ParsesIff(w[1], n, U64);
      NumberReadsIff(w[1]);
    }
  }

  /** In a stat record a counter that writes no 64-bit number counts as zero, and the record still
      counts. */
  lemma CounterOrZero(pid: nat, comm: string, fields: seq<string>, n: nat)
    requires |fields| > 9 && forall i | 0 <= i < |fields| :: IsField(fields[i])
    ensures ParseStat(PrintStat(pid, comm, fields)).Some?
    ensures var r := ParseStat(PrintStat(pid, comm, fields)).value;
      && (Writes(fields[7], n) && n < 0x1_0000_0000_0000_0000 ==> r.minor == n)
      && (Writes(fields[9], n) && n < 0x1_0000_0000_0000_0000 ==> r.major == n)
      && (!WritesNumber(fields[7]) ==> r.minor == 0) && (!WritesNumber(fields[9]) ==> r.major == 0)
  {
    StatFieldsRecovered(pid, comm, fields);
    ParsesIff(fields[7], n, U64);
    ParsesIff(fields[9], n, U64);
    NumberReadsIff(fields[7]);
    NumberReadsIff(fields[9]);
  }

  /** Sums over processes fail exactly when no status file can be read, page faults exactly when no
      stat record parses. */
  lemma SumsFailIff(h: Host, pids: seq<nat>)
    requires PidsOf(h.target) == Some(pids)
    ensures ProcessesOf(h.status, pids).None? <==> forall p | p in pids :: h.status(p).None?
    ensures FaultsIn(h).None? <==> forall p | p in pids :: h.stats(p).None? || ParseStat(h.stats(p).value).None?
  {
    if NoneReadable(h.status, pids) {
      forall p | p in pids ensures h.status(p).None? {
        var i :| 0 <= i < |pids| && pids[i] == p;
      }
    } else {
      var i :| 0 <= i < |pids| && h.status(pids[i]).Some?;
      assert pids[i] in pids;
    }
    if NoneParse(h.stats, pids) {
      forall p | p in pids ensures !Parses(h.stats, p) {
        var i :| 0 <= i < |pids| && pids[i] == p;
      }
    } else {
      var i :| 0 <= i < |pids| && Parses(h.stats, pids[i]);
      assert pids[i] in pids;
    }
  }

  // ---- units

  /** B below 1024 bytes, then KiB, MiB, GiB, and TiB from 2^40 on. */
  lemma UnitInBytes(bytes: nat, unit: nat)
    ensures IsUnitFor(bytes, unit) <==>
      unit == (if bytes < 1024 then 0
               else if bytes < 1_048_576 then 1
               else if bytes < 1_073_741_824 then 2
               else if bytes < 1_099_511_627_776 then 3 else 4)
  {
    assert Pow1024(1) == 1024;
    assert Pow1024(2) == 1_048_576;
    assert Pow1024(3) == 1_073_741_824;
    assert Pow1024(4) == 1_099_511_627_776;
  }
}
