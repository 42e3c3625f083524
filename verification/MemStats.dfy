/** Memory and page-fault figures read from text: what the accumulating loops compute. */
module MemStats {
  import opened Wrappers
  import opened Records
  import opened Tables
  import opened Text
  import opened Sums

  // ---- /proc/<pid>/status

  /** The number on a line whose first word is `key`; 0 for any other line. */
  function LineValue(line: string, key: string): nat {
    var w := Words(line);
    if |w| >= 2 && w[0] == key && ParseUint(w[1], U64).Some? then ParseUint(w[1], U64).value else 0
  }

  function ValueSum(lines: seq<string>, key: string): nat {
    if |lines| == 0 then 0
    else ValueSum(lines[..|lines| - 1], key) + LineValue(lines[|lines| - 1], key)
  }

  function Kilobytes(read: nat -> Option<string>, key: string): nat -> nat {
    (pid: nat) => if read(pid).Some? then ValueSum(Lines(read(pid).value), key) else 0
  }

  function Alive(read: nat -> Option<string>): nat -> nat {
    (pid: nat) => if read(pid).Some? then 1 else 0
  }

  datatype ProcessReport = ProcessReport(rss: nat, anon: nat, file: nat, shmem: nat, processes: nat)

  /** 1024 times the summed figure, as a 64-bit accumulator shows it. */
  ghost function Bytes(read: nat -> Option<string>, pids: seq<nat>, key: string): nat {
    Wrap(1024 * SumOver(pids, Kilobytes(read, key)))
  }

  ghost function Collected(read: nat -> Option<string>, pids: seq<nat>): ProcessReport {
    ProcessReport(Bytes(read, pids, "VmRSS:"), Bytes(read, pids, "RssAnon:"), Bytes(read, pids, "RssFile:"),
                  Bytes(read, pids, "RssShmem:"), SumOver(pids, Alive(read)))
  }

  ghost predicate NoneReadable(read: nat -> Option<string>, pids: seq<nat>) {
    forall i | 0 <= i < |pids| :: read(pids[i]).None?
  }

  ghost function ProcessesOf(read: nat -> Option<string>, pids: seq<nat>): Option<ProcessReport> {
    if NoneReadable(read, pids) then None else Some(Collected(read, pids))
  }

  lemma AddKb(acc: nat, kb: nat, more: nat)
    ensures Wrap(Wrap(acc + 1024 * kb) + Wrap(more * 1024)) == Wrap(acc + 1024 * (kb + more))
  {
  }

  /** An accumulator after these lines of one file. */
  ghost function After(acc: nat, lines: seq<string>, key: string): nat {
    Wrap(acc + 1024 * ValueSum(lines, key))
  }

  lemma AfterLine(acc: nat, lines: seq<string>, line: string, key: string)
    ensures After(acc, lines + [line], key) == Wrap(After(acc, lines, key) + Wrap(LineValue(line, key) * 1024))
    ensures LineValue(line, key) == 0 ==> After(acc, lines + [line], key) == After(acc, lines, key)
  {
    assert (lines + [line])[..|lines|] == lines;
    AddKb(acc, ValueSum(lines, key), LineValue(line, key));
  }

  ghost function StatusAfter(acc: ProcessReport, lines: seq<string>): ProcessReport {
    ProcessReport(After(acc.rss, lines, "VmRSS:"), After(acc.anon, lines, "RssAnon:"),
                  After(acc.file, lines, "RssFile:"), After(acc.shmem, lines, "RssShmem:"), acc.processes)
  }

  /** One line of a status file. */
  method AddLine(line: string, ghost start: ProcessReport, ghost lines: seq<string>, acc: ProcessReport)
    returns (r: ProcessReport)
    requires acc == StatusAfter(start, lines)
    ensures r == StatusAfter(start, lines + [line])
  {
    AfterLine(start.rss, lines, line, "VmRSS:");
    AfterLine(start.anon, lines, line, "RssAnon:");
    AfterLine(start.file, lines, line, "RssFile:");
    AfterLine(start.shmem, lines, line, "RssShmem:");
    r := acc;
    var words := Words(line);
    if |words| < 2 {
      return;
    }
    var kb := ParseUint(words[1], U64);
    if kb.None? {
      return;
    }
    var bytes := Wrap(kb.value * 1024);
    if words[0] == "VmRSS:" {
      r := r.(rss := Wrap(r.rss + bytes));
    } else if words[0] == "RssAnon:" {
      r := r.(anon := Wrap(r.anon + bytes));
    } else if words[0] == "RssFile:" {
      r := r.(file := Wrap(r.file + bytes));
    } else if words[0] == "RssShmem:" {
      r := r.(shmem := Wrap(r.shmem + bytes));
    }
  }

  /** One status file: each accumulator grows by 1024 times that file's figure. */
  method AddStatus(status: string, acc: ProcessReport) returns (r: ProcessReport)
    requires acc.rss < U64 && acc.anon < U64 && acc.file < U64 && acc.shmem < U64
    ensures r == StatusAfter(acc, Lines(status))
  {
    r := acc;
    var lines := Lines(status);
    for i := 0 to |lines|
      invariant r == StatusAfter(acc, lines[..i])
    {
      r := AddLine(lines[i], acc, lines[..i], r);
      assert lines[..i + 1] == lines[..i] + [lines[i]];
    }
    assert lines[..|lines|] == lines;
  }

  lemma ScaledSumStep(pids: seq<nat>, pid: nat, f: nat -> nat)
    ensures Wrap(1024 * SumOver(pids + [pid], f)) == Wrap(Wrap(1024 * SumOver(pids, f)) + 1024 * f(pid))
    ensures f(pid) == 0 ==> SumOver(pids + [pid], f) == SumOver(pids, f)
  {
    SumOverOne(pids, pid, f);
    WrapAdd(1024 * SumOver(pids, f), 1024 * f(pid));
  }

  lemma BytesStep(read: nat -> Option<string>, pids: seq<nat>, pid: nat, key: string)
    ensures Bytes(read, pids + [pid], key) ==
      if read(pid).Some? then After(Bytes(read, pids, key), Lines(read(pid).value), key) else Bytes(read, pids, key)
  {
    ScaledSumStep(pids, pid, Kilobytes(read, key));
  }

  lemma CollectedStep(read: nat -> Option<string>, pids: seq<nat>, pid: nat)
    ensures Collected(read, pids + [pid]) ==
      if read(pid).None? then Collected(read, pids)
      else
        var c := Collected(read, pids);
        StatusAfter(c.(processes := c.processes + 1), Lines(read(pid).value))
  {
    BytesStep(read, pids, pid, "VmRSS:");
    BytesStep(read, pids, pid, "RssAnon:");
    BytesStep(read, pids, pid, "RssFile:");
    BytesStep(read, pids, pid, "RssShmem:");
    assert (pids + [pid])[..|pids|] == pids;
  }

  lemma {:induction false} NoneAlive(read: nat -> Option<string>, pids: seq<nat>)
    ensures SumOver(pids, Alive(read)) == 0 <==> NoneReadable(read, pids)
  {
    if |pids| > 0 {
      var front := pids[..|pids| - 1];
      NoneAlive(read, front);
      assert pids == front + [pids[|pids| - 1]];
    }
  }

  /** The figures over all readable processes; an error iff none is readable. */
  method ReadProcesses(read: nat -> Option<string>, pids: seq<nat>) returns (r: Option<ProcessReport>)
    ensures r == ProcessesOf(read, pids)
  {
    var acc := ProcessReport(0, 0, 0, 0, 0);
    for i := 0 to |pids|
      invariant acc == Collected(read, pids[..i])
    {
      CollectedStep(read, pids[..i], pids[i]);
      assert pids[..i + 1] == pids[..i] + [pids[i]];
      var status := read(pids[i]);
      if status.Some? {
        acc := AddStatus(status.value, acc.(processes := acc.processes + 1));
      }
    }
    assert pids[..|pids|] == pids;
    NoneAlive(read, pids);
    return if acc.processes == 0 then None else Some(acc);
  }

  /** The order in which pids are listed does not matter. */
  lemma ProcessesPermute(read: nat -> Option<string>, a: seq<nat>, b: seq<nat>)
    requires multiset(a) == multiset(b)
    ensures ProcessesOf(read, a) == ProcessesOf(read, b)
  {
    SumOverPermutation(a, b, Kilobytes(read, "VmRSS:"));
    SumOverPermutation(a, b, Kilobytes(read, "RssAnon:"));
    SumOverPermutation(a, b, Kilobytes(read, "RssFile:"));
    SumOverPermutation(a, b, Kilobytes(read, "RssShmem:"));
    SumOverPermutation(a, b, Alive(read));
    forall i | 0 <= i < |a| ensures a[i] in b {
      assert a[i] in multiset(a);
    }
    forall i | 0 <= i < |b| ensures b[i] in a {
      assert b[i] in multiset(b);
    }
  }

  function AddReports(a: ProcessReport, b: ProcessReport): ProcessReport {
    ProcessReport(Wrap(a.rss + b.rss), Wrap(a.anon + b.anon), Wrap(a.file + b.file),
                  Wrap(a.shmem + b.shmem), a.processes + b.processes)
  }

  lemma BytesConcat(read: nat -> Option<string>, a: seq<nat>, b: seq<nat>, key: string)
    ensures Bytes(read, a + b, key) == Wrap(Bytes(read, a, key) + Bytes(read, b, key))
  {
    SumOverConcat(a, b, Kilobytes(read, key));
    var x, y := SumOver(a, Kilobytes(read, key)), SumOver(b, Kilobytes(read, key));
    WrapSum(1024 * x, 1024 * y);
  }

  lemma ResidentConcat(read: nat -> Option<string>, a: seq<nat>, b: seq<nat>)
    ensures var x, y, both := Collected(read, a), Collected(read, b), Collected(read, a + b);
      both.rss == Wrap(x.rss + y.rss) && both.anon == Wrap(x.anon + y.anon)
  {
    BytesConcat(read, a, b, "VmRSS:");
    BytesConcat(read, a, b, "RssAnon:");
  }

  lemma MappedConcat(read: nat -> Option<string>, a: seq<nat>, b: seq<nat>)
    ensures var x, y, both := Collected(read, a), Collected(read, b), Collected(read, a + b);
      both.file == Wrap(x.file + y.file) && both.shmem == Wrap(x.shmem + y.shmem)
  {
    BytesConcat(read, a, b, "RssFile:");
    BytesConcat(read, a, b, "RssShmem:");
  }

  lemma CollectedConcat(read: nat -> Option<string>, a: seq<nat>, b: seq<nat>)
    ensures Collected(read, a + b) == AddReports(Collected(read, a), Collected(read, b))
  {
    ResidentConcat(read, a, b);
    MappedConcat(read, a, b);
    SumOverConcat(a, b, Alive(read));
    FieldByField(Collected(read, a + b), Collected(read, a), Collected(read, b));
  }

  lemma FieldByField(both: ProcessReport, x: ProcessReport, y: ProcessReport)
    requires both.rss == Wrap(x.rss + y.rss) && both.anon == Wrap(x.anon + y.anon)
    requires both.file == Wrap(x.file + y.file) && both.shmem == Wrap(x.shmem + y.shmem)
    requires both.processes == x.processes + y.processes
    ensures both == AddReports(x, y)
  {
  }

  /** Two lists together report the sum of what they report apart. */
  lemma ProcessesAdd(read: nat -> Option<string>, a: seq<nat>, b: seq<nat>)
    requires ProcessesOf(read, a).Some? && ProcessesOf(read, b).Some?
    ensures ProcessesOf(read, a + b) == Some(AddReports(ProcessesOf(read, a).value, ProcessesOf(read, b).value))
  {
    CollectedConcat(read, a, b);
    var i :| 0 <= i < |a| && read(a[i]).Some?;
    assert (a + b)[i] == a[i];
  }

  lemma {:induction false} ValueSumConcat(a: seq<string>, b: seq<string>, key: string)
    ensures ValueSum(a + b, key) == ValueSum(a, key) + ValueSum(b, key)
  {
    if |b| == 0 {
      assert a + b == a;
    } else {
      ValueSumConcat(a, b[..|b| - 1], key);
      assert (a + b)[..|a + b| - 1] == a + b[..|b| - 1];
    }
  }

  /** A line of a status file that is not about `key` changes nothing, wherever it stands. */
  lemma UnrelatedLinesIgnored(a: seq<string>, line: string, b: seq<string>, key: string)
    requires forall l | l in a + [line] + b :: IsLine(l)
    requires |Words(line)| == 0 || Words(line)[0] != key
    ensures ValueSum(Lines(Unlines(a + [line] + b)), key) == ValueSum(Lines(Unlines(a + b)), key)
  {
    forall i | 0 <= i < |a + b| ensures IsLine((a + b)[i]) {
      assert (a + b)[i] in a + [line] + b;
    }
    LinesOfUnlines(a + [line] + b);
    LinesOfUnlines(a + b);
    ValueSumConcat(a, b, key);
    ValueSumConcat(a + [line], b, key);
    ValueSumConcat(a, [line], key);
    assert [line][..0] == [];
  }

  // ---- /proc/<pid>/stat

  datatype Faults = Faults(minor: nat, major: nat)

  function OrZero(v: Option<nat>): nat {
    if v.Some? then v.value else 0
  }

  /** Fields 10 and 12 of a stat line, counted after the last closing parenthesis. */
  function ParseStat(stat: string): Option<Faults> {
    var after := AfterLast(stat, ')');
    if after.None? then None
    else
      var fields := Words(after.value);
      if |fields| <= 9 then None
      else Some(Faults(OrZero(ParseUint(fields[7], U64)), OrZero(ParseUint(fields[9], U64))))
  }

  /** A stat line as the kernel prints it; `fields` starts with the state letter. */
  function PrintStat(pid: nat, comm: string, fields: seq<string>): string {
    Print(pid) + " (" + comm + ")" + Spaced(fields) + "\n"
  }

  predicate IsField(t: string) {
    IsToken(t) && ')' !in t
  }

  lemma {:induction false} NoParenInFields(fields: seq<string>)
    requires forall i | 0 <= i < |fields| :: IsField(fields[i])
    ensures ')' !in Spaced(fields)
  {
    if |fields| > 0 {
      NoParenInFields(fields[1..]);
    }
  }

  /** Whatever the command name contains, spaces and parentheses included, fields 10 and 12 are
      the ones read; a record too short for field 12 is refused. */
  lemma StatFieldsRecovered(pid: nat, comm: string, fields: seq<string>)
    requires forall i | 0 <= i < |fields| :: IsField(fields[i])
    ensures ParseStat(PrintStat(pid, comm, fields)) ==
      if |fields| <= 9 then None
      else Some(Faults(OrZero(ParseUint(fields[7], U64)), OrZero(ParseUint(fields[9], U64))))
  {
    var before, tail := Print(pid) + " (" + comm, Spaced(fields) + "\n";
    NoParenInFields(fields);
    AfterLastFinds(before, ')', tail);
    assert PrintStat(pid, comm, fields) == before + [')'] + tail;
    WordsOfSpaced(fields, "\n");
  }

  /** The state letter followed by decimal numbers. */
  function StatFields(state: char, numbers: seq<nat>): (r: seq<string>)
    ensures |r| == 1 + |numbers|
    ensures forall i | 0 <= i < |numbers| :: r[i + 1] == Print(numbers[i])
  {
    [[state]] + seq(|numbers|, i requires 0 <= i < |numbers| => Print(numbers[i]))
  }

  /** Printed counters come back as the numbers they were. */
  lemma StatRoundTrip(pid: nat, comm: string, state: char, numbers: seq<nat>)
    requires IsField([state]) && |numbers| > 8 && numbers[6] < U64 && numbers[8] < U64
    ensures ParseStat(PrintStat(pid, comm, StatFields(state, numbers))) == Some(Faults(numbers[6], numbers[8]))
  {
    var fields := StatFields(state, numbers);
    forall i | 0 <= i < |fields| ensures IsField(fields[i]) {
      if i > 0 {
        PrintIsToken(numbers[i - 1]);
      }
    }
    StatFieldsRecovered(pid, comm, fields);
    ParsePrint(numbers[6], U64);
    ParsePrint(numbers[8], U64);
  }

  predicate Parses(read: nat -> Option<string>, pid: nat) {
    read(pid).Some? && ParseStat(read(pid).value).Some?
  }

  /** The counters of one process; nothing if its line is missing or malformed. */
  function FaultsOf(read: nat -> Option<string>, pid: nat): Faults {
    if Parses(read, pid) then ParseStat(read(pid).value).value else Faults(0, 0)
  }

  function MinorOf(read: nat -> Option<string>): nat -> nat {
    (pid: nat) => FaultsOf(read, pid).minor
  }

  function MajorOf(read: nat -> Option<string>): nat -> nat {
    (pid: nat) => FaultsOf(read, pid).major
  }

  ghost function FaultsOver(read: nat -> Option<string>, pids: seq<nat>): Faults {
    Faults(Wrap(SumOver(pids, MinorOf(read))), Wrap(SumOver(pids, MajorOf(read))))
  }

  lemma SumStep(pids: seq<nat>, pid: nat, f: nat -> nat, x: nat)
    requires f(pid) == x
    ensures Wrap(SumOver(pids + [pid], f)) == Wrap(Wrap(SumOver(pids, f)) + x)
  {
    SumOverOne(pids, pid, f);
    WrapAdd(SumOver(pids, f), x);
  }

  lemma CountersStep(pids: seq<nat>, pid: nat, f: nat -> nat, g: nat -> nat, x: Faults)
    requires f(pid) == x.minor && g(pid) == x.major
    ensures Faults(Wrap(SumOver(pids + [pid], f)), Wrap(SumOver(pids + [pid], g))) ==
      AddCounters(Faults(Wrap(SumOver(pids, f)), Wrap(SumOver(pids, g))), x)
  {
    SumStep(pids, pid, f, x.minor);
    SumStep(pids, pid, g, x.major);
  }

  lemma FaultsStep(read: nat -> Option<string>, pids: seq<nat>, pid: nat)
    ensures FaultsOver(read, pids + [pid]) == AddCounters(FaultsOver(read, pids), FaultsOf(read, pid))
  {
    CountersStep(pids, pid, MinorOf(read), MajorOf(read), FaultsOf(read, pid));
  }

  lemma FaultsSkip(read: nat -> Option<string>, pids: seq<nat>, pid: nat)
    requires !Parses(read, pid)
    ensures FaultsOver(read, pids + [pid]) == FaultsOver(read, pids)
  {
    SumOverOne(pids, pid, MinorOf(read));
    SumOverOne(pids, pid, MajorOf(read));
  }

  function AddCounters(a: Faults, b: Faults): Faults {
    Faults(Wrap(a.minor + b.minor), Wrap(a.major + b.major))
  }

  ghost predicate NoneParse(read: nat -> Option<string>, pids: seq<nat>) {
    forall i | 0 <= i < |pids| :: !Parses(read, pids[i])
  }

  /** Totals over the pids whose stat line parses; an error iff there is none. */
  method ReadFaults(read: nat -> Option<string>, pids: seq<nat>) returns (r: Option<Faults>)
    ensures r == if NoneParse(read, pids) then None else Some(FaultsOver(read, pids))
  {
    var stats := Faults(0, 0);
    var foundAny := false;
    for i := 0 to |pids|
      invariant stats == FaultsOver(read, pids[..i])
      invariant foundAny == !NoneParse(read, pids[..i])
    {
      assert pids[..i + 1] == pids[..i] + [pids[i]];
      var stat := read(pids[i]);
      var parsed := if stat.Some? then ParseStat(stat.value) else None;
      if parsed.Some? {
        FaultsStep(read, pids[..i], pids[i]);
        stats := AddCounters(stats, parsed.value);
        foundAny := true;
      } else {
        FaultsSkip(read, pids[..i], pids[i]);
      }
    }
    assert pids[..|pids|] == pids;
    return if foundAny then Some(stats) else None;
  }

  // ---- the cgroup controller's files

  datatype CgroupReport = CgroupReport(current: nat, anon: nat, file: nat, activeAnon: nat, inactiveAnon: nat)

  /** The number on the last line for `key` that parses; 0 if there is none. */
  function LastValue(lines: seq<string>, key: string): nat {
    if |lines| == 0 then 0
    else
      var w := Words(lines[|lines| - 1]);
      if |w| >= 2 && w[0] == key && ParseUint(w[1], U64).Some? then ParseUint(w[1], U64).value
      else LastValue(lines[..|lines| - 1], key)
  }

  function CgroupOf(current: Option<string>, stat: Option<string>): Option<CgroupReport> {
    if current.None? || ParseUint(Trim(current.value), U64).None? || stat.None? then None
    else
      var lines := Lines(stat.value);
      Some(CgroupReport(ParseUint(Trim(current.value), U64).value,
                        LastValue(lines, "anon"), LastValue(lines, "file"),
                        LastValue(lines, "active_anon"), LastValue(lines, "inactive_anon")))
  }

  method ReadCgroup(current: Option<string>, stat: Option<string>) returns (r: Option<CgroupReport>)
    ensures r == CgroupOf(current, stat)
  {
    if current.None? {
      return None;
    }
    var currentBytes := ParseUint(Trim(current.value), U64);
    if currentBytes.None? || stat.None? {
      return None;
    }
    var lines := Lines(stat.value);
    var report := CgroupReport(currentBytes.value, 0, 0, 0, 0);
    for i := 0 to |lines|
      invariant report == CgroupReport(currentBytes.value,
        LastValue(lines[..i], "anon"), LastValue(lines[..i], "file"),
        LastValue(lines[..i], "active_anon"), LastValue(lines[..i], "inactive_anon"))
    {
      assert lines[..i + 1][..i] == lines[..i];
      var words := Words(lines[i]);
      if |words| >= 2 {
        var val := ParseUint(words[1], U64);
        if val.Some? {
          if words[0] == "anon" {
            report := report.(anon := val.value);
          } else if words[0] == "file" {
            report := report.(file := val.value);
          } else if words[0] == "active_anon" {
            report := report.(activeAnon := val.value);
          } else if words[0] == "inactive_anon" {
            report := report.(inactiveAnon := val.value);
          }
        }
      }
    }
    assert lines[..|lines|] == lines;
    return Some(report);
  }

  // ---- the readers together

  /** A process, or a cgroup with what its three files hold if they can be read. */
  datatype MemoryTarget =
    | OnePid(pid: nat)
    | Cgroup(current: Option<string>, stat: Option<string>, procs: Option<string>)

  datatype Host = Host(target: MemoryTarget, status: nat -> Option<string>, stats: nat -> Option<string>)

  datatype MemReport = FromCgroup(cgroup: CgroupReport) | FromProcesses(processes: ProcessReport)

  /** The pids of a `cgroup.procs` file; lines that are no 32-bit number are skipped. */
  function PidsIn(lines: seq<string>): seq<nat> {
    if |lines| == 0 then []
    else
      var pid := ParseUint(Trim(lines[0]), U32);
      (if pid.Some? then [pid.value] else []) + PidsIn(lines[1..])
  }

  function Printed(pids: seq<nat>): seq<string> {
    if |pids| == 0 then [] else [Print(pids[0])] + Printed(pids[1..])
  }

  lemma TrimToken(t: string)
    requires IsToken(t)
    ensures Trim(t) == t
  {
  }

  lemma {:induction false} PrintedAreLines(pids: seq<nat>)
    ensures forall l | l in Printed(pids) :: IsLine(l)
  {
    if |pids| > 0 {
      PrintedAreLines(pids[1..]);
      PrintIsToken(pids[0]);
      var s := Print(pids[0]);
      assert forall c | c in s :: !IsSpace(c);
    }
  }

  lemma {:induction false} PidsOfPrinted(pids: seq<nat>)
    requires forall p | p in pids :: p < U32
    ensures PidsIn(Printed(pids)) == pids
  {
    if |pids| > 0 {
      assert pids[0] in pids && forall p | p in pids[1..] :: p in pids;
      PidsOfPrinted(pids[1..]);
      PrintIsToken(pids[0]);
      TrimToken(Print(pids[0]));
      ParsePrint(pids[0], U32);
    }
  }

  /** The pids the kernel prints, one per line, are the pids read back. */
  lemma ProcsRoundTrip(pids: seq<nat>)
    requires forall p | p in pids :: p < U32
    ensures PidsIn(Lines(Unlines(Printed(pids)))) == pids
  {
    PrintedAreLines(pids);
    LinesOfUnlines(Printed(pids));
    PidsOfPrinted(pids);
  }

  function PidsOf(target: MemoryTarget): Option<seq<nat>> {
    match target
    case OnePid(pid) => Some([pid])
    case Cgroup(_, _, procs) => if procs.Some? then Some(PidsIn(Lines(procs.value))) else None
  }

  /** The cgroup controller's figures where it can be read, else the sums over the processes. */
  ghost function MemoryOf(h: Host): Option<MemReport> {
    if h.target.Cgroup? && CgroupOf(h.target.current, h.target.stat).Some? then
      Some(FromCgroup(CgroupOf(h.target.current, h.target.stat).value))
    else if PidsOf(h.target).None? then None
    else
      var r := ProcessesOf(h.status, PidsOf(h.target).value);
      if r.Some? then Some(FromProcesses(r.value)) else None
  }

  ghost function FaultsIn(h: Host): Option<Faults> {
    if PidsOf(h.target).None? || NoneParse(h.stats, PidsOf(h.target).value) then None
    else Some(FaultsOver(h.stats, PidsOf(h.target).value))
  }

  method ReadMemory(h: Host) returns (r: Option<MemReport>)
    ensures r == MemoryOf(h)
  {
    if h.target.Cgroup? {
      var cgroup := ReadCgroup(h.target.current, h.target.stat);
      if cgroup.Some? {
        return Some(FromCgroup(cgroup.value));
      }
    }
    var pids := PidsOf(h.target);
    if pids.None? {
      return None;
    }
    var processes := ReadProcesses(h.status, pids.value);
    return if processes.Some? then Some(FromProcesses(processes.value)) else None;
  }

  method ReadHostFaults(h: Host) returns (r: Option<Faults>)
    ensures r == FaultsIn(h)
  {
    var pids := PidsOf(h.target);
    if pids.None? {
      return None;
    }
    r := ReadFaults(h.stats, pids.value);
  }

  // ---- unit scaling

  const TOP_UNIT := 4

  function Pow1024(k: nat): nat {
    if k == 0 then 1 else Pow1024(k - 1) * 1024
  }

  /** The largest unit not above `bytes`, up to TiB; bytes below one KiB stay in B. */
  ghost predicate IsUnitFor(bytes: nat, unit: nat) {
    && unit <= TOP_UNIT
    && (unit > 0 ==> Pow1024(unit) <= bytes)
    && (unit < TOP_UNIT ==> bytes < Pow1024(unit + 1))
  }

  lemma {:induction false} Pow1024Positive(k: nat)
    ensures Pow1024(k) >= 1
  {
    if k > 0 {
      Pow1024Positive(k - 1);
    }
  }

  lemma SameSign(x: real, p: real)
    requires p >= 1.0
    ensures x >= 0.0 <==> x * p >= 0.0
  {
    if x < 0.0 {
      assert (-x) * p >= -x;
    }
  }

  lemma ScaledAtLeast(value: real, p: real, bytes: real)
    requires p >= 1.0 && value * p == bytes
    ensures value >= 1024.0 <==> bytes >= p * 1024.0
    ensures value >= 1.0 <==> bytes >= p
  {
    assert (value - 1024.0) * p == bytes - p * 1024.0;
    SameSign(value - 1024.0, p);
    assert (value - 1.0) * p == bytes - p;
    SameSign(value - 1.0, p);
  }

  ghost predicate Scaled(bytes: nat, value: real, unit: nat) {
    value * (Pow1024(unit) as real) == bytes as real
  }

  lemma ScaleOnce(bytes: nat, value: real, unit: nat)
    requires Scaled(bytes, value, unit)
    ensures Scaled(bytes, value / 1024.0, unit + 1)
  {
    ScaleStep(value, Pow1024(unit) as real);
  }

  lemma ScaleStep(value: real, p: real)
    ensures (value / 1024.0) * (p * 1024.0) == value * p
  {
  }

  lemma ScaledBounds(bytes: nat, value: real, unit: nat)
    requires Scaled(bytes, value, unit)
    ensures value >= 1024.0 <==> bytes >= Pow1024(unit + 1)
    ensures value >= 1.0 <==> bytes >= Pow1024(unit)
  {
    Pow1024Positive(unit);
    ScaledAtLeast(value, Pow1024(unit) as real, bytes as real);
  }

  /** The scaling loop: nothing is lost, and the unit is the largest that fits. */
  method ScaleBytes(bytes: nat) returns (value: real, unit: nat)
    ensures IsUnitFor(bytes, unit)
    ensures Scaled(bytes, value, unit)
    ensures unit > 0 ==> value >= 1.0
    ensures unit < TOP_UNIT ==> value < 1024.0
  {
    value, unit := bytes as real, 0;
    while value >= 1024.0 && unit < TOP_UNIT
      invariant unit <= TOP_UNIT
      invariant Scaled(bytes, value, unit)
      invariant unit > 0 ==> Pow1024(unit) <= bytes
    {
      ScaledBounds(bytes, value, unit);
      ScaleOnce(bytes, value, unit);
      value := value / 1024.0;
      unit := unit + 1;
    }
    ScaledBounds(bytes, value, unit);
  }

  /** Each byte count has one unit, and more bytes never get a smaller one. */
  lemma UnitsAreMonotone(a: nat, u: nat, b: nat, v: nat)
    requires a <= b && IsUnitFor(a, u) && IsUnitFor(b, v)
    ensures u <= v
    ensures a == b ==> u == v
  {
    if v < u {
      Pow1024Grows(v + 1, u);
      assert false;
    }
    if a == b && u < v {
      Pow1024Grows(u + 1, v);
      assert false;
    }
  }

  lemma {:induction false} Pow1024Grows(i: nat, j: nat)
    requires i <= j
    ensures Pow1024(i) <= Pow1024(j)
  {
    if i < j {
      Pow1024Grows(i, j - 1);
    }
  }
}
