/** The CPU half of the monitor: reading per-core tick counters out of the
    lines of `/proc/stat`, and turning two such readings into the ticks that
    elapsed between them.

    A reading is an immutable `CpuInfo`; `Update` is run-info's
    `CPUInfo::update` after the file has been read, and `CalculateDelta` is
    `CPUInfo::calculate_delta` with the `delta` it writes into passed in and
    the filled-in copy returned.
 */
module CpuStat {
  import opened Outcomes
  import opened Unsigned
  import opened Text

  /** Cumulative busy (user + nice + system) and idle ticks of one core,
      or of all cores together. */
  datatype CpuLoad = CpuLoad(busy: u64, idle: u64)

  /** One reading of `/proc/stat`: the per-core loads in file order, the
      number of cores, their total and the running-process count. */
  datatype CpuInfo = CpuInfo(cores: nat, coresLoad: seq<CpuLoad>, totalLoad: CpuLoad, processes: usize)

  // ---------------------------------------------------------------------
  // Sums and well-formed readings
  // ---------------------------------------------------------------------

  /** Busy ticks summed over `loads`, as a mathematical integer. */
  function SumBusy(loads: seq<CpuLoad>): nat {
    if |loads| == 0 then 0 else SumBusy(loads[..|loads| - 1]) + loads[|loads| - 1].busy
  }

  /** Idle ticks summed over `loads`, as a mathematical integer. */
  function SumIdle(loads: seq<CpuLoad>): nat {
    if |loads| == 0 then 0 else SumIdle(loads[..|loads| - 1]) + loads[|loads| - 1].idle
  }

  /** The shape every reading `CPUInfo::update` builds has: one core count per
      per-core entry, and a total that is the element-wise sum. */
  predicate WellFormed(c: CpuInfo) {
    && c.cores == |c.coresLoad|
    && c.totalLoad.busy == SumBusy(c.coresLoad)
    && c.totalLoad.idle == SumIdle(c.coresLoad)
  }

  /** `CPUInfo::new`: no cores, zero totals, zero processes. */
  function New(): (c: CpuInfo)
    ensures WellFormed(c)
    ensures c.coresLoad == [] && c.processes == 0
  {
    CpuInfo(0, [], CpuLoad(0, 0), 0)
  }

  // ---------------------------------------------------------------------
  // Parsing lines
  // ---------------------------------------------------------------------

  /** A per-core row: starts with `cpu` but not with `cpu ` (the aggregate). */
  predicate IsCoreLine(line: string) {
    StartsWith(line, "cpu") && !StartsWith(line, "cpu ")
  }

  /** The `procs_running` row; a per-core row is never taken for one. */
  predicate IsProcsLine(line: string) {
    !IsCoreLine(line) && StartsWith(line, "procs_running")
  }

  /** The classification spelled out character by character: a line is a
      per-core row exactly when its first three characters are `cpu` and a
      fourth character, if any, is not a space. The aggregate row, which
      is `cpu` followed by a space, is never a per-core row. */
  lemma CoreLineClassification(line: string)
    ensures IsCoreLine(line) <==>
      && |line| >= 3 && line[0] == 'c' && line[1] == 'p' && line[2] == 'u'
      && (|line| == 3 || line[3] != ' ')
    ensures IsCoreLine("cpu " + line) == false
  {
    if |line| >= 3 && line[0] == 'c' && line[1] == 'p' && line[2] == 'u' {
      assert line[..3] == "cpu";
      if |line| >= 4 && line[3] == ' ' {
        assert line[..4] == "cpu ";
      }
    }
    assert ("cpu " + line)[..4] == "cpu ";
  }

  /** Token `i` read as a u64, with the two `expect`s of `CPUInfo::update`. */
  function Field(ts: seq<string>, i: nat): (r: Result<u64>)
    ensures r.Ok? <==> i < |ts| && ParseU64(ts[i]).Some?
    ensures r.Ok? ==> r.value == ParseU64(ts[i]).value
  {
    if i >= |ts| then Err(MissingField)
    else match ParseU64(ts[i])
      case Some(v) => Ok(v)
      case None => Err(InvalidNumber)
  }

  /** The tokens of a per-core row that the parser accepts: at least five,
      tokens 1 to 4 numbers, and user + nice + system within 64 bits. */
  predicate CoreTokensValid(ts: seq<string>) {
    && |ts| >= 5
    && ParseU64(ts[1]).Some? && ParseU64(ts[2]).Some?
    && ParseU64(ts[3]).Some? && ParseU64(ts[4]).Some?
    && ParseU64(ts[1]).value + ParseU64(ts[2]).value + ParseU64(ts[3]).value <= U64_MAX
  }

  /** The body of the per-core branch of `CPUInfo::update`, on the
      whitespace-separated tokens of the row. */
  function ParseCoreLine(line: string): Result<CpuLoad> {
    CoreFields(SplitWhitespace(line))
  }

  /** Fields 1, 2 and 3 are added into busy, field 4 is idle. Each field is
      fetched and parsed with an `expect`, and the additions are checked. */
  function CoreFields(ts: seq<string>): Result<CpuLoad> {
    var user :- Field(ts, 1);
    var nice :- Field(ts, 2);
    var busy :- Add(user, nice);
    var system :- Field(ts, 3);
    var busy' :- Add(busy, system);
    var idle :- Field(ts, 4);
    Ok(CpuLoad(busy', idle))
  }

  /** A per-core row is accepted exactly when it has at least five tokens,
      tokens 1 to 4 are numbers and user + nice + system fits in 64 bits;
      then busy is that sum and idle is token 4. Fewer than five tokens
      always panic. */
  lemma ParseCoreLineSpec(line: string)
    ensures var ts := SplitWhitespace(line);
      && (ParseCoreLine(line).Ok? <==> CoreTokensValid(ts))
      && (ParseCoreLine(line).Ok? ==>
            && ParseCoreLine(line).value.busy
               == ParseU64(ts[1]).value + ParseU64(ts[2]).value + ParseU64(ts[3]).value
            && ParseCoreLine(line).value.idle == ParseU64(ts[4]).value)
      && (|ts| < 5 ==> ParseCoreLine(line).Err?)
  {
    CoreFieldsSpec(SplitWhitespace(line));
  }

  lemma CoreFieldsSpec(ts: seq<string>)
    ensures CoreFields(ts).Ok? <==> CoreTokensValid(ts)
    ensures CoreFields(ts).Ok? ==>
      && CoreFields(ts).value.busy
         == ParseU64(ts[1]).value + ParseU64(ts[2]).value + ParseU64(ts[3]).value
      && CoreFields(ts).value.idle == ParseU64(ts[4]).value
    ensures |ts| < 5 ==> CoreFields(ts).Err?
  {
    if CoreTokensValid(ts) {
      var user, nice := ParseU64(ts[1]).value, ParseU64(ts[2]).value;
      var system, idle := ParseU64(ts[3]).value, ParseU64(ts[4]).value;
      assert Add(user, nice) == Ok(user + nice);
      assert Add(user + nice, system) == Ok(user + nice + system);
      assert CoreFields(ts) == Ok(CpuLoad(user + nice + system, idle));
    } else if |ts| < 5 {
      assert Field(ts, 4).Err?;
    }
  }

  /** The `procs_running` branch: the second token, read as a usize. */
  function ParseProcs(line: string): Result<usize> {
    Field(SplitWhitespace(line), 1)
  }

  /** A `procs_running` row is accepted exactly when its second token is a
      number, and yields that number. */
  lemma ParseProcsSpec(line: string)
    ensures var ts := SplitWhitespace(line);
      && (ParseProcs(line).Ok? <==> |ts| >= 2 && ParseU64(ts[1]).Some?)
      && (ParseProcs(line).Ok? ==> ParseProcs(line).value == ParseU64(ts[1]).value)
  {
  }

  /** A per-core row as the kernel writes it (tokens separated by spaces:
      the row name, then the user, nice, system and idle counters in
      decimal, then any further counters) is read back: busy is the sum of
      the first three counters and idle the fourth. */
  lemma ParsePrintedCoreLine(ts: seq<string>, user: u64, nice: u64, system: u64, idle: u64)
    requires |ts| >= 5
    requires IsToken(ts[0]) && forall i :: 5 <= i < |ts| ==> IsToken(ts[i])
    requires ts[1] == NatToString(user) && ts[2] == NatToString(nice)
    requires ts[3] == NatToString(system) && ts[4] == NatToString(idle)
    requires user + nice + system <= U64_MAX
    ensures ParseCoreLine(JoinWords(ts)) == Ok(CpuLoad(user + nice + system, idle))
  {
    PrintedCoreTokens(ts, user, nice, system, idle);
    SplitJoin(ts);
    ParsePrinted(user);
    ParsePrinted(nice);
    ParsePrinted(system);
    ParsePrinted(idle);
    ParseCoreTokens(JoinWords(ts), ts, user, nice, system, idle);
  }

  /** The counters of a printed row are tokens like the rest of it. */
  lemma PrintedCoreTokens(ts: seq<string>, user: nat, nice: nat, system: nat, idle: nat)
    requires |ts| >= 5
    requires IsToken(ts[0]) && forall i :: 5 <= i < |ts| ==> IsToken(ts[i])
    requires ts[1] == NatToString(user) && ts[2] == NatToString(nice)
    requires ts[3] == NatToString(system) && ts[4] == NatToString(idle)
    ensures forall i :: 0 <= i < |ts| ==> IsToken(ts[i])
  {
    NatToStringIsToken(user);
    NatToStringIsToken(nice);
    NatToStringIsToken(system);
    NatToStringIsToken(idle);
  }

  /** `ParseCoreLine` looks only at the tokens of its line. */
  lemma ParseCoreTokens(line: string, ts: seq<string>, user: u64, nice: u64, system: u64, idle: u64)
    requires SplitWhitespace(line) == ts && |ts| >= 5
    requires ParseU64(ts[1]) == Some(user) && ParseU64(ts[2]) == Some(nice)
    requires ParseU64(ts[3]) == Some(system) && ParseU64(ts[4]) == Some(idle)
    requires user + nice + system <= U64_MAX
    ensures ParseCoreLine(line) == Ok(CpuLoad(user + nice + system, idle))
  {
    CoreFieldsSpec(ts);
  }

  // ---------------------------------------------------------------------
  // Well-formed input, and reference views of it
  // ---------------------------------------------------------------------

  /** A line the parser looks at is well formed. */
  predicate LineValid(line: string) {
    && (IsCoreLine(line) ==> ParseCoreLine(line).Ok?)
    && (IsProcsLine(line) ==> ParseProcs(line).Ok?)
  }

  /** Every line the parser looks at is well formed. */
  predicate LinesValid(lines: seq<string>) {
    forall i :: 0 <= i < |lines| ==> LineValid(lines[i])
  }

  /** Validity of a file is validity of all but its last line, and of that. */
  lemma LinesValidSplit(lines: seq<string>)
    requires |lines| > 0
    ensures LinesValid(lines) <==> LinesValid(lines[..|lines| - 1]) && LineValid(lines[|lines| - 1])
  {
    var prefix := lines[..|lines| - 1];
    if LinesValid(prefix) && LineValid(lines[|lines| - 1]) {
      forall i | 0 <= i < |lines| ensures LineValid(lines[i]) {
        if i < |lines| - 1 {
          assert lines[i] == prefix[i];
        }
      }
    }
  }

  /** The per-core rows of `lines`, in order; in a well-formed file each
      of them parses. */
  function CoreRows(lines: seq<string>): (rows: seq<string>)
    ensures LinesValid(lines) ==> forall k :: 0 <= k < |rows| ==> ParseCoreLine(rows[k]).Ok?
  {
    if |lines| == 0 then []
    else
      LinesValidSplit(lines);
      var rows := CoreRows(lines[..|lines| - 1]);
      if IsCoreLine(lines[|lines| - 1]) then rows + [lines[|lines| - 1]] else rows
  }

  /** The `procs_running` rows of `lines`, in order; in a well-formed file
      each of them parses. */
  function ProcsRows(lines: seq<string>): (rows: seq<string>)
    ensures LinesValid(lines) ==> forall k :: 0 <= k < |rows| ==> ParseProcs(rows[k]).Ok?
  {
    if |lines| == 0 then []
    else
      LinesValidSplit(lines);
      var rows := ProcsRows(lines[..|lines| - 1]);
      if IsProcsLine(lines[|lines| - 1]) then rows + [lines[|lines| - 1]] else rows
  }

  /** The loads of a sequence of rows that all parse. */
  function LoadsOf(rows: seq<string>): (loads: seq<CpuLoad>)
    requires forall k :: 0 <= k < |rows| ==> ParseCoreLine(rows[k]).Ok?
    ensures |loads| == |rows|
  {
    if |rows| == 0 then []
    else LoadsOf(rows[..|rows| - 1]) + [ParseCoreLine(rows[|rows| - 1]).value]
  }

  /** One more row adds its load at the end. */
  lemma LoadsOfAppend(rows: seq<string>, row: string)
    requires forall k :: 0 <= k < |rows| ==> ParseCoreLine(rows[k]).Ok?
    requires ParseCoreLine(row).Ok?
    ensures LoadsOf(rows + [row]) == LoadsOf(rows) + [ParseCoreLine(row).value]
  {
    assert (rows + [row])[..|rows|] == rows;
  }

  /** The process count a well-formed file leaves behind: that of its last
      `procs_running` row, or `default` when it has none. */
  function LastProcesses(lines: seq<string>, default: usize): usize
    requires LinesValid(lines)
  {
    var rows := ProcsRows(lines);
    if |rows| == 0 then default else ParseProcs(rows[|rows| - 1]).value
  }

  // ---------------------------------------------------------------------
  // CPUInfo::update
  // ---------------------------------------------------------------------

  /** One pass of the line loop of `CPUInfo::update` over `line`, given
      the loads and process count gathered so far: a per-core row appends
      one load, a `procs_running` row overwrites the process count, and
      anything else is skipped. */
  function ScanLine(acc: (seq<CpuLoad>, usize), line: string): (r: Result<(seq<CpuLoad>, usize)>)
    ensures r.Ok? <==> LineValid(line)
    ensures r.Ok? ==> r.value.0 == acc.0 + (if IsCoreLine(line) then [ParseCoreLine(line).value] else [])
    ensures r.Ok? ==> r.value.1 == (if IsProcsLine(line) then ParseProcs(line).value else acc.1)
  {
    if IsCoreLine(line) then
      var load :- ParseCoreLine(line);
      Ok((acc.0 + [load], acc.1))
    else if StartsWith(line, "procs_running") then
      var p :- ParseProcs(line);
      Ok((acc.0, p))
    else
      Ok(acc)
  }

  /** The line loop of `CPUInfo::update`, starting from the loads and
      process count already in `self`. The first malformed line, in file
      order, panics. */
  function ScanLines(self: CpuInfo, lines: seq<string>): (r: Result<(seq<CpuLoad>, usize)>)
    ensures r.Ok? <==> LinesValid(lines)
  {
    if |lines| == 0 then Ok((self.coresLoad, self.processes))
    else
      LinesValidSplit(lines);
      var acc :- ScanLines(self, lines[..|lines| - 1]);
      ScanLine(acc, lines[|lines| - 1])
  }

  /** One step of the line loop on a per-core row. */
  lemma ScanLinesCoreStep(self: CpuInfo, lines: seq<string>)
    requires |lines| > 0 && LinesValid(lines) && IsCoreLine(lines[|lines| - 1])
    ensures LinesValid(lines[..|lines| - 1])
    ensures ParseCoreLine(lines[|lines| - 1]).Ok?
    ensures ScanLines(self, lines).value.0
            == ScanLines(self, lines[..|lines| - 1]).value.0 + [ParseCoreLine(lines[|lines| - 1]).value]
    ensures CoreRows(lines) == CoreRows(lines[..|lines| - 1]) + [lines[|lines| - 1]]
  {
    LinesValidSplit(lines);
  }

  /** One step of the line loop on any other row. */
  lemma ScanLinesOtherStep(self: CpuInfo, lines: seq<string>)
    requires |lines| > 0 && LinesValid(lines) && !IsCoreLine(lines[|lines| - 1])
    ensures LinesValid(lines[..|lines| - 1])
    ensures ScanLines(self, lines).value.0 == ScanLines(self, lines[..|lines| - 1]).value.0
    ensures CoreRows(lines) == CoreRows(lines[..|lines| - 1])
  {
    LinesValidSplit(lines);
  }

  /** The line loop appends exactly one load per per-core row, in file
      order. */
  lemma {:induction false} ScanLinesLoads(self: CpuInfo, lines: seq<string>)
    requires LinesValid(lines)
    ensures ScanLines(self, lines).Ok?
    ensures ScanLines(self, lines).value.0 == self.coresLoad + LoadsOf(CoreRows(lines))
  {
    if |lines| > 0 {
      var prefix := lines[..|lines| - 1];
      var line := lines[|lines| - 1];
      if IsCoreLine(line) {
        ScanLinesCoreStep(self, lines);
        ScanLinesLoads(self, prefix);
        LoadsOfAppend(CoreRows(prefix), line);
      } else {
        ScanLinesOtherStep(self, lines);
        ScanLinesLoads(self, prefix);
      }
    }
  }

  /** One step of the line loop on a `procs_running` row. */
  lemma ScanLinesProcsStep(self: CpuInfo, lines: seq<string>)
    requires |lines| > 0 && LinesValid(lines) && IsProcsLine(lines[|lines| - 1])
    ensures LinesValid(lines[..|lines| - 1])
    ensures ParseProcs(lines[|lines| - 1]).Ok?
    ensures ScanLines(self, lines).value.1 == ParseProcs(lines[|lines| - 1]).value
    ensures ProcsRows(lines) == ProcsRows(lines[..|lines| - 1]) + [lines[|lines| - 1]]
  {
    LinesValidSplit(lines);
  }

  /** One step of the line loop on any row but a `procs_running` one. */
  lemma ScanLinesNonProcsStep(self: CpuInfo, lines: seq<string>)
    requires |lines| > 0 && LinesValid(lines) && !IsProcsLine(lines[|lines| - 1])
    ensures LinesValid(lines[..|lines| - 1])
    ensures ScanLines(self, lines).value.1 == ScanLines(self, lines[..|lines| - 1]).value.1
    ensures ProcsRows(lines) == ProcsRows(lines[..|lines| - 1])
  {
    LinesValidSplit(lines);
  }

  /** The line loop ends with the value of the last `procs_running` row,
      or with the count it started from when there is none. */
  lemma {:induction false} ScanLinesProcesses(self: CpuInfo, lines: seq<string>)
    requires LinesValid(lines)
    ensures ScanLines(self, lines).Ok?
    ensures ScanLines(self, lines).value.1 == LastProcesses(lines, self.processes)
  {
    if |lines| > 0 {
      var prefix := lines[..|lines| - 1];
      if IsProcsLine(lines[|lines| - 1]) {
        ScanLinesProcsStep(self, lines);
        var rows := ProcsRows(lines);
        assert rows[|rows| - 1] == lines[|lines| - 1];
      } else {
        ScanLinesNonProcsStep(self, lines);
        ScanLinesProcesses(self, prefix);
        assert LastProcesses(lines, self.processes) == LastProcesses(prefix, self.processes);
      }
    }
  }

  /** The summing loop of `CPUInfo::update`: busy and idle totals are
      accumulated core by core in u64, and panic as soon as either leaves
      the range, which happens exactly when its full sum does. */
  function Totals(loads: seq<CpuLoad>): (r: Result<CpuLoad>)
    ensures r.Ok? <==> SumBusy(loads) <= U64_MAX && SumIdle(loads) <= U64_MAX
    ensures r.Ok? ==> r.value.busy == SumBusy(loads) && r.value.idle == SumIdle(loads)
    ensures r.Err? ==> r.panic == Overflow
  {
    if |loads| == 0 then Ok(CpuLoad(0, 0))
    else
      var acc :- Totals(loads[..|loads| - 1]);
      var busy :- Add(acc.busy, loads[|loads| - 1].busy);
      var idle :- Add(acc.idle, loads[|loads| - 1].idle);
      Ok(CpuLoad(busy, idle))
  }

  /** `CPUInfo::update` on the lines of `/proc/stat`. It succeeds exactly
      when every per-core and `procs_running` row is well formed and the
      totals fit in 64 bits. The result is a well-formed reading whose
      loads are those already in `self` followed by one per per-core row,
      and whose process count is that of the last `procs_running` row, or
      the one in `self` when there is none. */
  function Update(self: CpuInfo, lines: seq<string>): (r: Result<CpuInfo>)
    ensures r.Ok? <==>
      && LinesValid(lines)
      && var loads := self.coresLoad + LoadsOf(CoreRows(lines));
         SumBusy(loads) <= U64_MAX && SumIdle(loads) <= U64_MAX
    ensures r.Ok? ==>
      && WellFormed(r.value)
      && r.value.coresLoad == self.coresLoad + LoadsOf(CoreRows(lines))
      && r.value.processes == LastProcesses(lines, self.processes)
    ensures r.Err? && LinesValid(lines) ==> r.panic == Overflow
  {
    var scanned :- ScanLines(self, lines);
    ScanLinesLoads(self, lines);
    ScanLinesProcesses(self, lines);
    var total :- Totals(scanned.0);
    Ok(CpuInfo(|scanned.0|, scanned.0, total, scanned.1))
  }

  // ---------------------------------------------------------------------
  // CPUInfo::calculate_delta
  // ---------------------------------------------------------------------

  /** Neither counter of `a` is below the same counter of `b`. */
  predicate Dominates(a: CpuLoad, b: CpuLoad) {
    a.busy >= b.busy && a.idle >= b.idle
  }

  /** The ticks elapsed from `earlier` to `later`. */
  function Minus(later: CpuLoad, earlier: CpuLoad): CpuLoad
    requires Dominates(later, earlier)
  {
    CpuLoad(later.busy - earlier.busy, later.idle - earlier.idle)
  }

  /** What `calculate_delta` needs for core indices below `n`: both
      readings have an entry, and no counter went backwards. */
  predicate CoresComparable(older: seq<CpuLoad>, newer: seq<CpuLoad>, n: nat) {
    && n <= |older| && n <= |newer|
    && forall i :: 0 <= i < n ==> Dominates(newer[i], older[i])
  }

  /** The per-core differences for core indices below `n`. */
  function Diffs(older: seq<CpuLoad>, newer: seq<CpuLoad>, n: nat): (d: seq<CpuLoad>)
    requires CoresComparable(older, newer, n)
    ensures |d| == n
  {
    if n == 0 then [] else Diffs(older, newer, n - 1) + [Minus(newer[n - 1], older[n - 1])]
  }

  /** Entry `i` of the differences is core `i`'s newer load minus its
      older one. */
  lemma {:induction false} DiffsAt(older: seq<CpuLoad>, newer: seq<CpuLoad>, n: nat)
    requires CoresComparable(older, newer, n)
    ensures forall i :: 0 <= i < n ==> Diffs(older, newer, n)[i] == Minus(newer[i], older[i])
  {
    if n > 0 {
      DiffsAt(older, newer, n - 1);
    }
  }

  /** `Vec::get(i).unwrap()`. */
  function Get(loads: seq<CpuLoad>, i: nat): (r: Result<CpuLoad>)
    ensures r.Ok? <==> i < |loads|
    ensures r.Ok? ==> r.value == loads[i]
  {
    if i < |loads| then Ok(loads[i]) else Err(UnwrapNone)
  }

  /** The core loop of `calculate_delta`, for cores `0 .. n`: each step
      unwraps both entries, subtracts idle then busy, and pushes the
      difference onto `acc`. */
  function CoreDeltas(acc: seq<CpuLoad>, older: seq<CpuLoad>, newer: seq<CpuLoad>, n: nat): (r: Result<seq<CpuLoad>>)
    ensures r.Ok? <==> CoresComparable(older, newer, n)
    ensures r.Ok? ==> r.value == acc + Diffs(older, newer, n)
  {
    if n == 0 then Ok(acc)
    else
      var prev :- CoreDeltas(acc, older, newer, n - 1);
      var newLoad :- Get(newer, n - 1);
      var oldLoad :- Get(older, n - 1);
      var idle :- Sub(newLoad.idle, oldLoad.idle);
      var busy :- Sub(newLoad.busy, oldLoad.busy);
      Ok(prev + [CpuLoad(busy, idle)])
  }

  /** When `calculate_delta` runs to completion: the totals and every
      compared core must not have gone backwards, and both readings must
      have an entry for each of the newer reading's cores. There is no
      clamping and no fresh baseline for a core that was not there before. */
  predicate DeltaDefined(older: CpuInfo, newer: CpuInfo) {
    && Dominates(newer.totalLoad, older.totalLoad)
    && CoresComparable(older.coresLoad, newer.coresLoad, newer.cores)
  }

  /** `CPUInfo::calculate_delta(delta, old, new)`: core count and process
      count come from `newer`, the totals and each of the first `newer.cores`
      cores are `newer - older`, and the per-core differences are appended to
      whatever `delta` already held. */
  function CalculateDelta(delta: CpuInfo, older: CpuInfo, newer: CpuInfo): (r: Result<CpuInfo>)
    ensures r.Ok? <==> DeltaDefined(older, newer)
    ensures r.Ok? ==>
      && r.value.cores == newer.cores
      && r.value.processes == newer.processes
      && r.value.totalLoad == Minus(newer.totalLoad, older.totalLoad)
      && r.value.coresLoad == delta.coresLoad + Diffs(older.coresLoad, newer.coresLoad, newer.cores)
  {
    var busy :- Sub(newer.totalLoad.busy, older.totalLoad.busy);
    var idle :- Sub(newer.totalLoad.idle, older.totalLoad.idle);
    var loads :- CoreDeltas(delta.coresLoad, older.coresLoad, newer.coresLoad, newer.cores);
    Ok(CpuInfo(newer.cores, loads, CpuLoad(busy, idle), newer.processes))
  }

  /** Summing the differences is differencing the sums. */
  lemma {:induction false} SumOfDiffs(older: seq<CpuLoad>, newer: seq<CpuLoad>, n: nat)
    requires CoresComparable(older, newer, n)
    ensures SumBusy(Diffs(older, newer, n)) + SumBusy(older[..n]) == SumBusy(newer[..n])
    ensures SumIdle(Diffs(older, newer, n)) + SumIdle(older[..n]) == SumIdle(newer[..n])
  {
    if n > 0 {
      SumOfDiffs(older, newer, n - 1);
      var prev := Diffs(older, newer, n - 1);
      var last := Minus(newer[n - 1], older[n - 1]);
      var d := prev + [last];
      assert Diffs(older, newer, n) == d;
      var o, w := older[..n], newer[..n];
      assert d[..n - 1] == prev;
      assert o[..n - 1] == older[..n - 1] && o[n - 1] == older[n - 1];
      assert w[..n - 1] == newer[..n - 1] && w[n - 1] == newer[n - 1];
      SumsOfLast(d);
      SumsOfLast(o);
      SumsOfLast(w);
    }
  }

  /** The sums of a non-empty sequence are those of all but its last
      entry, plus that entry. */
  lemma SumsOfLast(loads: seq<CpuLoad>)
    requires |loads| > 0
    ensures SumBusy(loads) == SumBusy(loads[..|loads| - 1]) + loads[|loads| - 1].busy
    ensures SumIdle(loads) == SumIdle(loads[..|loads| - 1]) + loads[|loads| - 1].idle
  {
  }

  /** Two well-formed readings with the same cores give a well-formed
      delta: its total busy and idle ticks are the sums of its per-core
      busy and idle ticks. */
  lemma {:induction false} DeltaIsWellFormed(older: CpuInfo, newer: CpuInfo)
    requires WellFormed(older) && WellFormed(newer)
    requires older.cores == newer.cores
    requires CalculateDelta(New(), older, newer).Ok?
    ensures WellFormed(CalculateDelta(New(), older, newer).value)
  {
    var n := newer.cores;
    var d := CalculateDelta(New(), older, newer).value;
    var diffs := Diffs(older.coresLoad, newer.coresLoad, n);
    assert d.coresLoad == [] + diffs == diffs;
    SumOfDiffs(older.coresLoad, newer.coresLoad, n);
    assert older.coresLoad[..n] == older.coresLoad;
    assert newer.coresLoad[..n] == newer.coresLoad;
    assert d.totalLoad.busy == SumBusy(newer.coresLoad) - SumBusy(older.coresLoad) == SumBusy(diffs);
    assert d.totalLoad.idle == SumIdle(newer.coresLoad) - SumIdle(older.coresLoad) == SumIdle(diffs);
  }

  /** With a core gone, the delta need not be well formed: the older total
      still holds the vanished core's ticks, while the per-core loop covers
      only the cores of the newer reading. Two well-formed readings, the
      older with cores (10, 10) and (1, 1), the newer with one core at
      (30, 30), give a delta whose total is (19, 19) but whose one core
      is (20, 20). */
  lemma VanishedCoreDelta()
    ensures
      var older := CpuInfo(2, [CpuLoad(10, 10), CpuLoad(1, 1)], CpuLoad(11, 11), 0);
      var newer := CpuInfo(1, [CpuLoad(30, 30)], CpuLoad(30, 30), 0);
      && WellFormed(older) && WellFormed(newer)
      && CalculateDelta(New(), older, newer) == Ok(CpuInfo(1, [CpuLoad(20, 20)], CpuLoad(19, 19), 0))
      && !WellFormed(CalculateDelta(New(), older, newer).value)
  {
    var older := CpuInfo(2, [CpuLoad(10, 10), CpuLoad(1, 1)], CpuLoad(11, 11), 0);
    var newer := CpuInfo(1, [CpuLoad(30, 30)], CpuLoad(30, 30), 0);
    SumsOfOne(CpuLoad(30, 30));
    SumsOfOne(CpuLoad(20, 20));
    SumsOfOne(CpuLoad(10, 10));
    assert older.coresLoad[..1] == [CpuLoad(10, 10)];
    assert DeltaDefined(older, newer);
    var d := Diffs(older.coresLoad, newer.coresLoad, 1);
    DiffsAt(older.coresLoad, newer.coresLoad, 1);
    assert d == [CpuLoad(20, 20)];
  }

  lemma SumsOfOne(load: CpuLoad)
    ensures SumBusy([load]) == load.busy && SumIdle([load]) == load.idle
  {
    assert [load][..0] == [];
  }
}
