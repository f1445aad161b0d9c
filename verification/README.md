# run-info, modelled in Dafny

run-info is a terminal monitor for Linux. On every refresh it does four things:

- it reads `/proc/meminfo` and `/proc/stat`;
- it turns the cumulative CPU tick counters into the ticks spent during the last interval, per core and in total;
- it keeps a 51-slot history of the load ratio;
- it draws headers, progress bars and a small load graph as text.

This project models that core as pure functions over immutable values, and proves what each step computes.

| module | file | what it models |
|---|---|---|
| `Outcomes` | `outcomes.dfy` | `Result`/`Option`. A Rust panic (`expect`, `unwrap`, `assert!`, arithmetic overflow) is an `Err(Panic)` outcome. |
| `Unsigned` | `unsigned.dfy` | `u64`/`usize` as bounded integers with checked `+`, `-`, `*`, and the float-to-`usize` cast. |
| `Text` | `text.dfy` | The Rust string primitives the parsers use: `split_whitespace`, `str::len` (UTF-8 bytes), `starts_with`, `parse::<u64>`, decimal printing. |
| `CpuStat` | `cpustat.dfy` | `CPULoad`, `CPUInfo::new`, `update` (after the file is read) and `calculate_delta`. |
| `MemStat` | `memstat.dfy` | `MemInfo::new`, `read_mem` (after the file is read) and `update`. |
| `LoadGraph` | `graph.dfy` | The 51-slot `Graph` queue: `new`, `push`, `height_values`. |
| `PrintUtils` | `printutils.dfy` | The text built by `pad_string`, `print_header`, `print_graph`, `print_progress_bar`, and the ratio from `calc_cpu_load_percentage`. |
| `Monitor` | `monitor.dfy` | One pass of the main loop's data flow: memory update, fresh CPU reading, delta against the previous reading. |

Each operation is modelled as follows:

- A file that run-info reads becomes a parameter: the sequence of its lines.
- A routine that writes to the terminal instead returns the text it would write.
- A routine that mutates `self` instead returns the new value.
- Integer overflow is a panic, as in a debug build. `usize` is 64 bits wide.

`src/reader.rs` is an older copy of the same `MemInfo` and `CPUInfo` code, and `src/main.rs` does not declare it as a module. The same members model it:

| `src/meminfo.rs` / `src/cpuinfo.rs` | `src/reader.rs` |
|---|---|
| meminfo.rs:10-20 (`MemInfo`) | reader.rs:15-25 |
| meminfo.rs:24-36 (`new`) | reader.rs:29-41 |
| meminfo.rs:38-52 (`update`) | reader.rs:43-57 |
| meminfo.rs:55-82 (`read_mem`) | reader.rs:60-87 |
| cpuinfo.rs:10-20 (`CPULoad`, `CPUInfo`) | reader.rs:96-108 |
| cpuinfo.rs:23-30 (`new`) | reader.rs:112-120 |
| cpuinfo.rs:33-86 (`update`) | reader.rs:123-176 |
| cpuinfo.rs:90-105 (`calculate_delta`) | reader.rs:180-197 |

## Model

| member | source | states |
|---|---|---|
| Unsigned.Add | src/cpuinfo.rs:77-78 | `+=` on u64 succeeds exactly when the sum is at most 2^64-1 and then yields the sum; otherwise it panics with an overflow |
| Unsigned.Sub | src/cpuinfo.rs:94-95 | `-` on unsigned values succeeds exactly when the subtrahend is not larger, and the result added back gives the minuend; otherwise it panics with an underflow |
| Unsigned.Mul | src/meminfo.rs:72 | `*=` on u64 succeeds exactly when the product fits and then yields it; otherwise it panics with an overflow |
| Unsigned.AsUsize | src/graph.rs:30 | a float cast to usize is its floor when that is in range |
| Unsigned.Scale | src/graph.rs:30 | a ratio in [0, 1] multiplied by a whole number `m` lies between 0 and `m`, so the cast of `value * max` to usize never saturates |
| Unsigned.ScaleIsProduct | src/graph.rs:30 | the `m`-fold sum that stands for `value * m as f64` is exactly the product |
| Text.SplitWhitespace | src/cpuinfo.rs:42-44 | every piece `split_whitespace` yields is non-empty and holds no whitespace |
| Text.SplitJoin | src/cpuinfo.rs:42-44 | splitting words that were joined by single spaces gives back exactly those words |
| Text.SplitJoinWith | src/meminfo.rs:66 | splitting a line of words padded with any whitespace (before the first word, runs of it between words, after the last) gives back exactly those words |
| Text.ParseU64 | src/cpuinfo.rs:48-55 | `parse::<u64>` accepts exactly an optional `+` followed by one or more ASCII digits whose value fits in 64 bits, and yields that value |
| Text.ParsePrinted | src/cpuinfo.rs:48-55 | parsing the decimal text of any u64, with or without a leading `+`, gives the number back |
| Text.NatToString | src/printutils.rs:72 | `{}` of an unsigned number is a non-empty string of decimal digits |
| Text.NatToStringLength | src/printutils.rs:72 | a number below 10^k prints in at most k digits |
| Text.DigitsValueOfNatToString | src/printutils.rs:72 | the digits printed for `n` denote `n` |
| Text.Utf8LenAppend | src/printutils.rs:126-131 | the byte length `str::len` measures adds up under concatenation |
| CpuStat.New | src/cpuinfo.rs:23-30 | a new reading has no cores, no loads, zero totals and zero processes: it is well formed with an empty load list, which forces the core count and both totals to 0 |
| CpuStat.CoreLineClassification | src/cpuinfo.rs:39 | a line counts as a per-core row exactly when it starts with `cpu` and the fourth character, if present, is not a space, so the aggregate `cpu ` row is never taken |
| CpuStat.ParseCoreLineSpec | src/cpuinfo.rs:41-60 | a per-core row parses exactly when words 1-4 exist and parse as u64 and user+nice+system fits; busy is user+nice+system and idle is word 4; fewer than five words panic |
| CpuStat.ParsePrintedCoreLine | src/cpuinfo.rs:41-60 | a row printed from user, nice, system and idle counters parses back to busy = user+nice+system and idle = idle |
| CpuStat.ParseProcsSpec | src/cpuinfo.rs:62-67 | a `procs_running` row parses exactly when its second word exists and is a number, and yields that number |
| CpuStat.ScanLine | src/cpuinfo.rs:37-68 | one line of the loop succeeds exactly when it is valid; a core row appends its load, a `procs_running` row replaces the process count, and every other line changes nothing |
| CpuStat.ScanLines | src/cpuinfo.rs:37-68 | the loop over all lines succeeds exactly when every core row and every `procs_running` row is well formed |
| CpuStat.ScanLinesLoads | src/cpuinfo.rs:37-61 | after the loop the loads are the previous ones followed by one load per core row, in file order |
| CpuStat.ScanLinesProcesses | src/cpuinfo.rs:62-67 | after the loop the process count is that of the last `procs_running` row, or the previous count when there is none |
| CpuStat.Totals | src/cpuinfo.rs:73-83 | the totals succeed exactly when the busy and idle sums fit in u64, and are those sums; otherwise they panic with an overflow |
| CpuStat.Update | src/cpuinfo.rs:33-86 | `update` succeeds exactly when all rows are well formed and the totals fit; the result has cores = number of loads and totals = their sums, its loads are the old ones followed by the new rows', and its process count comes from the last `procs_running` row |
| CpuStat.Get | src/cpuinfo.rs:98-99 | `get(i).unwrap()` yields element `i` when it exists and panics otherwise |
| CpuStat.CoreDeltas | src/cpuinfo.rs:97-104 | the per-core loop succeeds exactly when both readings have each index below the new core count and no core counter went backwards; it appends the per-core differences to what `delta` held |
| CpuStat.CalculateDelta | src/cpuinfo.rs:90-105 | `calculate_delta` succeeds exactly when no total or compared core counter went backwards and both readings have every core of the newer one; cores and processes come from the newer reading, and totals and cores are newer minus older |
| CpuStat.DiffsAt | src/cpuinfo.rs:97-104 | the difference recorded for core i is core i's newer busy and idle ticks minus its older ones |
| CpuStat.SumOfDiffs | src/cpuinfo.rs:94-104 | the sum of the per-core differences is the difference of the per-core sums |
| CpuStat.DeltaIsWellFormed | src/cpuinfo.rs:90-105 | for two well-formed readings with the same core count, the delta's total busy and idle ticks are the sums over its cores |
| CpuStat.VanishedCoreDelta | src/cpuinfo.rs:90-105 | when a core has vanished, the delta can succeed and still not be well formed: older cores (10,10) and (1,1), newer core (30,30) give total (19,19) but one core of (20,20) |
| MemStat.New | src/meminfo.rs:24-36 | a new record is consistent: used + free + cached = total and swap used + swap free = swap total |
| MemStat.NewIsAllZero | src/meminfo.rs:24-36 | every field of a new record is zero |
| MemStat.ParseMemLineSpec | src/meminfo.rs:62-76 | a line parses unless its second word is not a number or a unit word makes `value * 1024` overflow; the key is the first word (empty for a blank line), and the value is 0 with no second word, the number with exactly two words, and 1024 times it with more |
| MemStat.ParsePrintedMemLine | src/meminfo.rs:62-78 | a line laid out as the kernel pads `/proc/meminfo` (whitespace runs around and between the name, a number `v` and an optional unit) parses back to the name and `v * 1024` with a unit, or `v` without one |
| MemStat.ReadMem | src/meminfo.rs:55-82 | `read_mem` succeeds exactly when every line parses |
| MemStat.ReadMemKeys | src/meminfo.rs:58-79 | the map's keys are exactly the keys of the lines |
| MemStat.ReadMemLastWins | src/meminfo.rs:78 | for each key the map holds the value of the last line with that key |
| MemStat.Lookup | src/meminfo.rs:42-48 | `map.get(key).expect(..)` yields the stored value when the key is present and panics with that key otherwise |
| MemStat.Update | src/meminfo.rs:38-52 | `update` succeeds exactly when the map is read and all five keys are present, free + cached fits and does not exceed total, and swap free does not exceed swap total; the result is consistent, its fields are the map's values, and a missing key is always an error |
| LoadGraph.New | src/graph.rs:13-17 | a new graph has 51 slots, all zero |
| LoadGraph.Push | src/graph.rs:20-25 | after a push the graph still has 51 slots, every slot holds the previous value of the next slot, and the last slot holds the new entry |
| LoadGraph.PushAllWindow | src/graph.rs:19-25 | pushing a sequence of entries leaves the last 51 values of the old contents followed by the entries |
| LoadGraph.History | src/graph.rs:13-25 | from a new graph, after k pushes the window is 51-k zeros then the entries when k <= 51, and the last 51 entries otherwise |
| LoadGraph.HeightValues | src/graph.rs:27-33 | there is one height per slot, and a slot holding a ratio in [0, 1] gets the floor of ratio * max, which is at most max |
| PrintUtils.PadString | src/printutils.rs:126-131 | padding gives a byte length of max(len, size); the input is a prefix, only spaces are added, and a string already long enough is unchanged |
| PrintUtils.PadAscii | src/printutils.rs:126-131 | padding ASCII text gives ASCII text with max(len, size) characters |
| PrintUtils.HeaderWidths | src/printutils.rs:51-52 | the header arithmetic succeeds exactly when name.len() + 2 <= size, and otherwise panics with an underflow; the left and right `=` runs plus the name and two spaces fill `size` exactly, and the left run is equal to the right or one longer |
| PrintUtils.Header | src/printutils.rs:49-67 | the header line is exactly `size` bytes: a run of `=`, a space, the name, a space, and a run of `=` |
| PrintUtils.Glyph | src/printutils.rs:82-90 | in row y a column of height h shows a blank exactly when h < 2y, `.` exactly when h = 2y, and `:` exactly when h > 2y |
| PrintUtils.LabelShape | src/printutils.rs:72-76 | each row label is the percentage `25y` in at most three digits, `%`, blanks up to five bytes, then a vertical bar: six bytes in all |
| PrintUtils.GraphRow | src/printutils.rs:71-91 | a row is the row's label (its first six bytes) followed by one glyph per column |
| PrintUtils.GraphText | src/printutils.rs:71-95 | over any column heights there are five rows, top row first, each 6 bytes of label plus one cell per column, and the cell in row k is the glyph of that column's height for row 4-k |
| PrintUtils.GraphTextLabels | src/printutils.rs:72-78 | each row starts with the label of its percentage |
| PrintUtils.GraphTextStacked | src/printutils.rs:80-90 | a column is a solid stack: below any non-blank cell every cell is `:` |
| PrintUtils.PrintGraph | src/printutils.rs:69-96 | the graph has five rows, top row first, each 6 + 51 wide and starting with its label; the cell for a slot whose ratio is in [0, 1] is the glyph of floor(10 * ratio), and every column is a solid stack |
| PrintUtils.LoadPercentage | src/printutils.rs:144-150 | the ratio is 0 when nothing was busy; otherwise it is busy/(busy+idle), which lies in (0, 1] and is 1 exactly when idle is 0; the addition panics only when busy+idle overflows |
| PrintUtils.ProgressBar | src/printutils.rs:22-39 | the bar succeeds exactly when 0 <= value <= 1 and otherwise fails the assertion; it is `[`, then floor(value * size) `=` (at most `size`), then blanks up to `size` cells, then `]` |
| PrintUtils.ProgressBarWidth | src/printutils.rs:26-38 | a bar of `size` cells is `size + 2` bytes wide |
| Monitor.Start | src/main.rs:88-90 | the first reading is a fresh `CPUInfo` updated once: well formed, with one load per core row |
| Monitor.Tick | src/main.rs:100-121 | a refresh succeeds exactly when memory and CPU update and the delta against the previous reading is defined; the memory record is consistent, the new reading is well formed, and delta totals plus the previous totals give the new totals |
| Monitor.TickDeltaWellFormed | src/main.rs:109-121 | when the core count is unchanged, the delta a refresh hands to the printer has totals equal to the sums over its cores |

## Behaviour worth knowing

- **Counter regression.** When a counter went backwards, the unsigned subtraction in `calculate_delta` panics (src/cpuinfo.rs:94-99). There is no clamping. `CpuStat.DeltaDefined` names the readings for which the delta exists.
- **A core that appears.** The per-core loop unwraps the older reading's entry for every core of the newer one (src/cpuinfo.rs:98-99). A core that did not exist before therefore panics; there is no zero baseline.
- **A core that disappears.** The totals are subtracted first (src/cpuinfo.rs:94-95), and the older total still holds the vanished core's ticks. So the delta panics unless the remaining cores gained at least as many ticks. When it does not panic, the per-core loop covers only the newer reading's cores, and the delta's total is not the sum of its per-core entries. `CpuStat.VanishedCoreDelta` gives two well-formed readings where this happens; it is why `CpuStat.DeltaIsWellFormed` asks for an unchanged core count.
- **Missing `procs_running`.** When there is no `procs_running` row, the process count keeps whatever `self` held, so a fresh reading shows 0. No error is raised.

## Left out

- File reading (`read_file`, src/cpuinfo.rs:108-113 and src/meminfo.rs:85-91) and its `io::Error` path: the file contents are a parameter. An I/O failure in the main loop, which ends the loop, is therefore not modelled.
- Splitting a file into lines (`str::lines`): the model takes the lines directly.
- src/main.rs argument parsing, the loop itself, `thread::sleep` and the error messages it prints: these are I/O and timing. `Monitor.Tick` models one pass of the loop body's data flow.
- src/printer.rs: the dashboard layout is not part of this model.
- `format_float` and `format_gib`: they depend on Rust's float formatting.
- `colorize`, `attribute`, `reset` and `print_highlighted`: terminal escapes only. The modelled print routines return their text without them, which is exactly what is printed when colour is off.
- Float rounding: `f64` values are exact reals, so `busy / (busy + idle)` and `value * size` are exact. A product of a ratio and a whole number is written `Unsigned.Scale`, as repeated addition; `Unsigned.ScaleIsProduct` shows it is the product. Near an integer boundary, `f64` rounding could make the cast one lower or higher.
- Release-build wrap-around: overflow and underflow are modelled as the panics of a debug build.
- The trailing newlines of `print_header` and `print_graph` are not part of the returned text.
- LoadGraph.HeightValues: states heights only for slots that hold a ratio in [0, 1]. Outside that range the saturating cast is modelled but not stated.
- MemStat.Update: a missing required key is stated only as an error, not as the `MissingKey` panic. An overflow or underflow in an earlier field can be reported first.
- Monitor.Tick: does not model the I/O error of a failed file read, which ends the loop instead of aborting; with the file contents as parameters, every `Err` it returns is a panic.
