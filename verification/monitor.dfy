/** One refresh of the monitor's main loop, with the file contents it
    would read passed in: memory is re-read, the previous CPU reading
    becomes the old one, a fresh reading is taken, and the ticks elapsed
    between the two are computed into a fresh delta.
 */
module Monitor {
  import opened Outcomes
  import opened Unsigned
  import CpuStat
  import MemStat

  /** What one refresh hands to the printer, and the reading kept for the
      next refresh. */
  datatype Frame = Frame(mem: MemStat.MemInfo, reading: CpuStat.CpuInfo, delta: CpuStat.CpuInfo)

  /** The reading taken before the loop starts: a fresh `CpuInfo` updated
      once from `/proc/stat`. */
  function Start(statLines: seq<string>): (r: Result<CpuStat.CpuInfo>)
    ensures r.Ok? <==> CpuStat.Update(CpuStat.New(), statLines).Ok?
    ensures r.Ok? ==> CpuStat.WellFormed(r.value)
    ensures r.Ok? ==> r.value.coresLoad == CpuStat.LoadsOf(CpuStat.CoreRows(statLines))
  {
    CpuStat.Update(CpuStat.New(), statLines)
  }

  /** One pass of the loop body. `current` is the reading kept from the
      previous pass; `memLines` and `statLines` are the lines of
      `/proc/meminfo` and `/proc/stat`. Every `Err` is a panic: the one
      error that ends the loop instead, a failed file read, lies outside
      the model. */
  function Tick(current: CpuStat.CpuInfo, memLines: seq<string>, statLines: seq<string>): (r: Result<Frame>)
    ensures r.Ok? <==>
      && MemStat.Update(memLines).Ok?
      && CpuStat.Update(CpuStat.New(), statLines).Ok?
      && CpuStat.DeltaDefined(current, CpuStat.Update(CpuStat.New(), statLines).value)
    ensures r.Ok? ==> MemStat.Consistent(r.value.mem)
    ensures r.Ok? ==>
      && CpuStat.WellFormed(r.value.reading)
      && r.value.reading.coresLoad == CpuStat.LoadsOf(CpuStat.CoreRows(statLines))
    ensures r.Ok? ==>
      && r.value.delta.cores == r.value.reading.cores
      && r.value.delta.totalLoad.busy + current.totalLoad.busy == r.value.reading.totalLoad.busy
      && r.value.delta.totalLoad.idle + current.totalLoad.idle == r.value.reading.totalLoad.idle
  {
    var mem :- MemStat.Update(memLines);
    var latest :- CpuStat.Update(CpuStat.New(), statLines);
    var delta :- CpuStat.CalculateDelta(CpuStat.New(), current, latest);
    Ok(Frame(mem, latest, delta))
  }

  /** When the core count has not changed since the previous reading, the
      delta a refresh prints is itself well formed: its total is the sum
      of its per-core ticks. */
  lemma TickDeltaWellFormed(current: CpuStat.CpuInfo, memLines: seq<string>, statLines: seq<string>)
    requires CpuStat.WellFormed(current)
    requires Tick(current, memLines, statLines).Ok?
    requires current.cores == Tick(current, memLines, statLines).value.reading.cores
    ensures CpuStat.WellFormed(Tick(current, memLines, statLines).value.delta)
  {
    var latest := CpuStat.Update(CpuStat.New(), statLines).value;
    CpuStat.DeltaIsWellFormed(current, latest);
  }
}

