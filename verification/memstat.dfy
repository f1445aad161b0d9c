/** The memory half of the monitor: `/proc/meminfo` read into a key/value
    map, and the five figures the display needs looked up in it, with
    used memory and used swap derived by subtraction.
 */
module MemStat {
  import opened Outcomes
  import opened Unsigned
  import opened Text

  /** `MemInfo`: the read figures (in bytes once a unit is present) and
      the two derived ones. */
  datatype MemInfo = MemInfo(
    total: u64, free: u64, cached: u64, used: u64,
    swapTotal: u64, swapFree: u64, swapUsed: u64)

  /** How the derived figures relate to the read ones: used memory is what
      is neither free nor cached, used swap is what is not free. */
  predicate Consistent(m: MemInfo) {
    && m.used + m.free + m.cached == m.total
    && m.swapUsed + m.swapFree == m.swapTotal
  }

  /** `MemInfo::new`: consistent, with no memory and no swap, which forces
      every one of the seven figures to zero. */
  function New(): (m: MemInfo)
    ensures Consistent(m)
    ensures m.total == 0 && m.swapTotal == 0
  {
    MemInfo(0, 0, 0, 0, 0, 0, 0)
  }

  lemma NewIsAllZero()
    ensures New() == MemInfo(0, 0, 0, 0, 0, 0, 0)
  {
  }

  // ---------------------------------------------------------------------
  // MemInfo::read_mem
  // ---------------------------------------------------------------------

  /** The key a line is stored under: its first token, or the empty
      string for a blank line. */
  function LineKey(line: string): string {
    TokensKey(SplitWhitespace(line))
  }

  function TokensKey(ts: seq<string>): string {
    if |ts| > 0 then ts[0] else ""
  }

  /** The column loop of `read_mem` for one line, on its tokens. */
  function ParseMemLine(line: string): Result<(string, u64)> {
    MemFields(SplitWhitespace(line))
  }

  /** Token 0 is the name, token 1 is parsed as the value, a token 2 (the
      unit, `kB`) multiplies the value by 1024, and later tokens are
      ignored. A line with fewer than two tokens keeps the initial value 0. */
  function MemFields(ts: seq<string>): Result<(string, u64)> {
    var name := TokensKey(ts);
    if |ts| < 2 then Ok((name, 0))
    else match ParseU64(ts[1])
      case None => Err(InvalidNumber)
      case Some(v) =>
        if |ts| < 3 then Ok((name, v))
        else
          var scaled :- Mul(v, 1024);
          Ok((name, scaled))
  }

  /** A line is accepted unless its second token is not a number, or a
      unit is present and the value times 1024 leaves the 64-bit range.
      Its key is the first token; its value is 0 without a second token,
      the number without a unit, and 1024 times the number with one. */
  lemma ParseMemLineSpec(line: string)
    ensures var ts := SplitWhitespace(line);
      && (ParseMemLine(line).Ok? <==>
            |ts| < 2 || (ParseU64(ts[1]).Some? && (|ts| == 2 || ParseU64(ts[1]).value * 1024 <= U64_MAX)))
      && (ParseMemLine(line).Ok? ==>
            && ParseMemLine(line).value.0 == LineKey(line)
            && ParseMemLine(line).value.1 ==
                 if |ts| < 2 then 0
                 else if |ts| == 2 then ParseU64(ts[1]).value
                 else ParseU64(ts[1]).value * 1024)
  {
    MemFieldsSpec(SplitWhitespace(line));
  }

  lemma MemFieldsSpec(ts: seq<string>)
    ensures MemFields(ts).Ok? <==>
      |ts| < 2 || (ParseU64(ts[1]).Some? && (|ts| == 2 || ParseU64(ts[1]).value * 1024 <= U64_MAX))
    ensures MemFields(ts).Ok? ==>
      && MemFields(ts).value.0 == TokensKey(ts)
      && MemFields(ts).value.1 ==
           if |ts| < 2 then 0
           else if |ts| == 2 then ParseU64(ts[1]).value
           else ParseU64(ts[1]).value * 1024
  {
  }

  /** A line as the kernel writes it: optional leading whitespace, then a
      name, a decimal value and optionally a unit, separated by runs of
      whitespace (`MemTotal:       16318272 kB`). It is stored under the
      name, as the value in bytes when a unit is present and as the bare
      value otherwise. */
  lemma ParsePrintedMemLine(lead: string, ts: seq<string>, seps: seq<string>, v: u64)
    requires IsBlank(lead) && Separators(ts, seps)
    requires |ts| >= 2 && ts[1] == NatToString(v)
    requires IsToken(ts[0]) && forall i :: 2 <= i < |ts| ==> IsToken(ts[i])
    requires |ts| >= 3 ==> v * 1024 <= U64_MAX
    ensures ParseMemLine(lead + JoinWith(ts, seps)) == Ok((ts[0], if |ts| == 2 then v else v * 1024))
  {
    NatToStringIsToken(v);
    SplitJoinWith(lead, ts, seps);
    ParsePrinted(v);
    ParseMemTokens(lead + JoinWith(ts, seps), ts, v);
  }

  /** `ParseMemLine` looks only at the tokens of its line. */
  lemma ParseMemTokens(line: string, ts: seq<string>, v: u64)
    requires SplitWhitespace(line) == ts && |ts| >= 2
    requires ParseU64(ts[1]) == Some(v) && (|ts| >= 3 ==> v * 1024 <= U64_MAX)
    ensures ParseMemLine(line) == Ok((ts[0], if |ts| == 2 then v else v * 1024))
  {
    MemFieldsSpec(ts);
  }

  /** Every line of the file is accepted. */
  predicate MemLinesValid(lines: seq<string>) {
    forall i :: 0 <= i < |lines| ==> ParseMemLine(lines[i]).Ok?
  }

  /** `read_mem` after the file has been read: every line is inserted
      into the map in file order, so a later line overwrites an earlier
      one with the same key. The first malformed line panics. */
  function ReadMem(lines: seq<string>): (r: Result<map<string, u64>>)
    ensures r.Ok? <==> MemLinesValid(lines)
  {
    if |lines| == 0 then Ok(map[])
    else
      var prefix := lines[..|lines| - 1];
      assert MemLinesValid(lines) <==>
        MemLinesValid(prefix) && ParseMemLine(lines[|lines| - 1]).Ok? by {
        if MemLinesValid(prefix) && ParseMemLine(lines[|lines| - 1]).Ok? {
          forall i | 0 <= i < |lines| ensures ParseMemLine(lines[i]).Ok? {
            if i < |lines| - 1 {
              assert lines[i] == prefix[i];
            }
          }
        }
      }
      var m :- ReadMem(prefix);
      var entry :- ParseMemLine(lines[|lines| - 1]);
      Ok(m[entry.0 := entry.1])
  }

  /** One step of `read_mem`: the map of a file is the map of all but its
      last line, with the last line's entry inserted. */
  lemma ReadMemStep(lines: seq<string>)
    requires |lines| > 0 && MemLinesValid(lines)
    ensures MemLinesValid(lines[..|lines| - 1])
    ensures ReadMem(lines).value
            == ReadMem(lines[..|lines| - 1]).value[LineKey(lines[|lines| - 1]) := ParseMemLine(lines[|lines| - 1]).value.1]
  {
    var n := |lines| - 1;
    assert MemLinesValid(lines[..n]) by {
      forall i | 0 <= i < n ensures ParseMemLine(lines[..n][i]).Ok? {
        assert lines[..n][i] == lines[i];
      }
    }
    MemFieldsSpec(SplitWhitespace(lines[n]));
  }

  /** The keys of the map `read_mem` builds are exactly the keys of the
      lines. */
  lemma {:induction false} ReadMemKeys(lines: seq<string>)
    requires MemLinesValid(lines)
    ensures ReadMem(lines).Ok?
    ensures forall k :: k in ReadMem(lines).value <==> exists i :: 0 <= i < |lines| && LineKey(lines[i]) == k
  {
    forall k ensures k in ReadMem(lines).value <==> exists i :: 0 <= i < |lines| && LineKey(lines[i]) == k {
      ReadMemKeyAt(lines, k);
    }
  }

  /** Some line of `lines` has key `k`. */
  predicate KeyAmong(lines: seq<string>, k: string) {
    exists i :: 0 <= i < |lines| && LineKey(lines[i]) == k
  }

  lemma KeyAmongSplit(lines: seq<string>, k: string)
    requires |lines| > 0
    ensures KeyAmong(lines, k) <==>
      KeyAmong(lines[..|lines| - 1], k) || LineKey(lines[|lines| - 1]) == k
  {
    var n := |lines| - 1;
    var prefix := lines[..n];
    if KeyAmong(prefix, k) {
      var i :| 0 <= i < n && LineKey(prefix[i]) == k;
      assert lines[i] == prefix[i];
    }
    if KeyAmong(lines, k) {
      var i :| 0 <= i < |lines| && LineKey(lines[i]) == k;
      if i < n {
        assert lines[i] == prefix[i];
      }
    }
  }

  lemma {:induction false} ReadMemKeyAt(lines: seq<string>, k: string)
    requires MemLinesValid(lines)
    ensures ReadMem(lines).Ok?
    ensures k in ReadMem(lines).value <==> KeyAmong(lines, k)
  {
    if |lines| > 0 {
      ReadMemStep(lines);
      ReadMemKeyAt(lines[..|lines| - 1], k);
      KeyAmongSplit(lines, k);
    }
  }

  /** No line after line `i` has the same key. */
  predicate LastWithKey(lines: seq<string>, i: nat)
    requires i < |lines|
  {
    forall j :: i < j < |lines| ==> LineKey(lines[j]) != LineKey(lines[i])
  }

  /** Later lines win: a key holds the value of the last line with that
      key. */
  lemma {:induction false} ReadMemLastWins(lines: seq<string>)
    requires MemLinesValid(lines)
    ensures ReadMem(lines).Ok?
    ensures forall i :: 0 <= i < |lines| && LastWithKey(lines, i) ==>
              LineKey(lines[i]) in ReadMem(lines).value &&
              ReadMem(lines).value[LineKey(lines[i])] == ParseMemLine(lines[i]).value.1
  {
    forall i | 0 <= i < |lines| && LastWithKey(lines, i)
      ensures LineKey(lines[i]) in ReadMem(lines).value
      ensures ReadMem(lines).value[LineKey(lines[i])] == ParseMemLine(lines[i]).value.1
    {
      ReadMemLastWinsAt(lines, i);
    }
  }

  lemma {:induction false} ReadMemLastWinsAt(lines: seq<string>, i: nat)
    requires MemLinesValid(lines)
    requires i < |lines| && LastWithKey(lines, i)
    ensures ReadMem(lines).Ok?
    ensures LineKey(lines[i]) in ReadMem(lines).value
    ensures ReadMem(lines).value[LineKey(lines[i])] == ParseMemLine(lines[i]).value.1
  {
    var n := |lines| - 1;
    var prefix := lines[..n];
    ReadMemStep(lines);
    if i < n {
      assert lines[i] == prefix[i];
      assert LineKey(lines[n]) != LineKey(lines[i]);
      assert LastWithKey(prefix, i) by {
        forall j | i < j < n ensures LineKey(prefix[j]) != LineKey(prefix[i]) {
          assert prefix[j] == lines[j];
        }
      }
      ReadMemLastWinsAt(prefix, i);
    }
  }

  // ---------------------------------------------------------------------
  // MemInfo::update
  // ---------------------------------------------------------------------

  /** `HashMap::get(key).expect(..)`. */
  function Lookup(m: map<string, u64>, key: string): (r: Result<u64>)
    ensures r.Ok? <==> key in m
    ensures r.Ok? ==> r.value == m[key]
    ensures r.Err? ==> r.panic == MissingKey(key)
  {
    if key in m then Ok(m[key]) else Err(MissingKey(key))
  }

  /** The five keys `update` looks up, in the order it looks them up. */
  const RequiredKeys: seq<string> := ["MemTotal:", "MemFree:", "Cached:", "SwapTotal:", "SwapFree:"]

  /** What `update` needs of the map: all five keys, free plus cached
      memory no more than the total, and free swap no more than the total
      swap. */
  predicate MapUsable(m: map<string, u64>) {
    && "MemTotal:" in m && "MemFree:" in m && "Cached:" in m
    && "SwapTotal:" in m && "SwapFree:" in m
    && m["MemFree:"] as int + m["Cached:"] <= m["MemTotal:"]
    && m["SwapFree:"] <= m["SwapTotal:"]
  }

  /** `MemInfo::update` after the file has been read. */
  function Update(lines: seq<string>): (r: Result<MemInfo>)
    ensures r.Ok? <==> ReadMem(lines).Ok? && MapUsable(ReadMem(lines).value)
    ensures r.Ok? ==>
      var m := ReadMem(lines).value;
      && Consistent(r.value)
      && r.value.total == m["MemTotal:"]
      && r.value.free == m["MemFree:"]
      && r.value.cached == m["Cached:"]
      && r.value.swapTotal == m["SwapTotal:"]
      && r.value.swapFree == m["SwapFree:"]
    ensures ReadMem(lines).Ok? && (exists k :: k in RequiredKeys && k !in ReadMem(lines).value) ==> r.Err?
  {
    var m :- ReadMem(lines);
    var total :- Lookup(m, "MemTotal:");
    var free :- Lookup(m, "MemFree:");
    var cached :- Lookup(m, "Cached:");
    var freeOrCached :- Add(free, cached);
    var used :- Sub(total, freeOrCached);
    var swapTotal :- Lookup(m, "SwapTotal:");
    var swapFree :- Lookup(m, "SwapFree:");
    var swapUsed :- Sub(swapTotal, swapFree);
    Ok(MemInfo(total, free, cached, used, swapTotal, swapFree, swapUsed))
  }
}
