/** The text-building arithmetic behind the display: padding a label to a
    byte width, centring a section header, choosing the glyphs of the load
    graph, turning a busy/idle pair into a ratio, and filling a progress
    bar.

    run-info's print routines write straight to a terminal and interleaves colour
    escapes; here each routine returns the plain text it would write, and
    the colour calls (which write nothing when colour is off) are left out.
 */
module PrintUtils {
  import opened Outcomes
  import opened Unsigned
  import opened Text
  import CpuStat
  import LoadGraph

  /** `n` copies of `c`. */
  function Repeat(c: char, n: nat): (s: string)
    ensures |s| == n
    ensures forall i :: 0 <= i < n ==> s[i] == c
  {
    seq(n, _ => c)
  }

  lemma RepeatAsciiLength(c: char, n: nat)
    requires c as int < 0x80
    ensures Utf8Len(Repeat(c, n)) == n
  {
    AsciiLength(Repeat(c, n));
  }

  // ---------------------------------------------------------------------
  // Padding
  // ---------------------------------------------------------------------

  /** `pad_string`: append spaces until the UTF-8 byte length reaches
      `size`; a string already that long is returned unchanged. */
  function PadString(s: string, size: usize): (r: string)
    ensures Utf8Len(r) == if Utf8Len(s) >= size then Utf8Len(s) else size
    ensures |s| <= |r| && r[..|s|] == s
    ensures forall i :: |s| <= i < |r| ==> r[i] == ' '
    ensures Utf8Len(s) >= size ==> r == s
    decreases size - Utf8Len(s)
  {
    if Utf8Len(s) >= size then s
    else
      assert (s + [' '])[..|s|] == s;
      PadString(s + [' '], size)
  }

  /** Padding keeps text ASCII, so its byte and character counts agree. */
  lemma PadAscii(s: string, size: usize)
    requires IsAscii(s)
    ensures IsAscii(PadString(s, size))
    ensures |PadString(s, size)| == if |s| >= size then |s| else size
  {
    var r := PadString(s, size);
    assert forall i :: 0 <= i < |s| ==> r[i] == s[i];
    AsciiLength(s);
    AsciiLength(r);
  }

  // ---------------------------------------------------------------------
  // Section header
  // ---------------------------------------------------------------------

  /** The widths of the `=` runs left and right of ` name `, in
      `print_header`. The subtraction `size - name.len() - 2` panics on
      underflow when the name does not fit. */
  function HeaderWidths(size: usize, name: string): (r: Result<(nat, nat)>)
    ensures r.Ok? <==> Utf8Len(name) + 2 <= size
    ensures r.Err? ==> r.panic == Underflow
    ensures r.Ok? ==> r.value.0 + 1 + Utf8Len(name) + 1 + r.value.1 == size
    ensures r.Ok? ==> r.value.0 == r.value.1 || r.value.0 == r.value.1 + 1
  {
    var rest :- Sub(size, Utf8Len(name));
    var inner :- Sub(rest, 2);
    var halfsize := inner / 2;
    var extendFirst := halfsize * 2 + Utf8Len(name) + 2 != size;
    Ok((if extendFirst then halfsize + 1 else halfsize, halfsize))
  }

  /** The text `print_header` writes before its newline. */
  function Header(size: usize, name: string): (r: Result<string>)
    ensures r.Ok? <==> Utf8Len(name) + 2 <= size
    ensures r.Ok? ==> Utf8Len(r.value) == size
    ensures r.Ok? ==>
      var w := HeaderWidths(size, name).value;
      && |r.value| == w.0 + 1 + |name| + 1 + w.1
      && r.value[w.0 + 1 .. w.0 + 1 + |name|] == name
      && r.value[w.0] == ' ' && r.value[w.0 + 1 + |name|] == ' '
      && (forall i :: 0 <= i < w.0 ==> r.value[i] == '=')
      && (forall i :: w.0 + |name| + 2 <= i < |r.value| ==> r.value[i] == '=')
  {
    var w :- HeaderWidths(size, name);
    var s := Repeat('=', w.0) + " " + name + " " + Repeat('=', w.1);
    HeaderLength(w.0, name, w.1);
    assert s[w.0 + 1 .. w.0 + 1 + |name|] == name;
    Ok(s)
  }

  lemma HeaderLength(left: nat, name: string, right: nat)
    ensures Utf8Len(Repeat('=', left) + " " + name + " " + Repeat('=', right))
         == left + 1 + Utf8Len(name) + 1 + right
  {
    var a := Repeat('=', left);
    var b := Repeat('=', right);
    RepeatAsciiLength('=', left);
    RepeatAsciiLength('=', right);
    AsciiLength(" ");
    Utf8LenAppend(a, " ");
    Utf8LenAppend(a + " ", name);
    Utf8LenAppend(a + " " + name, " ");
    Utf8LenAppend(a + " " + name + " ", b);
  }

  // ---------------------------------------------------------------------
  // Load graph
  // ---------------------------------------------------------------------

  /** Number of graph rows; row `y` (counted from the bottom) stands for
      `25 * y` percent. */
  const GraphRows: nat := 5

  /** Each row covers two height steps, so heights run from 0 to 10. */
  const GraphMaxHeight: usize := 10

  /** The glyph drawn in row `y` for a column of height `h`: nothing below
      the row, `.` when the column ends exactly at the row's half step,
      `:` when it reaches past it. */
  function Glyph(h: usize, y: nat): (c: char)
    ensures c == ' ' <==> h < 2 * y
    ensures c == '.' <==> h == 2 * y
    ensures c == ':' <==> h >= 2 * y + 1
  {
    if h < y * 2 then ' '
    else if h < y * 2 + 1 then '.'
    else ':'
  }

  /** The row label: `25 * y` and `%`, padded to five bytes, then `|`. */
  function Label(y: nat): string {
    PadString(NatToString(y * 25) + "%", 5) + "|"
  }

  /** Every label is the percentage's digits and `%`, blanks up to five
      bytes, then `|`: the percentages take at most three digits, so
      every label is six bytes wide. */
  lemma LabelShape(y: nat)
    requires y < GraphRows
    ensures |NatToString(y * 25)| <= 3
    ensures Label(y) == NatToString(y * 25) + "%" + Repeat(' ', 4 - |NatToString(y * 25)|) + "|"
    ensures |Label(y)| == 6
  {
    var digits := NatToString(y * 25);
    NatToStringLength(y * 25, 3);
    NatToStringIsAscii(y * 25);
    var s := digits + "%";
    assert IsAscii(s);
    PadAscii(s, 5);
    var r := PadString(s, 5);
    assert r == s + Repeat(' ', 5 - |s|);
  }

  /** One graph row: its label, then one glyph per column. */
  function GraphRow(heights: seq<usize>, y: nat): (row: string)
    requires y < GraphRows
    ensures |row| == 6 + |heights|
    ensures row[..6] == Label(y)
    ensures forall x :: 0 <= x < |heights| ==> row[6 + x] == Glyph(heights[x], y)
  {
    LabelShape(y);
    Label(y) + seq(|heights|, x requires 0 <= x < |heights| => Glyph(heights[x], y))
  }

  /** The rows for 100% down to 0% over a list of column heights: each
      is its label followed by one glyph per column. */
  function GraphText(h: seq<usize>): (rows: seq<string>)
    ensures |rows| == GraphRows
    ensures forall k :: 0 <= k < GraphRows ==> |rows[k]| == 6 + |h|
    ensures forall k, x :: 0 <= k < GraphRows && 0 <= x < |h| ==>
      rows[k][6 + x] == Glyph(h[x], GraphRows - 1 - k)
  {
    var rows := seq(GraphRows, k requires 0 <= k < GraphRows => GraphRow(h, GraphRows - 1 - k));
    forall k | 0 <= k < GraphRows
      ensures rows[k] == GraphRow(h, GraphRows - 1 - k)
    {
    }
    rows
  }

  /** Each row of the graph starts with its label. */
  lemma GraphTextLabels(h: seq<usize>)
    ensures forall k :: 0 <= k < GraphRows ==> GraphText(h)[k][..6] == Label(GraphRows - 1 - k)
  {
    forall k | 0 <= k < GraphRows
      ensures GraphText(h)[k][..6] == Label(GraphRows - 1 - k)
    {
      assert GraphText(h)[k] == GraphRow(h, GraphRows - 1 - k);
    }
  }

  /** A column of the graph is a solid stack: below any non-blank cell
      every cell is `:`. */
  lemma GraphTextStacked(h: seq<usize>)
    ensures var rows := GraphText(h);
      forall k, j, c ::
        0 <= k < j < GraphRows && 6 <= c < 6 + |h| && rows[k][c] != ' ' ==>
        rows[j][c] == ':'
  {
    var rows := GraphText(h);
    forall k, j, c | 0 <= k < j < GraphRows && 6 <= c < 6 + |h| && rows[k][c] != ' '
      ensures rows[j][c] == ':'
    {
      var x := c - 6;
      assert rows[k][6 + x] == Glyph(h[x], GraphRows - 1 - k);
      assert rows[j][6 + x] == Glyph(h[x], GraphRows - 1 - j);
    }
  }

  /** `print_graph`: the rows over the heights of the history scaled to
      `GraphMaxHeight`. */
  function PrintGraph(g: LoadGraph.Graph): (rows: seq<string>)
    requires LoadGraph.Valid(g)
    ensures |rows| == GraphRows
    ensures forall k :: 0 <= k < GraphRows ==>
      |rows[k]| == 6 + LoadGraph.GraphSize && rows[k][..6] == Label(GraphRows - 1 - k)
    ensures forall k, x ::
      0 <= k < GraphRows && 0 <= x < LoadGraph.GraphSize && 0.0 <= g.data[x] <= 1.0 ==>
      rows[k][6 + x] == Glyph(Scale(g.data[x], GraphMaxHeight).Floor, GraphRows - 1 - k)
    ensures forall k, j, c ::
      0 <= k < j < GraphRows && 6 <= c < 6 + LoadGraph.GraphSize && rows[k][c] != ' ' ==>
      rows[j][c] == ':'
  {
    var h := LoadGraph.HeightValues(g, GraphMaxHeight);
    GraphTextLabels(h);
    GraphTextStacked(h);
    GraphText(h)
  }

  // ---------------------------------------------------------------------
  // Load ratio
  // ---------------------------------------------------------------------

  /** `calc_cpu_load_percentage`: the busy share of a load, 0 when
      nothing was busy. `idle + busy` is a checked u64 addition. */
  function LoadPercentage(load: CpuStat.CpuLoad): (r: Result<real>)
    ensures r.Ok? <==> load.busy == 0 || load.busy + load.idle <= U64_MAX
    ensures r.Err? ==> r.panic == Overflow
    ensures r.Ok? && load.busy == 0 ==> r.value == 0.0
    ensures r.Ok? && load.busy > 0 ==>
      && 0.0 < r.value <= 1.0
      && r.value * (load.busy + load.idle) as real == load.busy as real
    ensures r.Ok? && load.busy > 0 ==> (r.value == 1.0 <==> load.idle == 0)
  {
    if load.busy != 0 then
      var total :- Add(load.idle, load.busy);
      RatioBounds(load.busy, total);
      Ok(load.busy as real / total as real)
    else
      Ok(0.0)
  }

  lemma RatioBounds(part: nat, total: nat)
    requires 0 < part <= total
    ensures 0.0 < part as real / total as real <= 1.0
    ensures (part as real / total as real) * total as real == part as real
    ensures part as real / total as real == 1.0 <==> part == total
  {
    var q := part as real / total as real;
    assert q * total as real == part as real;
  }

  // ---------------------------------------------------------------------
  // Progress bar
  // ---------------------------------------------------------------------

  /** `print_progress_bar`: `[`, then `size` cells of which the first
      `value * size` (truncated) are `=` and the rest blank, then `]`.
      A value outside [0, 1] fails the assertion at the top. */
  method ProgressBar(value: real, size: usize) returns (r: Result<string>)
    ensures r.Ok? <==> 0.0 <= value <= 1.0
    ensures r.Err? ==> r.panic == AssertFailed
    ensures r.Ok? ==>
      var fill := Scale(value, size).Floor;
      && 0 <= fill <= size
      && r.value == "[" + Repeat('=', fill) + Repeat(' ', size - fill) + "]"
  {
    if !(0.0 <= value <= 1.0) {
      return Err(AssertFailed);
    }
    var barsize := AsUsize(Scale(value, size));
    var cells := "";
    for i := 0 to size
      invariant |cells| == i
      invariant forall j :: 0 <= j < i ==> cells[j] == if j < barsize then '=' else ' '
    {
      if i < barsize {
        cells := cells + "=";
      } else {
        cells := cells + " ";
      }
    }
    assert cells == Repeat('=', barsize) + Repeat(' ', size - barsize);
    return Ok("[" + cells + "]");
  }

  /** The bar always has `size` cells between its brackets and is ASCII,
      so its printed width is `size + 2`. */
  lemma ProgressBarWidth(fill: nat, size: nat)
    requires fill <= size
    ensures Utf8Len("[" + Repeat('=', fill) + Repeat(' ', size - fill) + "]") == size + 2
  {
    var s := "[" + Repeat('=', fill) + Repeat(' ', size - fill) + "]";
    assert IsAscii(s);
    AsciiLength(s);
  }
}
