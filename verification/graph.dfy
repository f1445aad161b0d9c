/** The CPU load history behind the trend display: a fixed window of the
    last `GraphSize` load ratios, oldest first, kept as a queue by
    shifting, and scaled to integer bar heights for drawing.

    The ratios are `f64` in run-info's `Graph`; here they are `real`, so scaling
    is exact and the cast back to an integer is a floor.
 */
module LoadGraph {
  import opened Unsigned

  /** Number of slots in the window. */
  const GraphSize: nat := 51

  /** `Graph`: the window's contents, oldest first. */
  datatype Graph = Graph(data: seq<real>)

  /** run-info's `Graph` is a fixed-size array of `GraphSize` slots. */
  predicate Valid(g: Graph) {
    |g.data| == GraphSize
  }

  /** `n` zeros. */
  function Zeros(n: nat): (z: seq<real>)
    ensures |z| == n
    ensures forall i :: 0 <= i < n ==> z[i] == 0.0
  {
    seq(n, _ => 0.0)
  }

  /** `Graph::new`: every slot holds 0. */
  function New(): (g: Graph)
    ensures Valid(g)
    ensures forall i :: 0 <= i < GraphSize ==> g.data[i] == 0.0
  {
    Graph(Zeros(GraphSize))
  }

  /** Queue semantics of one push: the oldest value leaves at the front
      and the new one enters at the back. */
  function Shifted(data: seq<real>, entry: real): seq<real>
    requires |data| > 0
  {
    data[1..] + [entry]
  }

  /** `Graph::push`: shift every slot one place towards the front, then
      store `entry` in the last slot. */
  method Push(g: Graph, entry: real) returns (r: Graph)
    requires Valid(g)
    ensures Valid(r)
    ensures r.data[GraphSize - 1] == entry
    ensures forall i :: 0 <= i < GraphSize - 1 ==> r.data[i] == g.data[i + 1]
    ensures r.data == Shifted(g.data, entry)
  {
    var a := new real[GraphSize](i requires 0 <= i < GraphSize => g.data[i]);
    for i := 0 to GraphSize - 1
      invariant forall k :: 0 <= k < i ==> a[k] == g.data[k + 1]
      invariant forall k :: i <= k < GraphSize ==> a[k] == g.data[k]
    {
      a[i] := a[i + 1];
    }
    a[GraphSize - 1] := entry;
    r := Graph(a[..]);
  }

  /** The window after pushing `xs`, in order, onto `data`. */
  function PushAll(data: seq<real>, xs: seq<real>): (r: seq<real>)
    requires |data| > 0
    ensures |r| == |data|
  {
    if |xs| == 0 then data
    else Shifted(PushAll(data, xs[..|xs| - 1]), xs[|xs| - 1])
  }

  /** A window of fixed size always holds the last values of everything it
      has seen: after pushing `xs` it is the old contents followed by
      `xs`, with as many values dropped from the front as were pushed. */
  lemma {:induction false} PushAllWindow(data: seq<real>, xs: seq<real>)
    requires |data| > 0
    ensures PushAll(data, xs) == (data + xs)[|xs|..]
  {
    if |xs| > 0 {
      var n := |xs|;
      PushAllWindow(data, xs[..n - 1]);
      assert data + xs == (data + xs[..n - 1]) + [xs[n - 1]];
    }
  }

  /** Dropping `|xs|` values from the front of `n` zeros followed by `xs`. */
  lemma ZerosWindow(n: nat, xs: seq<real>)
    ensures |xs| <= n ==> (Zeros(n) + xs)[|xs|..] == Zeros(n - |xs|) + xs
    ensures |xs| > n ==> (Zeros(n) + xs)[|xs|..] == xs[|xs| - n..]
  {
    var window := (Zeros(n) + xs)[|xs|..];
    if |xs| <= n {
      var expected := Zeros(n - |xs|) + xs;
      forall i | 0 <= i < |window| ensures window[i] == expected[i] {
        if i < n - |xs| {
          assert window[i] == Zeros(n)[i + |xs|];
        } else {
          assert window[i] == xs[i - (n - |xs|)];
        }
      }
      assert window == expected;
    } else {
      var expected := xs[|xs| - n..];
      forall i | 0 <= i < |window| ensures window[i] == expected[i] {
        assert window[i] == xs[i + |xs| - n];
      }
      assert window == expected;
    }
  }

  /** After `n` pushes onto a new graph the window holds 51 - n zeros
      followed by all pushed values when n <= 51, and the last 51 pushed
      values otherwise, in push order. */
  lemma History(xs: seq<real>)
    ensures |xs| <= GraphSize ==> PushAll(New().data, xs) == Zeros(GraphSize - |xs|) + xs
    ensures |xs| > GraphSize ==> PushAll(New().data, xs) == xs[|xs| - GraphSize..]
  {
    assert New().data == Zeros(GraphSize);
    ZerosHistory(GraphSize, xs);
  }

  lemma ZerosHistory(n: nat, xs: seq<real>)
    requires n > 0
    ensures |xs| <= n ==> PushAll(Zeros(n), xs) == Zeros(n - |xs|) + xs
    ensures |xs| > n ==> PushAll(Zeros(n), xs) == xs[|xs| - n..]
  {
    PushAllWindow(Zeros(n), xs);
    ZerosWindow(n, xs);
  }

  /** The height of one slot: its value times `max`, cast to usize. */
  function Height(x: real, max: usize): usize {
    AsUsize(Scale(x, max))
  }

  /** `Graph::height_values(max)`: one height per slot, the slot's value
      times `max`, truncated to an integer. While every stored value is a
      ratio in [0, 1], every height is the floor of value times `max` and
      lies in [0, max]. */
  function HeightValues(g: Graph, max: usize): (h: seq<usize>)
    requires Valid(g)
    ensures |h| == GraphSize
    ensures forall i :: 0 <= i < GraphSize && 0.0 <= g.data[i] <= 1.0 ==>
      h[i] == Scale(g.data[i], max).Floor && h[i] <= max
  {
    seq(GraphSize, i requires 0 <= i < GraphSize => Height(g.data[i], max))
  }
}
