/** Unsigned 64-bit integers as run-info uses them, and the
    cast from a (real-valued) float to one.

    Rust's `u64` (and `usize`, on the 64-bit targets the program runs on)
    panics on overflow and underflow in a debug build. These helpers make
    that explicit: every arithmetic step that can leave the range returns
    a `Result`.
 */
module Unsigned {
  import opened Outcomes

  const U64_MAX: int := 0xFFFF_FFFF_FFFF_FFFF

  /** A value of Rust's `u64`. */
  type u64 = n: int | 0 <= n <= 0xFFFF_FFFF_FFFF_FFFF

  /** A value of Rust's `usize` on a 64-bit target. */
  type usize = u64

  /** Checked `a + b`. */
  function Add(a: u64, b: u64): (r: Result<u64>)
    ensures r.Ok? <==> a + b <= U64_MAX
    ensures r.Ok? ==> r.value == a + b
    ensures r.Err? ==> r.panic == Overflow
  {
    if a + b <= U64_MAX then Ok(a + b) else Err(Overflow)
  }

  /** Checked `a - b`; `a` may be any natural, such as a string length. */
  function Sub(a: nat, b: nat): (r: Result<nat>)
    ensures r.Ok? <==> b <= a
    ensures r.Ok? ==> r.value + b == a
    ensures r.Err? ==> r.panic == Underflow
  {
    if b <= a then Ok(a - b) else Err(Underflow)
  }

  /** Checked `a * b`. */
  function Mul(a: u64, b: u64): (r: Result<u64>)
    ensures r.Ok? <==> a * b <= U64_MAX
    ensures r.Ok? ==> r.value == a * b
    ensures r.Err? ==> r.panic == Overflow
  {
    if a * b <= U64_MAX then Ok(a * b) else Err(Overflow)
  }

  /** Rust's `as usize` from a float: truncation toward zero, saturating
      at 0 and at the largest usize. */
  function AsUsize(x: real): (n: usize)
    ensures 0.0 <= x && x.Floor <= U64_MAX ==> n == x.Floor
  {
    if x < 0.0 then 0
    else if x.Floor > U64_MAX then U64_MAX
    else x.Floor
  }

  /** `x * m` for a whole-number factor `m`, written as `m`-fold
      addition. It is the same number (`ScaleIsProduct`); stating it this
      way keeps reasoning about its floor within linear arithmetic. */
  function Scale(x: real, m: nat): (r: real)
    ensures 0.0 <= x <= 1.0 ==> 0.0 <= r <= m as real
  {
    if m == 0 then 0.0 else Scale(x, m - 1) + x
  }

  lemma {:induction false} ScaleIsProduct(x: real, m: nat)
    ensures Scale(x, m) == x * m as real
  {
    if m > 0 {
      ScaleIsProduct(x, m - 1);
      assert x * (m - 1) as real + x == x * m as real;
    }
  }
}
