/** The string primitives of Rust's standard library that the parsers use:
    `split_whitespace`, `starts_with`, `str::len` (a UTF-8 byte count) and
    `str::parse::<u64>`, together with the decimal printing that is their
    partner in the round-trip lemmas.
 */
module Text {
  import opened Outcomes
  import opened Unsigned

  // ---------------------------------------------------------------------
  // Whitespace splitting
  // ---------------------------------------------------------------------

  /** Rust's `char::is_whitespace`: the Unicode White_Space property. */
  predicate IsWhitespace(c: char) {
    || ('\t' <= c <= '\r')
    || c == ' '
    || c == '\U{0085}'
    || c == '\U{00A0}'
    || c == '\U{1680}'
    || ('\U{2000}' <= c <= '\U{200A}')
    || c == '\U{2028}'
    || c == '\U{2029}'
    || c == '\U{202F}'
    || c == '\U{205F}'
    || c == '\U{3000}'
  }

  /** A token of `split_whitespace`: non-empty, without whitespace. */
  predicate IsToken(t: string) {
    |t| > 0 && forall i :: 0 <= i < |t| ==> !IsWhitespace(t[i])
  }

  /** Length of the run of non-whitespace characters that starts `s`. */
  function WordLength(s: string): (n: nat)
    ensures n <= |s|
    ensures forall i :: 0 <= i < n ==> !IsWhitespace(s[i])
    ensures n < |s| ==> IsWhitespace(s[n])
  {
    if |s| == 0 || IsWhitespace(s[0]) then 0 else 1 + WordLength(s[1..])
  }

  /** Rust's `str::split_whitespace`, collected into a sequence. */
  function SplitWhitespace(s: string): (ts: seq<string>)
    ensures forall i :: 0 <= i < |ts| ==> IsToken(ts[i])
    decreases |s|
  {
    if |s| == 0 then []
    else if IsWhitespace(s[0]) then SplitWhitespace(s[1..])
    else
      var n := WordLength(s);
      [s[..n]] + SplitWhitespace(s[n..])
  }

  /** Tokens written out separated by single spaces, as the kernel writes
      the rows of `/proc/stat`. */
  function JoinWords(ts: seq<string>): string {
    if |ts| == 0 then ""
    else if |ts| == 1 then ts[0]
    else ts[0] + " " + JoinWords(ts[1..])
  }

  /** A word followed by nothing or by whitespace is read whole. */
  lemma {:induction false} WordLengthOfToken(t: string, rest: string)
    requires IsToken(t)
    requires |rest| == 0 || IsWhitespace(rest[0])
    ensures WordLength(t + rest) == |t|
    decreases |t|
  {
    if |t| > 1 {
      assert (t + rest)[1..] == t[1..] + rest;
      WordLengthOfToken(t[1..], rest);
    } else {
      assert (t + rest)[1..] == rest;
    }
  }

  /** Splitting a space-joined sequence of tokens gives back the tokens. */
  lemma {:induction false} SplitJoin(ts: seq<string>)
    requires forall i :: 0 <= i < |ts| ==> IsToken(ts[i])
    ensures SplitWhitespace(JoinWords(ts)) == ts
    decreases |ts|
  {
    if |ts| == 1 {
      var t := ts[0];
      WordLengthOfToken(t, "");
      assert t + "" == t;
      assert t[..|t|] == t;
    } else if |ts| > 1 {
      var t := ts[0];
      var tail := " " + JoinWords(ts[1..]);
      assert JoinWords(ts) == t + tail;
      WordLengthOfToken(t, tail);
      assert (t + tail)[..|t|] == t;
      assert (t + tail)[|t|..] == tail;
      assert tail[1..] == JoinWords(ts[1..]);
      SplitJoin(ts[1..]);
    }
  }

  /** Whitespace only, possibly empty. */
  predicate IsBlank(s: string) {
    forall i :: 0 <= i < |s| ==> IsWhitespace(s[i])
  }

  /** Separators for `ts`: a run of whitespace after each token, at least
      one character long between two tokens and possibly empty after the
      last. */
  predicate Separators(ts: seq<string>, seps: seq<string>) {
    && |seps| == |ts|
    && (forall i :: 0 <= i < |seps| ==> IsBlank(seps[i]))
    && (forall i :: 0 <= i < |seps| - 1 ==> |seps[i]| > 0)
  }

  /** Tokens each followed by its separator: the layout of a padded line
      such as `MemTotal:       16318272 kB`. */
  function JoinWith(ts: seq<string>, seps: seq<string>): string
    requires |seps| == |ts|
  {
    if |ts| == 0 then "" else ts[0] + seps[0] + JoinWith(ts[1..], seps[1..])
  }

  /** Leading whitespace is skipped. */
  lemma {:induction false} SplitSkipsBlank(b: string, s: string)
    requires IsBlank(b)
    ensures SplitWhitespace(b + s) == SplitWhitespace(s)
    decreases |b|
  {
    if |b| > 0 {
      assert (b + s)[0] == b[0];
      assert (b + s)[1..] == b[1..] + s;
      SplitSkipsBlank(b[1..], s);
    } else {
      assert b + s == s;
    }
  }

  /** Splitting a line of tokens, however padded, gives back the tokens:
      leading whitespace, runs of whitespace between tokens and trailing
      whitespace are all dropped. */
  lemma SplitJoinWith(lead: string, ts: seq<string>, seps: seq<string>)
    requires IsBlank(lead) && Separators(ts, seps)
    requires forall i :: 0 <= i < |ts| ==> IsToken(ts[i])
    ensures SplitWhitespace(lead + JoinWith(ts, seps)) == ts
  {
    SplitSkipsBlank(lead, JoinWith(ts, seps));
    SplitSeparated(ts, seps);
  }

  lemma {:induction false} SplitSeparated(ts: seq<string>, seps: seq<string>)
    requires Separators(ts, seps)
    requires forall i :: 0 <= i < |ts| ==> IsToken(ts[i])
    ensures SplitWhitespace(JoinWith(ts, seps)) == ts
    decreases |ts|
  {
    if |ts| > 0 {
      var t, sep := ts[0], seps[0];
      var later := JoinWith(ts[1..], seps[1..]);
      var rest := sep + later;
      assert JoinWith(ts, seps) == t + rest;
      assert Separators(ts[1..], seps[1..]) by {
        forall i | 0 <= i < |seps| - 1 ensures IsBlank(seps[1..][i]) {
          assert seps[1..][i] == seps[i + 1];
        }
        forall i | 0 <= i < |seps| - 2 ensures |seps[1..][i]| > 0 {
          assert seps[1..][i] == seps[i + 1];
        }
      }
      assert forall i :: 0 <= i < |ts| - 1 ==> IsToken(ts[1..][i]) by {
        forall i | 0 <= i < |ts| - 1 ensures IsToken(ts[1..][i]) {
          assert ts[1..][i] == ts[i + 1];
        }
      }
      if |ts| == 1 {
        assert later == "";
      }
      if |sep| > 0 {
        assert rest[0] == sep[0];
      } else {
        assert rest == "";
      }
      WordLengthOfToken(t, rest);
      assert (t + rest)[0] == t[0];
      assert (t + rest)[..|t|] == t;
      assert (t + rest)[|t|..] == rest;
      SplitSkipsBlank(sep, later);
      SplitSeparated(ts[1..], seps[1..]);
      assert [t] + ts[1..] == ts;
    }
  }

  // ---------------------------------------------------------------------
  // Prefixes and byte lengths
  // ---------------------------------------------------------------------

  /** Rust's `str::starts_with` for a string pattern. */
  predicate StartsWith(s: string, prefix: string) {
    |prefix| <= |s| && s[..|prefix|] == prefix
  }

  /** Number of bytes `c` occupies in UTF-8. */
  function Utf8Width(c: char): nat {
    if c as int < 0x80 then 1
    else if c as int < 0x800 then 2
    else if c as int < 0x1_0000 then 3
    else 4
  }

  /** Rust's `str::len`: the length of the UTF-8 encoding, in bytes. */
  function Utf8Len(s: string): nat {
    if |s| == 0 then 0 else Utf8Len(s[..|s| - 1]) + Utf8Width(s[|s| - 1])
  }

  /** ASCII text has as many bytes as characters. */
  predicate IsAscii(s: string) {
    forall i :: 0 <= i < |s| ==> s[i] as int < 0x80
  }

  lemma {:induction false} AsciiLength(s: string)
    requires IsAscii(s)
    ensures Utf8Len(s) == |s|
  {
    if |s| > 0 {
      AsciiLength(s[..|s| - 1]);
    }
  }

  /** Byte lengths add up under concatenation. */
  lemma {:induction false} Utf8LenAppend(a: string, b: string)
    ensures Utf8Len(a + b) == Utf8Len(a) + Utf8Len(b)
    decreases |b|
  {
    if |b| > 0 {
      assert (a + b)[..|a + b| - 1] == a + b[..|b| - 1];
      Utf8LenAppend(a, b[..|b| - 1]);
    } else {
      assert a + b == a;
    }
  }

  // ---------------------------------------------------------------------
  // Decimal numbers
  // ---------------------------------------------------------------------

  predicate IsDigit(c: char) {
    '0' <= c <= '9'
  }

  predicate AllDigits(s: string) {
    forall i :: 0 <= i < |s| ==> IsDigit(s[i])
  }

  /** The value of a string of decimal digits, most significant first. */
  function DigitsValue(s: string): nat
    requires AllDigits(s)
  {
    if |s| == 0 then 0
    else DigitsValue(s[..|s| - 1]) * 10 + (s[|s| - 1] as int - '0' as int)
  }

  /** The digits `str::parse` reads: an optional leading `+` is skipped. */
  function UnsignedDigits(t: string): string {
    if |t| > 0 && t[0] == '+' then t[1..] else t
  }

  /** Rust's `str::parse::<u64>` (and `::<usize>` on a 64-bit target):
      an optional `+`, then one or more ASCII digits, of value at most
      2^64 - 1. Any other token, the empty one included, is rejected. */
  function ParseU64(t: string): (r: Option<u64>)
    ensures r.Some? <==>
      var d := UnsignedDigits(t);
      |d| > 0 && AllDigits(d) && DigitsValue(d) <= U64_MAX
    ensures r.Some? ==> r.value == DigitsValue(UnsignedDigits(t))
  {
    var d := UnsignedDigits(t);
    if |d| == 0 || !AllDigits(d) then None
    else if DigitsValue(d) > U64_MAX then None
    else Some(DigitsValue(d))
  }

  /** Rust's `{}` formatting of an unsigned integer: decimal, no leading zeros. */
  function NatToString(n: nat): (s: string)
    ensures |s| > 0 && AllDigits(s)
  {
    var d := ['0' + (n % 10) as char];
    if n < 10 then d else NatToString(n / 10) + d
  }

  lemma {:induction false} DigitsValueOfNatToString(n: nat)
    ensures DigitsValue(NatToString(n)) == n
  {
    var s := NatToString(n);
    if n >= 10 {
      DigitsValueOfNatToString(n / 10);
      assert s[..|s| - 1] == NatToString(n / 10);
    }
  }

  /** Printed numbers contain no whitespace and no sign. */
  lemma NatToStringIsToken(n: nat)
    ensures IsToken(NatToString(n))
    ensures NatToString(n)[0] != '+'
  {
  }

  /** What the kernel prints, `parse` reads back. */
  lemma ParsePrinted(n: u64)
    ensures ParseU64(NatToString(n)) == Some(n)
    ensures ParseU64("+" + NatToString(n)) == Some(n)
  {
    DigitsValueOfNatToString(n);
    assert ("+" + NatToString(n))[1..] == NatToString(n);
  }

  /** A number below 10^k prints with at most `k` digits. */
  lemma {:induction false} NatToStringLength(n: nat, k: nat)
    requires 0 < k && n < Pow10(k)
    ensures |NatToString(n)| <= k
  {
    if n >= 10 {
      assert k > 1;
      assert n / 10 < Pow10(k - 1);
      NatToStringLength(n / 10, k - 1);
      assert NatToString(n) == NatToString(n / 10) + ['0' + (n % 10) as char];
    }
  }

  function Pow10(k: nat): nat {
    if k == 0 then 1 else 10 * Pow10(k - 1)
  }

  /** Strings of printed numbers are ASCII. */
  lemma NatToStringIsAscii(n: nat)
    ensures IsAscii(NatToString(n))
  {
  }
}
