/** Small numeric and text helpers shared by every calculator: an Option type,
    min/max/absolute value, the clamp used by the input widget and the credit
    scores, JavaScript's `Math.round`, `toFixed(2)` read back as a number, and
    decimal rendering of whole numbers for chart labels. */
module Basics {

  datatype Option<T> = None | Some(value: T)

  function Min(a: real, b: real): (r: real)
    ensures r <= a && r <= b && (r == a || r == b)
  {
    if a <= b then a else b
  }

  function Max(a: real, b: real): (r: real)
    ensures r >= a && r >= b && (r == a || r == b)
  {
    if a >= b then a else b
  }

  function Abs(x: real): (r: real)
    ensures r >= 0.0 && (r == x || r == -x)
  {
    if x < 0.0 then -x else x
  }

  /** `Math.min(Math.max(x, lo), hi)`: the upper bound wins when lo > hi. */
  function Clamp(x: real, lo: real, hi: real): (r: real)
    ensures lo <= hi ==> lo <= r <= hi
    ensures lo <= x <= hi ==> r == x
    ensures r <= hi
  {
    Min(Max(x, lo), hi)
  }

  lemma ClampIdempotent(x: real, lo: real, hi: real)
    requires lo <= hi
    ensures Clamp(Clamp(x, lo, hi), lo, hi) == Clamp(x, lo, hi)
  {
  }

  lemma ClampMonotone(x: real, y: real, lo: real, hi: real)
    requires x <= y
    ensures Clamp(x, lo, hi) <= Clamp(y, lo, hi)
  {
  }

  /** JavaScript `Math.round`: the nearest integer, halves rounded up. */
  function Round(x: real): (r: int)
    ensures r as real - 0.5 <= x < r as real + 0.5
  {
    (x + 0.5).Floor
  }

  lemma RoundMonotone(x: real, y: real)
    requires x <= y
    ensures Round(x) <= Round(y)
  {
  }

  /** Rounding a value that lies between two whole numbers stays between them. */
  lemma RoundBetween(x: real, lo: int, hi: int)
    requires lo as real <= x <= hi as real
    ensures lo <= Round(x) <= hi
  {
  }

  lemma RoundOfInt(k: int)
    ensures Round(k as real) == k
  {
  }

  /** `Number(x.toFixed(2))` for a non-negative x: x to the nearest hundredth. */
  function Round2(x: real): (r: real)
    requires x >= 0.0
    ensures r >= 0.0
    ensures -0.005 < r - x <= 0.005
    ensures (r * 100.0).Floor as real == r * 100.0
  {
    var n := Round(x * 100.0);
    assert n as real - 0.5 <= x * 100.0 < n as real + 0.5;
    assert n >= 0;
    var r := n as real / 100.0;
    assert r * 100.0 == n as real;
    r
  }

  lemma Round2Bounded(x: real, hi: int)
    requires 0.0 <= x <= hi as real
    ensures Round2(x) <= hi as real
  {
    RoundBetween(x * 100.0, 0, hi * 100);
  }

  function DigitChar(d: nat): (c: char)
    requires d < 10
    ensures '0' <= c <= '9' && DigitValue(c) == d
  {
    "0123456789"[d]
  }

  /** The value of a decimal digit character. */
  function DigitValue(c: char): int
  {
    c as int - '0' as int
  }

  /** Reading a string of decimal digits as a whole number, most significant first. */
  function DigitsValue(s: string): int
    decreases |s|
  {
    if |s| == 0 then 0 else DigitsValue(s[..|s| - 1]) * 10 + DigitValue(s[|s| - 1])
  }

  /** Decimal rendering of a whole number, as JavaScript prints it in a template. */
  function NatToString(n: nat): (s: string)
    ensures |s| >= 1
    ensures forall i :: 0 <= i < |s| ==> '0' <= s[i] <= '9'
    decreases n
  {
    if n < 10 then [DigitChar(n)] else NatToString(n / 10) + [DigitChar(n % 10)]
  }

  /** The digits spell n: reading them back gives n again. */
  lemma {:induction false} NatToStringReadsBack(n: nat)
    ensures DigitsValue(NatToString(n)) == n
    decreases n
  {
    if n >= 10 {
      NatToStringReadsBack(n / 10);
      var s := NatToString(n);
      assert s[..|s| - 1] == NatToString(n / 10);
    }
  }

  /** Different numbers print differently, so labels built from them differ. */
  lemma NatToStringInjective(m: nat, n: nat)
    ensures NatToString(m) == NatToString(n) ==> m == n
  {
    NatToStringReadsBack(m);
    NatToStringReadsBack(n);
  }

  function IntToString(n: int): (s: string)
    ensures |s| >= 1
  {
    if n < 0 then "-" + NatToString(-n) else NatToString(n)
  }
}
