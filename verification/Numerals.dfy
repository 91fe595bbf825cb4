/** Positional notation: what the number printers are meant to produce. */
module Numerals {

  function Magnitude(x: int): nat {
    if x < 0 then -x else x
  }

  /** `n` without its last `k` digits in base `b`. */
  function Shift(n: nat, b: nat, k: nat): nat
    requires b >= 2
  {
    if k == 0 then n else Shift(n, b, k - 1) / b
  }

  lemma DivSmaller(n: nat, b: nat)
    requires b >= 2 && n >= b
    ensures 0 < n / b < n
  {
  }

  lemma DivSmall(n: nat, b: nat)
    requires n < b
    ensures n / b == 0
  {
  }

  /** The number of digits; one for 0. */
  function Width(n: nat, b: nat): (w: nat)
    requires b >= 2
    ensures w >= 1
  {
    if n < b then 1 else DivSmaller(n, b); 1 + Width(n / b, b)
  }

  /** `n` written with `w` digits, zeros in front. */
  function DigitsOf(n: nat, b: nat, w: nat): (s: seq<nat>)
    requires b >= 2
    ensures |s| == w
  {
    seq(w, i requires 0 <= i < w => Shift(n, b, w - 1 - i) % b)
  }

  /** The value of the first `k` digits. */
  function Value(s: seq<nat>, b: nat, k: nat): nat
    requires k <= |s|
  {
    if k == 0 then 0 else b * Value(s, b, k - 1) + s[k - 1]
  }

  lemma {:induction false} ShiftFirst(n: nat, b: nat, k: nat)
    requires b >= 2
    ensures Shift(n, b, k + 1) == Shift(n / b, b, k)
  {
    if k > 0 {
      ShiftFirst(n, b, k - 1);
    }
  }

  /** The width is where the digits end: nothing is left after it, something before. */
  lemma {:induction false} WidthEnds(n: nat, b: nat, k: nat)
    requires b >= 2
    ensures Shift(n, b, k) == 0 <==> k >= Width(n, b) || n == 0
    decreases k
  {
    if k > 0 {
      ShiftFirst(n, b, k - 1);
      if n < b {
        DivSmall(n, b);
        WidthEnds(0, b, k - 1);
      } else {
        DivSmaller(n, b);
        WidthEnds(n / b, b, k - 1);
      }
    }
  }

  lemma DivMod(m: nat, b: nat)
    requires b > 0
    ensures m == b * (m / b) + m % b && m % b < b
  {
  }

  lemma {:induction false} MulGap(b: nat, x: nat, y: nat)
    ensures x > y ==> b * x >= b * y + b
  {
    if x > y {
      MulGap(b, x - 1, y);
      assert b * x == b * (x - 1) + b;
    }
  }

  /** Quotient and remainder are the only such pair. */
  lemma DivModUnique(b: nat, q: nat, r: nat, v: nat, d: nat)
    requires r < b && d < b && b * q + r == b * v + d
    ensures q == v && r == d
  {
    MulGap(b, q, v);
    MulGap(b, v, q);
  }

  lemma QuotientAndDigit(v: nat, d: nat, b: nat)
    requires b >= 2 && d < b
    ensures (b * v + d) / b == v && (b * v + d) % b == d
  {
    var x := b * v + d;
    DivMod(x, b);
    DivModUnique(b, x / b, x % b, v, d);
  }

  /** Reading the digits back gives the number, when there are enough of them. */
  lemma {:induction false} DigitsValue(n: nat, b: nat, w: nat, k: nat)
    requires b >= 2 && w >= Width(n, b) && k <= w
    ensures Value(DigitsOf(n, b, w), b, k) == Shift(n, b, w - k)
  {
    if k == 0 {
      WidthEnds(n, b, w);
    } else {
      DigitsValue(n, b, w, k - 1);
      var s := DigitsOf(n, b, w);
      assert s[k - 1] == Shift(n, b, w - k) % b;
      DivMod(Shift(n, b, w - k), b);
    }
  }

  /** Digits of the same number and value are the same digits. */
  lemma {:induction false} DigitsUnique(s: seq<nat>, b: nat, k: nat, i: nat)
    requires b >= 2 && i < k <= |s| && forall j :: 0 <= j < |s| ==> s[j] < b
    ensures s[i] == Shift(Value(s, b, k), b, k - 1 - i) % b
  {
    var v, d := Value(s, b, k - 1), s[k - 1];
    QuotientAndDigit(v, d, b);
    if i < k - 1 {
      DigitsUnique(s, b, k - 1, i);
      ShiftFirst(Value(s, b, k), b, k - 2 - i);
    }
  }
}
