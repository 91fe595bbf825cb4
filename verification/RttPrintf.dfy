/** The number printers of SEGGER_RTT_printf and the buffered output under them. */
module RttPrintf {
  import opened Words
  import opened Numerals

  // ---------------------------------------------------------------------------
  // Powers
  // ---------------------------------------------------------------------------

  function Pow(b: nat, k: nat): nat {
    if k == 0 then 1 else b * Pow(b, k - 1)
  }

  /** The value of the last `k` digits. */
  function Rest(n: nat, b: nat, k: nat): nat
    requires b >= 2
  {
    if k == 0 then 0 else Pow(b, k - 1) * (Shift(n, b, k - 1) % b) + Rest(n, b, k - 1)
  }

  lemma {:induction false} PowGrows(b: nat, j: nat, k: nat)
    requires b >= 1 && j <= k
    ensures 1 <= Pow(b, j) <= Pow(b, k)
  {
    if k > j {
      PowGrows(b, j, k - 1);
      MulAtLeast(b, Pow(b, k - 1));
    } else if k > 0 {
      PowGrows(b, j - 1, k - 1);
      MulAtLeast(b, Pow(b, k - 1));
    }
  }

  lemma MulAtLeast(b: nat, x: nat)
    requires b >= 1
    ensures b * x >= x
  {
  }

  lemma MulBelow(p: nat, d: nat, r: nat, b: nat)
    requires d < b && r < p
    ensures p * d + r < b * p
  {
    assert p * d + p == p * (d + 1);
    assert p * (d + 1) <= p * b by {
      MulGap(p, b, d);
    }
    assert p * b == b * p;
  }

  lemma {:induction false} RestBelow(n: nat, b: nat, k: nat)
    requires b >= 2
    ensures Rest(n, b, k) < Pow(b, k)
  {
    if k > 0 {
      RestBelow(n, b, k - 1);
      MulBelow(Pow(b, k - 1), Shift(n, b, k - 1) % b, Rest(n, b, k - 1), b);
    }
  }

  lemma Regroup(p: nat, b: nat, q: nat, d: nat, r: nat)
    ensures p * (b * q + d) + r == (b * p) * q + (p * d + r)
  {
    assert p * (b * q + d) == p * (b * q) + p * d;
    assert p * (b * q) == (b * p) * q;
  }

  /** The digits cut off and the digits left make up the number. */
  lemma {:induction false} ShiftAndRest(n: nat, b: nat, k: nat)
    requires b >= 2
    ensures n == Pow(b, k) * Shift(n, b, k) + Rest(n, b, k)
  {
    if k > 0 {
      ShiftAndRest(n, b, k - 1);
      var m := Shift(n, b, k - 1);
      DivMod(m, b);
      Regroup(Pow(b, k - 1), b, m / b, m % b, Rest(n, b, k - 1));
    }
  }

  /** Dividing the last `k + 1` digits by the power of the first of them gives it and the others. */
  lemma LeadingDigit(n: nat, b: nat, k: nat)
    requires b >= 2
    ensures Pow(b, k) > 0
    ensures Rest(n, b, k + 1) / Pow(b, k) == Shift(n, b, k) % b
    ensures Rest(n, b, k + 1) - Pow(b, k) * (Shift(n, b, k) % b) == Rest(n, b, k)
  {
    PowGrows(b, 0, k);
    RestBelow(n, b, k);
    QuotientOf(Pow(b, k), Shift(n, b, k) % b, Rest(n, b, k));
  }

  lemma QuotientOf(p: nat, d: nat, r: nat)
    requires r < p
    ensures (p * d + r) / p == d
  {
    var x := p * d + r;
    assert x == p * (x / p) + x % p;
    DivModUnique(p, x / p, x % p, d, r);
  }

  /** Dividing by the power cuts the digits off. */
  lemma DivByPow(n: nat, b: nat, k: nat)
    requires b >= 2
    ensures Pow(b, k) > 0 && n / Pow(b, k) == Shift(n, b, k)
  {
    PowGrows(b, 0, k);
    ShiftAndRest(n, b, k);
    RestBelow(n, b, k);
    QuotientOf(Pow(b, k), Shift(n, b, k), Rest(n, b, k));
  }

  lemma DivAtLeast(n: nat, p: nat, b: nat)
    requires p > 0 && n / p >= b
    ensures b * p <= n
  {
    assert n == p * (n / p) + n % p;
    MulGapOrEqual(p, n / p, b);
    assert b * p == p * b;
  }

  lemma MulGapOrEqual(p: nat, x: nat, y: nat)
    requires x >= y
    ensures p * x >= p * y
  {
  }

  // ---------------------------------------------------------------------------
  // The texts
  // ---------------------------------------------------------------------------

  const V2C: string := "0123456789ABCDEF"

  datatype Flags = Flags(leftJustify: bool, padZero: bool, printSign: bool)

  /** The digits that `v` is printed with, and how many. */
  function Columns(v: nat, base: nat, numDigits: nat): nat
    requires base >= 2
  {
    if numDigits > Width(v, base) then numDigits else Width(v, base)
  }

  function DigitText(v: nat, base: nat, w: nat): (s: string)
    requires 2 <= base <= 16
    ensures |s| == w
  {
    seq(w, i requires 0 <= i < w => V2C[Shift(v, base, w - 1 - i) % base])
  }

  function Fill(c: char, n: nat): string {
    seq(n, _ => c)
  }

  function PadWidth(w: nat, fieldWidth: nat): nat {
    if fieldWidth > w then fieldWidth - w else 0
  }

  /** The digit loop: one character for each place from `digit` down, as long as the table has one. */
  function PlaceText(v: nat, base: nat, digit: nat): Option<string>
    requires base >= 2
    decreases digit
  {
    if digit == 0 then Some("")
    else if v / digit >= |V2C| then None
    else
      DivSmallerOrZero(digit, base);
      match PlaceText(Remainder(v, digit), base, digit / base)
      case None => None
      case Some(s) => Some([V2C[v / digit]] + s)
  }

  lemma DivSmallerOrZero(n: nat, b: nat)
    requires n > 0 && b >= 2
    ensures 0 <= n / b < n
  {
  }

  /** What is left of `v` after its digit at a place. */
  function Remainder(v: nat, digit: nat): nat
    requires digit > 0
  {
    DivMod(v, digit);
    v - digit * (v / digit)
  }

  /** The place after the requested number of digits, in 32 bits. */
  function PlaceIn32(base: nat, numDigits: nat): u32 {
    if numDigits <= 1 then 1 else Pow(base, numDigits - 1) % TWO_32
  }

  /** The place where the first digit of `v` is found, from `digit` on; 0 if the source divides by 0. */
  function RaisedPlace(v: nat, base: nat, digit: nat): nat
    requires base >= 2
    decreases v - digit
  {
    if digit == 0 || v / digit < base then digit
    else
      DivAtLeast(v, digit, base);
      MulMore(base, digit);
      RaisedPlace(v, base, base * digit)
  }

  lemma MulMore(b: nat, x: nat)
    requires b >= 2 && x > 0
    ensures b * x > x
  {
  }

  function FirstPlace(v: nat, base: nat, numDigits: nat): nat
    requires base >= 2
  {
    RaisedPlace(v, base, PlaceIn32(base, numDigits))
  }

  /** The source neither divides by 0 nor looks behind the end of its table of digits. */
  predicate Defined(v: nat, base: nat, numDigits: nat)
    requires base >= 2
  {
    FirstPlace(v, base, numDigits) != 0 && PlaceText(v, base, FirstPlace(v, base, numDigits)).Some?
  }

  /** The digits that are printed. */
  function Printed(v: nat, base: nat, numDigits: nat): string
    requires base >= 2
  {
    if Defined(v, base, numDigits) then PlaceText(v, base, FirstPlace(v, base, numDigits)).value else ""
  }

  /** What _PrintUnsigned prints. */
  function UnsignedText(v: nat, base: nat, numDigits: nat, fieldWidth: nat, flags: Flags): string
    requires 2 <= base <= 16
  {
    var n := PadWidth(Columns(v, base, numDigits), fieldWidth);
    if flags.leftJustify then Printed(v, base, numDigits) + Fill(' ', n)
    else Fill(if flags.padZero && numDigits == 0 then '0' else ' ', n) + Printed(v, base, numDigits)
  }

  function Sign(v: int, flags: Flags): string {
    if v < 0 then "-" else if flags.printSign then "+" else ""
  }

  /** What _PrintInt prints. */
  function IntText(v: int, base: nat, numDigits: nat, fieldWidth: nat, flags: Flags): string
    requires 2 <= base <= 16
  {
    var w := Columns(Magnitude(v), base, numDigits);
    var n := PadWidth(w + |Sign(v, flags)|, fieldWidth);
    var digits := Printed(Magnitude(v), base, numDigits);
    if flags.leftJustify then Sign(v, flags) + digits + Fill(' ', n)
    else if flags.padZero && numDigits == 0 then Sign(v, flags) + Fill('0', n) + digits
    else Fill(' ', n) + Sign(v, flags) + digits
  }

  // ---------------------------------------------------------------------------
  // Reading back
  // ---------------------------------------------------------------------------

  predicate IsDigit(c: char) {
    '0' <= c <= '9' || 'A' <= c <= 'F'
  }

  function DigitOf(c: char): nat
    requires IsDigit(c)
  {
    if c <= '9' then (c - '0') as nat else (c - 'A') as nat + 10
  }

  /** The number in the first `k` characters, with everything but digits passed over. */
  function Read(s: string, base: nat, k: nat): nat
    requires k <= |s|
  {
    if k == 0 then 0
    else if IsDigit(s[k - 1]) then base * Read(s, base, k - 1) + DigitOf(s[k - 1])
    else Read(s, base, k - 1)
  }

  lemma DigitOfV2C(d: nat)
    requires d < 16
    ensures IsDigit(V2C[d]) && DigitOf(V2C[d]) == d
  {
  }

  /** Spaces, signs and zeros in front, and spaces behind, read as nothing. */
  lemma {:induction false} ReadPassesOver(s: string, base: nat, j: nat, k: nat)
    requires j <= k <= |s|
    requires forall i :: j <= i < k ==> !IsDigit(s[i]) || (s[i] == '0' && Read(s, base, j) == 0)
    ensures Read(s, base, k) == Read(s, base, j)
  {
    if k > j {
      ReadPassesOver(s, base, j, k - 1);
    }
  }

  /** Where a text has the digits of `v`, reading them appends `v` to nothing. */
  lemma {:induction false} ReadDigits(s: string, v: nat, base: nat, at: nat, w: nat, k: nat)
    requires 2 <= base <= 16 && w >= Width(v, base) && k <= w && at + w <= |s|
    requires Read(s, base, at) == 0
    requires forall i :: 0 <= i < w ==> s[at..][i] == DigitText(v, base, w)[i]
    ensures Read(s, base, at + k) == Shift(v, base, w - k)
  {
    if k == 0 {
      WidthEnds(v, base, w);
    } else {
      ReadDigits(s, v, base, at, w, k - 1);
      var m := Shift(v, base, w - k);
      assert s[at + (k - 1)] == s[at..][k - 1] == V2C[m % base];
      DivMod(m, base);
      ReadOneDigit(s, base, at + (k - 1), m % base);
    }
  }

  lemma ReadOneDigit(s: string, base: nat, j: nat, d: nat)
    requires j < |s| && d < 16 && s[j] == V2C[d]
    ensures Read(s, base, j + 1) == base * Read(s, base, j) + d
  {
    DigitOfV2C(d);
  }

  /** Digits between a front of signs, spaces and zeros and a tail without digits. */
  lemma ReadFramed(front: string, v: nat, base: nat, w: nat, tail: string)
    requires 2 <= base <= 16 && w >= Width(v, base)
    requires forall i :: 0 <= i < |front| ==> !IsDigit(front[i]) || front[i] == '0'
    requires forall i :: 0 <= i < |tail| ==> !IsDigit(tail[i])
    ensures var s := front + DigitText(v, base, w) + tail; Read(s, base, |s|) == v
  {
    var s := front + DigitText(v, base, w) + tail;
    var at := |front|;
    ReadPassesOver(s, base, 0, at);
    assert forall i :: 0 <= i < w ==> s[at..][i] == DigitText(v, base, w)[i];
    ReadDigits(s, v, base, at, w, w);
    ReadPassesOver(s, base, at + w, |s|);
  }

  /** Printing and reading back, with any padding: the text is as long as asked for and gives `v`. */
  lemma UnsignedTextParses(v: nat, base: nat, numDigits: nat, fieldWidth: nat, flags: Flags)
    requires 2 <= base <= 16 && PlaceFits(base, numDigits)
    ensures var s := UnsignedText(v, base, numDigits, fieldWidth, flags);
            && Read(s, base, |s|) == v
            && |s| == (var w := Columns(v, base, numDigits); if fieldWidth > w then fieldWidth else w)
  {
    PrintedIsDigitText(v, base, numDigits);
    var s := UnsignedText(v, base, numDigits, fieldWidth, flags);
    var w := Columns(v, base, numDigits);
    var c := if !flags.leftJustify && flags.padZero && numDigits == 0 then '0' else ' ';
    var pad := Fill(c, PadWidth(w, fieldWidth));
    if flags.leftJustify {
      ReadFramed([], v, base, w, pad);
      assert s == [] + DigitText(v, base, w) + pad;
    } else {
      ReadFramed(pad, v, base, w, []);
      assert s == pad + DigitText(v, base, w) + [];
    }
  }

  /** The digits of a text as numbers. */
  function DigitsIn(s: string): seq<nat>
    requires forall i :: 0 <= i < |s| ==> IsDigit(s[i])
  {
    seq(|s|, i requires 0 <= i < |s| => DigitOf(s[i]))
  }

  lemma {:induction false} ReadIsValue(s: string, base: nat, k: nat)
    requires (forall i :: 0 <= i < |s| ==> IsDigit(s[i])) && k <= |s|
    ensures Read(s, base, k) == Value(DigitsIn(s), base, k)
  {
    if k > 0 {
      ReadIsValue(s, base, k - 1);
    }
  }

  lemma V2COfDigit(c: char)
    requires IsDigit(c)
    ensures DigitOf(c) < 16 && V2C[DigitOf(c)] == c
  {
  }

  /** The digits that are printed are the only ones, of that number of digits, that read as `v`. */
  lemma DigitTextUnique(s: string, v: nat, base: nat)
    requires 2 <= base <= 16 && forall i :: 0 <= i < |s| ==> IsDigit(s[i]) && DigitOf(s[i]) < base
    requires Read(s, base, |s|) == v
    ensures s == DigitText(v, base, |s|)
  {
    ReadIsValue(s, base, |s|);
    forall i | 0 <= i < |s|
      ensures s[i] == DigitText(v, base, |s|)[i]
    {
      DigitsUnique(DigitsIn(s), base, |s|, i);
      V2COfDigit(s[i]);
    }
  }

  lemma DigitTextHasNoSign(v: nat, base: nat, w: nat)
    requires 2 <= base <= 16
    ensures '-' !in DigitText(v, base, w)
  {
    forall i | 0 <= i < w ensures DigitText(v, base, w)[i] != '-' {
      DigitOfV2C(Shift(v, base, w - 1 - i) % base);
    }
  }

  /** The text that _PrintInt prints: a front with the sign, the digits, a tail of spaces. */
  function Front(v: int, base: nat, numDigits: nat, fieldWidth: nat, flags: Flags): string
    requires 2 <= base <= 16
  {
    var n := PadWidth(Columns(Magnitude(v), base, numDigits) + |Sign(v, flags)|, fieldWidth);
    if flags.leftJustify then Sign(v, flags)
    else if flags.padZero && numDigits == 0 then Sign(v, flags) + Fill('0', n)
    else Fill(' ', n) + Sign(v, flags)
  }

  lemma FrontHasSign(v: int, base: nat, numDigits: nat, fieldWidth: nat, flags: Flags)
    requires 2 <= base <= 16
    ensures var f := Front(v, base, numDigits, fieldWidth, flags);
            && (forall i :: 0 <= i < |f| ==> !IsDigit(f[i]) || f[i] == '0')
            && ('-' in f <==> v < 0)
  {
    assert v < 0 ==> '-' in Sign(v, flags);
  }

  /** The same for signed numbers: the digits read back as the magnitude, and only a negative number
      has a minus sign. */
  lemma IntTextParses(v: int, base: nat, numDigits: nat, fieldWidth: nat, flags: Flags)
    requires 2 <= base <= 16 && PlaceFits(base, numDigits)
    ensures var s := IntText(v, base, numDigits, fieldWidth, flags);
            && Read(s, base, |s|) == Magnitude(v)
            && ('-' in s <==> v < 0)
            && |s| == (var w := Columns(Magnitude(v), base, numDigits) + |Sign(v, flags)|;
                       if fieldWidth > w then fieldWidth else w)
  {
    var w := Columns(Magnitude(v), base, numDigits);
    var front := Front(v, base, numDigits, fieldWidth, flags);
    var tail := if flags.leftJustify then Fill(' ', PadWidth(w + |Sign(v, flags)|, fieldWidth)) else [];
    IntTextFramed(v, base, numDigits, fieldWidth, flags);
    FrontHasSign(v, base, numDigits, fieldWidth, flags);
    DigitTextHasNoSign(Magnitude(v), base, w);
    ReadFramed(front, Magnitude(v), base, w, tail);
  }

  lemma IntTextFramed(v: int, base: nat, numDigits: nat, fieldWidth: nat, flags: Flags)
    requires 2 <= base <= 16 && PlaceFits(base, numDigits)
    ensures var w := Columns(Magnitude(v), base, numDigits);
            var tail := if flags.leftJustify then Fill(' ', PadWidth(w + |Sign(v, flags)|, fieldWidth)) else [];
            IntText(v, base, numDigits, fieldWidth, flags)
            == Front(v, base, numDigits, fieldWidth, flags) + DigitText(Magnitude(v), base, w) + tail
  {
    PrintedIsDigitText(Magnitude(v), base, numDigits);
    var digits := Printed(Magnitude(v), base, numDigits);
    var front := Front(v, base, numDigits, fieldWidth, flags);
    assert front + digits + [] == front + digits;
  }

  // ---------------------------------------------------------------------------
  // When the digit counter of 32 bits is wide enough
  // ---------------------------------------------------------------------------

  /** The place value of the first of `numDigits` digits is an unsigned number. */
  predicate PlaceFits(base: nat, numDigits: nat) {
    numDigits > 1 ==> Pow(base, numDigits - 1) < TWO_32
  }

  /** In base 10 that is so up to ten digits, in base 16 up to eight; the ninth hexadecimal place is 0
      in 32 bits, and the source would divide by it. */
  lemma PlaceFitsIff(numDigits: nat)
    ensures PlaceFits(10, numDigits) <==> numDigits <= 10
    ensures PlaceFits(16, numDigits) <==> numDigits <= 8
    ensures Pow(16, 8) % TWO_32 == 0
  {
    PowersOfTen();
    PowersOfSixteen();
    if numDigits > 10 {
      PowGrows(10, 10, numDigits - 1);
    } else if numDigits > 0 {
      PowGrows(10, numDigits - 1, 9);
    }
    if numDigits > 8 {
      PowGrows(16, 8, numDigits - 1);
    } else if numDigits > 0 {
      PowGrows(16, numDigits - 1, 7);
    }
  }

  /** Where the place fits, it is the first of the columns. */
  lemma FirstPlaceFits(v: nat, base: nat, numDigits: nat)
    requires 2 <= base <= 16 && PlaceFits(base, numDigits)
    ensures FirstPlace(v, base, numDigits) == Pow(base, Columns(v, base, numDigits) - 1) > 0
  {
    var k := if numDigits <= 1 then 0 else numDigits - 1;
    assert PlaceIn32(base, numDigits) == Pow(base, k);
    RaisedToColumns(v, base, k);
  }

  lemma {:induction false} RaisedToColumns(v: nat, base: nat, k: nat)
    requires base >= 2
    ensures RaisedPlace(v, base, Pow(base, k))
         == Pow(base, if k + 1 > Width(v, base) then k else Width(v, base) - 1) > 0
    decreases Width(v, base) - k
  {
    PowGrows(base, 0, k);
    DivByPow(v, base, k);
    PlaceDecides(v, base, k);
    if k + 1 < Width(v, base) {
      RaisedToColumns(v, base, k + 1);
    } else {
      PowGrows(base, 0, if k + 1 > Width(v, base) then k else Width(v, base) - 1);
    }
  }

  /** From the power of its first place the digit loop prints the last `k` digits. */
  lemma {:induction false} PlaceTextIsDigits(n: nat, base: nat, k: nat)
    requires 2 <= base <= 16
    ensures PlaceText(Rest(n, base, k), base, if k == 0 then 0 else Pow(base, k - 1)) == Some(DigitText(n, base, k))
  {
    if k > 0 {
      LeadingDigit(n, base, k - 1);
      PreviousPlace(base, k);
      PlaceTextIsDigits(n, base, k - 1);
      assert DigitText(n, base, k) == [V2C[Shift(n, base, k - 1) % base]] + DigitText(n, base, k - 1);
    }
  }

  /** Where the place fits, exactly the digits of the number are printed. */
  lemma PrintedIsDigitText(v: nat, base: nat, numDigits: nat)
    requires 2 <= base <= 16 && PlaceFits(base, numDigits)
    ensures Defined(v, base, numDigits)
    ensures Printed(v, base, numDigits) == DigitText(v, base, Columns(v, base, numDigits))
  {
    var w := Columns(v, base, numDigits);
    FirstPlaceFits(v, base, numDigits);
    NothingAbove(v, base, w);
    PlaceTextIsDigits(v, base, w);
  }

  /** Otherwise there is a number for which the source divides by 0 or prints a digit where a zero is due. */
  lemma UnfitPlaceGoesWrong(base: nat, numDigits: nat) returns (v: u32)
    requires 2 <= base <= 16 && !PlaceFits(base, numDigits)
    ensures !Defined(v, base, numDigits)
         || Printed(v, base, numDigits) != DigitText(v, base, Columns(v, base, numDigits))
  {
    v := PlaceIn32(base, numDigits);
    if v != 0 {
      OwnPlace(v, base);
      ZeroDue(v, base, numDigits);
    }
  }

  /** A number printed from the place of its own value begins with a 1. */
  lemma OwnPlace(v: nat, base: nat)
    requires base >= 2 && v > 0
    ensures RaisedPlace(v, base, v) == v
    ensures PlaceText(v, base, v).Some? ==> PlaceText(v, base, v).value != "" && PlaceText(v, base, v).value[0] == '1'
  {
    QuotientOf(v, 1, 0);
    assert v / v == 1;
  }

  /** A number below the first place of `w` digits is to begin with a 0. */
  lemma ZeroDue(v: nat, base: nat, w: nat)
    requires 2 <= base <= 16 && w > 0 && v < Pow(base, w - 1)
    ensures Columns(v, base, w) == w && DigitText(v, base, w)[0] == '0'
  {
    DivByPow(v, base, w - 1);
    DivSmall(v, Pow(base, w - 1));
    WidthEnds(v, base, w - 1);
    DivSmall(0, base);
  }

  /** The digits are right for every number exactly if the place of the first requested one fits. */
  lemma PrintedRightIff(base: nat, numDigits: nat)
    requires 2 <= base <= 16
    ensures PlaceFits(base, numDigits) <==>
              forall v: u32 :: Defined(v, base, numDigits)
                            && Printed(v, base, numDigits) == DigitText(v, base, Columns(v, base, numDigits))
  {
    if PlaceFits(base, numDigits) {
      forall v: u32
        ensures Defined(v, base, numDigits)
        ensures Printed(v, base, numDigits) == DigitText(v, base, Columns(v, base, numDigits))
      {
        PrintedIsDigitText(v, base, numDigits);
      }
    } else {
      var v := UnfitPlaceGoesWrong(base, numDigits);
    }
  }

  lemma PowersOfTen()
    ensures Pow(10, 9) == 1_000_000_000 && Pow(10, 10) == 10_000_000_000
  {
    assert Pow(10, 3) == 1000;
    assert Pow(10, 6) == 1_000_000;
    assert Pow(10, 8) == 100_000_000;
  }

  lemma PowersOfSixteen()
    ensures Pow(16, 7) == 0x1000_0000 && Pow(16, 8) == 0x1_0000_0000
  {
    assert Pow(16, 3) == 0x1000;
    assert Pow(16, 6) == 0x100_0000;
  }

  /** Character by character: the digits stand at the left or at the right, and the rest is padding. */
  lemma UnsignedLayout(v: nat, base: nat, numDigits: nat, fieldWidth: nat, flags: Flags, i: nat)
    requires 2 <= base <= 16 && PlaceFits(base, numDigits)
    requires i < |UnsignedText(v, base, numDigits, fieldWidth, flags)|
    ensures var s, w := UnsignedText(v, base, numDigits, fieldWidth, flags), Columns(v, base, numDigits);
            var at := if flags.leftJustify then 0 else |s| - w;
            && at >= 0
            && s[i] == if at <= i < at + w then DigitText(v, base, w)[i - at]
                       else if !flags.leftJustify && flags.padZero && numDigits == 0 then '0' else ' '
  {
    PrintedIsDigitText(v, base, numDigits);
  }

  /** The same for signed numbers. A minus sign for a negative number, or a plus sign for another one if it
      is asked for, stands before the digits: behind padding spaces, and in front of padding zeros. */
  lemma IntLayout(v: int, base: nat, numDigits: nat, fieldWidth: nat, flags: Flags, i: nat)
    requires 2 <= base <= 16 && PlaceFits(base, numDigits)
    requires i < |IntText(v, base, numDigits, fieldWidth, flags)|
    ensures var s, w := IntText(v, base, numDigits, fieldWidth, flags), Columns(Magnitude(v), base, numDigits);
            var signed := v < 0 || flags.printSign;
            var zeros := !flags.leftJustify && flags.padZero && numDigits == 0;
            var at := if flags.leftJustify then (if signed then 1 else 0) else |s| - w;
            var sign := if zeros then 0 else at - 1;
            && at >= (if signed then 1 else 0)
            && s[i] == if at <= i < at + w then DigitText(Magnitude(v), base, w)[i - at]
                       else if signed && i == sign then (if v < 0 then '-' else '+')
                       else if zeros then '0' else ' '
  {
    PrintedIsDigitText(Magnitude(v), base, numDigits);
  }

  // ---------------------------------------------------------------------------
  // The printers
  // ---------------------------------------------------------------------------

  /** SEGGER_RTT_PRINTF_DESC */
  class Descriptor {
    var buffer: array<char>
    var cnt: nat
    var returnValue: int

    /** What the ring buffer has taken. */
    ghost var taken: string

    ghost predicate Valid()
      reads this
    {
      && 0 < buffer.Length && cnt <= buffer.Length && returnValue >= -1
      && (returnValue >= 0 ==> cnt < buffer.Length)
    }

    /** All characters stored so far. */
    ghost function Text(): string
      reads this, buffer
      requires cnt <= buffer.Length
    {
      taken + buffer[..cnt]
    }

    /** The output goes on, or it broke off at a buffer that was not taken. */
    ghost predicate Going()
      reads this
    {
      Valid() && (returnValue < 0 ==> cnt == buffer.Length)
    }

    constructor (size: nat)
      requires size > 0
      ensures Going() && fresh(buffer) && returnValue == 0 && Text() == ""
    {
      buffer := new char[size];
      cnt, returnValue, taken := 0, 0, "";
    }

    /** _StoreChar: the character is stored, and a full buffer passed on if the ring buffer takes it. */
    method StoreChar(c: char)
      requires Going()
      modifies this`cnt, this`returnValue, this`taken, buffer
      ensures Valid()
      ensures old(returnValue) >= 0 ==> Going() && Text() == old(Text()) + [c]
      ensures old(returnValue) >= 0 ==> returnValue == old(returnValue) + 1 || returnValue == -1
      ensures old(returnValue) < 0 ==> Text() == old(Text()) && returnValue == -1
    {
      if cnt + 1 <= buffer.Length {
        buffer[cnt] := c;
        cnt := cnt + 1;
        returnValue := returnValue + 1;
      }
      if cnt == buffer.Length {
        var accepted: bool := *;
        if !accepted {
          returnValue := -1;
        } else {
          taken := taken + buffer[..];
          cnt := 0;
        }
      }
    }

    /** Everything of `out` is stored behind `before`; or the output broke off on the way. */
    ghost predicate Stored(before: string, out: string)
      reads this, buffer
      requires Valid()
    {
      if returnValue >= 0 then Text() == before + out else before <= Text() <= before + out
    }

    /** Output broken off in a first part is broken off in the whole. */
    lemma StoredLonger(before: string, first: string, second: string)
      requires Valid() && Stored(before, first)
      ensures returnValue < 0 ==> Stored(before, first + second)
    {
      assert before + (first + second) == (before + first) + second;
    }

    lemma StoredNext(before: string, first: string, second: string)
      requires Valid() && Stored(before + first, second)
      ensures Stored(before, first + second)
    {
      assert before + (first + second) == (before + first) + second;
    }

    lemma StoredTail(before: string, first: string, middle: string, second: string)
      requires Valid()
      requires (middle == before + first && Stored(middle, second))
            || (returnValue < 0 && before <= middle <= before + first && Text() == middle)
      ensures Stored(before, first + second)
    {
      assert before + (first + second) == (before + first) + second;
    }

    /** The loops that store `c` until the field is no wider than the number. */
    method PadTo(c: char, width: nat, fieldWidth: nat) returns (rest: nat)
      requires Going()
      modifies this`cnt, this`returnValue, this`taken, buffer
      ensures Valid() && rest <= fieldWidth
      ensures old(returnValue) >= 0 ==> Going() && Stored(old(Text()), Fill(c, PadWidth(width, fieldWidth)))
      ensures returnValue >= 0 ==> rest == if fieldWidth > width then width else fieldWidth
      ensures old(returnValue) < 0 ==> returnValue < 0 && Text() == old(Text())
    {
      rest := fieldWidth;
      while rest != 0 && width < rest
        invariant rest <= fieldWidth && (rest < width ==> rest == fieldWidth)
        invariant Going()
        invariant old(returnValue) >= 0 ==> returnValue >= 0 && Text() == old(Text()) + Fill(c, fieldWidth - rest)
        invariant old(returnValue) < 0 ==> returnValue < 0 && Text() == old(Text())
        decreases rest
      {
        rest := rest - 1;
        StoreChar(c);
        if returnValue < 0 {
          break;
        }
      }
    }

    /** The loop that prints one digit after another, each worth `digit` in what is left of the number. */
    method PrintDigits(number: u32, base: nat, place: u32)
      requires Going() && returnValue >= 0 && base >= 2
      requires place > 0 && PlaceText(number, base, place).Some?
      modifies this`cnt, this`returnValue, this`taken, buffer
      ensures Going() && Stored(old(Text()), PlaceText(number, base, place).value)
    {
      var v: nat, digit: nat := number, place;
      ghost var before, all, printed := Text(), PlaceText(number, base, place).value, 0;
      while digit != 0
        invariant Going() && returnValue >= 0 && 0 <= printed <= |all|
        invariant PlaceText(v, base, digit) == Some(all[printed..]) && Text() == before + all[..printed]
        decreases digit
      {
        NextDigit(v, base, digit, all, printed);
        var div := v / digit;
        v := v - digit * div;
        StoreChar(V2C[div]);
        OneMoreChar(before, all, printed);
        printed := printed + 1;
        if returnValue < 0 {
          break;
        }
        digit := digit / base;
      }
      assert returnValue >= 0 ==> printed == |all|;
      PrefixOf(before, all, printed);
    }

    /** _PrintUnsigned */
    method PrintUnsigned(v: u32, base: nat, numDigits: u32, fieldWidth: u32, flags: Flags)
      requires Going() && returnValue >= 0 && 2 <= base <= 16 && Defined(v, base, numDigits)
      modifies this`cnt, this`returnValue, this`taken, buffer
      ensures Valid() && Stored(old(Text()), UnsignedText(v, base, numDigits, fieldWidth, flags))
    {
      var width := ColumnsOf(v, base, numDigits);
      var field: nat := fieldWidth;
      ghost var before, digits := Text(), Printed(v, base, numDigits);
      ghost var pad := PadWidth(width, fieldWidth);
      ghost var front := "";
      if !flags.leftJustify {
        var c := if flags.padZero && numDigits == 0 then '0' else ' ';
        front := Fill(c, pad);
        field := PadTo(c, width, field);
        StoredLonger(before, front, digits);
      }
      if returnValue >= 0 {
        assert Text() == before + front;
        var digit := HighestPlace(v, base, numDigits);
        PrintDigits(v, base, digit);
        StoredNext(before, front, digits);
        if flags.leftJustify {
          assert front + digits == digits;
          ghost var middle := Text();
          field := PadTo(' ', width, field);
          StoredTail(before, digits, middle, Fill(' ', pad));
        }
      }
    }

    method PrintSign(v: int, flags: Flags)
      requires Going() && returnValue >= 0
      modifies this`cnt, this`returnValue, this`taken, buffer
      ensures Going() && Stored(old(Text()), Sign(v, flags))
    {
      if v < 0 {
        StoreChar('-');
      } else if flags.printSign {
        StoreChar('+');
      }
    }

    /** The leading zeros of _PrintInt. */
    method LeadingZeros(v: int, base: nat, numDigits: u32, width: nat, field: u32, flags: Flags) returns (rest: u32)
      requires Going() && returnValue >= 0 && 2 <= base <= 16 && width == Columns(Magnitude(v), base, numDigits)
      requires flags.leftJustify || (flags.padZero && numDigits == 0) || field <= width
      modifies this`cnt, this`returnValue, this`taken, buffer
      ensures Going() && Stored(old(Text()), Zeros(v, base, numDigits, field, flags))
      ensures returnValue >= 0 ==> if flags.leftJustify then rest == field else rest <= width
    {
      rest := field;
      if flags.padZero && !flags.leftJustify && numDigits == 0 {
        rest := PadTo('0', width, field);
      }
    }

    /** What _PrintInt stores behind the leading spaces. */
    method PrintSignedPart(v: int, base: nat, numDigits: u32, width: nat, field: u32, flags: Flags)
      requires Going() && returnValue >= 0 && 2 <= base <= 16 && Defined(Magnitude(v), base, numDigits)
      requires -0x8000_0000 < v < 0x8000_0000 && width == Columns(Magnitude(v), base, numDigits)
      requires flags.leftJustify || (flags.padZero && numDigits == 0) || field <= width
      modifies this`cnt, this`returnValue, this`taken, buffer
      ensures Valid() && Stored(old(Text()), SignedPart(v, base, numDigits, field, flags))
    {
      ghost var before := Text();
      ghost var sign, zeros := Sign(v, flags), Zeros(v, base, numDigits, field, flags);
      ghost var digits := UnsignedText(Magnitude(v), base, numDigits, RestField(field, flags), flags);
      PrintSign(v, flags);
      StoredLonger(before, sign, zeros + digits);
      if returnValue >= 0 {
        var rest := LeadingZeros(v, base, numDigits, width, field, flags);
        StoredNext(before, sign, zeros);
        StoredLonger(before, sign + zeros, digits);
        assert sign + zeros + digits == sign + (zeros + digits);
        if returnValue >= 0 {
          NarrowField(Magnitude(v), base, numDigits, rest, field, flags);
          PrintUnsigned(Magnitude(v), base, numDigits, rest, flags);
          StoredNext(before, sign + zeros, digits);
        }
      }
    }

    /** The leading spaces of _PrintInt, unless zeros are to fill the field. */
    method LeadingSpaces(v: int, base: nat, numDigits: u32, width: nat, field: u32, flags: Flags) returns (rest: u32)
      requires Going() && returnValue >= 0 && 2 <= base <= 16 && width == Columns(Magnitude(v), base, numDigits)
      modifies this`cnt, this`returnValue, this`taken, buffer
      ensures Going() && Stored(old(Text()), Spaces(v, base, numDigits, field, flags))
      ensures returnValue >= 0 ==>
                if flags.leftJustify || (flags.padZero && numDigits == 0) then rest == field else rest <= width
    {
      rest := field;
      if (!flags.padZero || numDigits != 0) && !flags.leftJustify {
        rest := PadTo(' ', width, field);
      }
    }

    /** _PrintInt */
    method PrintInt(v: int, base: nat, numDigits: u32, fieldWidth: u32, flags: Flags)
      requires Going() && returnValue >= 0 && 2 <= base <= 16 && Defined(Magnitude(v), base, numDigits)
      requires -0x8000_0000 < v < 0x8000_0000
      modifies this`cnt, this`returnValue, this`taken, buffer
      ensures Valid() && Stored(old(Text()), IntText(v, base, numDigits, fieldWidth, flags))
    {
      IntTextParts(v, base, numDigits, fieldWidth, flags);
      ghost var before := Text();
      var width := ColumnsOf(if v < 0 then -v else v, base, numDigits);
      var field: u32 := fieldWidth;
      if field > 0 && (v < 0 || flags.printSign) {
        field := field - 1;
      }
      ghost var spaces := Spaces(v, base, numDigits, field, flags);
      ghost var signed := SignedPart(v, base, numDigits, field, flags);
      ghost var whole := IntText(v, base, numDigits, fieldWidth, flags);
      assert whole == spaces + signed;
      var rest := LeadingSpaces(v, base, numDigits, width, field, flags);
      StoredLonger(before, spaces, signed);
      if returnValue >= 0 {
        NarrowSigned(v, base, numDigits, rest, field, flags);
        PrintSignedPart(v, base, numDigits, width, rest, flags);
        StoredNext(before, spaces, signed);
      }
      assert Stored(before, whole);
    }
  }

  /** What the field has left for padding and digits once the sign has its place. */
  function FieldFor(v: int, fieldWidth: nat, flags: Flags): nat {
    if fieldWidth > 0 && Sign(v, flags) != "" then fieldWidth - 1 else fieldWidth
  }

  function RestField(field: nat, flags: Flags): nat {
    if flags.leftJustify then field else 0
  }

  function Spaces(v: int, base: nat, numDigits: nat, field: nat, flags: Flags): string
    requires 2 <= base <= 16
  {
    if !flags.leftJustify && !(flags.padZero && numDigits == 0)
    then Fill(' ', PadWidth(Columns(Magnitude(v), base, numDigits), field)) else ""
  }

  function Zeros(v: int, base: nat, numDigits: nat, field: nat, flags: Flags): string
    requires 2 <= base <= 16
  {
    if !flags.leftJustify && flags.padZero && numDigits == 0
    then Fill('0', PadWidth(Columns(Magnitude(v), base, numDigits), field)) else ""
  }

  function SignedPart(v: int, base: nat, numDigits: nat, field: nat, flags: Flags): string
    requires 2 <= base <= 16
  {
    Sign(v, flags) + Zeros(v, base, numDigits, field, flags)
    + UnsignedText(Magnitude(v), base, numDigits, RestField(field, flags), flags)
  }

  lemma Glue(a: string, b: string, c: string)
    ensures a + b + c == a + (b + c) && "" + (a + b) == a + b && a + "" == a && "" + (a + b + c) == a + b + c
  {
    assert a + b + c == a + (b + c);
  }

  /** Without a field only the digits are printed. */
  lemma NoField(v: nat, base: nat, numDigits: nat, flags: Flags)
    requires 2 <= base <= 16
    ensures UnsignedText(v, base, numDigits, 0, flags) == Printed(v, base, numDigits)
  {
    var digits := Printed(v, base, numDigits);
    assert digits + Fill(' ', 0) == digits;
  }

  /** The text of a signed number is made of the parts that the printer stores one after another. */
  lemma IntTextParts(v: int, base: nat, numDigits: nat, fieldWidth: nat, flags: Flags)
    requires 2 <= base <= 16
    ensures var field := FieldFor(v, fieldWidth, flags);
            IntText(v, base, numDigits, fieldWidth, flags)
            == Spaces(v, base, numDigits, field, flags) + SignedPart(v, base, numDigits, field, flags)
  {
    var w := Columns(Magnitude(v), base, numDigits);
    var n := PadWidth(w, FieldFor(v, fieldWidth, flags));
    assert n == PadWidth(w + |Sign(v, flags)|, fieldWidth);
    var digits := Printed(Magnitude(v), base, numDigits);
    Glue(Sign(v, flags), digits, Fill(' ', n));
    Glue(Sign(v, flags), Fill('0', n), digits);
    Glue(Fill(' ', n), Sign(v, flags), digits);
    NoField(Magnitude(v), base, numDigits, flags);
  }

  /** A field that is not wider than the number makes no difference. */
  lemma NarrowField(v: nat, base: nat, numDigits: nat, rest: nat, field: nat, flags: Flags)
    requires 2 <= base <= 16
    requires if flags.leftJustify then rest == field else rest <= Columns(v, base, numDigits)
    ensures UnsignedText(v, base, numDigits, rest, flags)
         == UnsignedText(v, base, numDigits, RestField(field, flags), flags)
  {
  }

  /** Leading spaces leave no room for zeros. */
  lemma NarrowSigned(v: int, base: nat, numDigits: nat, rest: nat, field: nat, flags: Flags)
    requires 2 <= base <= 16
    requires if flags.leftJustify || (flags.padZero && numDigits == 0) then rest == field
             else rest <= Columns(Magnitude(v), base, numDigits)
    ensures SignedPart(v, base, numDigits, rest, flags) == SignedPart(v, base, numDigits, field, flags)
  {
  }

  /** What one turn of the digit loop finds. */
  lemma NextDigit(v: nat, base: nat, digit: nat, all: string, n: nat)
    requires base >= 2 && digit > 0 && n <= |all| && PlaceText(v, base, digit) == Some(all[n..])
    ensures n < |all| && 0 <= v / digit < |V2C| && all[n] == V2C[v / digit]
    ensures digit * (v / digit) <= v && 0 <= digit / base < digit
    ensures PlaceText(v - digit * (v / digit), base, digit / base) == Some(all[n + 1..])
  {
    DivMod(v, digit);
    DivSmallerOrZero(digit, base);
    var rest := PlaceText(Remainder(v, digit), base, digit / base);
    assert all[n..] == [V2C[v / digit]] + rest.value;
    assert all[n..][1..] == all[n + 1..];
  }

  lemma OneMoreChar(before: string, all: string, n: nat)
    requires n < |all|
    ensures before + all[..n] + [all[n]] == before + all[..n + 1]
  {
  }

  lemma PrefixOf(before: string, all: string, n: nat)
    requires n <= |all|
    ensures before <= before + all[..n] <= before + all
    ensures n == |all| ==> all[..n] == all
  {
  }

  /** The loop that finds the width of a number. */
  method ColumnsOf(v: nat, base: nat, numDigits: nat) returns (width: nat)
    requires base >= 2
    ensures width == Columns(v, base, numDigits)
  {
    var number: nat := v;
    width := 1;
    while number >= base
      invariant width >= 1 && width + Width(number, base) == 1 + Width(v, base)
      decreases number
    {
      DivSmaller(number, base);
      number := number / base;
      width := width + 1;
    }
    if numDigits > width {
      width := numDigits;
    }
  }

  /** The loop that finds the value of the highest place. The product leaves 32 bits only while requested
      digits are counted. */
  method HighestPlace(v: u32, base: nat, numDigits: u32) returns (digit: u32)
    requires 2 <= base <= 16 && FirstPlace(v, base, numDigits) != 0
    ensures digit == FirstPlace(v, base, numDigits)
  {
    digit := 1;
    var left: nat := numDigits;
    ghost var k: nat := 0;
    while true
      invariant left > 1 ==> k == numDigits - left && digit == Pow(base, k) % TWO_32
      invariant left <= 1 ==> FirstPlace(v, base, numDigits) == RaisedPlace(v, base, digit)
      decreases left, v - digit
    {
      if left > 1 {
        left := left - 1;
        WrappedPower(base, k, digit);
        digit := base * digit % TWO_32;
        k := k + 1;
      } else {
        if v / digit < base {
          break;
        }
        RaiseOnce(v, base, digit);
        digit := base * digit % TWO_32;
      }
    }
  }

  lemma RaiseOnce(v: u32, base: nat, digit: nat)
    requires base >= 2 && digit > 0 && v / digit >= base
    ensures digit < base * digit <= v && base * digit % TWO_32 == base * digit
    ensures RaisedPlace(v, base, digit) == RaisedPlace(v, base, base * digit)
  {
    DivAtLeast(v, digit, base);
    MulMore(base, digit);
    SmallMod(base * digit);
  }

  lemma SmallMod(x: u32)
    ensures x % TWO_32 == x
  {
  }

  lemma WrappedPower(b: nat, k: nat, x: nat)
    requires x == Pow(b, k) % TWO_32
    ensures b * x % TWO_32 == Pow(b, k + 1) % TWO_32
  {
    var q := Pow(b, k) / TWO_32;
    assert Pow(b, k) == TWO_32 * q + x;
    assert b * (TWO_32 * q + x) == TWO_32 * (b * q) + b * x;
    ModMultiple(b * x, b * q);
  }

  lemma ModMultiple(x: nat, q: nat)
    ensures (TWO_32 * q + x) % TWO_32 == x % TWO_32
  {
  }

  /** A place is high enough exactly if it is the first of the number or above it. */
  lemma PlaceDecides(v: nat, base: nat, k: nat)
    requires base >= 2
    ensures Shift(v, base, k) < base <==> k + 1 >= Width(v, base)
  {
    WidthEnds(v, base, k + 1);
    var m := Shift(v, base, k);
    if m < base {
      DivSmall(m, base);
    } else {
      DivSmaller(m, base);
    }
  }

  lemma NothingAbove(v: nat, base: nat, w: nat)
    requires base >= 2 && w >= Width(v, base)
    ensures v == Rest(v, base, w)
  {
    ShiftAndRest(v, base, w);
    WidthEnds(v, base, w);
  }

  lemma PreviousPlace(base: nat, k: nat)
    requires base >= 2 && k > 0
    ensures Pow(base, k - 1) > 0
    ensures Pow(base, k - 1) / base == if k == 1 then 0 else Pow(base, k - 2)
  {
    PowGrows(base, 0, k - 1);
    if k > 1 {
      QuotientAndDigit(Pow(base, k - 2), 0, base);
    } else {
      DivSmall(1, base);
    }
  }
}
