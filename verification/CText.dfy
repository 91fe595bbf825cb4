/** C strings and the text helpers of lwIP's def.c. A string is the bytes before its NUL. */
module CText {
  import opened Words
  import opened Numerals

  /** tolower in the C locale. */
  function Lower(c: u8): u8 {
    if 65 <= c <= 90 then c + 32 else c
  }

  predicate IsText(s: seq<u8>) {
    forall i :: 0 <= i < |s| ==> s[i] != 0
  }

  /** Equality up to the case of letters. */
  predicate SameText(a: seq<u8>, b: seq<u8>) {
    |a| == |b| && forall i :: 0 <= i < |a| ==> Lower(a[i]) == Lower(b[i])
  }

  /** The character at `i`, or the NUL. */
  function CharAt(s: seq<u8>, i: nat): u8 {
    if i < |s| then s[i] else 0
  }

  /** Setting bit 5, which makes a capital small. */
  function SetBit5(c: u8): u8 {
    if (c / 32) % 2 == 0 then c + 32 else c
  }

  /** The test inside the loops: equal, or both letters that bit 5 makes equal. */
  predicate CaseEqual(c1: u8, c2: u8) {
    c1 == c2 || (97 <= SetBit5(c1) <= 122 && SetBit5(c1) == SetBit5(c2))
  }

  /** The test holds for equal characters and for the two cases of a letter, which differ by 32, and for
      no others. */
  lemma CaseEqualIsLower(c1: u8, c2: u8)
    ensures CaseEqual(c1, c2) <==> Lower(c1) == Lower(c2)
    ensures CaseEqual(c1, c2) <==> c1 == c2 || (65 <= c1 <= 90 && c2 == c1 + 32) || (65 <= c2 <= 90 && c1 == c2 + 32)
  {
  }

  /** How many characters a length bounds: it is counted down before it is looked at, so 0 wraps to the
      largest size. */
  function Bound(len: u32): nat {
    if len == 0 then TWO_32 else len
  }

  /** lwip_strnicmp: zero exactly when the bounded characters agree up to case. */
  method StrNICmp(a: seq<u8>, b: seq<u8>, len: u32) returns (r: int)
    requires IsText(a) && IsText(b)
    ensures r == 0 || r == 1
    ensures r == 0 <==> forall i :: 0 <= i < (if len == 0 then 0x1_0000_0000 else len) ==>
                          Lower(CharAt(a, i)) == Lower(CharAt(b, i))
  {
    var i: nat := 0;
    var left: u32 := len;
    var more := true;
    while more
      invariant 0 <= i <= Bound(len) && (more ==> i < Bound(len))
      invariant left == if i == 0 then len else Bound(len) - i
      invariant forall j :: 0 <= j < i ==> Lower(CharAt(a, j)) == Lower(CharAt(b, j))
      invariant more ==> i <= |a|
      invariant !more ==> i == Bound(len) || i > |a|
      decreases more, Bound(len) - i
    {
      var c1, c2 := CharAt(a, i), CharAt(b, i);
      CaseEqualIsLower(c1, c2);
      if !CaseEqual(c1, c2) {
        return 1;
      }
      i := i + 1;
      left := if left == 0 then TWO_32 - 1 else left - 1;
      more := left != 0 && c1 != 0;
    }
    assert i < Bound(len) ==> Lower(CharAt(b, |a|)) == Lower(CharAt(a, |a|)) == 0;
    assert i < Bound(len) ==> |b| <= |a|;
    r := 0;
  }

  /** lwip_stricmp: zero exactly for the same text. */
  method StrICmp(a: seq<u8>, b: seq<u8>) returns (r: int)
    requires IsText(a) && IsText(b)
    ensures r == 0 || r == 1
    ensures r == 0 <==> SameText(a, b)
  {
    var i := 0;
    while true
      invariant 0 <= i <= |a| && i <= |b|
      invariant forall j :: 0 <= j < i ==> Lower(CharAt(a, j)) == Lower(CharAt(b, j))
      decreases |a| - i
    {
      var c1, c2 := CharAt(a, i), CharAt(b, i);
      CaseEqualIsLower(c1, c2);
      if !CaseEqual(c1, c2) {
        return 1;
      }
      if c1 == 0 {
        assert i == |a| == |b|;
        assert forall j :: 0 <= j < |a| ==> Lower(a[j]) == Lower(CharAt(a, j)) == Lower(CharAt(b, j));
        return 0;
      }
      i := i + 1;
    }
  }

  // ---------------------------------------------------------------------------
  // lwip_itoa
  // ---------------------------------------------------------------------------

  function SignLen(number: int): nat {
    if number < 0 then 1 else 0
  }

  function DecimalLen(number: int): nat {
    SignLen(number) + Width(Magnitude(number), 10)
  }

  /** Character `i` of the decimal text: a sign if the number is negative, then its digits. */
  function DecimalChar(number: int, i: nat): u8
    requires i < DecimalLen(number)
  {
    if i < SignLen(number) then 45 else 48 + Shift(Magnitude(number), 10, DecimalLen(number) - 1 - i) % 10
  }

  function Decimal(number: int): (s: seq<u8>)
    ensures |s| == DecimalLen(number)
  {
    seq(DecimalLen(number), i requires 0 <= i < DecimalLen(number) => DecimalChar(number, i))
  }

  lemma DecimalDigits(number: int)
    ensures DigitValues(Decimal(number)[SignLen(number)..])
         == DigitsOf(Magnitude(number), 10, Width(Magnitude(number), 10))
  {
    var z, s := SignLen(number), Decimal(number);
    assert forall i :: 0 <= i < |s| - z ==> s[z..][i] == DecimalChar(number, z + i);
  }

  /** The digits of the text read back as the number, and only 0 begins with a zero. */
  lemma DecimalParses(number: int)
    ensures Value(DigitValues(Decimal(number)[SignLen(number)..]), 10, Width(Magnitude(number), 10))
         == Magnitude(number)
    ensures number < 0 ==> DecimalChar(number, 0) == 45
    ensures DecimalChar(number, SignLen(number)) == 48 ==> number == 0
  {
    var n, w := Magnitude(number), Width(Magnitude(number), 10);
    DecimalDigits(number);
    DigitsValue(n, 10, w, w);
    WidthEnds(n, 10, w - 1);
    WidthEnds(n, 10, w);
  }

  function DigitValues(s: seq<u8>): seq<nat> {
    seq(|s|, i requires 0 <= i < |s| => if s[i] < 48 then 0 else (s[i] - 48) as nat)
  }

  /** lwip_itoa, the loop: the digits of `whole`, backwards from the end of the buffer. */
  method DigitsFromEnd(result: array<u8>, bufsize: nat, res: nat, whole: nat) returns (tmp: nat, n: nat)
    requires res + 1 <= bufsize <= result.Length
    modifies result
    ensures res <= tmp < bufsize && n == Shift(whole, 10, bufsize - 1 - tmp)
    ensures n == 0 || tmp == res
    ensures bufsize - 1 - tmp <= Width(whole, 10) && (whole == 0 ==> tmp == bufsize - 1)
    ensures forall i :: tmp <= i < bufsize - 1 ==> result[i] == 48 + Shift(whole, 10, bufsize - 2 - i) % 10
    ensures forall i :: 0 <= i < tmp || bufsize - 1 <= i < result.Length ==> result[i] == old(result[i])
  {
    tmp, n := bufsize - 1, whole;
    while n != 0 && tmp > res
      invariant res <= tmp < bufsize && n == Shift(whole, 10, bufsize - 1 - tmp)
      invariant bufsize - 1 - tmp <= Width(whole, 10) && (whole == 0 ==> tmp == bufsize - 1)
      invariant forall i :: tmp <= i < bufsize - 1 ==> result[i] == 48 + Shift(whole, 10, bufsize - 2 - i) % 10
      invariant forall i :: 0 <= i < tmp || bufsize - 1 <= i < result.Length ==> result[i] == old(result[i])
    {
      WidthEnds(whole, 10, bufsize - 1 - tmp);
      var val := 48 + n % 10;
      tmp := tmp - 1;
      result[tmp] := val;
      n := n / 10;
    }
  }

  /** lwip_itoa, the sign and the digits behind it: `res` is where the digits are to go. */
  method SignAndDigits(result: array<u8>, bufsize: nat, number: int) returns (res: nat, tmp: nat, n: nat)
    requires 2 <= bufsize <= result.Length
    modifies result
    ensures res == SignLen(number) <= tmp < bufsize && n == Shift(Magnitude(number), 10, bufsize - 1 - tmp)
    ensures n == 0 || tmp == res
    ensures bufsize - 1 - tmp <= Width(Magnitude(number), 10) && (number == 0 ==> tmp == bufsize - 1)
    ensures number < 0 ==> result[0] == 45
    ensures forall i :: tmp <= i < bufsize - 1 ==>
              result[i] == 48 + Shift(Magnitude(number), 10, bufsize - 2 - i) % 10
    ensures result[bufsize - 1] == 0
    ensures forall i :: bufsize <= i < result.Length ==> result[i] == old(result[i])
  {
    res := 0;
    if number < 0 {
      result[res] := 45;
      res := res + 1;
    }
    result[bufsize - 1] := 0;
    var whole: nat := if number >= 0 then number else -number;
    tmp, n := DigitsFromEnd(result, bufsize, res, whole);
  }

  /** lwip_itoa: the decimal text and a NUL if they fit, else the empty string; nothing is written to
      an empty buffer. */
  method Itoa(result: array<u8>, bufsize: nat, number: int)
    requires bufsize <= result.Length && -0x8000_0000 < number < 0x8000_0000
    modifies result
    ensures DecimalLen(number) + 1 <= bufsize ==>
              && (forall i :: 0 <= i < DecimalLen(number) ==> result[i] == DecimalChar(number, i))
              && result[DecimalLen(number)] == 0
    ensures 0 < bufsize < DecimalLen(number) + 1 ==> result[0] == 0
    ensures forall i :: bufsize <= i < result.Length ==> result[i] == old(result[i])
  {
    if bufsize < 2 {
      if bufsize == 1 {
        result[0] := 0;
      }
      return;
    }
    var res, tmp, n := SignAndDigits(result, bufsize, number);
    WidthEnds(Magnitude(number), 10, bufsize - 1 - tmp);
    if n != 0 {
      result[0] := 0;
      return;
    }
    if result[tmp] == 0 {
      result[res] := 48;
      res := res + 1;
      result[res] := 0;
      return;
    }
    forall k | 0 <= k < bufsize - tmp {
      result[res + k] := result[tmp + k];
    }
  }
}
