/** Division by a generator polynomial, in any ring of remainders: the laws that one round satisfies and
    what they say about whole messages. */
module Remainders {

  /** Remainders with addition `xor`, zero `zero`, multiplication by x without reduction `twice`, the
      test `top` for the coefficient that this loses, and the generator `poly` without that term. */
  datatype Ring<!T> =
    Ring(xor: (T, T) -> T, zero: T, twice: T -> T, half: T -> T, top: T -> bool, poly: T, width: nat)

  /** Addition is that of polynomials over the field of two elements. */
  ghost predicate Adds<T(!new)>(r: Ring<T>) {
    && (forall a, b :: r.xor(a, b) == r.xor(b, a))
    && (forall a, b, c :: Sum3(r, a, b, c) == r.xor(a, r.xor(b, c)))
    && (forall a :: r.xor(a, a) == r.zero && r.xor(a, r.zero) == a)
  }

  /** Doubling and the coefficient it loses are linear. */
  ghost predicate Doubles<T(!new)>(r: Ring<T>) {
    && (forall a, b {:trigger r.twice(r.xor(a, b))} :: r.twice(r.xor(a, b)) == r.xor(r.twice(a), r.twice(b)))
    && (forall a, b {:trigger r.top(r.xor(a, b))} :: r.top(r.xor(a, b)) == (r.top(a) != r.top(b)))
  }

  /** A round can be undone and keeps the parity of the coefficients. */
  ghost predicate Reduces<T(!new)>(r: Ring<T>) {
    && (forall a {:trigger Round(r, a)} :: r.half(Round(r, a)) == a)
    && (forall a {:trigger Round(r, a)} :: OddBits(r, Round(r, a), r.width) == OddBits(r, a, r.width))
  }

  ghost predicate Lawful<T(!new)>(r: Ring<T>) {
    Adds(r) && Doubles(r) && Reduces(r)
  }

  function Sum3<T>(r: Ring<T>, a: T, b: T, c: T): T {
    r.xor(r.xor(a, b), c)
  }

  /** Multiply by x and reduce by the generator. */
  function Round<T>(r: Ring<T>, a: T): T {
    if r.top(a) then r.xor(r.twice(a), r.poly) else r.twice(a)
  }

  function Rounds<T>(r: Ring<T>, a: T, k: nat): T {
    if k == 0 then a else Round(r, Rounds(r, a, k - 1))
  }

  function Twice<T>(r: Ring<T>, a: T, k: nat): T {
    if k == 0 then a else r.twice(Twice(r, a, k - 1))
  }

  /** The parity of the `k` upper coefficients. */
  predicate OddBits<T>(r: Ring<T>, a: T, k: nat) {
    k > 0 && (OddBits(r, a, k - 1) != r.top(Twice(r, a, k - 1)))
  }

  /** What one message element does to the register. */
  function Absorb<T>(r: Ring<T>, crc: T, b: T): T {
    Rounds(r, r.xor(crc, b), r.width)
  }

  /** The register after the first `n` elements. */
  function Register<T>(r: Ring<T>, data: seq<T>, n: nat): T
    requires n <= |data|
  {
    if n == 0 then r.zero else Absorb(r, Register(r, data, n - 1), data[n - 1])
  }

  function Remainder<T>(r: Ring<T>, data: seq<T>): T {
    Register(r, data, |data|)
  }

  // ---------------------------------------------------------------------------
  // One element
  // ---------------------------------------------------------------------------

  lemma Swap<T(!new)>(r: Ring<T>, p: T, q: T, c: T, d: T)
    requires Lawful(r)
    ensures r.xor(r.xor(p, q), r.xor(c, d)) == r.xor(r.xor(p, c), r.xor(q, d))
  {
    assert Sum3(r, p, q, r.xor(c, d)) == r.xor(p, r.xor(q, r.xor(c, d)));
    assert Sum3(r, q, c, d) == r.xor(q, r.xor(c, d));
    assert Sum3(r, c, q, d) == r.xor(c, r.xor(q, d));
    assert Sum3(r, p, c, r.xor(q, d)) == r.xor(p, r.xor(c, r.xor(q, d)));
  }

  /** Only equals cancel. */
  lemma Cancel<T(!new)>(r: Ring<T>, p: T, q: T)
    requires Lawful(r)
    ensures r.xor(p, q) == r.zero <==> p == q
    ensures r.xor(r.xor(p, q), q) == p
  {
    assert Sum3(r, p, q, q) == r.xor(p, r.xor(q, q));
    assert r.xor(r.zero, q) == r.xor(q, r.zero);
  }

  lemma AddGenerator<T(!new)>(r: Ring<T>, x: T, y: T, g: T)
    requires Lawful(r)
    ensures r.xor(r.xor(x, g), r.xor(y, g)) == r.xor(x, y)
    ensures r.xor(r.xor(x, g), y) == r.xor(r.xor(x, y), g)
    ensures r.xor(x, r.xor(y, g)) == r.xor(r.xor(x, y), g)
  {
    Swap(r, x, g, y, g);
    assert Sum3(r, x, y, g) == r.xor(x, r.xor(y, g));
    assert Sum3(r, x, g, y) == r.xor(x, r.xor(g, y));
  }

  lemma RoundLinear<T(!new)>(r: Ring<T>, a: T, b: T)
    requires Lawful(r)
    ensures Round(r, r.xor(a, b)) == r.xor(Round(r, a), Round(r, b))
  {
    AddGenerator(r, r.twice(a), r.twice(b), r.poly);
  }

  lemma {:induction false} RoundsLinear<T(!new)>(r: Ring<T>, a: T, b: T, k: nat)
    requires Lawful(r)
    ensures Rounds(r, r.xor(a, b), k) == r.xor(Rounds(r, a, k), Rounds(r, b, k))
  {
    if k > 0 {
      RoundsLinear(r, a, b, k - 1);
      RoundLinear(r, Rounds(r, a, k - 1), Rounds(r, b, k - 1));
    }
  }

  /** The rounds are injective, because the constant term tells whether a round reduced. */
  lemma {:induction false} RoundsInjective<T(!new)>(r: Ring<T>, a: T, b: T, k: nat)
    requires Lawful(r)
    ensures Rounds(r, a, k) == Rounds(r, b, k) <==> a == b
  {
    if k > 0 {
      RoundsInjective(r, a, b, k - 1);
      assert r.half(Round(r, Rounds(r, a, k - 1))) == Rounds(r, a, k - 1);
      assert r.half(Round(r, Rounds(r, b, k - 1))) == Rounds(r, b, k - 1);
    }
  }

  lemma RoundsOfZero<T(!new)>(r: Ring<T>, k: nat)
    requires Lawful(r)
    ensures Rounds(r, r.zero, k) == r.zero
  {
    RoundsLinear(r, r.zero, r.zero, k);
    assert r.xor(r.zero, r.zero) == r.zero;
  }

  lemma {:induction false} OddBitsAdd<T(!new)>(r: Ring<T>, a: T, b: T, k: nat)
    requires Lawful(r)
    ensures Twice(r, r.xor(a, b), k) == r.xor(Twice(r, a, k), Twice(r, b, k))
    ensures OddBits(r, r.xor(a, b), k) == (OddBits(r, a, k) != OddBits(r, b, k))
  {
    if k > 0 {
      OddBitsAdd(r, a, b, k - 1);
    }
  }

  lemma {:induction false} RoundsKeepParity<T(!new)>(r: Ring<T>, a: T, k: nat)
    requires Lawful(r)
    ensures OddBits(r, Rounds(r, a, k), r.width) == OddBits(r, a, r.width)
  {
    if k > 0 {
      RoundsKeepParity(r, a, k - 1);
    }
  }

  lemma EightRounds<T>(r: Ring<T>, a: T)
    ensures Rounds(r, a, 8)
         == Round(r, Round(r, Round(r, Round(r, Round(r, Round(r, Round(r, Round(r, a))))))))
  {
    assert Rounds(r, a, 1) == Round(r, a);
    assert Rounds(r, a, 2) == Round(r, Rounds(r, a, 1));
    assert Rounds(r, a, 4) == Round(r, Round(r, Rounds(r, a, 2)));
    assert Rounds(r, a, 6) == Round(r, Round(r, Rounds(r, a, 4)));
  }

  lemma AbsorbLinear<T(!new)>(r: Ring<T>, p: T, q: T, c: T, d: T)
    requires Lawful(r)
    ensures Absorb(r, r.xor(p, q), r.xor(c, d)) == r.xor(Absorb(r, p, c), Absorb(r, q, d))
  {
    Swap(r, p, q, c, d);
    RoundsLinear(r, r.xor(p, c), r.xor(q, d), r.width);
  }

  lemma AbsorbInjective<T(!new)>(r: Ring<T>, p: T, q: T, b: T)
    requires Lawful(r)
    ensures Absorb(r, p, b) == Absorb(r, q, b) <==> p == q
    ensures Absorb(r, b, p) == Absorb(r, b, q) <==> p == q
  {
    Cancel(r, p, b);
    Cancel(r, q, b);
    RoundsInjective(r, r.xor(p, b), r.xor(q, b), r.width);
    assert r.xor(b, p) == r.xor(p, b) && r.xor(b, q) == r.xor(q, b);
  }

  // ---------------------------------------------------------------------------
  // Messages
  // ---------------------------------------------------------------------------

  /** The elementwise sum of two messages of one length. */
  function Sum<T>(r: Ring<T>, a: seq<T>, b: seq<T>): seq<T>
    requires |a| == |b|
  {
    seq(|a|, i requires 0 <= i < |a| => r.xor(a[i], b[i]))
  }

  lemma {:induction false} RegisterLinear<T(!new)>(r: Ring<T>, a: seq<T>, b: seq<T>, n: nat)
    requires Lawful(r) && |a| == |b| && n <= |a|
    ensures Register(r, Sum(r, a, b), n) == r.xor(Register(r, a, n), Register(r, b, n))
  {
    if n == 0 {
      assert r.xor(r.zero, r.zero) == r.zero;
    } else {
      RegisterLinear(r, a, b, n - 1);
      RegisterStep(r, a, b, n - 1, Sum(r, a, b)[n - 1], Register(r, Sum(r, a, b), n - 1));
    }
  }

  lemma RegisterStep<T(!new)>(r: Ring<T>, a: seq<T>, b: seq<T>, n: nat, c: T, x: T)
    requires Lawful(r) && n < |a| && n < |b| && c == r.xor(a[n], b[n])
    requires x == r.xor(Register(r, a, n), Register(r, b, n))
    ensures Absorb(r, x, c) == r.xor(Register(r, a, n + 1), Register(r, b, n + 1))
  {
    AbsorbLinear(r, Register(r, a, n), Register(r, b, n), a[n], b[n]);
  }

  lemma {:induction false} RegisterPrefix<T(!new)>(r: Ring<T>, a: seq<T>, b: seq<T>, n: nat)
    requires n <= |a| && n <= |b| && forall i :: 0 <= i < n ==> a[i] == b[i]
    ensures Register(r, a, n) == Register(r, b, n)
  {
    if n > 0 {
      RegisterPrefix(r, a, b, n - 1);
    }
  }

  /** Messages that agree from `m` on have equal remainders only if the registers agree there. */
  lemma {:induction false} RestKeepsDifference<T(!new)>(r: Ring<T>, a: seq<T>, b: seq<T>, m: nat, n: nat)
    requires Lawful(r) && |a| == |b| && m <= n <= |a| && forall i :: m <= i < n ==> a[i] == b[i]
    ensures Register(r, a, n) == Register(r, b, n) <==> Register(r, a, m) == Register(r, b, m)
  {
    if n > m {
      RestKeepsDifference(r, a, b, m, n - 1);
      AbsorbInjective(r, Register(r, a, n - 1), Register(r, b, n - 1), a[n - 1]);
    }
  }

  /** A message followed by `b` leaves no remainder exactly when `b` is the message's remainder. */
  lemma NoRemainder<T(!new)>(r: Ring<T>, data: seq<T>, b: T)
    requires Lawful(r)
    ensures Remainder(r, data + [b]) == r.zero <==> b == Remainder(r, data)
  {
    var c := Remainder(r, data);
    RegisterPrefix(r, data + [b], data, |data|);
    RoundsOfZero(r, r.width);
    RoundsInjective(r, r.xor(c, b), r.zero, r.width);
    Cancel(r, c, b);
  }

  /** The parity of all coefficients of the first `n` elements. */
  predicate OddMessage<T>(r: Ring<T>, data: seq<T>, n: nat)
    requires n <= |data|
  {
    n > 0 && (OddMessage(r, data, n - 1) != OddBits(r, data[n - 1], r.width))
  }

  lemma {:induction false} RegisterParity<T(!new)>(r: Ring<T>, data: seq<T>, n: nat)
    requires Lawful(r) && n <= |data|
    ensures OddBits(r, Register(r, data, n), r.width) == OddMessage(r, data, n)
  {
    if n == 0 {
      OddBitsAdd(r, r.zero, r.zero, r.width);
      assert r.xor(r.zero, r.zero) == r.zero;
    } else {
      RegisterParity(r, data, n - 1);
      OddBitsAdd(r, Register(r, data, n - 1), data[n - 1], r.width);
      RoundsKeepParity(r, r.xor(Register(r, data, n - 1), data[n - 1]), r.width);
    }
  }

  /** Changing one element changes the remainder. */
  lemma OneElement<T(!new)>(r: Ring<T>, s: seq<T>, i: nat, b: T)
    requires Lawful(r) && i < |s| && b != s[i]
    ensures Remainder(r, s[i := b]) != Remainder(r, s)
  {
    var t := s[i := b];
    RegisterPrefix(r, s, t, i);
    AbsorbInjective(r, s[i], b, Register(r, s, i));
    RestKeepsDifference(r, s, t, i + 1, |s|);
  }

  /** `t` is `s` with the error patterns `e1` and `e2` added to elements `i` and `i + 1`. */
  ghost predicate Differ<T>(r: Ring<T>, s: seq<T>, t: seq<T>, i: nat, e1: T, e2: T) {
    && |s| == |t| && i + 1 < |s| && t[i] == r.xor(s[i], e1) && t[i + 1] == r.xor(s[i + 1], e2)
    && forall j :: 0 <= j < |s| && j != i && j != i + 1 ==> s[j] == t[j]
  }

  /** An error in the register and one in the element cancel only when equal. */
  lemma AbsorbErrors<T(!new)>(r: Ring<T>, p: T, b: T, d: T, e: T)
    requires Lawful(r)
    ensures Absorb(r, p, b) == Absorb(r, r.xor(p, d), r.xor(b, e)) <==> d == e
  {
    var x := r.xor(p, b);
    Swap(r, p, d, b, e);
    RoundsInjective(r, x, r.xor(x, r.xor(d, e)), r.width);
    Cancel(r, d, e);
    SumIsSame(r, x, r.xor(d, e));
  }

  /** An error in one element becomes its own remainder in the register. */
  lemma AbsorbError<T(!new)>(r: Ring<T>, c: T, a: T, e: T)
    requires Lawful(r)
    ensures Absorb(r, c, r.xor(a, e)) == r.xor(Absorb(r, c, a), Rounds(r, e, r.width))
  {
    assert Sum3(r, c, a, e) == r.xor(c, r.xor(a, e));
    RoundsLinear(r, r.xor(c, a), e, r.width);
  }

  /** Two adjacent errors go unseen exactly when the second is the remainder of the first. */
  lemma TwoElements<T(!new)>(r: Ring<T>, s: seq<T>, t: seq<T>, i: nat, e1: T, e2: T)
    requires Lawful(r) && Differ(r, s, t, i, e1, e2)
    ensures Remainder(r, s) == Remainder(r, t) <==> Rounds(r, e1, r.width) == e2
  {
    RegisterPrefix(r, s, t, i);
    var c := Register(r, s, i);
    AbsorbError(r, c, s[i], e1);
    AbsorbErrors(r, Absorb(r, c, s[i]), s[i + 1], Rounds(r, e1, r.width), e2);
    TwoSteps(r, s, i);
    TwoSteps(r, t, i);
    RestKeepsDifference(r, s, t, i + 2, |s|);
  }

  lemma TwoSteps<T>(r: Ring<T>, s: seq<T>, i: nat)
    requires i + 1 < |s|
    ensures Register(r, s, i + 2) == Absorb(r, Absorb(r, Register(r, s, i), s[i]), s[i + 1])
  {
    assert Register(r, s, i + 2) == Absorb(r, Register(r, s, i + 1), s[i + 1]);
  }

  lemma SumIsSame<T(!new)>(r: Ring<T>, x: T, e: T)
    requires Lawful(r)
    ensures r.xor(x, e) == x <==> e == r.zero
  {
    Cancel(r, e, x);
    assert r.xor(x, e) == r.xor(e, x);
    Cancel(r, r.xor(e, x), x);
    Cancel(r, e, r.zero);
  }
}

/** CRC-8 with the generator x^8 + x^2 + x + 1 (section 4.3.2 of ITU-T I.432.1, without its coset). */
module Crc8 {
  import opened Remainders

  type Byte = bv8

  function Xor(a: Byte, b: Byte): Byte {
    a ^ b
  }

  function Double(a: Byte): Byte {
    a << 1
  }

  predicate Top(a: Byte) {
    a & 0x80 != 0
  }

  /** The body of the inner loop. */
  function Shift(crc: Byte): Byte {
    if crc & 0x80 != 0 then (crc << 1) ^ 0x07 else crc << 1
  }

  /** Undoing a round. */
  function Unshift(crc: Byte): Byte {
    if crc & 0x01 != 0 then ((crc ^ 0x07) >> 1) | 0x80 else crc >> 1
  }

  const BYTES: Ring<Byte> := Ring(Xor, 0, Double, Unshift, Top, 0x07, 8)

  function Crc(data: seq<Byte>): Byte {
    Remainder(BYTES, data)
  }

  /** crc8_atm */
  method Crc8Atm(data: seq<Byte>) returns (crc: Byte)
    ensures crc == Crc(data)
  {
    crc := 0;
    var i := 0;
    while i < |data|
      invariant 0 <= i <= |data| && crc == Register(BYTES, data, i)
    {
      crc := crc ^ data[i];
      ghost var c := crc;
      var j := 0;
      while j < 8
        invariant 0 <= j <= 8 && crc == Rounds(BYTES, c, j)
      {
        if crc & 0x80 != 0 {
          crc := (crc << 1) ^ 0x07;
        } else {
          crc := crc << 1;
        }
        j := j + 1;
      }
      i := i + 1;
    }
  }

  // ---------------------------------------------------------------------------
  // The laws of one round
  // ---------------------------------------------------------------------------

  lemma XorCommutes(a: Byte, b: Byte)
    ensures BYTES.xor(a, b) == BYTES.xor(b, a)
  {
  }

  lemma XorCancels(a: Byte)
    ensures BYTES.xor(a, a) == 0 && BYTES.xor(a, 0) == a
  {
  }

  lemma XorThree(a: Byte, b: Byte, c: Byte)
    ensures Xor(Xor(a, b), c) == Xor(a, Xor(b, c))
  {
  }

  lemma XorAssociates(a: Byte, b: Byte, c: Byte)
    ensures Sum3(BYTES, a, b, c) == BYTES.xor(a, BYTES.xor(b, c))
  {
    XorThree(a, b, c);
  }

  lemma DoubleLinear(a: Byte, b: Byte)
    ensures BYTES.twice(BYTES.xor(a, b)) == BYTES.xor(BYTES.twice(a), BYTES.twice(b))
  {
  }

  lemma TopLinear(a: Byte, b: Byte)
    ensures BYTES.top(BYTES.xor(a, b)) == (BYTES.top(a) != BYTES.top(b))
  {
  }

  lemma RoundIsShift(a: Byte)
    ensures Round(BYTES, a) == Shift(a)
  {
  }

  lemma RoundUndone(a: Byte)
    ensures Unshift(Round(BYTES, a)) == a
  {
  }

  /** The exclusive or of the eight bits of a byte. */
  predicate Odd(b: Byte) {
    (((b & 0x80 != 0) != (b & 0x40 != 0)) != ((b & 0x20 != 0) != (b & 0x10 != 0)))
    != (((b & 0x08 != 0) != (b & 0x04 != 0)) != ((b & 0x02 != 0) != (b & 0x01 != 0)))
  }

  lemma OddBitsOfByte(b: Byte)
    ensures OddBits(BYTES, b, 8) == Odd(b)
  {
    var b1, b2, b3, b4, b5, b6, b7 := b << 1, b << 2, b << 3, b << 4, b << 5, b << 6, b << 7;
    assert Twice(BYTES, b, 0) == b;
    assert Twice(BYTES, b, 1) == b1;
    assert Twice(BYTES, b, 2) == b2;
    assert Twice(BYTES, b, 3) == b3;
    assert Twice(BYTES, b, 4) == b4;
    assert Twice(BYTES, b, 5) == b5;
    assert Twice(BYTES, b, 6) == b6;
    assert Twice(BYTES, b, 7) == b7;
    assert OddBits(BYTES, b, 1) == Top(b);
    assert OddBits(BYTES, b, 2) == (Top(b) != Top(b1));
    assert OddBits(BYTES, b, 3) == (OddBits(BYTES, b, 2) != Top(b2));
    assert OddBits(BYTES, b, 4) == (OddBits(BYTES, b, 2) != (Top(b2) != Top(b3)));
    assert OddBits(BYTES, b, 5) == (OddBits(BYTES, b, 4) != Top(b4));
    assert OddBits(BYTES, b, 6) == (OddBits(BYTES, b, 4) != (Top(b4) != Top(b5)));
  }

  lemma ShiftParity(a: Byte)
    ensures Odd(Shift(a)) == Odd(a)
  {
  }

  lemma BytesAdd()
    ensures Adds(BYTES)
  {
    forall a: Byte, b: Byte ensures BYTES.xor(a, b) == BYTES.xor(b, a) {
      XorCommutes(a, b);
    }
    forall a: Byte, b: Byte, c: Byte ensures Sum3(BYTES, a, b, c) == BYTES.xor(a, BYTES.xor(b, c)) {
      XorAssociates(a, b, c);
    }
    forall a: Byte ensures BYTES.xor(a, a) == 0 && BYTES.xor(a, 0) == a {
      XorCancels(a);
    }
  }

  lemma BytesDouble()
    ensures Doubles(BYTES)
  {
    forall a: Byte, b: Byte ensures BYTES.twice(BYTES.xor(a, b)) == BYTES.xor(BYTES.twice(a), BYTES.twice(b)) {
      DoubleLinear(a, b);
    }
    forall a: Byte, b: Byte ensures BYTES.top(BYTES.xor(a, b)) == (BYTES.top(a) != BYTES.top(b)) {
      TopLinear(a, b);
    }
  }

  lemma BytesReduce()
    ensures Reduces(BYTES)
  {
    forall a: Byte
      ensures Unshift(Round(BYTES, a)) == a
      ensures OddBits(BYTES, Round(BYTES, a), 8) == OddBits(BYTES, a, 8)
    {
      RoundUndone(a);
      RoundIsShift(a);
      ShiftParity(a);
      OddBitsOfByte(a);
      OddBitsOfByte(Shift(a));
    }
  }

  lemma Laws()
    ensures Lawful(BYTES)
  {
    BytesAdd();
    BytesDouble();
    BytesReduce();
  }

  // ---------------------------------------------------------------------------
  // What the CRC promises
  // ---------------------------------------------------------------------------

  /** The CRC of an exclusive or is the exclusive or of the CRCs. */
  lemma CrcLinear(a: seq<Byte>, b: seq<Byte>)
    requires |a| == |b|
    ensures Crc(Sum(BYTES, a, b)) == Xor(Crc(a), Crc(b))
  {
    Laws();
    RegisterLinear(BYTES, a, b, |a|);
  }

  /** A message followed by its own CRC has the CRC 0; any other last byte gives another value. */
  lemma CheckByte(data: seq<Byte>, b: Byte)
    ensures Crc(data + [b]) == 0 <==> b == Crc(data)
  {
    Laws();
    NoRemainder(BYTES, data, b);
  }

  /** The CRC has the parity of the whole message, so an odd number of flipped bits is always seen. */
  lemma CrcParity(data: seq<Byte>)
    ensures Odd(Crc(data)) == OddMessage(BYTES, data, |data|)
  {
    Laws();
    RegisterParity(BYTES, data, |data|);
    OddBitsOfByte(Crc(data));
  }

  /** Messages that differ in one byte have different CRCs. */
  lemma OneByteIsSeen(s: seq<Byte>, i: nat, b: Byte)
    requires i < |s| && b != s[i]
    ensures Crc(s[i := b]) != Crc(s)
  {
    Laws();
    OneElement(BYTES, s, i, b);
  }

  /** An error of at most eight adjacent bits that may straddle two bytes: nothing above bit k - 1 of
      the first, nothing below bit k of the second, where `low` is 2^k - 1. */
  predicate ShortBurst(e1: Byte, e2: Byte, low: Byte) {
    && low in {0x00, 0x01, 0x03, 0x07, 0x0F, 0x1F, 0x3F, 0x7F, 0xFF}
    && (e1 | e2) != 0 && e1 & !low == 0 && e2 & low == 0
  }

  /** Eight rounds at once: the remainder of x^8 times the byte. */
  function EightShifts(e: Byte): Byte {
    Shift(Shift(Shift(Shift(Shift(Shift(Shift(Shift(e))))))))
  }

  lemma RoundsAreShifts(e: Byte)
    ensures var e4 := Round(BYTES, Round(BYTES, Round(BYTES, Round(BYTES, e))));
            Round(BYTES, Round(BYTES, Round(BYTES, Round(BYTES, e4)))) == EightShifts(e)
  {
    RoundIsShift(e);
    RoundIsShift(Shift(e));
    RoundIsShift(Shift(Shift(e)));
    RoundIsShift(Shift(Shift(Shift(e))));
    RoundIsShift(Shift(Shift(Shift(Shift(e)))));
    RoundIsShift(Shift(Shift(Shift(Shift(Shift(e))))));
    RoundIsShift(Shift(Shift(Shift(Shift(Shift(Shift(e)))))));
    RoundIsShift(Shift(Shift(Shift(Shift(Shift(Shift(Shift(e))))))));
  }

  lemma BurstDoesNotCancel(e1: Byte, e2: Byte, low: Byte)
    requires ShortBurst(e1, e2, low)
    ensures EightShifts(e1) != e2
  {
  }

  /** Every burst of at most eight bits changes the CRC, wherever it lies. */
  lemma BurstIsSeen(s: seq<Byte>, t: seq<Byte>, i: nat, e1: Byte, e2: Byte, low: Byte)
    requires Differ(BYTES, s, t, i, e1, e2) && ShortBurst(e1, e2, low)
    ensures Crc(s) != Crc(t)
  {
    Laws();
    TwoElements(BYTES, s, t, i, e1, e2);
    EightRounds(BYTES, e1);
    RoundsAreShifts(e1);
    BurstDoesNotCancel(e1, e2, low);
  }
}
