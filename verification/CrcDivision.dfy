/** The CRC as a division of polynomials: which bytes make a message a multiple of x^8 + x^2 + x + 1. */
module CrcDivision {
  import opened Remainders
  import opened Crc8

  // ---------------------------------------------------------------------------
  // Messages as polynomials
  // ---------------------------------------------------------------------------

  function Mask(k: nat): Byte
    requires k < 8
  {
    match k
    case 0 => 0x80
    case 1 => 0x40
    case 2 => 0x20
    case 3 => 0x10
    case 4 => 0x08
    case 5 => 0x04
    case 6 => 0x02
    case 7 => 0x01
  }

  /** Bit `k` of a byte, the most significant first. */
  predicate BitOf(b: Byte, k: nat) {
    k < 8 && b & Mask(k) != 0
  }

  /** Coefficient `j` of a message, the highest power first. */
  predicate Bit(data: seq<Byte>, j: nat)
    requires j < 8 * |data|
  {
    BitOf(data[j / 8], j % 8)
  }

  predicate At(q: seq<bool>, j: int) {
    0 <= j < |q| && q[j]
  }

  predicate Odd(a: bool, b: bool, c: bool, d: bool) {
    (a != b) != (c != d)
  }

  /** Coefficient `j` of the product of `q` and x^8 + x^2 + x + 1. */
  predicate Product(q: seq<bool>, j: nat) {
    Odd(At(q, j), At(q, j - 6), At(q, j - 7), At(q, j - 8))
  }

  /** The message is the product of `q` and the generator. */
  ghost predicate IsProduct(data: seq<Byte>, q: seq<bool>) {
    |q| + 8 == 8 * |data| && forall j: nat :: j < 8 * |data| ==> Bit(data, j) == Product(q, j)
  }

  ghost predicate IsMultiple(data: seq<Byte>) {
    exists q :: IsProduct(data, q)
  }

  // ---------------------------------------------------------------------------
  // Bit by bit
  // ---------------------------------------------------------------------------

  /** The register takes in one more bit. */
  function Feed(a: Byte, bit: bool): Byte {
    Shift(Xor(a, if bit then 0x80 else 0))
  }

  /** The register after `n` bits. */
  function After(data: seq<Byte>, n: nat): Byte
    requires n <= 8 * |data|
  {
    if n == 0 then 0 else Feed(After(data, n - 1), Bit(data, n - 1))
  }

  /** The register after the first `k` bits of a byte. */
  function FeedBits(a: Byte, b: Byte, k: nat): Byte {
    if k == 0 then a else Feed(FeedBits(a, b, k - 1), BitOf(b, k - 1))
  }

  /** The byte without its first `k` bits. */
  function Rest(b: Byte, k: nat): Byte
    requires k <= 8
  {
    b << k
  }

  lemma RestStep(b: Byte, k: nat)
    requires k < 8
    ensures Rest(b, k + 1) == Double(Rest(b, k)) && BitOf(b, k) == Top(Rest(b, k))
  {
    match k
    case 0 =>
    case 1 =>
    case 2 =>
    case 3 =>
    case 4 =>
    case 5 =>
    case 6 =>
    case 7 =>
  }

  /** A round doubles the register and adds the rest of the generator if a coefficient was lost. */
  lemma ShiftIsSum(a: Byte)
    ensures Shift(a) == Xor(Double(a), if Top(a) then 0x07 else 0)
  {
  }

  lemma FlipTop(a: Byte)
    ensures Double(Xor(a, 0x80)) == Double(a) && Top(Xor(a, 0x80)) == !Top(a)
    ensures Xor(a, 0) == a
  {
  }

  /** So does a bit that is fed, if it differs from that coefficient. */
  lemma FeedIsSum(a: Byte, bit: bool)
    ensures Feed(a, bit) == Xor(Double(a), if Top(a) != bit then 0x07 else 0)
  {
    FlipTop(a);
    ShiftIsSum(Xor(a, if bit then 0x80 else 0));
  }

  lemma Regroup<T(!new)>(r: Ring<T>, a: T, d: T, g: T)
    requires Lawful(r)
    ensures r.xor(a, r.xor(d, g)) == r.xor(r.xor(a, g), d)
  {
    assert Sum3(r, a, g, d) == r.xor(a, r.xor(g, d));
    assert r.xor(g, d) == r.xor(d, g);
  }

  /** A round of the top coefficient alone leaves the rest of the generator. */
  lemma RoundOfTop<T(!new)>(r: Ring<T>, one: T)
    requires Lawful(r) && r.top(one) && r.twice(one) == r.zero && !r.top(r.zero) && r.twice(r.zero) == r.zero
    ensures Round(r, one) == r.poly && Round(r, r.zero) == r.zero
  {
    assert r.xor(r.zero, r.poly) == r.xor(r.poly, r.zero);
  }

  /** In any ring of remainders: a round after adding `q` is a round after adding its top coefficient
      alone, with the rest of `q`, doubled, added later. */
  lemma RoundThenRest<T(!new)>(r: Ring<T>, y: T, q: T, one: T)
    requires Lawful(r) && r.top(one) && r.twice(one) == r.zero && !r.top(r.zero) && r.twice(r.zero) == r.zero
    ensures Round(r, r.xor(y, q)) == r.xor(Round(r, r.xor(y, if r.top(q) then one else r.zero)), r.twice(q))
  {
    RoundLinear(r, y, q);
    RoundLinear(r, y, if r.top(q) then one else r.zero);
    RoundOfTop(r, one);
    Regroup(r, Round(r, y), r.twice(q), if r.top(q) then r.poly else r.zero);
    assert r.xor(r.twice(q), r.zero) == r.twice(q);
  }

  lemma TopAlone()
    ensures Top(0x80) && Double(0x80) == 0 && !Top(0) && Double(0) == 0
  {
  }

  /** Feeding a bit and adding the others later is a round. */
  lemma FeedThenRest(y: Byte, q: Byte)
    ensures Round(BYTES, Xor(y, q)) == Xor(Feed(y, Top(q)), Double(q))
  {
    Laws();
    TopAlone();
    RoundThenRest(BYTES, y, q, 0x80);
    RoundIsShift(Xor(y, if Top(q) then 0x80 else 0));
  }

  lemma {:induction false} FeedBitsAreRounds(a: Byte, b: Byte, k: nat)
    requires k <= 8
    ensures Rounds(BYTES, Xor(a, b), k) == Xor(FeedBits(a, b, k), Rest(b, k))
  {
    if k > 0 {
      FeedBitsAreRounds(a, b, k - 1);
      RestStep(b, k - 1);
      FeedThenRest(FeedBits(a, b, k - 1), Rest(b, k - 1));
    }
  }

  lemma NothingLeft(x: Byte, b: Byte)
    ensures Xor(x, Rest(b, 8)) == x
  {
  }

  /** Eight bits one after another are a byte at once. */
  lemma FeedByteIsAbsorb(a: Byte, b: Byte)
    ensures FeedBits(a, b, 8) == Absorb(BYTES, a, b)
  {
    FeedBitsAreRounds(a, b, 8);
    NothingLeft(FeedBits(a, b, 8), b);
  }

  lemma ByteAndBit(i: nat, k: nat)
    requires k < 8
    ensures (8 * i + k) / 8 == i && (8 * i + k) % 8 == k
  {
  }

  /** The state after `m + 1` bits of a byte comes from that after `m`. */
  predicate TakesIn(state: nat -> Byte, b: Byte, m: nat) {
    state(m + 1) == Feed(state(m), BitOf(b, m))
  }

  lemma {:induction false} StatesOfByte(state: nat -> Byte, b: Byte, k: nat)
    requires k <= 8 && forall m: nat :: m < 8 ==> TakesIn(state, b, m)
    ensures state(k) == FeedBits(state(0), b, k)
  {
    if k > 0 {
      StatesOfByte(state, b, k - 1);
      assert TakesIn(state, b, k - 1);
    }
  }

  lemma StatesAbsorb(state: nat -> Byte, b: Byte)
    requires forall m: nat :: m < 8 ==> TakesIn(state, b, m)
    ensures state(8) == Absorb(BYTES, state(0), b)
  {
    StatesOfByte(state, b, 8);
    FeedByteIsAbsorb(state(0), b);
  }

  /** `bits` takes in bit `m` of byte `i`. */
  predicate TakesBit(bits: nat -> Byte, data: seq<Byte>, i: nat, m: nat)
    requires i < |data|
  {
    bits(8 * i + m + 1) == Feed(bits(8 * i + m), BitOf(data[i], m))
  }

  lemma OneByte(bits: nat -> Byte, data: seq<Byte>, i: nat)
    requires i < |data| && forall m: nat :: m < 8 ==> TakesBit(bits, data, i, m)
    ensures bits(8 * i + 8) == Absorb(BYTES, bits(8 * i), data[i])
  {
    var state := (m: nat) => bits(8 * i + m);
    forall m: nat | m < 8
      ensures TakesIn(state, data[i], m)
    {
      assert TakesBit(bits, data, i, m);
    }
    StatesAbsorb(state, data[i]);
  }

  lemma {:induction false} BitsOfRegister(bits: nat -> Byte, data: seq<Byte>, i: nat)
    requires i <= |data| && bits(0) == 0
    requires forall k: nat, m: nat :: k < |data| && m < 8 ==> TakesBit(bits, data, k, m)
    ensures bits(8 * i) == Register(BYTES, data, i)
  {
    if i > 0 {
      BitsOfRegister(bits, data, i - 1);
      OneByte(bits, data, i - 1);
    }
  }

  lemma NextBit(data: seq<Byte>, i: nat, m: nat)
    requires i < |data| && m < 8
    ensures After(data, 8 * i + m + 1) == Feed(After(data, 8 * i + m), BitOf(data[i], m))
  {
    ByteAndBit(i, m);
  }

  function BitStates(data: seq<Byte>): nat -> Byte {
    (n: nat) => if n <= 8 * |data| then After(data, n) else 0
  }

  lemma BitsAreBytes(data: seq<Byte>)
    ensures After(data, 8 * |data|) == Crc(data)
  {
    var bits := BitStates(data);
    forall k: nat, m: nat | k < |data| && m < 8
      ensures TakesBit(bits, data, k, m)
    {
      NextBit(data, k, m);
    }
    BitsOfRegister(bits, data, |data|);
    assert bits(8 * |data|) == After(data, 8 * |data|);
  }

  // ---------------------------------------------------------------------------
  // The quotient
  // ---------------------------------------------------------------------------

  /** The coefficient of the quotient at bit `j`: whether the generator is taken off there. */
  predicate Taken(data: seq<Byte>, j: nat)
    requires j < 8 * |data|
  {
    BitOf(After(data, j), 0) != Bit(data, j)
  }

  function Quotient(data: seq<Byte>, n: nat): (q: seq<bool>)
    requires n <= 8 * |data|
    ensures |q| == n
  {
    if n == 0 then [] else Quotient(data, n - 1) + [Taken(data, n - 1)]
  }

  /** Coefficient `j` of the first `n` bits with the register behind them. */
  predicate Extended(data: seq<Byte>, n: nat, j: nat)
    requires n <= 8 * |data| && j < n + 8
  {
    if j < n then Bit(data, j) else BitOf(After(data, n), j - n)
  }

  lemma MaskedXor(a: Byte, b: Byte, m: Byte)
    ensures Xor(a, b) & m == Xor(a & m, b & m)
  {
  }

  lemma XorOfBits(x: Byte, y: Byte, m: Byte)
    requires (x == 0 || x == m) && (y == 0 || y == m)
    ensures Xor(x, y) != 0 <==> (x != 0) != (y != 0)
  {
  }

  lemma OneBit(a: Byte, k: nat)
    requires k < 8
    ensures a & Mask(k) == 0 || a & Mask(k) == Mask(k)
  {
  }

  lemma MaskedBits(a: Byte, b: Byte, m: Byte)
    requires (a & m == 0 || a & m == m) && (b & m == 0 || b & m == m)
    ensures Xor(a, b) & m != 0 <==> (a & m != 0) != (b & m != 0)
  {
    MaskedXor(a, b, m);
    XorOfBits(a & m, b & m, m);
  }

  lemma BitOfXor(a: Byte, b: Byte, k: nat)
    requires k < 8
    ensures BitOf(Xor(a, b), k) == (BitOf(a, k) != BitOf(b, k))
  {
    OneBit(a, k);
    OneBit(b, k);
    MaskedBits(a, b, Mask(k));
  }

  lemma BitOfDouble(a: Byte, k: nat)
    requires k < 8
    ensures BitOf(Double(a), k) == BitOf(a, k + 1)
  {
    match k
    case 0 =>
    case 1 =>
    case 2 =>
    case 3 =>
    case 4 =>
    case 5 =>
    case 6 =>
    case 7 =>
  }

  lemma BitOfSeven(k: nat)
    requires k < 8
    ensures BitOf(0x07, k) == (k >= 5) && !BitOf(0, k)
  {
  }

  /** What a round does to the bits of the register. */
  lemma BitOfFeed(a: Byte, bit: bool, k: nat)
    requires k < 8
    ensures BitOf(Feed(a, bit), k) == (BitOf(a, k + 1) != (k >= 5 && BitOf(a, 0) != bit))
  {
    FeedIsSum(a, bit);
    BitOfXor(Double(a), if BitOf(a, 0) != bit then 0x07 else 0, k);
    BitOfDouble(a, k);
    BitOfSeven(k);
  }

  /** One more coefficient of the factor adds the generator at its place. */
  lemma ProductStep(p: seq<bool>, b: bool, j: nat)
    ensures Product(p + [b], j)
         == (Product(p, j) != (b && (j == |p| || j == |p| + 6 || j == |p| + 7 || j == |p| + 8)))
  {
    AtStep(p, b, j);
    AtStep(p, b, j - 6);
    AtStep(p, b, j - 7);
    AtStep(p, b, j - 8);
  }

  lemma AtStep(p: seq<bool>, b: bool, i: int)
    ensures At(p + [b], i) == if i == |p| then b else At(p, i)
  {
  }

  /** Nothing is left behind the last coefficient of the factor and the generator. */
  lemma ProductEnds(p: seq<bool>, j: nat)
    requires j >= |p| + 8
    ensures !Product(p, j)
  {
  }

  lemma ExtendedStep(data: seq<Byte>, n: nat, j: nat)
    requires n < 8 * |data| && j < n + 9
    ensures Extended(data, n + 1, j)
         == ((j < n + 8 && Extended(data, n, j))
             != (Taken(data, n) && (j == n || j == n + 6 || j == n + 7 || j == n + 8)))
  {
    if j > n {
      BitOfFeed(After(data, n), Bit(data, n), j - n - 1);
    }
  }

  lemma QuotientStep(data: seq<Byte>, n: nat, j: nat)
    requires n < 8 * |data| && j < n + 9
    ensures Product(Quotient(data, n + 1), j)
         == ((j < n + 8 && Product(Quotient(data, n), j))
             != (Taken(data, n) && (j == n || j == n + 6 || j == n + 7 || j == n + 8)))
  {
    ProductStep(Quotient(data, n), Taken(data, n), j);
    if j == n + 8 {
      ProductEnds(Quotient(data, n), j);
    }
  }

  lemma NothingExtended(data: seq<Byte>, j: nat)
    requires j < 8
    ensures !Extended(data, 0, j) && !Product(Quotient(data, 0), j)
  {
    BitOfSeven(j);
  }

  /** Bit `j` of `e` changes with bit `n` of the message only where the generator is taken off. */
  predicate Grows(e: (nat, nat) -> bool, taken: nat -> bool, n: nat, j: nat) {
    e(n + 1, j) == ((j < n + 8 && e(n, j)) != (taken(n) && (j == n || j == n + 6 || j == n + 7 || j == n + 8)))
  }

  lemma {:induction false} GrowAlike(e: (nat, nat) -> bool, p: (nat, nat) -> bool, taken: nat -> bool, all: nat, n: nat,
                                     j: nat)
    requires forall i: nat :: i < 8 ==> !e(0, i) && !p(0, i)
    requires forall m: nat, i: nat :: m < all && i < m + 9 ==> Grows(e, taken, m, i) && Grows(p, taken, m, i)
    requires n <= all && j < n + 8
    ensures e(n, j) == p(n, j)
    decreases n
  {
    if n > 0 {
      assert Grows(e, taken, n - 1, j) && Grows(p, taken, n - 1, j);
      if j < n + 7 {
        GrowAlike(e, p, taken, all, n - 1, j);
      }
    }
  }

  /** At every bit, what has come in, with the register behind it, is the generator times the quotient. */
  lemma ExtendedIsProduct(data: seq<Byte>, n: nat, j: nat)
    requires n <= 8 * |data| && j < n + 8
    ensures Extended(data, n, j) == Product(Quotient(data, n), j)
  {
    var e := (m: nat, i: nat) => m <= 8 * |data| && i < m + 8 && Extended(data, m, i);
    var p := (m: nat, i: nat) => m <= 8 * |data| && Product(Quotient(data, m), i);
    var taken := (m: nat) => m < 8 * |data| && Taken(data, m);
    forall i: nat | i < 8
      ensures !e(0, i) && !p(0, i)
    {
      NothingExtended(data, i);
    }
    forall m: nat, i: nat | m < 8 * |data| && i < m + 9
      ensures Grows(e, taken, m, i) && Grows(p, taken, m, i)
    {
      ExtendedStep(data, m, i);
      QuotientStep(data, m, i);
    }
    GrowAlike(e, p, taken, 8 * |data|, n, j);
  }

  // ---------------------------------------------------------------------------
  // The theorem
  // ---------------------------------------------------------------------------

  lemma {:induction false} AfterPrefix(data: seq<Byte>, c: Byte, n: nat)
    requires n <= 8 * |data|
    ensures After(data + [c], n) == After(data, n)
  {
    if n > 0 {
      AfterPrefix(data, c, n - 1);
      assert Bit(data + [c], n - 1) == Bit(data, n - 1);
    }
  }

  /** The coefficients of a factor follow from those of the product, from the highest on. */
  lemma {:induction false} FactorUnique(a: seq<Byte>, b: seq<Byte>, p: seq<bool>, q: seq<bool>, n: nat)
    requires |a| == |b| && IsProduct(a, p) && IsProduct(b, q) && n <= |p|
    requires forall j: nat :: j < |p| ==> Bit(a, j) == Bit(b, j)
    ensures forall j :: 0 <= j < n ==> p[j] == q[j]
  {
    if n > 0 {
      FactorUnique(a, b, p, q, n - 1);
      assert Bit(a, n - 1) == Product(p, n - 1) && Bit(b, n - 1) == Product(q, n - 1);
      assert At(p, n - 7) == At(q, n - 7) && At(p, n - 8) == At(q, n - 8) && At(p, n - 9) == At(q, n - 9);
    }
  }

  lemma SameBits(a: Byte, b: Byte)
    requires forall k: nat :: k < 8 ==> BitOf(a, k) == BitOf(b, k)
    ensures a == b
  {
    assert BitOf(a, 0) == BitOf(b, 0) && BitOf(a, 1) == BitOf(b, 1) && BitOf(a, 2) == BitOf(b, 2);
    assert BitOf(a, 3) == BitOf(b, 3) && BitOf(a, 4) == BitOf(b, 4) && BitOf(a, 5) == BitOf(b, 5);
    assert BitOf(a, 6) == BitOf(b, 6) && BitOf(a, 7) == BitOf(b, 7);
    BitsDecide(a, b);
  }

  lemma BitsDecide(a: Byte, b: Byte)
    requires a & 0x80 == b & 0x80 && a & 0x40 == b & 0x40 && a & 0x20 == b & 0x20 && a & 0x10 == b & 0x10
    requires a & 0x08 == b & 0x08 && a & 0x04 == b & 0x04 && a & 0x02 == b & 0x02 && a & 0x01 == b & 0x01
    ensures a == b
  {
  }

  lemma CrcMakesProduct(data: seq<Byte>)
    ensures IsProduct(data + [Crc(data)], Quotient(data, 8 * |data|))
  {
    var n, w := 8 * |data|, data + [Crc(data)];
    BitsAreBytes(data);
    forall j: nat | j < 8 * |w|
      ensures Bit(w, j) == Product(Quotient(data, n), j)
    {
      ExtendedIsProduct(data, n, j);
      assert j >= n ==> j / 8 == |data| && j % 8 == j - n;
    }
  }

  /** A message with a byte behind it is a multiple of x^8 + x^2 + x + 1 exactly if that byte is its CRC. */
  lemma CrcIsRemainder(data: seq<Byte>, c: Byte)
    ensures IsMultiple(data + [c]) <==> c == Crc(data)
  {
    CrcMakesProduct(data);
    if q :| IsProduct(data + [c], q) {
      LastByteUnique(data, c, Crc(data), q, Quotient(data, 8 * |data|));
    }
  }

  lemma LastByteUnique(data: seq<Byte>, c: Byte, d: Byte, p: seq<bool>, q: seq<bool>)
    requires IsProduct(data + [c], p) && IsProduct(data + [d], q)
    ensures c == d
  {
    var a, b, n := data + [c], data + [d], 8 * |data|;
    assert forall j: nat :: j < n ==> Bit(a, j) == Bit(b, j);
    FactorUnique(a, b, p, q, n);
    assert p == q;
    forall k: nat | k < 8
      ensures BitOf(c, k) == BitOf(d, k)
    {
      assert (n + k) / 8 == |data| && (n + k) % 8 == k;
      assert Bit(a, n + k) == Product(p, n + k) && Bit(b, n + k) == Product(q, n + k);
    }
    SameBits(c, d);
  }
}
