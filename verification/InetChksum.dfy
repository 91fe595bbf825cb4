/** The Internet checksum of lwIP (RFC 1071): three summing loops and the pbuf-chain
    versions built on top of them. The host is little endian, as the target is. */
module InetChksum {
  import opened Words

  // ---------------------------------------------------------------------------
  // Reference: one's-complement addition of network-order words, section 2 of RFC 1071
  // ---------------------------------------------------------------------------

  /** 16-bit addition with end-around carry. */
  function OnesAdd(a: u16, b: u16): u16 {
    if a + b > 0xFFFF then a + b - 0xFFFF else a + b
  }

  /** The word made of a high and a low byte. */
  function Word(high: u8, low: u8): u16 {
    (high as int) * 256 + low
  }

  /** The one's-complement sum of the big-endian words of the first `n` bytes; an odd tail is
      padded with zero. */
  function RfcSumTo(s: seq<u8>, n: nat): u16
    requires n <= |s|
  {
    if n == 0 then 0
    else if n % 2 == 1 then OnesAdd(RfcSumTo(s, n - 1), Word(s[n - 1], 0))
    else OnesAdd(RfcSumTo(s, n - 2), Word(s[n - 2], s[n - 1]))
  }

  function RfcSum(s: seq<u8>): u16 {
    RfcSumTo(s, |s|)
  }

  // ---------------------------------------------------------------------------
  // The macros of inet_chksum.h, and lwip_htons
  // ---------------------------------------------------------------------------

  function Fold(u: u32): (r: u32) {
    u / 0x1_0000 + u % 0x1_0000
  }

  function Swap(w: u32): (r: u16) {
    Word(w % 256, (w / 256) % 256)
  }

  // ---------------------------------------------------------------------------
  // Sums and their one's-complement normal form
  // ---------------------------------------------------------------------------

  /** The value a sum has once every carry has been added back: its residue modulo 65535, with 0
      standing for the sum 0 alone and 0xFFFF for every other multiple. */
  function Norm(n: nat): (r: u16)
  {
    if n <= 0xFFFF then n else Norm(n - 0xFFFF)
  }

  /** Whether byte `i` is the high byte of its little-endian word, at an even or odd start address. */
  predicate High(i: nat, odd: bool) {
    (i % 2 == 1) != odd
  }

  function Term(b: u8, high: bool): nat {
    if high then 256 * (b as int) else b
  }

  /** The unreduced sum of the first `n` bytes of `s`, as little-endian words. */
  function SumTo(s: seq<u8>, n: nat, odd: bool): nat
    requires n <= |s|
  {
    if n == 0 then 0 else SumTo(s, n - 1, odd) + Term(s[n - 1], High(n - 1, odd))
  }

  function ByteSum(s: seq<u8>, odd: bool): nat {
    SumTo(s, |s|, odd)
  }

  /** A folded sum, with its bytes swapped when the bytes summed began at an odd place. */
  function Carried(sum: nat, swapped: bool): u16 {
    if swapped then Swap(Norm(sum)) else Norm(sum)
  }

  /** The checksum of a byte string in host order, before inversion. */
  function HostSum(s: seq<u8>): u16 {
    Norm(ByteSum(s, false))
  }

  lemma {:induction false} NormMultiple(n: nat, k: nat)
    requires n > 0
    ensures Norm(n + 0xFFFF * k) == Norm(n)
  {
    if k > 0 {
      NormMultiple(n, k - 1);
      assert n + 0xFFFF * k - 0xFFFF == n + 0xFFFF * (k - 1);
    }
  }

  /** Reducing early does not matter. */
  lemma {:induction false} NormAdd(a: nat, b: nat)
    ensures Norm(Norm(a) + b) == Norm(a + b)
  {
    if a > 0xFFFF {
      NormAdd(a - 0xFFFF, b);
    }
  }

  lemma NormCongruent(a: nat, b: nat, c: nat)
    requires Norm(a) == Norm(b)
    ensures Norm(a + c) == Norm(b + c)
  {
    NormAdd(a, c);
    NormAdd(b, c);
  }

  lemma NormAdd2(a: nat, b: nat)
    ensures Norm(Norm(a) + Norm(b)) == Norm(a + b)
  {
    NormAdd(a, Norm(b));
    NormAdd(b, a);
  }

  lemma {:induction false} NormZero(n: nat)
    ensures Norm(n) == 0 <==> n == 0
  {
    if n > 0xFFFF {
      NormZero(n - 0xFFFF);
    }
  }

  /** Sums that differ by less than 65535 have different normal forms. */
  lemma NormSeparates(n: nat, d: nat)
    requires 0 < d < 0xFFFF
    ensures Norm(n + d) != Norm(n)
  {
    NormAdd(n, d);
  }

  lemma {:induction false} NormByteShift(a: nat)
    ensures Norm(256 * Norm(a)) == Norm(256 * a)
  {
    if a > 0xFFFF {
      NormByteShift(a - 0xFFFF);
      NormMultiple(256 * (a - 0xFFFF), 256);
    }
  }

  lemma NormTwoByteShifts(a: nat)
    ensures Norm(256 * (256 * a)) == Norm(a)
  {
    if a > 0 {
      NormMultiple(a, a);
    }
  }

  lemma NormFold(u: u32)
    ensures Norm(Fold(u)) == Norm(u)
    ensures Fold(u) <= 0x1FFFE
    ensures u <= 0x1FFFE ==> Fold(u) == Norm(u)
  {
    if u > 0 {
      NormMultiple(Fold(u), u / 0x1_0000);
    }
  }

  /** Two folds of any 32-bit sum give its normal form. */
  lemma FoldTwice(u: u32)
    ensures Fold(Fold(u)) == Norm(u)
  {
    NormFold(u);
    NormFold(Fold(u));
  }

  /** Swapping a word moves it up by one byte, in one's-complement arithmetic. */
  lemma SwapShifts(w: u16)
    ensures Swap(w) == Norm(256 * w)
    ensures Swap(Swap(w)) == w
  {
    var h, l := w / 256, w % 256;
    SwapWord(h, l);
    SwapWord(l, h);
    if w > 0 {
      NormMultiple(Word(l, h), h);
    }
  }

  lemma WordParts(h: u8, l: u8)
    ensures Word(h, l) / 256 == h && Word(h, l) % 256 == l
  {
  }

  lemma SwapWord(h: u8, l: u8)
    ensures Swap(Word(h, l)) == Word(l, h)
  {
    WordParts(h, l);
    assert (Word(h, l) / 256) % 256 == h;
  }

  lemma SwapNorm(a: nat)
    ensures Swap(Norm(a)) == Norm(256 * a)
  {
    SwapShifts(Norm(a));
    NormByteShift(a);
  }

  // ---------------------------------------------------------------------------
  // Laws of the byte sum
  // ---------------------------------------------------------------------------

  lemma {:induction false} SumToPrefix(s: seq<u8>, t: seq<u8>, n: nat, odd: bool)
    requires n <= |s| && n <= |t| && forall i :: 0 <= i < n ==> s[i] == t[i]
    ensures SumTo(s, n, odd) == SumTo(t, n, odd)
  {
    if n > 0 {
      SumToPrefix(s, t, n - 1, odd);
    }
  }

  lemma AddWord(s: seq<u8>, i: nat, odd: bool)
    requires i + 2 <= |s|
    ensures SumTo(s, i + 2, odd)
         == SumTo(s, i, odd) + if High(i, odd) then Word(s[i], s[i + 1]) else Word(s[i + 1], s[i])
    ensures SumTo(s, i + 2, odd) <= ByteSum(s, odd)
  {
    SumToMonotone(s, i + 2, |s|, odd);
    assert High(i + 1, odd) == !High(i, odd);
    assert SumTo(s, i + 1, odd) == SumTo(s, i, odd) + Term(s[i], High(i, odd));
  }

  /** A segment in the middle of `s` adds its own sum, taken at the parity of its place. */
  lemma {:induction false} SumToSegment(s: seq<u8>, m: nat, part: seq<u8>, n: nat, odd: bool)
    requires m + n <= |s| && n <= |part| && forall i :: 0 <= i < n ==> s[m + i] == part[i]
    ensures SumTo(s, m + n, odd) == SumTo(s, m, odd) + SumTo(part, n, High(m, odd))
    ensures High(m + n, odd) == (High(m, odd) != (n % 2 != 0))
  {
    if n > 0 {
      SumToSegment(s, m, part, n - 1, odd);
    }
  }

  lemma {:induction false} SumToMonotone(s: seq<u8>, m: nat, n: nat, odd: bool)
    requires m <= n <= |s|
    ensures SumTo(s, m, odd) <= SumTo(s, n, odd)
  {
    if m < n {
      SumToMonotone(s, m, n - 1, odd);
    }
  }

  /** A sum that starts at an odd address is the even one moved up by one byte. */
  lemma {:induction false} SumToParity(s: seq<u8>, n: nat)
    requires n <= |s|
    ensures Norm(SumTo(s, n, true)) == Norm(256 * SumTo(s, n, false))
  {
    if n > 0 {
      SumToParity(s, n - 1);
      var b := s[n - 1];
      var h, l := Term(b, High(n - 1, true)), Term(b, High(n - 1, false));
      NormTwoByteShifts(b);
      assert Norm(h) == Norm(256 * l);
      NormAdd2(SumTo(s, n - 1, true), h);
      NormAdd2(256 * SumTo(s, n - 1, false), 256 * l);
    }
  }

  /** How large the 32-bit accumulator can get. */
  lemma {:induction false} SumToBound(s: seq<u8>, n: nat, odd: bool)
    requires n <= |s|
    ensures 2 * SumTo(s, n, odd) <= 65535 * n + (if n % 2 == 1 then 65025 else 0)
  {
    if n >= 2 {
      SumToBound(s, n - 2, odd);
    }
  }

  /** Up to 0x20000 bytes the 32-bit sum of the loops never wraps. */
  lemma ByteSumFits(s: seq<u8>, odd: bool)
    requires |s| <= 0x20000
    ensures ByteSum(s, odd) < TWO_32
  {
    SumToBound(s, |s|, odd);
  }

  /** Only a string of zero bytes has the checksum 0 before inversion. */
  lemma HostSumZero(s: seq<u8>)
    ensures HostSum(s) == 0 <==> forall i :: 0 <= i < |s| ==> s[i] == 0
  {
    NormZero(ByteSum(s, false));
    SumToZero(s, |s|);
  }

  lemma {:induction false} SumToZero(s: seq<u8>, n: nat)
    requires n <= |s|
    ensures SumTo(s, n, false) == 0 <==> forall i :: 0 <= i < n ==> s[i] == 0
  {
    if n > 0 {
      SumToZero(s, n - 1);
    }
  }

  /** The sum that an odd start address leaves in the accumulator, swapped, is the even one. */
  lemma SwapOddSum(s: seq<u8>)
    ensures Swap(Norm(ByteSum(s, true))) == HostSum(s)
  {
    SumToParity(s, |s|);
    SwapNorm(ByteSum(s, false));
    SwapShifts(HostSum(s));
  }

  /** The host-order sum is the byte-swapped RFC 1071 sum of the network-order words. */
  lemma HostSumIsRfcSum(s: seq<u8>)
    ensures HostSum(s) == Swap(RfcSum(s))
  {
    RfcSumIsOddSum(s, |s|);
    SwapOddSum(s);
  }

  /** The last word in network order is what it adds at an odd address. */
  lemma LastOddWord(s: seq<u8>, n: nat)
    requires 0 < n <= |s|
    ensures var m := if n % 2 == 1 then n - 1 else n - 2;
            SumTo(s, n, true) == SumTo(s, m, true) + if n % 2 == 1 then Word(s[n - 1], 0) else Word(s[n - 2], s[n - 1])
  {
    if n % 2 == 0 {
      AddWord(s, n - 2, true);
    }
  }

  lemma {:induction false} RfcSumIsOddSum(s: seq<u8>, n: nat)
    requires n <= |s|
    ensures RfcSumTo(s, n) == Norm(SumTo(s, n, true))
  {
    if n > 0 {
      var m := if n % 2 == 1 then n - 1 else n - 2;
      var w := if n % 2 == 1 then Word(s[n - 1], 0) else Word(s[n - 2], s[n - 1]);
      RfcSumIsOddSum(s, m);
      LastOddWord(s, n);
      NormAdd(SumTo(s, m, true), w);
    }
  }

  // ---------------------------------------------------------------------------
  // The three versions of lwip_standard_chksum. `addr` is the address of the first
  // byte; `data` are the bytes found there.
  // ---------------------------------------------------------------------------

  /** The last steps of version 1: add the deferred carries, reorder. */
  method FinishOctets(acc0: u32) returns (r: u16)
    ensures r == Swap(Norm(acc0))
  {
    var acc := acc0;
    NormFold(acc);
    NormFold(Fold(acc));
    acc := Fold(acc);
    if acc / 0x1_0000 != 0 {
      acc := Fold(acc);
    }
    r := Swap(acc);
  }

  /** Version 1: bytewise, most significant octet first. */
  method StandardChksum1(data: seq<u8>, addr: nat) returns (r: u16)
    requires |data| <= 0x20000
    ensures r == HostSum(data)
  {
    ByteSumFits(data, true);
    var acc: u32 := 0;
    var octet, len := 0, |data|;
    while len > 1
      invariant 0 <= len <= |data| && octet == |data| - len && octet % 2 == 0
      invariant acc == SumTo(data, octet, true)
    {
      AddWord(data, octet, true);
      var src := Word(data[octet], 0);
      octet := octet + 1;
      src := src + data[octet] as int;
      octet := octet + 1;
      acc := Add32(acc, src);
      len := len - 2;
    }
    if len > 0 {
      acc := Add32(acc, Word(data[octet], 0));
    }
    SwapOddSum(data);
    r := FinishOctets(acc);
  }

  /** The last steps of versions 2 and 3. */
  method FinishWords(sum0: u32, odd: bool) returns (r: u16)
    ensures r == Carried(sum0, odd)
  {
    var sum := sum0;
    FoldTwice(sum);
    sum := Fold(sum);
    sum := Fold(sum);
    if odd {
      sum := Swap(sum);
    }
    r := sum;
  }

  /** A low byte and the high byte behind it make up a word. */
  lemma AddAlignedWord(s: seq<u8>, i: nat, odd: bool)
    requires i + 2 <= |s| && !High(i, odd)
    ensures SumTo(s, i + 2, odd) == SumTo(s, i, odd) + Word(s[i + 1], s[i]) <= ByteSum(s, odd)
    ensures !High(i + 2, odd)
  {
    AddWord(s, i, odd);
  }

  /** The loop of version 2: whole words, as long as there are any. */
  method SumWords(data: seq<u8>, odd: bool, first: nat, t1: u8) returns (sum: u32, pos: nat)
    requires ByteSum(data, odd) < TWO_32 && first <= |data|
    requires Word(t1, 0) == SumTo(data, first, odd) && (first < |data| ==> !High(first, odd))
    ensures |data| - 1 <= pos <= |data| && (pos < |data| ==> !High(pos, odd))
    ensures sum + Word(t1, 0) == SumTo(data, pos, odd)
  {
    pos, sum := first, 0;
    var len := |data| - first;
    while len > 1
      invariant 0 <= len && pos == |data| - len && (len > 0 ==> !High(pos, odd))
      invariant sum + Word(t1, 0) == SumTo(data, pos, odd)
    {
      AddAlignedWord(data, pos, odd);
      sum := Add32(sum, Word(data[pos + 1], data[pos]));
      pos, len := pos + 2, len - 2;
    }
  }

  /** The byte in front of the first word: the high byte of `t`, if the data begin at an odd address. */
  method HeadByte(data: seq<u8>, odd: bool) returns (t1: u8, pos: nat)
    ensures pos <= |data| && Word(t1, 0) == SumTo(data, pos, odd) && (pos < |data| ==> !High(pos, odd))
  {
    t1, pos := 0, 0;
    if odd && |data| > 0 {
      t1 := data[pos];
      pos := pos + 1;
    }
  }

  /** The byte behind the last word: the low byte of `t`, if there is one. */
  method TailByte(data: seq<u8>, pos: nat, odd: bool) returns (t0: u8)
    requires |data| - 1 <= pos <= |data| && (pos < |data| ==> !High(pos, odd))
    ensures SumTo(data, pos, odd) + t0 == ByteSum(data, odd)
  {
    t0 := 0;
    if pos < |data| {
      t0 := data[pos];
    }
  }

  /** The end of version 2: the end bytes in `t`, the carries, the swap. */
  method FinishWithEnds(data: seq<u8>, sum0: u32, t1: u8, t0: u8, odd: bool) returns (r: u16)
    requires sum0 + Word(t1, 0) + t0 == ByteSum(data, odd) < TWO_32
    ensures r == HostSum(data)
  {
    var sum := Add32(sum0, Word(t1, t0));
    r := FinishWords(sum, odd);
    SwapOddSum(data);
  }

  /** Version 2: a 16-bit word at a time, with the end bytes collected in `t`. */
  method StandardChksum2(data: seq<u8>, addr: nat) returns (r: u16)
    requires |data| <= 0x20000
    ensures r == HostSum(data)
  {
    var odd := addr % 2 == 1;
    ByteSumFits(data, odd);
    var t1, first := HeadByte(data, odd);
    var sum, pos := SumWords(data, odd, first, t1);
    var t0 := TailByte(data, pos, odd);
    r := FinishWithEnds(data, sum, t1, t0, odd);
  }

  /** The 32-bit word at offset `i`, as a little-endian host loads it. */
  function LongWord(s: seq<u8>, i: nat): u32
    requires i + 4 <= |s|
  {
    Word(s[i + 1], s[i]) + 0x1_0000 * (Word(s[i + 3], s[i + 2]) as int)
  }

  lemma LongWordSum(s: seq<u8>, i: nat, odd: bool)
    requires i + 4 <= |s| && !High(i, odd)
    ensures Norm(SumTo(s, i, odd) + LongWord(s, i)) == Norm(SumTo(s, i + 4, odd))
  {
    AddWord(s, i, odd);
    AddWord(s, i + 2, odd);
    var now, w := SumTo(s, i + 4, odd), Word(s[i + 3], s[i + 2]);
    assert SumTo(s, i, odd) + LongWord(s, i) == now + 0xFFFF * (w as int);
    if now > 0 {
      NormMultiple(now, w);
    }
  }

  /** The carry of a 32-bit addition, given back, keeps the normal form of the sum. */
  method AddWithCarry(sum: u32, w: u32) returns (r: u32)
    ensures Norm(r) == Norm(sum + w)
  {
    r := Add32(sum, w);
    if r < sum {
      assert sum + w == (r + 1) + 0xFFFF * 0x1_0001;
      NormMultiple(r + 1, 0x1_0001);
      r := r + 1;
    }
  }

  /** One "ping" or "pong" of version 3, beside the head byte kept in `t`. */
  method AddLong(data: seq<u8>, pos: nat, odd: bool, sum: u32, ghost t: nat) returns (r: u32)
    requires pos + 4 <= |data| && !High(pos, odd)
    requires Norm(sum + t) == Norm(SumTo(data, pos, odd))
    ensures Norm(r + t) == Norm(SumTo(data, pos + 4, odd))
  {
    var w := LongWord(data, pos);
    r := AddWithCarry(sum, w);
    NormCongruent(r, sum + w, t);
    NormCongruent(sum + t, SumTo(data, pos, odd), w);
    LongWordSum(data, pos, odd);
  }

  /** The unrolled loop of version 3: eight bytes a round. */
  method SumLongs(data: seq<u8>, pos0: nat, odd: bool, sum0: u32, ghost t: nat)
    returns (pos: nat, sum: u32)
    requires pos0 <= |data| && (pos0 < |data| ==> !High(pos0, odd))
    requires Norm(sum0 + t) == Norm(SumTo(data, pos0, odd))
    ensures pos0 <= pos <= |data| < pos + 8 && (pos < |data| ==> !High(pos, odd))
    ensures Norm(sum + t) == Norm(SumTo(data, pos, odd))
  {
    pos, sum := pos0, sum0;
    var len := |data| - pos0;
    while len > 7
      invariant 0 <= len && pos == |data| - len && pos0 <= pos
      invariant len > 0 ==> !High(pos, odd)
      invariant Norm(sum + t) == Norm(SumTo(data, pos, odd))
    {
      var tmp := AddLong(data, pos, odd, sum, t);
      assert High(pos + 4, odd) == High(pos, odd) == High(pos + 8, odd);
      sum := AddLong(data, pos + 4, odd, tmp, t);
      pos, len := pos + 8, len - 8;
    }
  }

  /** The words that remain after the unrolled loop. */
  method SumRemaining(data: seq<u8>, pos0: nat, odd: bool, sum0: u32, ghost t: nat)
    returns (pos: nat, sum: u32)
    requires pos0 <= |data| < pos0 + 8 && (pos0 < |data| ==> !High(pos0, odd))
    requires sum0 <= 0x1FFFE && Norm(sum0 + t) == Norm(SumTo(data, pos0, odd))
    ensures |data| - 1 <= pos <= |data| && (pos < |data| ==> !High(pos, odd))
    ensures sum <= 0x1FFFE + 7 * 0xFFFF && Norm(sum + t) == Norm(SumTo(data, pos, odd))
  {
    pos, sum := pos0, sum0;
    var len := |data| - pos0;
    while len > 1
      invariant 0 <= len <= 7 && pos == |data| - len
      invariant len > 0 ==> !High(pos, odd)
      invariant sum <= 0x1FFFE + 0xFFFF * (7 - len)
      invariant Norm(sum + t) == Norm(SumTo(data, pos, odd))
    {
      AddWord(data, pos, odd);
      var w := Word(data[pos + 1], data[pos]);
      NormCongruent(sum + t, SumTo(data, pos, odd), w);
      sum := Add32(sum, w);
      pos, len := pos + 2, len - 2;
    }
  }

  /** The head of version 3: bring the address to a multiple of four, as far as the data reach. */
  method SumHead(data: seq<u8>, addr: nat) returns (pos: nat, t1: u8, sum: u32)
    ensures pos <= |data| && (pos < |data| ==> !High(pos, addr % 2 == 1))
    ensures sum + Word(t1, 0) == SumTo(data, pos, addr % 2 == 1)
  {
    var odd := addr % 2 == 1;
    pos, t1, sum := 0, 0, 0;
    if odd && pos < |data| {
      t1 := data[pos];
      pos := pos + 1;
    }
    if (addr + pos) % 4 != 0 && pos + 1 < |data| {
      AddWord(data, pos, odd);
      sum := Add32(sum, Word(data[pos + 1], data[pos]));
      pos := pos + 2;
    }
  }

  /** The tail of version 3: remaining words, the dangling byte, the end bytes. */
  method SumTail(data: seq<u8>, pos0: nat, odd: bool, sum0: u32, t1: u8) returns (sum: u32)
    requires pos0 <= |data| < pos0 + 8 && (pos0 < |data| ==> !High(pos0, odd))
    requires sum0 <= 0x1FFFE && Norm(sum0 + Word(t1, 0)) == Norm(SumTo(data, pos0, odd))
    ensures Norm(sum) == Norm(ByteSum(data, odd))
  {
    var t0: u8 := 0;
    var pos;
    pos, sum := SumRemaining(data, pos0, odd, sum0, Word(t1, t0));
    if pos < |data| {
      NormCongruent(sum + Word(t1, t0), SumTo(data, pos, odd), data[pos]);
      t0 := data[pos];
    }
    sum := Add32(sum, Word(t1, t0));
  }

  /** Version 3: 32-bit words with the carries given back; there is no bound on the length. */
  method StandardChksum3(data: seq<u8>, addr: nat) returns (r: u16)
    ensures r == HostSum(data)
  {
    var odd := addr % 2 == 1;
    var pos, t1, sum := SumHead(data, addr);
    pos, sum := SumLongs(data, pos, odd, sum, Word(t1, 0));
    NormFold(sum);
    NormCongruent(Fold(sum), sum, Word(t1, 0));
    sum := SumTail(data, pos, odd, Fold(sum), t1);
    r := FinishWords(sum, odd);
    SwapOddSum(data);
  }

  // ---------------------------------------------------------------------------
  // Chains of pbufs
  // ---------------------------------------------------------------------------

  /** A pbuf chain: the payload bytes, the address they lie at, and the next pbuf. */
  datatype Pbuf = Null | Pbuf(payload: seq<u8>, addr: nat, next: Pbuf)

  /** Every `len` field is a u16_t. */
  predicate WellFormed(p: Pbuf) {
    p.Pbuf? ==> |p.payload| <= 0xFFFF && WellFormed(p.next)
  }

  function Bytes(p: Pbuf): seq<u8> {
    if p.Null? then [] else p.payload + Bytes(p.next)
  }

  /** The checksum of `data` as it goes into a header: inverted, with `extra` added to the sum. */
  function Inverted(extra: nat, data: seq<u8>): u16 {
    0xFFFF - Norm(extra + ByteSum(data, false))
  }

  /** inet_chksum */
  method InetChksum(data: seq<u8>, addr: nat) returns (r: u16)
    requires |data| <= 0xFFFF
    ensures r == Inverted(0, data)
  {
    var sum := StandardChksum2(data, addr);
    r := 0xFFFF - sum;
  }

  /** One round of the chain loops: add the segment's sum, fold once, swap if its length is odd.
      One fold is enough to come back under 2^16. */
  lemma ChainStep(sum: nat, swapped: bool, seg: seq<u8>)
    ensures var acc := Fold(Carried(sum, swapped) + HostSum(seg));
            var now := sum + ByteSum(seg, swapped);
            (acc <= 0xFFFF && acc == Carried(now, swapped) && Swap(acc) == Carried(now, !swapped))
  {
    var now := sum + ByteSum(seg, swapped);
    NormFold(Carried(sum, swapped) + HostSum(seg));
    if swapped {
      SwapNorm(sum);
      NormAdd2(256 * sum, ByteSum(seg, false));
      NormByteShift(ByteSum(seg, true));
      NormByteShift(256 * ByteSum(seg, false));
      SumToParity(seg, |seg|);
      NormTwoByteShifts(ByteSum(seg, false));
      NormAdd2(256 * sum, 256 * ByteSum(seg, true));
      SwapNorm(now);
    } else {
      NormAdd2(sum, ByteSum(seg, false));
    }
    SwapShifts(Norm(now));
  }

  /** The body of the chain loops: sum the bytes `part` of a segment whose length field is `len`. */
  method AddSegment(acc0: u32, part: seq<u8>, addr: nat, len: nat, swapped: bool, ghost sum: nat)
    returns (acc: u32, swapped': bool)
    requires |part| <= 0xFFFF && acc0 == Carried(sum, swapped)
    ensures swapped' == (swapped != (len % 2 != 0))
    ensures acc == Carried(sum + ByteSum(part, swapped), swapped')
  {
    ChainStep(sum, swapped, part);
    var chk := StandardChksum2(part, addr);
    acc := acc0 + chk;
    acc := Fold(acc);
    swapped' := swapped;
    if len % 2 != 0 {
      swapped' := !swapped;
      acc := Swap(acc);
    }
  }

  /** The step after the chain loops. */
  method SwapBack(acc0: u32, swapped: bool, ghost sum: nat) returns (acc: u32)
    requires acc0 == Carried(sum, swapped)
    ensures acc == Norm(sum)
  {
    acc := acc0;
    if swapped {
      SwapShifts(Norm(sum));
      acc := Swap(acc);
    }
  }

  /** The loop shared by inet_chksum_pbuf and the pseudo-header checksum: `acc0` enters the sum
      before the first segment, and the accumulator is swapped back at the end. */
  method SumChain(p: Pbuf, acc0: u16) returns (acc: u32)
    requires WellFormed(p)
    ensures acc == Norm(acc0 + ByteSum(Bytes(p), false))
  {
    acc := acc0;
    var q, swapped := p, false;
    ghost var all := Bytes(p);
    ghost var done: nat := 0;
    while q != Null
      invariant WellFormed(q)
      invariant done <= |all| && all[done..] == Bytes(q)
      invariant swapped == High(done, false)
      invariant acc == Carried(acc0 + SumTo(all, done, false), swapped)
      decreases q
    {
      NextSegment(all, done, q, |q.payload|);
      acc, swapped := AddSegment(acc, q.payload, q.addr, |q.payload|, swapped, acc0 + SumTo(all, done, false));
      done := done + |q.payload|;
      q := q.next;
    }
    acc := SwapBack(acc, swapped, acc0 + SumTo(all, done, false));
  }

  /** `q` is what remains of `all` after `done` bytes: its first `n` bytes come next. */
  lemma NextSegment(all: seq<u8>, done: nat, q: Pbuf, n: nat)
    requires q.Pbuf? && n <= |q.payload| && done <= |all| && all[done..] == Bytes(q)
    ensures done + |q.payload| <= |all| && all[done + |q.payload|..] == Bytes(q.next)
    ensures SumTo(all, done + n, false)
         == SumTo(all, done, false) + ByteSum(q.payload[..n], High(done, false))
    ensures High(done + n, false) == (High(done, false) != (n % 2 != 0))
    ensures n == |q.payload| ==> q.payload[..n] == q.payload
  {
    assert forall i :: 0 <= i < |q.payload| ==> all[done + i] == all[done..][i] == q.payload[i];
    assert all[done + |q.payload|..] == all[done..][|q.payload|..];
    SumToSegment(all, done, q.payload[..n], n, false);
  }

  /** inet_chksum_pbuf: the segmentation of the bytes and their alignment do not matter. */
  method InetChksumPbuf(p: Pbuf) returns (r: u16)
    requires WellFormed(p)
    ensures r == Inverted(0, Bytes(p))
  {
    var acc := SumChain(p, 0);
    r := 0xFFFF - acc;
  }

  /** What the two addresses add to the sum. */
  function AddressSum(src: u32, dest: u32): u32 {
    src % 0x1_0000 + src / 0x1_0000 + dest % 0x1_0000 + dest / 0x1_0000
  }

  /** What the whole pseudo header adds: addresses, protocol and length, as network-order words. */
  function PseudoSum(src: u32, dest: u32, proto: u8, protoLen: u16): nat {
    AddressSum(src, dest) + Swap(proto) + Swap(protoLen)
  }

  /** The bytes of a 32-bit word in the memory of the host. */
  function LongBytes(x: u32): seq<u8> {
    [x % 0x100, x / 0x100 % 0x100, x / 0x1_0000 % 0x100, x / 0x100_0000]
  }

  /** The pseudo header as it would lie in front of the segment: the addresses as they lie in memory, a
      zero, the protocol, and the length in network order. */
  function Header(src: u32, dest: u32, proto: u8, protoLen: u16): seq<u8> {
    LongBytes(src) + LongBytes(dest) + [0, proto, protoLen / 0x100, protoLen % 0x100]
  }

  lemma HalvesAreWords(x: u32)
    ensures var s := LongBytes(x); Word(s[1], s[0]) == x % 0x1_0000 && Word(s[3], s[2]) == x / 0x1_0000
  {
  }

  lemma SwapIsWord(w: u16, high: u8, low: u8)
    requires w == 256 * high as int + low
    ensures Swap(w) == Word(low, high)
  {
  }

  lemma SwapsAreWords(proto: u8, protoLen: u16)
    ensures Swap(proto) == Word(proto, 0)
    ensures Swap(protoLen) == Word(protoLen % 0x100, protoLen / 0x100)
  {
    SwapIsWord(proto, 0, proto);
    SwapIsWord(protoLen, protoLen / 0x100, protoLen % 0x100);
  }

  /** Twelve bytes are six words. */
  lemma SixWords(h: seq<u8>)
    requires |h| == 12
    ensures ByteSum(h, false)
         == Word(h[1], h[0]) + Word(h[3], h[2]) + Word(h[5], h[4]) + Word(h[7], h[6]) + Word(h[9], h[8])
            + Word(h[11], h[10])
  {
    AddWord(h, 0, false);
    AddWord(h, 2, false);
    AddWord(h, 4, false);
    AddWord(h, 6, false);
    AddWord(h, 8, false);
    AddWord(h, 10, false);
  }

  /** What is added up front is summed in front of the data. */
  lemma SummedInFront(extra: nat, front: seq<u8>, data: seq<u8>)
    requires |front| % 2 == 0 && extra == ByteSum(front, false)
    ensures Inverted(extra, data) == Inverted(0, front + data)
  {
    SumToPrefix(front + data, front, |front|, false);
    SumToSegment(front + data, |front|, data, |data|, false);
  }

  /** What the pseudo-header versions add up front is the sum of the twelve header bytes: adding it is
      summing the header in front of the data. */
  lemma HeaderInFront(src: u32, dest: u32, proto: u8, protoLen: u16, data: seq<u8>)
    ensures Inverted(PseudoSum(src, dest, proto, protoLen), data)
         == Inverted(0, Header(src, dest, proto, protoLen) + data)
  {
    var h := Header(src, dest, proto, protoLen);
    SixWords(h);
    HalvesAreWords(src);
    HalvesAreWords(dest);
    SwapsAreWords(proto, protoLen);
    SummedInFront(PseudoSum(src, dest, proto, protoLen), h, data);
  }

  /** The first steps shared by the pseudo-header versions: fold the addresses to 16 bits. */
  method FoldAddresses(src: u32, dest: u32) returns (acc: u32)
    ensures acc == Norm(AddressSum(src, dest))
  {
    acc := src % 0x1_0000;
    acc := acc + src / 0x1_0000;
    acc := acc + dest % 0x1_0000;
    acc := acc + dest / 0x1_0000;
    FoldTwice(acc);
    acc := Fold(acc);
    acc := Fold(acc);
  }

  /** The last steps shared by the pseudo-header versions. */
  method FinishPseudo(sum: u16, ghost a: nat, ghost b: nat, proto: u8, protoLen: u16) returns (r: u16)
    requires sum == Norm(Norm(a) + b)
    ensures r == 0xFFFF - Norm(a + Swap(proto) + Swap(protoLen) + b)
  {
    var acc: u32 := sum;
    acc := acc + Swap(proto);
    acc := acc + Swap(protoLen);
    NormAdd(a, b);
    NormAdd(a + b, Swap(proto) + Swap(protoLen));
    FoldTwice(acc);
    acc := Fold(acc);
    acc := Fold(acc);
    r := 0xFFFF - acc;
  }

  /** What is left at the end is the checksum with the pseudo header in front. */
  lemma FinishedChecksum(src: u32, dest: u32, proto: u8, protoLen: u16, data: seq<u8>)
    ensures 0xFFFF - Norm(AddressSum(src, dest) + Swap(proto) + Swap(protoLen) + ByteSum(data, false))
         == Inverted(0, Header(src, dest, proto, protoLen) + data)
  {
    HeaderInFront(src, dest, proto, protoLen, data);
  }

  /** inet_chksum_pseudo */
  method InetChksumPseudo(p: Pbuf, proto: u8, protoLen: u16, src: u32, dest: u32) returns (r: u16)
    requires WellFormed(p)
    ensures r == Inverted(0, Header(src, dest, proto, protoLen) + Bytes(p))
  {
    var acc0 := FoldAddresses(src, dest);
    var acc := SumChain(p, acc0);
    r := FinishPseudo(acc, AddressSum(src, dest), ByteSum(Bytes(p), false), proto, protoLen);
    FinishedChecksum(src, dest, proto, protoLen, Bytes(p));
  }

  /** The bytes that the partial version sums. */
  function Prefix(s: seq<u8>, n: u16): seq<u8> {
    if n <= |s| then s[..n] else s
  }

  /** The body of the partial loop: of segment `q` at most `left` bytes are summed. Its swap test looks at
      the full segment length; the one segment this is wrong for is the last, and the swap is undone. */
  method AddPart(acc0: u32, q: Pbuf, left: u16, swapped: bool, ghost sum: nat)
    returns (acc: u32, swapped': bool, n: u16)
    requires q.Pbuf? && |q.payload| <= 0xFFFF && acc0 == Carried(sum, swapped)
    ensures n == if |q.payload| > left then left else |q.payload|
    ensures swapped' == (swapped != (|q.payload| % 2 != 0))
    ensures acc == Carried(sum + ByteSum(q.payload[..n], swapped), swapped')
  {
    n := |q.payload|;
    if n > left {
      n := left;
    }
    acc, swapped' := AddSegment(acc0, q.payload[..n], q.addr, |q.payload|, swapped, sum);
  }

  /** The loop of the partial version: only the first `chksumLen` bytes are summed. */
  method SumParts(p: Pbuf, chksumLen: u16, acc0: u16) returns (acc: u32, swapped: bool)
    requires WellFormed(p)
    ensures acc == Carried(acc0 + ByteSum(Prefix(Bytes(p), chksumLen), false), swapped)
  {
    acc := acc0;
    var q, left := p, chksumLen;
    ghost var all, done: nat := Bytes(p), 0;
    swapped := false;
    while q != Null && left > 0
      invariant WellFormed(q) && 0 <= left <= chksumLen
      invariant done <= |all| && done == chksumLen - left
      invariant left > 0 ==> all[done..] == Bytes(q) && swapped == High(done, false)
      invariant acc == Carried(acc0 + SumTo(all, done, false), swapped)
      decreases q
    {
      var n;
      NextSegment(all, done, q, if |q.payload| > left then left else |q.payload|);
      acc, swapped, n := AddPart(acc, q, left, swapped, acc0 + SumTo(all, done, false));
      left := left - n;
      done := done + n;
      q := q.next;
    }
    PrefixSum(all, chksumLen, done);
  }

  method SumChainPartial(p: Pbuf, chksumLen: u16, acc0: u16) returns (acc: u32)
    requires WellFormed(p)
    ensures acc == Norm(acc0 + ByteSum(Prefix(Bytes(p), chksumLen), false))
  {
    var swapped;
    acc, swapped := SumParts(p, chksumLen, acc0);
    acc := SwapBack(acc, swapped, acc0 + ByteSum(Prefix(Bytes(p), chksumLen), false));
  }

  lemma PrefixSum(s: seq<u8>, n: u16, done: nat)
    requires done == if n <= |s| then n as int else |s|
    ensures ByteSum(Prefix(s, n), false) == SumTo(s, done, false)
  {
    SumToPrefix(s, Prefix(s, n), done, false);
  }

  /** inet_chksum_pseudo_partial: the full version on the first `chksumLen` bytes. */
  method InetChksumPseudoPartial(p: Pbuf, proto: u8, protoLen: u16, chksumLen: u16, src: u32, dest: u32)
    returns (r: u16)
    requires WellFormed(p)
    ensures r == Inverted(0, Header(src, dest, proto, protoLen) +
                             if chksumLen <= |Bytes(p)| then Bytes(p)[..chksumLen] else Bytes(p))
  {
    var acc0 := FoldAddresses(src, dest);
    var acc := SumChainPartial(p, chksumLen, acc0);
    ghost var prefix := Prefix(Bytes(p), chksumLen);
    r := FinishPseudo(acc, AddressSum(src, dest), ByteSum(prefix, false), proto, protoLen);
    FinishedChecksum(src, dest, proto, protoLen, prefix);
  }

  // ---------------------------------------------------------------------------
  // What the checksum is for
  // ---------------------------------------------------------------------------

  lemma {:induction false} SumToUpdate(s: seq<u8>, i: nat, b: u8, n: nat, odd: bool)
    requires i < n <= |s|
    ensures SumTo(s[i := b], n, odd)
         == SumTo(s, n, odd) + Term(b, High(i, odd)) - Term(s[i], High(i, odd))
  {
    if i == n - 1 {
      SumToPrefix(s[i := b], s, n - 1, odd);
    } else {
      SumToUpdate(s, i, b, n - 1, odd);
    }
  }

  /** Receiver check: a message whose zeroed checksum field, at any even offset, is filled with the
      computed checksum sums to zero, whatever the pseudo header contributes. */
  lemma StoredChecksumVerifies(extra: nat, s: seq<u8>, at: nat)
    requires at % 2 == 0 && at + 1 < |s| && s[at] == 0 && s[at + 1] == 0
    ensures var c := Inverted(extra, s);
            Inverted(extra, s[at := c % 256][at + 1 := c / 256]) == 0
  {
    var c := Inverted(extra, s);
    var s' := s[at := c % 256];
    SumToUpdate(s, at, c % 256, |s|, false);
    SumToUpdate(s', at + 1, c / 256, |s|, false);
    NormAdd(extra + ByteSum(s, false), c);
  }

  /** Any change of one byte changes the checksum. */
  lemma OneByteChangeIsSeen(extra: nat, s: seq<u8>, i: nat, b: u8)
    requires i < |s| && b != s[i]
    ensures Inverted(extra, s[i := b]) != Inverted(extra, s)
  {
    SumToUpdate(s, i, b, |s|, false);
    var x, y := extra + ByteSum(s, false), extra + ByteSum(s[i := b], false);
    if x < y {
      NormSeparates(x, y - x);
    } else {
      NormSeparates(y, x - y);
    }
  }
}
