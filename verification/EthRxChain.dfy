/** The pbuf chain that the Ethernet receive callback builds for one packet. */
module EthRxChain {
  import opened Words

  const U16_RANGE := 0x1_0000

  /** The bytes from buffer `i` to the end of the chain. */
  function SumFrom(lens: seq<u16>, i: nat): nat
    requires i <= |lens|
    decreases |lens| - i
  {
    if i == |lens| then 0 else lens[i] + SumFrom(lens, i + 1)
  }

  lemma {:induction false} SumFromAppend(lens: seq<u16>, length: u16, i: nat)
    requires i <= |lens|
    ensures SumFrom(lens + [length], i) == SumFrom(lens, i) + length
    decreases |lens| - i
  {
    if i < |lens| {
      SumFromAppend(lens, length, i + 1);
    } else {
      assert SumFrom(lens + [length], i + 1) == 0;
    }
  }

  function Wrap(n: nat): u16 {
    n % U16_RANGE
  }

  lemma WrapAdd(a: nat, b: nat)
    ensures Wrap(Wrap(a) + b) == Wrap(a + b)
  {
    assert a == U16_RANGE * (a / U16_RANGE) + Wrap(a);
    ModShift(a / U16_RANGE, Wrap(a) + b);
  }

  lemma {:induction false} ModShift(k: nat, n: nat)
    ensures (U16_RANGE * k + n) % U16_RANGE == n % U16_RANGE
  {
    if k > 0 {
      ModShift(k - 1, n);
      assert U16_RANGE * k + n == (U16_RANGE * (k - 1) + n) + U16_RANGE;
    }
  }

  /** A total that has the new length added is the total of the longer chain. */
  lemma TotalAfter(lens: seq<u16>, length: u16, i: nat)
    requires i <= |lens|
    ensures Wrap((if i < |lens| then Wrap(SumFrom(lens, i)) else 0) + length) == Wrap(SumFrom(lens + [length], i))
  {
    SumFromAppend(lens, length, i);
    WrapAdd(SumFrom(lens, i), length);
  }

  class Pbuf {
    var next: Pbuf?
    var totLen: u16
    var len: u16
  }

  /** The chain between *pStart and *pEnd: `bufs` in the order of the calls, with their lengths. */
  class Packet {
    var start: Pbuf?
    var end: Pbuf?
    ghost var bufs: seq<Pbuf>
    ghost var lens: seq<u16>

    ghost predicate Linked()
      reads this, bufs
    {
      && |lens| == |bufs|
      && (forall i, j :: 0 <= i < j < |bufs| ==> bufs[i] != bufs[j])
      && start == BufAt(bufs, 0) && end == BufAt(bufs, |bufs| - 1)
      && (forall i {:trigger bufs[i].next} :: 0 <= i < |bufs| ==> bufs[i].next == BufAt(bufs, i + 1))
      && (forall i {:trigger bufs[i].len} :: 0 <= i < |bufs| ==> bufs[i].len == lens[i])
    }

    /** Every buffer says how many bytes the chain has from it on, in 16 bits. */
    ghost predicate Valid()
      reads this, bufs
    {
      && Linked()
      && (forall i {:trigger bufs[i].totLen} :: 0 <= i < |bufs| ==> bufs[i].totLen == Wrap(SumFrom(lens, i)))
    }

    constructor ()
      ensures Valid() && bufs == [] && lens == []
    {
      start, end, bufs, lens := null, null, [], [];
    }

    /** HAL_ETH_RxLinkCallback: the new buffer comes last, and all the totals include it. */
    method RxLink(p: Pbuf, length: u16)
      requires Valid() && p !in bufs
      modifies this, p, bufs
      ensures Valid() && bufs == old(bufs) + [p] && lens == old(lens) + [length]
    {
      Chain(p, length);
      AddToTotals(length);
      forall i | 0 <= i < |bufs| ensures bufs[i].totLen == Wrap(SumFrom(lens, i)) {
        TotalAfter(old(lens), length, i);
      }
    }

    /** The buffer is emptied and put at the end of the chain. */
    method Chain(p: Pbuf, length: u16)
      requires Linked() && p !in bufs
      modifies this, p, bufs`next
      ensures Linked() && bufs == old(bufs) + [p] && lens == old(lens) + [length] && p.totLen == 0
    {
      p.next := null;
      p.totLen := 0;
      p.len := length;
      if start == null {
        start := p;
      } else {
        end.next := p;
      }
      end := p;
      bufs := bufs + [p];
      lens := lens + [length];
    }

    /** The loop over the chain. */
    method AddToTotals(length: u16)
      requires Linked()
      modifies bufs`totLen
      ensures forall i :: 0 <= i < |bufs| ==> bufs[i].totLen == Wrap(old(bufs[i].totLen) + length)
    {
      var p := start;
      ghost var k := 0;
      while p != null
        invariant 0 <= k <= |bufs| && p == BufAt(bufs, k)
        invariant forall i :: 0 <= i < k ==> bufs[i].totLen == Wrap(old(bufs[i].totLen) + length)
        invariant forall i :: k <= i < |bufs| ==> bufs[i].totLen == old(bufs[i].totLen)
        decreases |bufs| - k
      {
        p.totLen := Wrap(p.totLen + length);
        p := p.next;
        k := k + 1;
      }
    }
  }

  function BufAt(s: seq<Pbuf>, i: int): Pbuf? {
    if 0 <= i < |s| then s[i] else null
  }

  lemma {:induction false} SumFromFalls(lens: seq<u16>, i: nat, j: nat)
    requires i <= j <= |lens|
    ensures SumFrom(lens, j) <= SumFrom(lens, i)
    decreases j - i
  {
    if i < j {
      SumFromFalls(lens, i + 1, j);
    }
  }

  /** The totals are the exact sums for all buffers exactly if the packet has less than 2^16 bytes. */
  lemma TotalsExactIff(lens: seq<u16>)
    ensures (forall i :: 0 <= i <= |lens| ==> Wrap(SumFrom(lens, i)) == SumFrom(lens, i))
            <==> SumFrom(lens, 0) < U16_RANGE
  {
    if SumFrom(lens, 0) < U16_RANGE {
      forall i | 0 <= i <= |lens| ensures Wrap(SumFrom(lens, i)) == SumFrom(lens, i) {
        SumFromFalls(lens, 0, i);
      }
    }
  }
}
