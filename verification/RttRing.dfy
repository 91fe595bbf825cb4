/** The SEGGER RTT ring buffer: one writer and one reader that share two offsets and no lock.
    The host may move the read offset (or, for a ring towards the target, append) between any two
    memory accesses of the target. */
module RttRing {
  import opened Words

  // ---------------------------------------------------------------------------
  // Positions on a ring of `n` cells
  // ---------------------------------------------------------------------------

  /** Steps forward from cell `from` to cell `to`. */
  function Dist(from: nat, to: nat, n: nat): (d: nat)
    requires from < n && to < n
  {
    if from <= to then to - from else to - from + n
  }

  function Wrap(x: nat, n: nat): (r: nat)
    requires x < 2 * n
  {
    if x < n then x else x - n
  }

  /** The `len` cells of `b` from `from` on, in ring order. */
  function Slice(b: seq<u8>, from: nat, len: nat): (s: seq<u8>)
    requires from < |b| && len <= |b|
  {
    seq(len, k requires 0 <= k < len => b[Wrap(from + k, |b|)])
  }

  /** `b` with `data` laid over the cells from `at` on, in ring order. */
  function Put(b: seq<u8>, at: nat, data: seq<u8>): (r: seq<u8>)
    requires at < |b| && |data| <= |b|
    ensures |r| == |b|
  {
    seq(|b|, i requires 0 <= i < |b| => if Dist(at, i, |b|) < |data| then data[Dist(at, i, |b|)] else b[i])
  }

  /** The last `n` elements of `s`, or all of them. */
  function Last(s: seq<u8>, n: nat): seq<u8> {
    if |s| <= n then s else s[|s| - n..]
  }

  /** Laying `data` behind the unread cells appends it to them, as long as one cell stays free. */
  lemma PutExtends(b: seq<u8>, rd: nat, used: nat, data: seq<u8>)
    requires rd < |b| && used + |data| < |b|
    ensures var wr := Wrap(rd + used, |b|);
            (Slice(Put(b, wr, data), rd, used + |data|) == Slice(b, rd, used) + data
             && Dist(rd, Wrap(wr + |data|, |b|), |b|) == used + |data|)
  {
    var wr := Wrap(rd + used, |b|);
    var p := Put(b, wr, data);
    var l, r := Slice(p, rd, used + |data|), Slice(b, rd, used) + data;
    forall k | 0 <= k < used + |data|
      ensures l[k] == r[k]
    {
      assert l[k] == p[Wrap(rd + k, |b|)];
    }
  }

  /** Two chunks laid one behind the other are one `Put`. */
  lemma PutAppend(b: seq<u8>, at: nat, d1: seq<u8>, d2: seq<u8>)
    requires at < |b| && |d1| + |d2| <= |b|
    ensures Put(Put(b, at, d1), Wrap(at + |d1|, |b|), d2) == Put(b, at, d1 + d2)
  {
    var p := Put(b, at, d1);
    var l, r := Put(p, Wrap(at + |d1|, |b|), d2), Put(b, at, d1 + d2);
    forall i | 0 <= i < |b|
      ensures l[i] == r[i]
    {
      var d, e := Dist(at, i, |b|), Dist(Wrap(at + |d1|, |b|), i, |b|);
      assert l[i] == if e < |d2| then d2[e] else p[i];
      assert p[i] == if d < |d1| then d1[d] else b[i];
      assert r[i] == if d < |d1 + d2| then (d1 + d2)[d] else b[i];
      if d < |d1| {
        assert e == if |d1| == |b| then d else d + |b| - |d1|;
        assert r[i] == (d1 + d2)[d] == d1[d];
      } else {
        assert e == d - |d1|;
      }
    }
  }

  lemma SliceAt(b: seq<u8>, from: nat, len: nat, k: nat)
    requires from < |b| && k < len <= |b|
    ensures Slice(b, from, len)[k] == b[Wrap(from + k, |b|)]
  {
  }

  /** Storing outside a slice does not change it. */
  lemma SliceUntouched(b: seq<u8>, from: nat, len: nat, i: nat, v: u8)
    requires from < |b| && len <= |b| && i < |b| && Dist(from, i, |b|) >= len
    ensures Slice(b[i := v], from, len) == Slice(b, from, len)
  {
    var l, r := Slice(b[i := v], from, len), Slice(b, from, len);
    forall k | 0 <= k < len
      ensures l[k] == r[k]
    {
      assert l[k] == b[i := v][Wrap(from + k, |b|)];
    }
  }

  lemma SliceAdvance(b: seq<u8>, from: nat, len: nat, k: nat)
    requires from < |b| && k <= len < |b|
    ensures Slice(b, from, len) == Slice(b, from, k) + Slice(b, Wrap(from + k, |b|), len - k)
    ensures Dist(Wrap(from + k, |b|), Wrap(from + len, |b|), |b|) == len - k
  {
    var l, r := Slice(b, from, len), Slice(b, from, k) + Slice(b, Wrap(from + k, |b|), len - k);
    forall i | 0 <= i < len
      ensures l[i] == r[i]
    {
      SliceAt(b, from, len, i);
      if i < k {
        SliceAt(b, from, k, i);
      } else {
        SliceAt(b, Wrap(from + k, |b|), len - k, i - k);
      }
    }
  }

  // ---------------------------------------------------------------------------
  // Writing with overwrite
  // ---------------------------------------------------------------------------

  /** The cells and the write offset after SEGGER_RTT_WriteWithOverwriteNoLock has laid `data` over
      the ring: `room` bytes up to the end of the buffer now, one less than the size in later laps. */
  function OverwriteLaps(b: seq<u8>, wr: nat, room: nat, data: seq<u8>): (r: (seq<u8>, nat))
    requires 2 <= |b| && wr < |b| && 0 < room <= |b| - wr
    ensures |r.0| == |b| && r.1 < |b|
    decreases |data|
  {
    if room > |data| then (Put(b, wr, data), wr + |data|)
    else
      var b1 := Put(b, wr, data[..room]);
      if |data| == room then (b1, 0) else OverwriteLaps(b1, 0, |b| - 1, data[room..])
  }

  function Reduce(x: nat, size: nat): (r: nat)
    requires 0 < size
    ensures r < size
  {
    if x < size then x else Reduce(x - size, size)
  }

  /** The read offset chosen before the data are written. */
  function OverwriteRdOff(size: u32, wr: nat, rd: nat, n: u32): (r: nat)
    requires wr < size && rd < size
    ensures r < size
  {
    var avail := size - 1 - Dist(rd, wr, size);
    if n > avail then Reduce(Add32(rd, n - avail), size) else rd
  }

  /** What an overwriting write is meant to leave: the last size - 1 bytes of the old unread bytes
      followed by the data. */
  predicate OverwriteRight(b: seq<u8>, wr: nat, rd: nat, data: seq<u8>)
    requires 2 <= |b| <= 0x8000_0000 && wr < |b| && rd < |b| && |data| < TWO_32
  {
    var (b', wr') := OverwriteLaps(b, wr, |b| - wr, data);
    var rd' := OverwriteRdOff(|b|, wr, rd, |data|);
    Slice(b', rd', Dist(rd', wr', |b|)) == Last(Slice(b, rd, Dist(rd, wr, |b|)) + data, |b| - 1)
  }

  /** It does so, whatever the bytes are, exactly when the write ends before the last cell of the
      second lap: later laps use only size - 1 cells. A write shorter than the ring always does. */
  lemma OverwriteRightIff(b: seq<u8>, wr: nat, rd: nat, n: nat)
    requires 2 <= |b| <= 0x8000_0000 && wr < |b| && rd < |b| && n < TWO_32
    ensures (forall data: seq<u8> | |data| == n :: OverwriteRight(b, wr, rd, data)) <==> wr + n <= 2 * |b| - 2
  {
    if wr + n <= 2 * |b| - 2 {
      forall data: seq<u8> | |data| == n
        ensures OverwriteRight(b, wr, rd, data)
      {
        OverwriteWithinTwoLaps(b, wr, rd, data);
      }
    } else {
      var mark := |b| - 1 - wr;
      var data := seq(n, i => if i == mark then 1 as u8 else 0);
      OverwriteBeyondTwoLaps(b, wr, rd, data);
      assert !OverwriteRight(b, wr, rd, data);
    }
  }

  /** Up to the last cell of the second lap, the laps are two chunks in ring order. */
  lemma TwoLaps(b: seq<u8>, wr: nat, data: seq<u8>)
    requires 2 <= |b| && wr < |b| && wr + |data| <= 2 * |b| - 2
    ensures var k := if |data| < |b| - wr then |data| else |b| - wr;
            OverwriteLaps(b, wr, |b| - wr, data) == (Put(Put(b, wr, data[..k]), 0, data[k..]), Wrap(wr + |data|, |b|))
  {
    var k := if |data| < |b| - wr then |data| else |b| - wr;
    if k == |data| {
      assert data[..k] == data;
      assert Put(Put(b, wr, data), 0, []) == Put(b, wr, data);
    }
  }

  /** The byte in the cell that lies `q` places behind the start of the data (or before it). */
  lemma CellOfTwoLaps(b: seq<u8>, wr: nat, data: seq<u8>, k: nat, i: nat, q: int)
    requires wr < |b| && i < |b| && wr + |data| <= 2 * |b| - 2
    requires k == if |data| < |b| - wr then |data| else |b| - wr
    requires |data| - |b| < q < |data| && (i == wr + q || i == wr + q - |b| || i == wr + q + |b|)
    ensures Put(Put(b, wr, data[..k]), 0, data[k..])[i] == if q >= 0 then data[q] else b[i]
  {
    var b1 := Put(b, wr, data[..k]);
    assert Put(b1, 0, data[k..])[i] == if i < |data| - k then data[k..][i] else b1[i];
    assert b1[i] == if Dist(wr, i, |b|) < k then data[..k][Dist(wr, i, |b|)] else b[i];
  }

  /** The write that pushes old bytes out: the full ring holds the most recent size - 1 bytes. */
  lemma OverwriteFull(b: seq<u8>, wr: nat, rd: nat, data: seq<u8>, k: nat, rd': nat)
    requires 2 <= |b| && wr < |b| && rd < |b| && wr + |data| <= 2 * |b| - 2
    requires |data| > |b| - 1 - Dist(rd, wr, |b|)
    requires k == if |data| < |b| - wr then |data| else |b| - wr
    requires rd' == Wrap(Wrap(wr + |data|, |b|) + 1, |b|)
    ensures Slice(Put(Put(b, wr, data[..k]), 0, data[k..]), rd', |b| - 1)
         == Last(Slice(b, rd, Dist(rd, wr, |b|)) + data, |b| - 1)
  {
    var n, size, used := |data|, |b|, Dist(rd, wr, |b|);
    var b' := Put(Put(b, wr, data[..k]), 0, data[k..]);
    var unread := Slice(b, rd, used);
    var now, want := Slice(b', rd', size - 1), Last(unread + data, size - 1);
    forall j | 0 <= j < size - 1
      ensures now[j] == want[j]
    {
      var q := n - (size - 1) + j;
      SliceAt(b', rd', size - 1, j);
      CellOfTwoLaps(b, wr, data, k, Wrap(rd' + j, size), q);
      assert want[j] == (unread + data)[used + q];
      if q < 0 {
        SliceAt(b, rd, used, used + q);
      }
    }
  }

  /** The write that fits beside the old bytes. */
  lemma OverwriteFits(b: seq<u8>, wr: nat, rd: nat, data: seq<u8>, k: nat)
    requires 2 <= |b| && wr < |b| && rd < |b| && Dist(rd, wr, |b|) + |data| < |b|
    requires k == if |data| < |b| - wr then |data| else |b| - wr
    ensures var b' := Put(Put(b, wr, data[..k]), 0, data[k..]);
            Slice(b', rd, Dist(rd, Wrap(wr + |data|, |b|), |b|)) == Slice(b, rd, Dist(rd, wr, |b|)) + data
  {
    PutExtends(b, rd, Dist(rd, wr, |b|), data);
    PutAppend(b, wr, data[..k], data[k..]);
    assert data[..k] + data[k..] == data;
    if k == |data| {
      assert Put(Put(b, wr, data[..k]), 0, data[k..]) == Put(b, wr, data);
    }
  }

  lemma OverwriteWithinTwoLaps(b: seq<u8>, wr: nat, rd: nat, data: seq<u8>)
    requires 2 <= |b| <= 0x8000_0000 && wr < |b| && rd < |b| && wr + |data| <= 2 * |b| - 2
    ensures OverwriteRight(b, wr, rd, data)
  {
    var n, size, used := |data|, |b|, Dist(rd, wr, |b|);
    var k := if n < size - wr then n else size - wr;
    TwoLaps(b, wr, data);
    if n <= size - 1 - used {
      OverwriteFits(b, wr, rd, data, k);
    } else {
      OverwriteFills(size, wr, rd, n);
      OverwriteFull(b, wr, rd, data, k, OverwriteRdOff(size, wr, rd, n));
    }
  }

  /** When old bytes have to go, the read offset ends up one cell past the write offset: full. */
  lemma OverwriteFills(size: u32, wr: nat, rd: nat, n: nat)
    requires 2 <= size <= 0x8000_0000 && wr < size && rd < size && wr + n <= 2 * size - 2
    requires n > size - 1 - Dist(rd, wr, size)
    ensures OverwriteRdOff(size, wr, rd, n) == Wrap(Wrap(wr + n, size) + 1, size)
  {
    var x := rd + (n - (size - 1 - Dist(rd, wr, size)));
    assert x == wr + n + 1 - size || x == wr + n + 1;
    assert x < 2 * size;
    assert Reduce(x, size) == Wrap(x, size);
  }

  /** The last cell keeps the byte that the first lap stored there. */
  lemma {:induction false} LaterLapsSkipLastCell(b: seq<u8>, data: seq<u8>)
    requires 2 <= |b|
    ensures var (b', wr') := OverwriteLaps(b, 0, |b| - 1, data);
            wr' < |b| - 1 && b'[|b| - 1] == b[|b| - 1]
    decreases |data|
  {
    var room := |b| - 1;
    if room < |data| {
      LaterLapsSkipLastCell(Put(b, 0, data[..room]), data[room..]);
    }
  }

  lemma OverwriteBeyondTwoLaps(b: seq<u8>, wr: nat, rd: nat, data: seq<u8>)
    requires 2 <= |b| <= 0x8000_0000 && wr < |b| && rd < |b| && |data| < TWO_32
    requires wr + |data| > 2 * |b| - 2
    requires forall i :: 0 <= i < |data| ==> data[i] == if i == |b| - 1 - wr then 1 else 0
    ensures !OverwriteRight(b, wr, rd, data)
  {
    var size, n := |b|, |data|;
    var room := size - wr;
    var b1 := Put(b, wr, data[..room]);
    assert b1[size - 1] == 1;
    LaterLapsSkipLastCell(b1, data[room..]);
    var (b', wr') := OverwriteLaps(b, wr, room, data);
    var rd' := OverwriteRdOff(size, wr, rd, n);
    var used' := Dist(rd', wr', size);
    var now, want := Slice(b', rd', used'), Last(Slice(b, rd, Dist(rd, wr, size)) + data, size - 1);
    if used' == size - 1 {
      var j := Dist(rd', size - 1, size);
      SliceAt(b', rd', used', j);
      assert now[j] == 1 && want[j] == data[n - (size - 1) + j] == 0;
    }
  }

  /** Whatever the other side wants to store, up to `n` bytes. */
  method AnyData(n: nat) returns (data: seq<u8>)
    ensures |data| <= n
  {
    data :| |data| <= n;
  }

  /** How many of the first `n` are true. */
  function Trues(s: seq<bool>, n: nat): nat
    requires n <= |s|
  {
    if n == 0 then 0 else Trues(s, n - 1) + if s[n - 1] then 1 else 0
  }

  datatype Mode = NoBlockSkip | NoBlockTrim | BlockIfFifoFull | OtherMode

  class Ring {
    const pBuffer: array<u8>
    var WrOff: nat
    var RdOff: nat

    /** Everything the writer has published, and everything that has left at the read side. */
    ghost var accepted: seq<u8>
    ghost var gone: seq<u8>

    ghost predicate Valid()
      reads this, pBuffer
    {
      && 2 <= pBuffer.Length <= 0x8000_0000
      && WrOff < pBuffer.Length && RdOff < pBuffer.Length
      && accepted == gone + Unread()
    }

    function Used(): nat
      reads this
      requires WrOff < pBuffer.Length && RdOff < pBuffer.Length
    {
      Dist(RdOff, WrOff, pBuffer.Length)
    }

    /** One cell always stays free. */
    function Avail(): nat
      reads this
      requires WrOff < pBuffer.Length && RdOff < pBuffer.Length
    {
      pBuffer.Length - 1 - Used()
    }

    ghost function Unread(): seq<u8>
      reads this, pBuffer
      requires WrOff < pBuffer.Length && RdOff < pBuffer.Length
    {
      Slice(pBuffer[..], RdOff, Used())
    }

    constructor (size: nat)
      requires 2 <= size <= 0x8000_0000
      ensures Valid() && fresh(pBuffer) && pBuffer.Length == size && accepted == [] && gone == []
    {
      pBuffer := new u8[size](_ => 0);
      WrOff, RdOff := 0, 0;
      accepted, gone := [], [];
    }

    /** The host consumes any number of unread bytes, possibly none. */
    method HostStep()
      requires Valid()
      modifies this`RdOff, this`gone
      ensures Valid() && Used() <= old(Used())
    {
      var k: nat :| k <= Used();
      Release(Wrap(RdOff + k, pBuffer.Length), k);
    }

    /** The host may consume unread bytes; if it `takes` any, it takes at least one where there is one. */
    method HostTurn(takes: bool)
      requires Valid()
      modifies this`RdOff, this`gone
      ensures Valid() && Used() <= old(Used()) && (takes ==> Avail() > 0)
    {
      var k: nat :| (if takes && Used() > 0 then 1 else 0) <= k <= Used();
      Release(Wrap(RdOff + k, pBuffer.Length), k);
    }

    /** memcpy into the ring, a byte at a time, while the host goes on reading. The cells written
        are free, so no unread byte is overwritten. */
    method CopyIn(at: nat, src: seq<u8>)
      requires Valid() && at < pBuffer.Length && at + |src| <= pBuffer.Length
      requires Dist(WrOff, at, pBuffer.Length) + |src| <= Avail()
      modifies this`RdOff, this`gone, pBuffer
      ensures Valid() && Used() <= old(Used())
      ensures pBuffer[..] == Put(old(pBuffer[..]), at, src)
    {
      var j := 0;
      while j < |src|
        invariant 0 <= j <= |src|
        invariant Valid() && Used() <= old(Used())
        invariant pBuffer[..] == Put(old(pBuffer[..]), at, src[..j])
      {
        SliceUntouched(pBuffer[..], RdOff, Used(), at + j, src[j]);
        ghost var before := pBuffer[..];
        pBuffer[at + j] := src[j];
        assert pBuffer[..] == before[at + j := src[j]];
        HostStep();
        j := j + 1;
      }
      assert src[..j] == src;
    }

    /** Storing the new write offset makes `data`, already in place, visible to the host. */
    method Publish(wrOff: nat, ghost data: seq<u8>, ghost before: seq<u8>)
      requires WrOff < pBuffer.Length && RdOff < pBuffer.Length && |before| == pBuffer.Length
      requires Valid() && |data| <= Avail() && wrOff == Wrap(WrOff + |data|, pBuffer.Length)
      requires pBuffer[..] == Put(before, WrOff, data)
      modifies this`WrOff, this`accepted
      ensures Valid() && WrOff == wrOff && accepted == old(accepted) + data
      ensures Used() == old(Used()) + |data|
    {
      PutExtends(pBuffer[..], RdOff, Used(), data);
      assert Put(pBuffer[..], WrOff, data) == pBuffer[..];
      WrOff := wrOff;
      accepted := accepted + data;
    }

    /** _GetAvailWriteSpace: the host may free more space between the two reads. */
    method GetAvailWriteSpace() returns (r: nat)
      requires Valid()
      modifies this`RdOff, this`gone
      ensures Valid() && r == old(Avail()) && r <= Avail()
    {
      var rdOff := RdOff;
      HostStep();
      var wrOff := WrOff;
      if rdOff <= wrOff {
        r := pBuffer.Length - 1 - wrOff + rdOff;
      } else {
        r := rdOff - wrOff - 1;
      }
    }

    /** _WriteNoCheck */
    method WriteNoCheck(data: seq<u8>)
      requires Valid() && |data| <= Avail()
      modifies this, pBuffer
      ensures Valid() && accepted == old(accepted) + data
      ensures WrOff == Wrap(old(WrOff) + |data|, pBuffer.Length)
      ensures pBuffer[..] == Put(old(pBuffer[..]), old(WrOff), data)
    {
      ghost var before := pBuffer[..];
      var wrOff := WrOff;
      var rem := pBuffer.Length - wrOff;
      if rem > |data| {
        CopyIn(wrOff, data);
        Publish(wrOff + |data|, data, before);
      } else {
        PutAppend(before, wrOff, data[..rem], data[rem..]);
        assert data[..rem] + data[rem..] == data;
        CopyIn(wrOff, data[..rem]);
        CopyIn(0, data[rem..]);
        Publish(|data| - rem, data, before);
      }
    }

    /** SEGGER_RTT_WriteSkipNoLock: all or nothing, decided on the read offset seen at the start. */
    method WriteSkipNoLock(data: seq<u8>) returns (stored: bool)
      requires Valid()
      modifies this, pBuffer
      ensures Valid() && stored == (|data| <= old(Avail()))
      ensures stored ==>
                && accepted == old(accepted) + data
                && WrOff == Wrap(old(WrOff) + |data|, pBuffer.Length)
                && pBuffer[..] == Put(old(pBuffer[..]), old(WrOff), data)
      ensures !stored ==> accepted == old(accepted) && WrOff == old(WrOff) && pBuffer[..] == old(pBuffer[..])
    {
      ghost var before := pBuffer[..];
      var rdOff := RdOff;
      HostStep();
      var wrOff := WrOff;
      if rdOff <= wrOff {
        var avail := pBuffer.Length - wrOff - 1;
        if avail >= |data| {
          CopyIn(wrOff, data);
          Publish(wrOff + |data|, data, before);
          return true;
        }
        avail := avail + rdOff;
        if avail >= |data| {
          var rem := pBuffer.Length - wrOff;
          PutAppend(before, wrOff, data[..rem], data[rem..]);
          assert data[..rem] + data[rem..] == data;
          CopyIn(wrOff, data[..rem]);
          if |data| - rem != 0 {
            CopyIn(0, data[rem..]);
          } else {
            assert data[..rem] == data;
          }
          Publish(|data| - rem, data, before);
          return true;
        }
      } else {
        var avail := rdOff - wrOff - 1;
        if avail >= |data| {
          CopyIn(wrOff, data);
          Publish(wrOff + |data|, data, before);
          return true;
        }
      }
      return false;
    }

    /** One round of _WriteBlocking: as much of what remains of `data` as fits before the wrap-around. It
        makes headway if the host has made room. */
    method WriteRound(data: seq<u8>, done: nat, takes: bool) returns (n: nat, ghost part: seq<u8>)
      requires Valid() && done <= |data|
      modifies this, pBuffer
      ensures Valid() && done + n <= |data| && part == data[done..done + n]
      ensures accepted == old(accepted) + part && (takes && done < |data| ==> n > 0)
      ensures Min(|data| - done, Min(old(Avail()), pBuffer.Length - old(WrOff))) <= n
                <= pBuffer.Length - old(WrOff)
      ensures WrOff == Wrap(old(WrOff) + n, pBuffer.Length) && Used() <= old(Used()) + n
      ensures pBuffer[..] == Put(old(pBuffer[..]), old(WrOff), part)
    {
      ghost var before := pBuffer[..];
      HostTurn(takes);
      var rdOff, wrOff := RdOff, WrOff;
      if rdOff > wrOff {
        n := rdOff - wrOff - 1;
      } else {
        n := pBuffer.Length - (wrOff - rdOff + 1);
      }
      n := Min(n, pBuffer.Length - wrOff);
      n := Min(n, |data| - done);
      part := data[done..done + n];
      CopyIn(wrOff, data[done..done + n]);
      wrOff := wrOff + n;
      if wrOff == pBuffer.Length {
        wrOff := 0;
      }
      Publish(wrOff, part, before);
    }

    /** _WriteBlocking, watched for |takes| rounds; `takes` says in which of them the host takes a byte
        before the write looks. Without a reader it never returns from a full ring. What was stored so far
        is always a prefix of the data, and all of it once the host has read in as many rounds as there
        are bytes. */
    method WriteBlocking(data: seq<u8>, takes: seq<bool>) returns (written: nat)
      requires Valid()
      modifies this, pBuffer
      ensures Valid() && written <= |data| && accepted == old(accepted) + data[..written]
      ensures Trues(takes, |takes|) >= |data| ==> written == |data|
      ensures |data| <= old(Avail()) ==>
                && (|takes| >= 2 ==> written == |data|)
                && WrOff == Wrap(old(WrOff) + written, pBuffer.Length)
                && pBuffer[..] == Put(old(pBuffer[..]), old(WrOff), data[..written])
    {
      ghost var b0, wr0, used0, acc0 := pBuffer[..], WrOff, Used(), accepted;
      ghost var fits, stored := |data| <= Avail(), [];
      written := 0;
      var turn := 0;
      while turn < |takes| && (turn == 0 || written < |data|)
        invariant 0 <= turn <= |takes| && Valid() && written <= |data|
        invariant stored == data[..written] && accepted == acc0 + stored
        invariant written < |data| ==> Trues(takes, turn) <= written
        invariant fits ==> Used() <= used0 + written && LaidBehind(b0, wr0, stored)
        invariant fits && turn >= 1 ==> written == |data| || (turn == 1 && written == |b0| - wr0)
      {
        ghost var before, wr := pBuffer[..], WrOff;
        var n, part := WriteRound(data, written, takes[turn]);
        if fits {
          LaidFurther(b0, wr0, stored, before, wr, part);
        }
        assert stored + part == data[..written + n];
        stored := stored + part;
        written, turn := written + n, turn + 1;
      }
    }

    /** `stored` lies in the cells of `b` from `wr` on, and the write offset is behind it. */
    ghost predicate LaidBehind(b: seq<u8>, wr: nat, stored: seq<u8>)
      reads this, pBuffer
    {
      && wr < |b| == pBuffer.Length && |stored| <= |b|
      && WrOff == Wrap(wr + |stored|, |b|) && pBuffer[..] == Put(b, wr, stored)
    }

    lemma LaidFurther(b: seq<u8>, wr: nat, stored: seq<u8>, before: seq<u8>, wr1: nat, part: seq<u8>)
      requires wr < |b| == pBuffer.Length && |stored| + |part| <= |b|
      requires before == Put(b, wr, stored) && wr1 == Wrap(wr + |stored|, |b|)
      requires WrOff == Wrap(wr1 + |part|, |b|) && pBuffer[..] == Put(before, wr1, part)
      ensures LaidBehind(b, wr, stored + part)
    {
      PutAppend(b, wr, stored, part);
    }

    /** SEGGER_RTT_WriteNoLock */
    method WriteNoLock(flags: Mode, data: seq<u8>, takes: seq<bool>) returns (status: nat)
      requires Valid()
      modifies this, pBuffer
      ensures Valid() && status <= |data| && accepted == old(accepted) + data[..status]
      ensures flags == NoBlockSkip ==> status == if |data| <= old(Avail()) then |data| else 0
      ensures flags == NoBlockTrim ==> status == Min(|data|, old(Avail()))
      ensures flags == OtherMode ==> status == 0
      ensures flags == BlockIfFifoFull && |takes| >= 2 && |data| <= old(Avail()) ==> status == |data|
      ensures flags == BlockIfFifoFull && Trues(takes, |takes|) >= |data| ==> status == |data|
      ensures flags != BlockIfFifoFull || |data| <= old(Avail()) ==>
                && status < pBuffer.Length
                && WrOff == Wrap(old(WrOff) + status, pBuffer.Length)
                && pBuffer[..] == Put(old(pBuffer[..]), old(WrOff), data[..status])
    {
      assert data[..|data|] == data;
      match flags
      case NoBlockSkip =>
        var avail := GetAvailWriteSpace();
        if avail < |data| {
          status := 0;
        } else {
          status := |data|;
          WriteNoCheck(data);
        }
      case NoBlockTrim =>
        var avail := GetAvailWriteSpace();
        status := if avail < |data| then avail else |data|;
        WriteNoCheck(data[..status]);
      case BlockIfFifoFull =>
        status := WriteBlocking(data, takes);
      case OtherMode =>
        status := 0;
    }

    /** The loop that lays the data over the ring. */
    method OverwriteCells(data: seq<u8>)
      requires 2 <= pBuffer.Length && WrOff < pBuffer.Length
      modifies this`WrOff, pBuffer
      ensures WrOff < pBuffer.Length
      ensures (pBuffer[..], WrOff)
           == OverwriteLaps(old(pBuffer[..]), old(WrOff), pBuffer.Length - old(WrOff), data)
    {
      ghost var goal := OverwriteLaps(pBuffer[..], WrOff, pBuffer.Length - WrOff, data);
      var avail, rest := pBuffer.Length - WrOff, data;
      var running := true;
      while running
        invariant WrOff < pBuffer.Length && (running ==> 0 < avail <= pBuffer.Length - WrOff)
        invariant goal == if running then OverwriteLaps(pBuffer[..], WrOff, avail, rest) else (pBuffer[..], WrOff)
        decreases running, |rest|
      {
        if avail > |rest| {
          CopyCells(WrOff, rest);
          WrOff := WrOff + |rest|;
          running := false;
        } else {
          CopyCells(WrOff, rest[..avail]);
          rest := rest[avail..];
          WrOff := 0;
          avail := pBuffer.Length - 1;
          running := |rest| != 0;
        }
      }
    }

    /** memcpy into the ring with nobody reading. */
    method CopyCells(at: nat, src: seq<u8>)
      requires at < pBuffer.Length && at + |src| <= pBuffer.Length
      modifies pBuffer
      ensures pBuffer[..] == Put(old(pBuffer[..]), at, src)
    {
      forall i | 0 <= i < |src| {
        pBuffer[at + i] := src[i];
      }
    }

    /** Moving the read offset past the bytes that will be overwritten. */
    method DropOldest(n: u32)
      requires Valid()
      modifies this`RdOff
      ensures RdOff == OverwriteRdOff(pBuffer.Length, WrOff, old(RdOff), n)
    {
      var size := pBuffer.Length;
      var avail;
      if WrOff == RdOff {
        avail := size - 1;
      } else if WrOff < RdOff {
        avail := RdOff - WrOff - 1;
      } else {
        avail := Add32(Sub32(Sub32(RdOff, WrOff), 1), size);
      }
      if n > avail {
        RdOff := Add32(RdOff, n - avail);
        while RdOff >= size
          invariant Reduce(RdOff, size) == OverwriteRdOff(size, WrOff, old(RdOff), n)
          modifies this`RdOff
        {
          RdOff := RdOff - size;
        }
      }
    }

    /** Both steps of an overwriting write. */
    method Overwrite(data: seq<u8>)
      requires Valid() && |data| < TWO_32
      modifies this`RdOff, this`WrOff, pBuffer
      ensures WrOff < pBuffer.Length
      ensures (pBuffer[..], WrOff)
           == OverwriteLaps(old(pBuffer[..]), old(WrOff), pBuffer.Length - old(WrOff), data)
      ensures RdOff == OverwriteRdOff(pBuffer.Length, old(WrOff), old(RdOff), |data|)
      ensures old(WrOff) + |data| <= 2 * pBuffer.Length - 2 ==>
                Unread() == Last(old(Unread()) + data, pBuffer.Length - 1)
    {
      ghost var b0, wr0, rd0 := pBuffer[..], WrOff, RdOff;
      DropOldest(|data|);
      OverwriteCells(data);
      if wr0 + |data| <= 2 * pBuffer.Length - 2 {
        OverwriteWithinTwoLaps(b0, wr0, rd0, data);
      }
    }

    /** The oldest bytes, overwritten, count as gone. */
    ghost method AccountFor(stream: seq<u8>, unread: seq<u8>)
      requires 2 <= pBuffer.Length <= 0x8000_0000 && WrOff < pBuffer.Length && RdOff < pBuffer.Length
      requires stream == accepted && Unread() == unread && |unread| <= |stream|
      requires stream[|stream| - |unread|..] == unread
      modifies this`gone
      ensures Valid()
    {
      gone := stream[..|stream| - |unread|];
      assert stream == gone + stream[|stream| - |unread|..];
    }

    /** SEGGER_RTT_WriteWithOverwriteNoLock, which must not run while a host reads. It keeps the most
        recent bytes when the write ends before the last cell of the second lap. */
    method WriteWithOverwriteNoLock(data: seq<u8>)
      requires Valid() && |data| < TWO_32
      modifies this, pBuffer
      ensures (pBuffer[..], WrOff)
           == OverwriteLaps(old(pBuffer[..]), old(WrOff), pBuffer.Length - old(WrOff), data)
      ensures RdOff == OverwriteRdOff(pBuffer.Length, old(WrOff), old(RdOff), |data|)
      ensures old(WrOff) + |data| <= 2 * pBuffer.Length - 2 ==>
                && Valid() && accepted == old(accepted) + data
                && Unread() == Last(old(Unread()) + data, pBuffer.Length - 1)
    {
      ghost var stream, t := accepted + data, Unread() + data;
      assert stream == gone + t;
      ghost var right := WrOff + |data| <= 2 * pBuffer.Length - 2;
      Overwrite(data);
      if right {
        accepted := stream;
        AccountFor(stream, Last(t, pBuffer.Length - 1));
      }
    }

    // -------------------------------------------------------------------------
    // The reading side
    // -------------------------------------------------------------------------

    /** The other side appends any data that fit, possibly none. */
    method PeerWrite()
      requires Valid()
      modifies this`WrOff, this`accepted, pBuffer
      ensures Valid() && old(Unread()) <= Unread() && old(accepted) <= accepted
    {
      var data := AnyData(Avail());
      ghost var before := pBuffer[..];
      PutExtends(before, RdOff, Used(), data);
      var b := Put(pBuffer[..], WrOff, data);
      forall i | 0 <= i < pBuffer.Length {
        pBuffer[i] := b[i];
      }
      assert pBuffer[..] == b;
      WrOff := Wrap(WrOff + |data|, pBuffer.Length);
      accepted := accepted + data;
    }

    /** memcpy out of the ring while the other side goes on writing: unread bytes `k` to `k + n`,
        which lie in the cells from `from` on. */
    method CopyOut(dst: array<u8>, k: nat, from: nat, n: nat)
      requires Valid() && dst != pBuffer && k + n <= dst.Length && from + n <= pBuffer.Length
      requires k + n <= Used() && (n > 0 ==> from == Wrap(RdOff + k, pBuffer.Length))
      requires dst[..k] == Unread()[..k]
      modifies this`WrOff, this`accepted, pBuffer, dst
      ensures Valid() && old(Unread()) <= Unread() && old(accepted) <= accepted
      ensures dst[..k + n] == old(Unread())[..k + n] && dst[k + n..] == old(dst[k + n..])
    {
      var j := 0;
      while j < n
        invariant 0 <= j <= n && Valid()
        invariant old(Unread()) <= Unread() && old(accepted) <= accepted
        invariant dst[..k + j] == old(Unread())[..k + j] && dst[k + j..] == old(dst[k + j..])
      {
        SliceAt(pBuffer[..], RdOff, Used(), k + j);
        assert pBuffer[from + j] == old(Unread())[k + j];
        dst[k + j] := pBuffer[from + j];
        assert dst[..k + j + 1] == old(Unread())[..k + j + 1];
        assert dst[k + (j + 1)..] == old(dst[k + (j + 1)..]);
        PeerWrite();
        j := j + 1;
      }
    }

    /** Storing the new read offset gives the cells back to the writer. */
    method Release(rdOff: nat, ghost n: nat)
      requires Valid() && n <= Used() && rdOff == Wrap(RdOff + n, pBuffer.Length)
      modifies this`RdOff, this`gone
      ensures Valid() && Used() == old(Used()) - n && gone == old(gone) + old(Unread())[..n]
    {
      SliceAdvance(pBuffer[..], RdOff, Used(), n);
      assert Unread()[..n] == Slice(pBuffer[..], RdOff, n);
      gone := gone + Slice(pBuffer[..], RdOff, n);
      RdOff := rdOff;
    }

    /** The first chunk of a read, up to the wrap-around of the buffer. */
    method ReadToWrap(dst: array<u8>, wrOff: nat, room: u32) returns (n: nat, rdOff: nat)
      requires Valid() && dst != pBuffer && room <= dst.Length
      requires wrOff < pBuffer.Length && Dist(RdOff, wrOff, pBuffer.Length) <= Used()
      modifies this`WrOff, this`accepted, pBuffer, dst
      ensures Valid() && old(Unread()) <= Unread() && old(accepted) <= accepted
      ensures n == (if RdOff > wrOff then Min(pBuffer.Length - RdOff, room) else 0)
      ensures rdOff == Wrap(RdOff + n, pBuffer.Length)
      ensures dst[..n] == old(Unread())[..n] && dst[n..] == old(dst[n..])
    {
      n, rdOff := 0, RdOff;
      if rdOff > wrOff {
        n := Min(pBuffer.Length - rdOff, room);
        CopyOut(dst, 0, rdOff, n);
        rdOff := rdOff + n;
        if rdOff == pBuffer.Length {
          rdOff := 0;
        }
      }
    }

    /** The second chunk of a read. `n` bytes have been copied and `rdOff` lies behind them. The
        subtraction of the offsets wraps below zero when the reader stopped before the end of the
        buffer; it then contributes no byte. */
    method ReadRemaining(dst: array<u8>, bufferSize: u32, wrOff: nat, n0: nat, rdOff0: nat, ghost used: nat)
      returns (n: nat, rdOff: nat)
      requires Valid() && dst != pBuffer && n0 <= bufferSize <= dst.Length
      requires wrOff < pBuffer.Length && Dist(RdOff, wrOff, pBuffer.Length) == used <= Used()
      requires n0 == (if RdOff > wrOff then Min(pBuffer.Length - RdOff, bufferSize) else 0)
      requires rdOff0 == Wrap(RdOff + n0, pBuffer.Length)
      requires dst[..n0] == Unread()[..n0]
      modifies this`WrOff, this`accepted, pBuffer, dst
      ensures Valid() && old(Unread()) <= Unread() && old(accepted) <= accepted
      ensures n == Min(bufferSize, used) && (n != 0 ==> rdOff == Wrap(RdOff + n, pBuffer.Length))
      ensures dst[..n] == old(Unread())[..n] && dst[n..] == old(dst[n..])
    {
      n, rdOff := n0, rdOff0;
      var rem := Min(Sub32(wrOff, rdOff), bufferSize - n);
      if rem > 0 {
        CopyOut(dst, n, rdOff, rem);
        n, rdOff := n + rem, rdOff + rem;
      }
    }

    /** Both chunks of a read, up to the write offset seen before. */
    method ReadChunks(dst: array<u8>, bufferSize: u32, wrOff: nat, ghost used: nat)
      returns (n: nat, rdOff: nat)
      requires Valid() && dst != pBuffer && bufferSize <= dst.Length
      requires wrOff < pBuffer.Length && Dist(RdOff, wrOff, pBuffer.Length) == used <= Used()
      modifies this`WrOff, this`accepted, pBuffer, dst
      ensures Valid() && old(Unread()) <= Unread() && old(accepted) <= accepted
      ensures n == Min(bufferSize, used) && (n != 0 ==> rdOff == Wrap(RdOff + n, pBuffer.Length))
      ensures dst[..n] == old(Unread())[..n] && dst[n..] == old(dst[n..])
    {
      n, rdOff := ReadToWrap(dst, wrOff, bufferSize);
      n, rdOff := ReadRemaining(dst, bufferSize, wrOff, n, rdOff, used);
    }

    /** SEGGER_RTT_ReadNoLock and SEGGER_RTT_ReadUpBufferNoLock: exactly the oldest unread bytes, as
        many as fit. */
    method ReadNoLock(dst: array<u8>, bufferSize: u32) returns (numBytesRead: nat)
      requires Valid() && dst != pBuffer && bufferSize <= dst.Length
      modifies this, pBuffer, dst
      ensures Valid() && numBytesRead == Min(bufferSize, old(Used()))
      ensures dst[..numBytesRead] == old(Unread())[..numBytesRead]
      ensures dst[numBytesRead..] == old(dst[numBytesRead..])
      ensures gone == old(gone) + dst[..numBytesRead] && old(accepted) <= accepted
    {
      var wrOff := WrOff;
      ghost var used := Used();
      PeerWrite();
      var rdOff;
      numBytesRead, rdOff := ReadChunks(dst, bufferSize, wrOff, used);
      if numBytesRead != 0 {
        Release(rdOff, numBytesRead);
      }
    }
  }

  function Min(a: nat, b: nat): nat {
    if a < b then a else b
  }

  /** Subtraction of u32_t values. */
  function Sub32(a: u32, b: u32): u32 {
    if a >= b then a - b else a - b + TWO_32
  }
}
