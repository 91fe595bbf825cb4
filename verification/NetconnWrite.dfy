/** The resumable vectored write of a TCP netconn: one call and the callbacks that continue it.
    Configuration: LWIP_TCPIP_CORE_LOCKING = 1, the default of lwIP. */
module NetconnWrite {
  import opened Words

  datatype Err = Ok | Mem | WouldBlock | Route | InProgress | NotConnected | Other(code: int)

  const U16_MAX := 0xFFFF

  /** How tcp_write answers a length it could take; it refuses any length once the state is wrong. */
  datatype Answer = Accepts | OutOfMemory | Refuses(code: int)

  /** What the TCP layer shows to one turn of the loop: the free send buffer and its answer. */
  datatype Reply = Reply(sndbuf: u16, answer: Answer)

  /** tcp_write: nothing to write succeeds at once, more than the send buffer never does. */
  function TcpWrite(r: Reply, len: u16): Err {
    match r.answer
    case Refuses(code) => Other(code)
    case Accepts => if len > r.sndbuf then Mem else Ok
    case OutOfMemory => if len == 0 then Ok else Mem
  }

  // ---------------------------------------------------------------------------
  // The bytes of the vectors
  // ---------------------------------------------------------------------------

  /** The bytes of the first `n` vectors. */
  function Concat(vs: seq<seq<u8>>, n: nat): seq<u8>
    requires n <= |vs|
  {
    if n == 0 then [] else Concat(vs, n - 1) + vs[n - 1]
  }

  function Bytes(vs: seq<seq<u8>>): seq<u8> {
    Concat(vs, |vs|)
  }

  lemma {:induction false} ConcatPrefix(vs: seq<seq<u8>>, m: nat, n: nat)
    requires m <= n <= |vs|
    ensures |Concat(vs, m)| <= |Concat(vs, n)| && Concat(vs, n)[..|Concat(vs, m)|] == Concat(vs, m)
  {
    if m < n {
      ConcatPrefix(vs, m, n - 1);
    }
  }

  lemma Prefixes(all: seq<u8>, upTo: seq<u8>, before: seq<u8>, v: seq<u8>, n: nat)
    requires upTo == before + v && upTo <= all && n <= |v|
    ensures |before| + n <= |all| && all[..|before| + n] == before + v[..n]
  {
    assert all[..|before| + n] == upTo[..|before| + n];
  }

  /** A piece of vector `i` is where the cursor says it is in all the bytes. */
  lemma PieceOfBytes(vs: seq<seq<u8>>, i: nat, off: nat, len: nat)
    requires i < |vs| && off + len <= |vs[i]|
    ensures var at := |Concat(vs, i)| + off;
            && at + len <= |Bytes(vs)|
            && Bytes(vs)[..at + len] == Bytes(vs)[..at] + vs[i][off..off + len]
  {
    var all, before, upTo := Bytes(vs), Concat(vs, i), Concat(vs, i + 1);
    ConcatPrefix(vs, i + 1, |vs|);
    Prefixes(all, upTo, before, vs[i], off);
    Prefixes(all, upTo, before, vs[i], off + len);
    assert vs[i][..off + len] == vs[i][..off] + vs[i][off..off + len];
  }

  // ---------------------------------------------------------------------------
  // One turn
  // ---------------------------------------------------------------------------

  /** Where a write stands: the vector, how many are left with it, the place in it, the bytes written so
      far, and what they were. */
  datatype Cursor = Cursor(index: nat, cnt: nat, off: nat, offset: nat, sent: seq<u8>)

  /** The cursor stands at byte `offset` of the vectors, and exactly the bytes before it were written. */
  predicate CursorOk(vs: seq<seq<u8>>, c: Cursor) {
    match c
    case Cursor(index, cnt, off, offset, sent) =>
      && index < |vs| && off <= |vs[index]|
      && (if cnt == 0 then index == |vs| - 1 && off == |vs[index]| else cnt == |vs| - index)
      && offset == |Concat(vs, index)| + off <= |Bytes(vs)|
      && sent == Bytes(vs)[..offset]
  }

  /** How much of `diff` remaining bytes of a vector a turn tries to write. */
  function Length(diff: nat, sndbuf: u16): u16 {
    if sndbuf < Limit(diff) then sndbuf else Limit(diff)
  }

  function Limit(diff: nat): u16 {
    if diff > U16_MAX then U16_MAX else diff
  }

  /** Whether the loop goes round again; the remaining length is compared after a cut to 16 bits. */
  predicate GoesOn(len: u16, diff: nat, cnt: nat) {
    (len == U16_MAX && diff > U16_MAX) || (len == diff % 0x1_0000 && cnt > 1)
  }

  function Diff(vs: seq<seq<u8>>, c: Cursor): nat
    requires CursorOk(vs, c)
  {
    |vs[c.index]| - c.off
  }

  /** The cursor after `n` more bytes. */
  function Advance(vs: seq<seq<u8>>, c: Cursor, n: nat): Cursor
    requires CursorOk(vs, c) && c.cnt > 0 && n <= Diff(vs, c)
  {
    var sent := c.sent + vs[c.index][c.off..c.off + n];
    if n < Diff(vs, c) then Cursor(c.index, c.cnt, c.off + n, c.offset + n, sent)
    else if c.cnt == 1 then Cursor(c.index, 0, c.off + n, c.offset + n, sent)
    else Cursor(c.index + 1, c.cnt - 1, 0, c.offset + n, sent)
  }

  /** A non-blocking write with bytes left and no room stops without trying. */
  predicate NoRoom(diff: nat, blocks: bool, sndbuf: u16) {
    !blocks && diff > 0 && sndbuf == 0
  }

  /** How a turn ends: the cursor, the error, whether the loop goes on, and whether tcp_write was tried. */
  datatype TurnEnd = TurnEnd(cursor: Cursor, err: Err, more: bool, tried: bool)

  function PartialErr(offset: nat): Err {
    if offset == 0 then WouldBlock else Ok
  }

  function Turn(vs: seq<seq<u8>>, c: Cursor, blocks: bool, r: Reply): TurnEnd
    requires CursorOk(vs, c) && c.cnt > 0
  {
    var diff := Diff(vs, c);
    var n := Length(diff, r.sndbuf);
    var err := TcpWrite(r, n);
    if NoRoom(diff, blocks, r.sndbuf) then TurnEnd(c, PartialErr(c.offset), false, false)
    else TurnEnd(if err == Ok then Advance(vs, c, n) else c, err, err == Ok && GoesOn(n, diff, c.cnt), true)
  }

  lemma AdvanceKeepsOk(vs: seq<seq<u8>>, c: Cursor, n: nat)
    requires CursorOk(vs, c) && c.cnt > 0 && n <= Diff(vs, c)
    ensures CursorOk(vs, Advance(vs, c, n))
  {
    PieceOfBytes(vs, c.index, c.off, n);
  }

  /** The cursor is at the end exactly when only empty vectors are left. */
  lemma AtEnd(vs: seq<seq<u8>>, c: Cursor)
    requires CursorOk(vs, c)
    ensures c.cnt == 0 ==> c.offset == |Bytes(vs)|
    ensures c.cnt == 1 ==> c.offset + Diff(vs, c) == |Bytes(vs)|
    ensures c.offset + Diff(vs, c) <= |Bytes(vs)|
  {
    ConcatPrefix(vs, c.index + 1, |vs|);
  }

  /** A turn stays within the vectors, and asks for another one only if there is a vector for it. */
  lemma TurnKeepsOk(vs: seq<seq<u8>>, c: Cursor, blocks: bool, r: Reply)
    requires CursorOk(vs, c) && c.cnt > 0 && c.offset <= |Bytes(vs)|
    ensures var t := Turn(vs, c, blocks, r);
            && CursorOk(vs, t.cursor) && c.offset <= t.cursor.offset
            && (t.more ==> t.cursor.cnt > 0 && t.err == Ok)
            && (t.err == Mem ==> t.cursor.offset < |Bytes(vs)|)
            && (!t.tried ==> t.cursor.offset < |Bytes(vs)| && !blocks)
            && (!blocks && !t.more && t.tried && t.err == Ok && |Bytes(vs)| > 0 ==> t.cursor.offset > 0)
  {
    var diff := Diff(vs, c);
    var n := Length(diff, r.sndbuf);
    AdvanceKeepsOk(vs, c, n);
    AtEnd(vs, c);
  }

  // ---------------------------------------------------------------------------
  // The loop
  // ---------------------------------------------------------------------------

  /** How the loop ends, or `running` where the replies do. */
  datatype LoopEnd = LoopEnd(cursor: Cursor, err: Err, tried: bool, running: bool)

  /** The loop from its reply `k` on. */
  function Loop(vs: seq<seq<u8>>, c: Cursor, blocks: bool, replies: seq<Reply>, k: nat): LoopEnd
    requires CursorOk(vs, c) && c.cnt > 0 && k <= |replies|
    decreases |replies| - k
  {
    if k == |replies| then LoopEnd(c, Ok, true, true) else
      TurnKeepsOk(vs, c, blocks, replies[k]);
      var t := Turn(vs, c, blocks, replies[k]);
      if t.more then Loop(vs, t.cursor, blocks, replies, k + 1)
      else LoopEnd(t.cursor, t.err, t.tried, false)
  }

  /** The loop stays within the vectors; it leaves ERR_MEM or a full buffer behind only with bytes left. */
  lemma {:induction false} LoopKeepsOk(vs: seq<seq<u8>>, c: Cursor, blocks: bool, replies: seq<Reply>, k: nat)
    requires CursorOk(vs, c) && c.cnt > 0 && k <= |replies|
    ensures var e := Loop(vs, c, blocks, replies, k);
            && CursorOk(vs, e.cursor) && c.offset <= e.cursor.offset
            && (e.running ==> e.cursor.cnt > 0)
            && (e.err == Mem ==> e.cursor.offset < |Bytes(vs)| && e.tried)
            && (!e.tried ==> e.cursor.offset < |Bytes(vs)| && !blocks)
            && (!blocks && !e.running && e.tried && e.err == Ok && |Bytes(vs)| > 0 ==> e.cursor.offset > 0)
            && (if e.tried then e.err in {Ok, Mem} || e.err.Other? else e.err == PartialErr(e.cursor.offset))
    decreases |replies| - k
  {
    if k < |replies| {
      TurnKeepsOk(vs, c, blocks, replies[k]);
      var t := Turn(vs, c, blocks, replies[k]);
      if t.more {
        LoopKeepsOk(vs, t.cursor, blocks, replies, k + 1);
      }
    }
  }

  lemma LoopStep(vs: seq<seq<u8>>, c: Cursor, blocks: bool, replies: seq<Reply>, k: nat)
    requires CursorOk(vs, c) && c.cnt > 0 && k < |replies|
    ensures var t := Turn(vs, c, blocks, replies[k]);
            && CursorOk(vs, t.cursor) && (t.more ==> t.cursor.cnt > 0 && t.err == Ok && t.tried)
            && Loop(vs, c, blocks, replies, k)
               == if t.more then Loop(vs, t.cursor, blocks, replies, k + 1)
                  else LoopEnd(t.cursor, t.err, t.tried, false)
  {
    TurnKeepsOk(vs, c, blocks, replies[k]);
  }

  /** A turn asks for another one without having moved. */
  predicate Stuck(vs: seq<seq<u8>>, c: Cursor, blocks: bool, r: Reply)
    requires CursorOk(vs, c) && c.cnt > 0
  {
    Turn(vs, c, blocks, r).more && Turn(vs, c, blocks, r).cursor == c
  }

  /** That is so exactly for a blocking write with a full send buffer, in front of a positive multiple of
      2^16 bytes of a vector that is not the last. */
  lemma StuckIff(vs: seq<seq<u8>>, c: Cursor, blocks: bool, r: Reply)
    requires CursorOk(vs, c) && c.cnt > 0
    ensures Stuck(vs, c, blocks, r) <==>
            blocks && r.sndbuf == 0 && !r.answer.Refuses? && c.cnt > 1
            && Diff(vs, c) > 0 && Diff(vs, c) % 0x1_0000 == 0
  {
    if r.sndbuf == 0 && Diff(vs, c) > 0 {
      assert vs[c.index][c.off..c.off + 0] == [];
    }
  }

  /** Bytes and vectors left. */
  function Left(vs: seq<seq<u8>>, c: Cursor): nat
    requires CursorOk(vs, c)
  {
    |Bytes(vs)| - c.offset + c.cnt
  }

  /** Any other turn that asks for a next one leaves less to do. */
  lemma TurnMoves(vs: seq<seq<u8>>, c: Cursor, blocks: bool, r: Reply)
    requires CursorOk(vs, c) && c.cnt > 0
    requires Turn(vs, c, blocks, r).more && !Stuck(vs, c, blocks, r)
    ensures CursorOk(vs, Turn(vs, c, blocks, r).cursor)
    ensures Left(vs, Turn(vs, c, blocks, r).cursor) < Left(vs, c)
  {
    TurnKeepsOk(vs, c, blocks, r);
    StuckIff(vs, c, blocks, r);
  }

  /** Some turn of the loop is stuck. */
  predicate GetsStuck(vs: seq<seq<u8>>, c: Cursor, blocks: bool, replies: seq<Reply>, k: nat)
    requires CursorOk(vs, c) && c.cnt > 0 && k <= |replies|
    decreases |replies| - k
  {
    k < |replies| &&
    (Stuck(vs, c, blocks, replies[k]) ||
     (TurnKeepsOk(vs, c, blocks, replies[k]);
      var t := Turn(vs, c, blocks, replies[k]);
      t.more && GetsStuck(vs, t.cursor, blocks, replies, k + 1)))
  }

  /** A loop that is nowhere stuck ends within as many turns as there are bytes and vectors left. */
  lemma {:induction false} UnstuckLoopEnds(vs: seq<seq<u8>>, c: Cursor, blocks: bool, replies: seq<Reply>, k: nat)
    requires CursorOk(vs, c) && c.cnt > 0 && k <= |replies|
    requires Left(vs, c) <= |replies| - k
    requires !GetsStuck(vs, c, blocks, replies, k)
    ensures !Loop(vs, c, blocks, replies, k).running
    decreases |replies| - k
  {
    AtEnd(vs, c);
    TurnKeepsOk(vs, c, blocks, replies[k]);
    var t := Turn(vs, c, blocks, replies[k]);
    if t.more {
      TurnMoves(vs, c, blocks, replies[k]);
      UnstuckLoopEnds(vs, t.cursor, blocks, replies, k + 1);
    }
  }

  /** A non-blocking write never gets stuck. */
  lemma {:induction false} NonblockingNeverStuck(vs: seq<seq<u8>>, c: Cursor, replies: seq<Reply>, k: nat)
    requires CursorOk(vs, c) && c.cnt > 0 && k <= |replies|
    ensures !GetsStuck(vs, c, false, replies, k)
    decreases |replies| - k
  {
    if k < |replies| {
      StuckIff(vs, c, false, replies[k]);
      TurnKeepsOk(vs, c, false, replies[k]);
      if Turn(vs, c, false, replies[k]).more {
        NonblockingNeverStuck(vs, Turn(vs, c, false, replies[k]).cursor, replies, k + 1);
      }
    }
  }

  /** While the send buffer stays full a stuck loop never ends. */
  lemma {:induction false} StuckLoopRuns(vs: seq<seq<u8>>, c: Cursor, blocks: bool, replies: seq<Reply>, k: nat)
    requires CursorOk(vs, c) && c.cnt > 0 && k < |replies| && Stuck(vs, c, blocks, replies[k])
    requires forall j :: k <= j < |replies| ==> replies[j].sndbuf == 0 && !replies[j].answer.Refuses?
    ensures Loop(vs, c, blocks, replies, k).running && Loop(vs, c, blocks, replies, k).cursor == c
    decreases |replies| - k
  {
    TurnKeepsOk(vs, c, blocks, replies[k]);
    if k + 1 < |replies| {
      StuckIff(vs, c, blocks, replies[k]);
      StuckIff(vs, c, blocks, replies[k + 1]);
      StuckLoopRuns(vs, c, blocks, replies, k + 1);
    }
  }

  /** A vector with another one behind it has 2^16 bytes or more. */
  predicate LongInside(vs: seq<seq<u8>>) {
    exists i :: 0 <= i < |vs| - 1 && |vs[i]| >= 0x1_0000
  }

  lemma {:induction false} ShortNeverStuck(vs: seq<seq<u8>>, c: Cursor, blocks: bool, replies: seq<Reply>, k: nat)
    requires CursorOk(vs, c) && c.cnt > 0 && k <= |replies| && !LongInside(vs)
    ensures !GetsStuck(vs, c, blocks, replies, k)
    decreases |replies| - k
  {
    if k < |replies| {
      StuckIff(vs, c, blocks, replies[k]);
      TurnKeepsOk(vs, c, blocks, replies[k]);
      if Turn(vs, c, blocks, replies[k]).more {
        ShortNeverStuck(vs, Turn(vs, c, blocks, replies[k]).cursor, blocks, replies, k + 1);
      }
    }
  }

  /** A non-blocking write ends, and so does any write of vectors that are all, but the last, shorter than
      2^16: within as many turns as there are bytes and vectors left, whatever the send buffer does. */
  lemma LoopEnds(vs: seq<seq<u8>>, c: Cursor, blocks: bool, replies: seq<Reply>)
    requires CursorOk(vs, c) && c.cnt > 0 && (!blocks || !LongInside(vs))
    requires Left(vs, c) <= |replies|
    ensures !Loop(vs, c, blocks, replies, 0).running
  {
    if blocks {
      ShortNeverStuck(vs, c, blocks, replies, 0);
    } else {
      NonblockingNeverStuck(vs, c, replies, 0);
    }
    UnstuckLoopEnds(vs, c, blocks, replies, 0);
  }

  /** A reply in front shifts the others by one place. */
  lemma {:induction false} Shifted(vs: seq<seq<u8>>, c: Cursor, blocks: bool, r: Reply, rest: seq<Reply>, k: nat)
    requires CursorOk(vs, c) && c.cnt > 0 && k <= |rest|
    ensures Loop(vs, c, blocks, [r] + rest, k + 1) == Loop(vs, c, blocks, rest, k)
    ensures GetsStuck(vs, c, blocks, [r] + rest, k + 1) == GetsStuck(vs, c, blocks, rest, k)
    decreases |rest| - k
  {
    if k < |rest| {
      assert ([r] + rest)[k + 1] == rest[k];
      TurnKeepsOk(vs, c, blocks, rest[k]);
      if Turn(vs, c, blocks, rest[k]).more {
        Shifted(vs, Turn(vs, c, blocks, rest[k]).cursor, blocks, r, rest, k + 1);
      }
    }
  }

  /** A blocking loop from this cursor gets stuck and is still running after `n` turns and more. */
  predicate RunsStuck(vs: seq<seq<u8>>, c: Cursor, replies: seq<Reply>, n: nat) {
    && CursorOk(vs, c) && c.cnt > 0 && n <= |replies|
    && GetsStuck(vs, c, true, replies, 0) && Loop(vs, c, true, replies, 0).running
  }

  lemma RunsStuckOneLater(vs: seq<seq<u8>>, c: Cursor, r: Reply, rest: seq<Reply>, n: nat)
    requires CursorOk(vs, c) && c.cnt > 0 && Turn(vs, c, true, r).more
    requires RunsStuck(vs, Turn(vs, c, true, r).cursor, rest, n)
    ensures RunsStuck(vs, c, [r] + rest, n)
  {
    TurnKeepsOk(vs, c, true, r);
    Shifted(vs, Turn(vs, c, true, r).cursor, true, r, rest, 0);
  }

  /** The send buffer that takes the odd part of a long vector, and is full from then on. */
  lemma OddPartGetsStuck(vs: seq<seq<u8>>, c: Cursor, n: nat) returns (replies: seq<Reply>)
    requires CursorOk(vs, c) && c.cnt > 1 && Diff(vs, c) >= 0x1_0000
    ensures RunsStuck(vs, c, replies, n)
  {
    var full := seq(n + 1, _ => Reply(0, Accepts));
    var r := Reply(Diff(vs, c) % 0x1_0000, Accepts);
    if r.sndbuf == 0 {
      StuckIff(vs, c, true, full[0]);
      StuckLoopRuns(vs, c, true, full, 0);
      replies := full;
    } else {
      TurnKeepsOk(vs, c, true, r);
      var c1 := Turn(vs, c, true, r).cursor;
      assert Diff(vs, c1) == Diff(vs, c) - r.sndbuf;
      StuckIff(vs, c1, true, full[0]);
      StuckLoopRuns(vs, c1, true, full, 0);
      RunsStuckOneLater(vs, c, r, full, n);
      replies := [r] + full;
    }
  }

  /** A send buffer with room lets the loop go on to any later vector. */
  lemma {:induction false} LongVectorGetsStuck(vs: seq<seq<u8>>, c: Cursor, i: nat, n: nat)
    returns (replies: seq<Reply>)
    requires CursorOk(vs, c) && c.cnt > 0 && c.index <= i < |vs| - 1 && |vs[i]| >= 0x1_0000
    requires c.index == i ==> c.off == 0
    ensures RunsStuck(vs, c, replies, n)
    decreases Left(vs, c)
  {
    if c.index == i {
      replies := OddPartGetsStuck(vs, c, n);
    } else {
      var r := Reply(U16_MAX, Accepts);
      TurnKeepsOk(vs, c, true, r);
      StuckIff(vs, c, true, r);
      TurnMoves(vs, c, true, r);
      var rest := LongVectorGetsStuck(vs, Turn(vs, c, true, r).cursor, i, n);
      RunsStuckOneLater(vs, c, r, rest, n);
      replies := [r] + rest;
    }
  }

  /** Some behaviour of the TCP layer makes a blocking write of these vectors get stuck. */
  ghost predicate CanGetStuck(vs: seq<seq<u8>>)
    requires Bytes(vs) != []
  {
    exists replies :: GetsStuck(vs, Start(vs), true, replies, 0)
  }

  /** Some behaviour of the TCP layer keeps a blocking write of these vectors in the loop for `n` turns. */
  ghost predicate CanRunFor(vs: seq<seq<u8>>, n: nat)
    requires Bytes(vs) != []
  {
    exists replies :: |replies| >= n && Loop(vs, Start(vs), true, replies, 0).running
  }

  /** A blocking write can get stuck, and then has no bound on its turns, exactly if a vector that is not
      the last has 2^16 bytes or more. */
  lemma StuckPossibleIff(vs: seq<seq<u8>>)
    requires Bytes(vs) != []
    ensures CanGetStuck(vs) <==> LongInside(vs)
    ensures (forall n: nat :: CanRunFor(vs, n)) <==> LongInside(vs)
  {
    if LongInside(vs) {
      var i :| 0 <= i < |vs| - 1 && |vs[i]| >= 0x1_0000;
      var some := LongVectorGetsStuck(vs, Start(vs), i, 0);
      assert GetsStuck(vs, Start(vs), true, some, 0);
      forall n: nat
        ensures CanRunFor(vs, n)
      {
        var replies := LongVectorGetsStuck(vs, Start(vs), i, n);
        assert |replies| >= n && Loop(vs, Start(vs), true, replies, 0).running;
      }
    } else {
      forall replies
        ensures !GetsStuck(vs, Start(vs), true, replies, 0)
      {
        ShortNeverStuck(vs, Start(vs), true, replies, 0);
      }
      if CanRunFor(vs, Left(vs, Start(vs))) {
        var replies :| |replies| >= Left(vs, Start(vs)) && Loop(vs, Start(vs), true, replies, 0).running;
        LoopEnds(vs, Start(vs), true, replies);
      }
    }
  }

  // ---------------------------------------------------------------------------
  // One call and its callbacks
  // ---------------------------------------------------------------------------

  /** What one entry of lwip_netconn_do_writemore meets: the replies to its turns, whether tcp_output
      finds no route, whether the send time is over, and whether little buffer space is left. */
  datatype Entry = Entry(replies: seq<Reply>, noRoute: bool, expired: bool, low: bool)

  /** A write: its cursor, the result once it has one, and whether it is held up inside the loop. */
  datatype Write = Write(cursor: Cursor, result: Option<Err>, running: bool)

  /** A write that has something to write starts at its first byte. */
  lemma StartOk(vs: seq<seq<u8>>)
    requires Bytes(vs) != []
    ensures Resumable(vs, Start(vs))
  {
  }

  function Start(vs: seq<seq<u8>>): Cursor {
    Cursor(0, |vs|, 0, 0, [])
  }

  /** What follows the loop: the result, if the write is over. */
  function Conclude(len: nat, offset: nat, blocks: bool, err: Err, noRoute: bool): Option<Err> {
    match err
    case Ok => if noRoute then Some(Route) else if offset == len || !blocks then Some(Ok) else None
    case Mem => if noRoute then Some(Route) else if !blocks then Some(PartialErr(offset)) else None
    case _ => Some(err)
  }

  /** The write may be continued: what the assertions at the head of lwip_netconn_do_writemore demand. */
  predicate Resumable(vs: seq<seq<u8>>, c: Cursor) {
    CursorOk(vs, c) && c.cnt > 0 && c.offset < |Bytes(vs)|
  }

  function Continued(vs: seq<seq<u8>>, c: Cursor, blocks: bool, e: Entry): Write
    requires Resumable(vs, c)
  {
    if e.expired then Write(c, Some(PartialErr(c.offset)), false)
    else
      var l := Loop(vs, c, blocks, e.replies, 0);
      if l.running then Write(l.cursor, None, true)
      else Write(l.cursor, Conclude(|Bytes(vs)|, l.cursor.offset, blocks, l.err, e.noRoute), false)
  }

  /** After an entry the write is over or may be continued; the bytes out are a longer prefix. */
  lemma EntryKeepsWrite(vs: seq<seq<u8>>, c: Cursor, blocks: bool, e: Entry)
    requires Resumable(vs, c)
    ensures var w := Continued(vs, c, blocks, e);
            && CursorOk(vs, w.cursor) && c.offset <= w.cursor.offset
            && (w.result.None? && !w.running ==> blocks && Resumable(vs, w.cursor))
            && (blocks && !e.expired && w.result == Some(Ok) ==> w.cursor.offset == |Bytes(vs)|)
            && (!blocks && w.result == Some(Ok) ==> w.cursor.offset > 0)
            && (w.result == Some(WouldBlock) ==> w.cursor.offset == 0)
  {
    if !e.expired {
      LoopKeepsOk(vs, c, blocks, e.replies, 0);
      AtEnd(vs, Loop(vs, c, blocks, e.replies, 0).cursor);
    }
  }

  /** The first entry and the callbacks that come while the write is not over. */
  function Entries(vs: seq<seq<u8>>, c: Cursor, blocks: bool, es: seq<Entry>, k: nat): Write
    requires Resumable(vs, c) && k <= |es|
    decreases |es| - k
  {
    if k == |es| then Write(c, None, false) else
      EntryKeepsWrite(vs, c, blocks, es[k]);
      var w := Continued(vs, c, blocks, es[k]);
      if w.result.Some? || w.running then w else Entries(vs, w.cursor, blocks, es, k + 1)
  }

  /** Over the first call and any callbacks, whatever the send buffer and tcp_write do: the bytes out are
      the first `offset` bytes of the vectors, and a blocking write that ends well has sent them all. */
  lemma {:induction false} EntriesSendPrefix(vs: seq<seq<u8>>, c: Cursor, blocks: bool, es: seq<Entry>, k: nat)
    requires Resumable(vs, c) && k <= |es|
    ensures var w := Entries(vs, c, blocks, es, k);
            && CursorOk(vs, w.cursor) && w.cursor.sent == Bytes(vs)[..w.cursor.offset]
            && (blocks && (forall j :: k <= j < |es| ==> !es[j].expired) && w.result == Some(Ok)
                ==> w.cursor.sent == Bytes(vs))
            && (w.result == Some(WouldBlock) ==> w.cursor.sent == [])
    decreases |es| - k
  {
    if k < |es| {
      EntryKeepsWrite(vs, c, blocks, es[k]);
      var w := Continued(vs, c, blocks, es[k]);
      if w.result.None? && !w.running {
        EntriesSendPrefix(vs, w.cursor, blocks, es, k + 1);
      }
    }
  }

  // ---------------------------------------------------------------------------
  // The connection
  // ---------------------------------------------------------------------------

  datatype ConnState = NoState | Writing | Busy

  datatype Event = SendPlus | SendMinus | RcvPlus | Error

  /** The loop ended in a way after which the space for more is looked at. */
  predicate SpaceChecked(l: LoopEnd) {
    !l.running && (!l.tried || l.err == Ok || l.err == Mem)
  }

  /** A non-blocking write has bytes left over. */
  predicate LeftOver(vs: seq<seq<u8>>, l: LoopEnd, blocks: bool) {
    SpaceChecked(l) && !blocks && l.cursor.offset < |Bytes(vs)|
  }

  /** An entry marks a non-blocking write with bytes left over for a later look at the space. */
  predicate HeldUp(vs: seq<seq<u8>>, c: Cursor, blocks: bool, en: Entry)
    requires Resumable(vs, c)
  {
    !en.expired && LeftOver(vs, Loop(vs, c, blocks, en.replies, 0), blocks)
  }

  /** What an entry tells select. */
  function Marks(vs: seq<seq<u8>>, c: Cursor, blocks: bool, en: Entry): seq<Event>
    requires Resumable(vs, c)
  {
    if HeldUp(vs, c, blocks, en) || (!en.expired && SpaceChecked(Loop(vs, c, blocks, en.replies, 0)) && en.low)
    then [SendMinus] else []
  }

  class Netconn {
    var state: ConnState
    var nonblocking: bool
    var hasPcb: bool
    var pendingErr: Err
    var checkWriteSpace: bool

    // current_msg: the write under way
    var vectors: seq<seq<u8>>
    var index: nat
    var vectorCnt: nat
    var vectorOff: nat
    var offset: nat
    var len: nat
    var dontblockFlag: bool
    var err: Err
    var signals: nat

    // what went to the TCP layer and to select
    ghost var sent: seq<u8>
    ghost var events: seq<Event>

    ghost function Now(): Cursor
      reads this`index, this`vectorCnt, this`vectorOff, this`offset, this`sent
    {
      Cursor(index, vectorCnt, vectorOff, offset, sent)
    }

    predicate Blocks()
      reads this`nonblocking, this`dontblockFlag
    {
      !nonblocking && !dontblockFlag
    }

    ghost predicate Valid()
      reads this
    {
      state == Writing ==> hasPcb && len == |Bytes(vectors)| && Resumable(vectors, Now())
    }

    constructor (nonblocking: bool, hasPcb: bool)
      ensures Valid() && state == NoState && this.nonblocking == nonblocking && this.hasPcb == hasPcb
      ensures pendingErr == Ok && !checkWriteSpace && signals == 0 && events == []
    {
      state, this.nonblocking, this.hasPcb, pendingErr, checkWriteSpace := NoState, nonblocking, hasPcb, Ok, false;
      vectors, index, vectorCnt, vectorOff, offset, len := [], 0, 0, 0, 0, 0;
      dontblockFlag, err, signals := false, Ok, 0;
      sent, events := [], [];
    }

    /** The bookkeeping after a successful tcp_write of `n` bytes. */
    method Wrote(n: nat)
      requires CursorOk(vectors, Now()) && vectorCnt > 0 && n <= Diff(vectors, Now())
      modifies this`index, this`vectorCnt, this`vectorOff, this`offset, this`sent
      ensures Now() == Advance(vectors, old(Now()), n)
    {
      sent := sent + vectors[index][vectorOff..vectorOff + n];
      offset := offset + n;
      vectorOff := vectorOff + n;
      if vectorOff == |vectors[index]| {
        vectorCnt := vectorCnt - 1;
        if vectorCnt > 0 {
          index := index + 1;
          vectorOff := 0;
        }
      }
    }

    /** The body of the do-while loop of lwip_netconn_do_writemore. */
    method OneTurn(r: Reply) returns (e: Err, more: bool, tried: bool)
      requires CursorOk(vectors, Now()) && vectorCnt > 0
      modifies this`index, this`vectorCnt, this`vectorOff, this`offset, this`sent
      ensures Turn(vectors, old(Now()), Blocks(), r) == TurnEnd(Now(), e, more, tried)
    {
      var diff := |vectors[index]| - vectorOff;
      var n := if diff > U16_MAX then U16_MAX else diff;
      if r.sndbuf < n {
        n := r.sndbuf;
        if !Blocks() && n == 0 {
          return if offset == 0 then WouldBlock else Ok, false, false;
        }
      }
      more := GoesOn(n, diff, vectorCnt);
      e := TcpWrite(r, n);
      tried := true;
      if e == Ok {
        Wrote(n);
      }
      more := more && e == Ok;
    }

    /** The do-while loop of lwip_netconn_do_writemore. */
    method WriteLoop(replies: seq<Reply>) returns (e: Err, tried: bool, running: bool)
      requires Resumable(vectors, Now())
      modifies this`index, this`vectorCnt, this`vectorOff, this`offset, this`sent
      ensures Loop(vectors, old(Now()), Blocks(), replies, 0) == LoopEnd(Now(), e, tried, running)
    {
      var k := 0;
      var more := true;
      ghost var vs, blocks := vectors, Blocks();
      ghost var all := Loop(vs, Now(), blocks, replies, 0);
      e, tried, running := Ok, true, false;
      while more
        invariant k <= |replies| && CursorOk(vs, Now()) && !running
        invariant more ==> vectorCnt > 0 && e == Ok && tried
        invariant all == if more then Loop(vs, Now(), blocks, replies, k) else LoopEnd(Now(), e, tried, false)
        decreases more, |replies| - k
      {
        if k == |replies| {
          running := true;
          return;
        }
        LoopStep(vs, Now(), blocks, replies, k);
        e, more, tried := OneTurn(replies[k]);
        k := k + 1;
      }
    }

    /** The end of lwip_netconn_do_writemore: whether the write is over, and with what. */
    method ConcludeLoop(err: Err, noRoute: bool) returns (finished: bool, result: Err)
      ensures finished == Conclude(len, offset, Blocks(), err, noRoute).Some?
      ensures finished ==> Conclude(len, offset, Blocks(), err, noRoute) == Some(result)
    {
      finished := false;
      result := err;
      if err == Ok {
        if offset == len || !Blocks() {
          finished := true;
        }
        if noRoute {
          result := Route;
          finished := true;
        }
      } else if err == Mem {
        if noRoute {
          result := Route;
          finished := true;
        } else if !Blocks() {
          result := if offset == 0 then WouldBlock else Ok;
          finished := true;
        }
      } else {
        finished := true;
      }
    }

    /** The look at the space left between the two. */
    method CheckSpace(err: Err, tried: bool, low: bool)
      modifies this`events, this`checkWriteSpace
      ensures var l := LoopEnd(Now(), err, tried, false);
              var held := SpaceChecked(l) && !Blocks() && offset < len;
              && events == old(events) + (if held || (SpaceChecked(l) && low) then [SendMinus] else [])
              && checkWriteSpace == (old(checkWriteSpace) || held)
    {
      if !tried || err == Ok || err == Mem {
        if !Blocks() && offset < len {
          events := events + [SendMinus];
          checkWriteSpace := true;
        } else if low {
          events := events + [SendMinus];
        }
      }
    }

    /** What lwip_netconn_do_writemore does unless the send time is over. */
    method LoopAndConclude(en: Entry) returns (finished: bool, result: Err, running: bool)
      requires Resumable(vectors, Now()) && len == |Bytes(vectors)|
      modifies this`index, this`vectorCnt, this`vectorOff, this`offset, this`sent, this`events, this`checkWriteSpace
      ensures var l := Loop(vectors, old(Now()), Blocks(), en.replies, 0);
              var held := LeftOver(vectors, l, Blocks());
              && Now() == l.cursor && running == l.running
              && (if finished then Conclude(len, offset, Blocks(), l.err, en.noRoute) == Some(result)
                  else running || Conclude(len, offset, Blocks(), l.err, en.noRoute) == None)
              && (finished ==> !running)
              && events == old(events) + (if held || (SpaceChecked(l) && en.low) then [SendMinus] else [])
              && checkWriteSpace == (old(checkWriteSpace) || held)
    {
      var e, tried;
      e, tried, running := WriteLoop(en.replies);
      if running {
        finished, result := false, Ok;
      } else {
        CheckSpace(e, tried, en.low);
        finished, result := ConcludeLoop(e, en.noRoute);
      }
    }

    /** The write is over: the result goes to its message. With core locking only a callback (`delayed`)
        signals the semaphore, because in the first call nobody waits for it yet. */
    method Complete(result: Err, delayed: bool)
      modifies this`err, this`state, this`signals
      ensures err == result && state == NoState && signals == old(signals) + (if delayed then 1 else 0)
    {
      err := result;
      state := NoState;
      if delayed {
        signals := signals + 1;
      }
    }

    /** lwip_netconn_do_writemore */
    method WriteMore(en: Entry, delayed: bool) returns (again: bool, running: bool)
      requires Valid() && state == Writing
      modifies this`index, this`vectorCnt, this`vectorOff, this`offset, this`sent, this`events, this`checkWriteSpace
      modifies this`state, this`err, this`signals
      ensures !running ==> Valid()
      ensures var w := Continued(vectors, old(Now()), Blocks(), en);
              && Now() == w.cursor && running == w.running && again == w.result.None?
              && state == (if w.result.None? then Writing else NoState)
              && err == (if w.result.None? then old(err) else w.result.value)
              && signals == old(signals) + (if w.result.Some? && delayed then 1 else 0)
      ensures events == old(events) + Marks(vectors, old(Now()), Blocks(), en)
      ensures checkWriteSpace == (old(checkWriteSpace) || HeldUp(vectors, old(Now()), Blocks(), en))
    {
      ghost var w := Continued(vectors, Now(), Blocks(), en);
      EntryKeepsWrite(vectors, Now(), Blocks(), en);
      var finished, result := true, if offset == 0 then WouldBlock else Ok;
      running := false;
      if !en.expired {
        finished, result, running := LoopAndConclude(en);
      }
      assert w == Write(Now(), if finished then Some(result) else None, running);
      again := !finished;
      if finished {
        Complete(result, delayed);
      }
    }

    /** The variables that lwip_netconn_do_writemore uses. */
    method SetUp(vs: seq<seq<u8>>, dontblock: bool)
      requires Bytes(vs) != [] && hasPcb
      modifies this`state, this`vectors, this`dontblockFlag
      modifies this`index, this`vectorCnt, this`vectorOff, this`offset, this`len, this`sent
      ensures state == Writing && vectors == vs && dontblockFlag == dontblock
      ensures Now() == Start(vs) && len == |Bytes(vs)| && Valid()
    {
      StartOk(vs);
      state := Writing;
      vectors, dontblockFlag := vs, dontblock;
      index, vectorCnt, vectorOff, offset, len, sent := 0, |vs|, 0, 0, |Bytes(vs)|, [];
    }

    /** lwip_netconn_do_write: the error that is answered at once, if the write does not start. */
    method DoWrite(vs: seq<seq<u8>>, dontblock: bool, en: Entry) returns (refused: Option<Err>, running: bool)
      requires Valid() && Bytes(vs) != []
      modifies this
      ensures !running ==> Valid()
      ensures refused == (if old(pendingErr) != Ok then Some(old(pendingErr))
                          else if old(state) != NoState then Some(InProgress)
                          else if !hasPcb then Some(NotConnected) else None)
      ensures nonblocking == old(nonblocking) && hasPcb == old(hasPcb) && signals == old(signals)
      ensures pendingErr == Ok
      ensures refused.Some? ==>
                && !running && Now() == old(Now()) && state == old(state) && vectors == old(vectors)
                && Blocks() == old(Blocks()) && len == old(len)
                && err == old(err) && events == old(events) && checkWriteSpace == old(checkWriteSpace)
      ensures refused.None? ==>
                var start := Start(vs);
                && vectors == vs && Blocks() == (!nonblocking && !dontblock) && Resumable(vs, start)
                && var w := Continued(vs, start, Blocks(), en);
                   && Now() == w.cursor && running == w.running
                   && (if w.result.Some? then state == NoState && err == w.result.value
                       else state == Writing && err == old(err))
                   && events == old(events) + Marks(vs, start, Blocks(), en)
                   && checkWriteSpace == (old(checkWriteSpace) || HeldUp(vs, start, Blocks(), en))
    {
      running := false;
      var pending := pendingErr;
      pendingErr := Ok;
      if pending != Ok {
        return Some(pending), false;
      }
      if state != NoState {
        return Some(InProgress), false;
      }
      if !hasPcb {
        return Some(NotConnected), false;
      }
      refused := None;
      SetUp(vs, dontblock);
      var again;
      again, running := WriteMore(en, false);
    }

    /** sent_tcp, as far as a write is concerned. */
    method SentTcp(en: Entry, room: bool) returns (running: bool)
      requires Valid()
      modifies this`index, this`vectorCnt, this`vectorOff, this`offset, this`sent, this`events, this`checkWriteSpace
      modifies this`state, this`err, this`signals
      ensures !running ==> Valid()
      ensures old(state) != Writing ==>
                && !running && Now() == old(Now()) && state == old(state) && err == old(err) && signals == old(signals)
                && events == old(events) + (if hasPcb && room then [SendPlus] else [])
                && checkWriteSpace == (old(checkWriteSpace) && !(hasPcb && room))
      ensures old(state) == Writing ==>
                var w := Continued(vectors, old(Now()), Blocks(), en);
                && Now() == w.cursor && running == w.running
                && (if w.result.Some? then state == NoState && err == w.result.value && signals == old(signals) + 1
                    else state == Writing && err == old(err) && signals == old(signals))
                && var marks := Marks(vectors, old(Now()), Blocks(), en);
                   var held := old(checkWriteSpace) || HeldUp(vectors, old(Now()), Blocks(), en);
                   if !running && room then events == old(events) + marks + [SendPlus] && !checkWriteSpace
                   else events == old(events) + marks && checkWriteSpace == held
    {
      running := false;
      if state == Writing {
        var again;
        again, running := WriteMore(en, true);
        if running {
          return;
        }
      }
      if hasPcb && room {
        checkWriteSpace := false;
        events := events + [SendPlus];
      }
    }

    /** poll_tcp, as far as a write is concerned. */
    method PollTcp(en: Entry, room: bool) returns (running: bool)
      requires Valid()
      modifies this`index, this`vectorCnt, this`vectorOff, this`offset, this`sent, this`events, this`checkWriteSpace
      modifies this`state, this`err, this`signals
      ensures !running ==> Valid()
      ensures old(state) != Writing ==>
                && !running && Now() == old(Now()) && state == old(state) && err == old(err) && signals == old(signals)
                && events == old(events) + (if old(checkWriteSpace) && hasPcb && room then [SendPlus] else [])
                && checkWriteSpace == (old(checkWriteSpace) && !(hasPcb && room))
      ensures old(state) == Writing ==>
                var w := Continued(vectors, old(Now()), Blocks(), en);
                && Now() == w.cursor && running == w.running
                && (if w.result.Some? then state == NoState && err == w.result.value && signals == old(signals) + 1
                    else state == Writing && err == old(err) && signals == old(signals))
                && var marks := Marks(vectors, old(Now()), Blocks(), en);
                   var held := old(checkWriteSpace) || HeldUp(vectors, old(Now()), Blocks(), en);
                   if !running && held && room then events == old(events) + marks + [SendPlus] && !checkWriteSpace
                   else events == old(events) + marks && checkWriteSpace == held
    {
      running := false;
      if state == Writing {
        var again;
        again, running := WriteMore(en, true);
        if running {
          return;
        }
      }
      if checkWriteSpace && hasPcb && room {
        checkWriteSpace := false;
        events := events + [SendPlus];
      }
    }

    /** err_tcp, as far as a write is concerned: the write fails, its thread is signalled, and later calls
        find the error. */
    method ErrTcp(e: Err)
      requires Valid() && state != Busy
      modifies this`hasPcb, this`pendingErr, this`state, this`events, this`err, this`signals
      ensures Valid() && !hasPcb && pendingErr == e && state == NoState
      ensures events == old(events) + [Error, RcvPlus, SendPlus]
      ensures old(state) == Writing ==> err == e && signals == old(signals) + 1
      ensures old(state) != Writing ==> err == old(err) && signals == old(signals)
    {
      hasPcb := false;
      pendingErr := e;
      var before := state;
      state := NoState;
      events := events + [Error, RcvPlus, SendPlus];
      if before == Writing {
        Complete(e, true);
      }
    }
  }
}
