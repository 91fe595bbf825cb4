/** What a turn sends and what a write answers, in terms of what the TCP layer replies. */
module NetconnResults {
  import opened Words
  import opened NetconnWrite

  // ---------------------------------------------------------------------------
  // What a turn sends
  // ---------------------------------------------------------------------------

  /** The bytes that a turn tries to write: the rest of the vector, as far as 16 bits and the send buffer
      go. */
  predicate IsPiece(n: nat, diff: nat, sndbuf: u16) {
    && n <= diff && n <= sndbuf && n <= 65535
    && (n == diff || n == sndbuf || n == 65535)
  }

  /** A turn that tcp_write accepts puts out the next piece. The loop goes on exactly if the vector is too
      long for one piece and that was not cut short, or the piece ends a vector that is not the last (or,
      with lengths cut to 16 bits, seems to). A refused turn puts nothing out and ends the loop. */
  lemma TurnSends(vs: seq<seq<u8>>, c: Cursor, blocks: bool, r: Reply)
    requires CursorOk(vs, c) && c.cnt > 0
    ensures var t, diff := Turn(vs, c, blocks, r), |vs[c.index]| - c.off;
            var n: int := t.cursor.offset - c.offset;
            if !blocks && diff > 0 && r.sndbuf == 0 then
              t.cursor == c && !t.more && !t.tried && t.err == (if c.offset == 0 then WouldBlock else Ok)
            else
              && t.tried && CursorOk(vs, t.cursor)
              && (r.answer.Refuses? ==> t.cursor == c && !t.more && t.err == Other(r.answer.code))
              && (r.answer.Accepts? ==>
                    && n >= 0 && IsPiece(n, diff, r.sndbuf) && t.err == Ok
                    && t.cursor.sent == c.sent + vs[c.index][c.off..c.off + n]
                    && (t.more <==> (n == 65535 && diff > 65535) || (n == diff % 65536 && c.cnt > 1)))
              && (r.answer.OutOfMemory? ==>
                    if diff > 0 && r.sndbuf > 0 then t.cursor == c && !t.more && t.err == Mem
                    else n == 0 && t.err == Ok)
  {
    AdvanceKeepsOk(vs, c, Length(|vs[c.index]| - c.off, r.sndbuf));
  }

  // ---------------------------------------------------------------------------
  // The last turn
  // ---------------------------------------------------------------------------

  /** The turn that ends the loop was tried, and tcp_write refused it with this code. */
  predicate LastRefused(vs: seq<seq<u8>>, c: Cursor, blocks: bool, replies: seq<Reply>, k: nat, code: int)
    requires CursorOk(vs, c) && c.cnt > 0 && k <= |replies|
    decreases |replies| - k
  {
    k < |replies| &&
    (TurnKeepsOk(vs, c, blocks, replies[k]);
     var t := Turn(vs, c, blocks, replies[k]);
     if t.more then LastRefused(vs, t.cursor, blocks, replies, k + 1, code)
     else t.tried && replies[k].answer == Refuses(code))
  }

  /** The turn that ends the loop was not tried, because the send buffer is full. */
  predicate LastUntried(vs: seq<seq<u8>>, c: Cursor, blocks: bool, replies: seq<Reply>, k: nat)
    requires CursorOk(vs, c) && c.cnt > 0 && k <= |replies|
    decreases |replies| - k
  {
    k < |replies| &&
    (TurnKeepsOk(vs, c, blocks, replies[k]);
     var t := Turn(vs, c, blocks, replies[k]);
     if t.more then LastUntried(vs, t.cursor, blocks, replies, k + 1) else !t.tried)
  }

  lemma {:induction false} LoopRefusedIff(vs: seq<seq<u8>>, c: Cursor, blocks: bool, replies: seq<Reply>, k: nat)
    requires CursorOk(vs, c) && c.cnt > 0 && k <= |replies|
    ensures var l := Loop(vs, c, blocks, replies, k);
            && (forall code :: l.err == Other(code) <==> LastRefused(vs, c, blocks, replies, k, code))
            && (!l.tried <==> LastUntried(vs, c, blocks, replies, k))
            && (l.running ==> l.err == Ok && l.tried)
    decreases |replies| - k
  {
    if k < |replies| {
      TurnKeepsOk(vs, c, blocks, replies[k]);
      TurnSends(vs, c, blocks, replies[k]);
      var t := Turn(vs, c, blocks, replies[k]);
      if t.more {
        LoopRefusedIff(vs, t.cursor, blocks, replies, k + 1);
      }
    }
  }

  // ---------------------------------------------------------------------------
  // The result of an entry
  // ---------------------------------------------------------------------------

  ghost predicate Refused(vs: seq<seq<u8>>, c: Cursor, blocks: bool, replies: seq<Reply>)
    requires CursorOk(vs, c) && c.cnt > 0
  {
    exists code :: LastRefused(vs, c, blocks, replies, 0, code)
  }

  /** The result of an entry. After the send time is over: ERR_WOULDBLOCK if nothing is out, else ERR_OK. A
      refusal of tcp_write comes back as it is. Otherwise, with a route: without blocking, ERR_WOULDBLOCK
      exactly if nothing is out, else ERR_OK; with blocking, ERR_OK exactly if everything is out, else none
      yet. A missing route is reported unless nothing was tried and nothing is out. */
  lemma EntryResult(vs: seq<seq<u8>>, c: Cursor, blocks: bool, e: Entry)
    requires Resumable(vs, c)
    ensures var w := Continued(vs, c, blocks, e);
            var untried := LastUntried(vs, c, blocks, e.replies, 0);
            if e.expired then
              !w.running && w.cursor == c && w.result == Some(if c.offset == 0 then WouldBlock else Ok)
            else
              && (forall code :: w.result == Some(Other(code))
                                 <==> LastRefused(vs, c, blocks, e.replies, 0, code))
              && (w.running ==> w.result == None)
              && (!w.running && !Refused(vs, c, blocks, e.replies) ==>
                    w.result == if e.noRoute && !(untried && w.cursor.offset == 0) then Some(Route)
                                else if !blocks then Some(if w.cursor.offset == 0 then WouldBlock else Ok)
                                else if w.cursor.offset == |Bytes(vs)| then Some(Ok) else None)
  {
    if !e.expired {
      LoopKeepsOk(vs, c, blocks, e.replies, 0);
      LoopRefusedIff(vs, c, blocks, e.replies, 0);
      var l := Loop(vs, c, blocks, e.replies, 0);
      assert forall code :: l.err == Other(code) <==> LastRefused(vs, c, blocks, e.replies, 0, code);
    }
  }

  /** No other error ever comes out of an entry. */
  lemma EntryErrors(vs: seq<seq<u8>>, c: Cursor, blocks: bool, e: Entry)
    requires Resumable(vs, c)
    ensures var w := Continued(vs, c, blocks, e);
            w.result.Some? ==> w.result.value in {Ok, WouldBlock, Route} || w.result.value.Other?
  {
    EntryResult(vs, c, blocks, e);
    if !e.expired {
      LoopRefusedIff(vs, c, blocks, e.replies, 0);
      LoopKeepsOk(vs, c, blocks, e.replies, 0);
    }
  }

  // ---------------------------------------------------------------------------
  // A send buffer with room
  // ---------------------------------------------------------------------------

  predicate Ample(replies: seq<Reply>, k: nat) {
    forall j :: k <= j < |replies| ==> replies[j] == Reply(65535, Accepts)
  }

  lemma {:induction false} AmpleSendsAll(vs: seq<seq<u8>>, c: Cursor, blocks: bool, replies: seq<Reply>, k: nat)
    requires CursorOk(vs, c) && c.cnt > 0 && k <= |replies| && Ample(replies, k)
    requires Left(vs, c) <= |replies| - k
    ensures var l := Loop(vs, c, blocks, replies, k);
            !l.running && l.tried && l.err == Ok && CursorOk(vs, l.cursor) && l.cursor.offset == |Bytes(vs)|
    decreases |replies| - k
  {
    AtEnd(vs, c);
    TurnKeepsOk(vs, c, blocks, replies[k]);
    TurnSends(vs, c, blocks, replies[k]);
    var t := Turn(vs, c, blocks, replies[k]);
    if t.more {
      StuckIff(vs, c, blocks, replies[k]);
      TurnMoves(vs, c, blocks, replies[k]);
      AmpleSendsAll(vs, t.cursor, blocks, replies, k + 1);
    } else {
      AtEnd(vs, t.cursor);
    }
  }

  /** With room for every piece and a route, one entry sends everything, in order, and answers ERR_OK. */
  lemma AmpleEntry(vs: seq<seq<u8>>, c: Cursor, blocks: bool, e: Entry)
    requires Resumable(vs, c) && Ample(e.replies, 0) && Left(vs, c) <= |e.replies|
    requires !e.expired && !e.noRoute
    ensures var w := Continued(vs, c, blocks, e);
            w.result == Some(Ok) && w.cursor.sent == Bytes(vs)
  {
    AmpleSendsAll(vs, c, blocks, e.replies, 0);
    EntryKeepsWrite(vs, c, blocks, e);
    EntryResult(vs, c, blocks, e);
    LoopRefusedIff(vs, c, blocks, e.replies, 0);
    assert Bytes(vs)[..|Bytes(vs)|] == Bytes(vs);
  }

  // ---------------------------------------------------------------------------
  // A write over its callbacks
  // ---------------------------------------------------------------------------

  /** In none of the entries from `k` on is the time over, the route missing, or a turn refused. */
  predicate Smooth(es: seq<Entry>, k: nat) {
    forall j :: k <= j < |es| ==> !es[j].expired && !es[j].noRoute
                                  && forall r :: r in es[j].replies ==> !r.answer.Refuses?
  }

  lemma {:induction false} NothingRefused(vs: seq<seq<u8>>, c: Cursor, blocks: bool, replies: seq<Reply>, k: nat,
                                          code: int)
    requires CursorOk(vs, c) && c.cnt > 0 && k <= |replies|
    requires forall r :: r in replies ==> !r.answer.Refuses?
    ensures !LastRefused(vs, c, blocks, replies, k, code)
    decreases |replies| - k
  {
    if k < |replies| {
      assert replies[k] in replies;
      TurnKeepsOk(vs, c, blocks, replies[k]);
      if Turn(vs, c, blocks, replies[k]).more {
        NothingRefused(vs, Turn(vs, c, blocks, replies[k]).cursor, blocks, replies, k + 1, code);
      }
    }
  }

  lemma SmoothEntry(vs: seq<seq<u8>>, c: Cursor, e: Entry)
    requires Resumable(vs, c) && !e.expired && !e.noRoute && forall r :: r in e.replies ==> !r.answer.Refuses?
    ensures var w := Continued(vs, c, true, e);
            !w.running ==> w.result == if w.cursor.offset == |Bytes(vs)| then Some(Ok) else None
  {
    forall code
      ensures !LastRefused(vs, c, true, e.replies, 0, code)
    {
      NothingRefused(vs, c, true, e.replies, 0, code);
    }
    EntryResult(vs, c, true, e);
  }

  /** A blocking write that meets no error is answered, and with ERR_OK, as soon as everything is out, and
      not before. */
  lemma {:induction false} BlockingEndsIff(vs: seq<seq<u8>>, c: Cursor, es: seq<Entry>, k: nat)
    requires Resumable(vs, c) && k <= |es| && Smooth(es, k)
    ensures var w := Entries(vs, c, true, es, k);
            !w.running ==> w.result == if w.cursor.sent == Bytes(vs) then Some(Ok) else None
    decreases |es| - k
  {
    if k == |es| {
      assert c.sent != Bytes(vs);
    } else {
      EntryKeepsWrite(vs, c, true, es[k]);
      SmoothEntry(vs, c, es[k]);
      var w := Continued(vs, c, true, es[k]);
      assert Bytes(vs)[..|Bytes(vs)|] == Bytes(vs);
      if w.result.None? && !w.running {
        BlockingEndsIff(vs, w.cursor, es, k + 1);
      }
    }
  }

  /** An entry tells select that the connection is not writable exactly if no refusal and no lack of time
      ended it and either a non-blocking write has bytes left or little space is left; only in the first
      case the space is looked at again later. */
  lemma MarksIff(vs: seq<seq<u8>>, c: Cursor, blocks: bool, e: Entry)
    requires Resumable(vs, c)
    ensures var w := Continued(vs, c, blocks, e);
            var looks := !e.expired && !w.running && !Refused(vs, c, blocks, e.replies);
            && (HeldUp(vs, c, blocks, e) <==> looks && !blocks && w.cursor.offset < |Bytes(vs)|)
            && Marks(vs, c, blocks, e)
               == if looks && (e.low || (!blocks && w.cursor.offset < |Bytes(vs)|)) then [SendMinus] else []
  {
    LoopKeepsOk(vs, c, blocks, e.replies, 0);
    LoopRefusedIff(vs, c, blocks, e.replies, 0);
    var l := Loop(vs, c, blocks, e.replies, 0);
    assert forall code :: l.err == Other(code) <==> LastRefused(vs, c, blocks, e.replies, 0, code);
    if l.err.Other? {
      assert LastRefused(vs, c, blocks, e.replies, 0, l.err.code);
    }
  }
}
