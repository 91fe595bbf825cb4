/** Every step of the select protocol keeps its invariant. */
module SelectSafety {
  import opened SelectProtocol

  // ---------------------------------------------------------------------------
  // Counting
  // ---------------------------------------------------------------------------

  lemma {:induction false} CountChange(ws: seq<Waiter>, w: nat, x: Waiter, s: nat, n: nat)
    requires w < |ws| && n <= |ws|
    ensures CountTo(ws[w := x], s, n) + (if w < n && Counted(ws[w], s) then 1 else 0)
         == CountTo(ws, s, n) + (if w < n && Counted(x, s) then 1 else 0)
  {
    if n > 0 {
      CountChange(ws, w, x, s, n - 1);
    }
  }

  lemma {:induction false} CountedIsCounted(ws: seq<Waiter>, w: nat, s: nat, n: nat)
    requires w < n <= |ws| && Counted(ws[w], s)
    ensures CountTo(ws, s, n) > 0
  {
    if w < n - 1 {
      CountedIsCounted(ws, w, s, n - 1);
    }
  }

  /** A thread that relies on a socket is counted there. */
  lemma ReliesIsCounted(st: State, w: nat, s: nat, k: Kind)
    requires CountsOk(st) && w < |st.waiters| && s < |st.socks|
    requires Relies(st.waiters[w], s) && Watches(st.waiters[w].fds, s, k)
    ensures st.socks[s].waiting > 0
  {
    CountedIsCounted(st.waiters, w, s, |st.waiters|);
  }

  // ---------------------------------------------------------------------------
  // Steps that change one thread only
  // ---------------------------------------------------------------------------

  function SetWaiter(st: State, w: nat, x: Waiter): State
    requires w < |st.waiters|
  {
    st.(waiters := st.waiters[w := x])
  }

  /** What thread `y` newly relies on in place of `x` shows no watched event. */
  predicate NothingNewReady(st: State, x: Waiter, y: Waiter) {
    forall s, k :: 0 <= s < |st.socks| && Relies(y, s) && !y.signalled && Watches(y.fds, s, k)
                   && Ready(st.socks[s], k)
                   ==> Relies(x, s) && !x.signalled && Watches(x.fds, s, k)
  }

  lemma SetWaiterKeepsWake(st: State, w: nat, y: Waiter)
    requires WakeOk(st) && w < |st.waiters| && NothingNewReady(st, st.waiters[w], y)
    ensures WakeOk(SetWaiter(st, w, y))
  {
    var next := SetWaiter(st, w, y);
    forall v, s, k |
      0 <= v < |next.waiters| && 0 <= s < |next.socks| && Relies(next.waiters[v], s) && !next.waiters[v].signalled
      && Watches(next.waiters[v].fds, s, k) && Ready(next.socks[s], k)
      ensures Coming(next, v, s, k)
    {
      assert Coming(st, v, s, k);
    }
  }

  lemma SetWaiterKeepsCounts(st: State, w: nat, y: Waiter)
    requires CountsOk(st) && w < |st.waiters|
    requires forall s :: 0 <= s < |st.socks| ==> Counted(y, s) == Counted(st.waiters[w], s)
    ensures CountsOk(SetWaiter(st, w, y))
  {
    forall s | 0 <= s < |st.socks|
      ensures st.socks[s].waiting == CountTo(st.waiters[w := y], s, |st.waiters|)
    {
      CountChange(st.waiters, w, y, s, |st.waiters|);
    }
  }

  predicate SameCounts(st: State, x: Waiter, y: Waiter) {
    forall s :: 0 <= s < |st.socks| ==> Counted(y, s) == Counted(x, s)
  }

  lemma SetWaiterKeepsInv(st: State, w: nat, y: Waiter)
    requires Inv(st) && w < |st.waiters| && NothingNewReady(st, st.waiters[w], y)
    requires SameCounts(st, st.waiters[w], y)
    requires Linked(y) == Linked(st.waiters[w]) && y.limit <= |st.socks| && PcOk(y)
    ensures Inv(SetWaiter(st, w, y))
  {
    SetWaiterKeepsWake(st, w, y);
    SetWaiterKeepsCounts(st, w, y);
  }

  // ---------------------------------------------------------------------------
  // Steps that change one thread and one socket counter
  // ---------------------------------------------------------------------------

  lemma CountKeepsInv(st: State, w: nat, y: Waiter, i: nat, n: nat)
    requires Inv(st) && w < |st.waiters| && i < |st.socks| && n <= SELWAIT_MAX
    requires n + (if Counted(st.waiters[w], i) then 1 else 0)
          == st.socks[i].waiting + (if Counted(y, i) then 1 else 0)
    requires forall s :: 0 <= s < |st.socks| && s != i ==> Counted(y, s) == Counted(st.waiters[w], s)
    requires forall s :: !Relies(y, s)
    requires Linked(y) && Linked(st.waiters[w]) && y.limit <= |st.socks| && PcOk(y)
    ensures Inv(SetWaiting(SetWaiter(st, w, y), i, n))
  {
    SetWaiterKeepsWake(st, w, y);
    var mid := SetWaiter(st, w, y);
    var next := SetWaiting(mid, i, n);
    forall s | 0 <= s < |next.socks|
      ensures next.socks[s].waiting == CountTo(next.waiters, s, |next.waiters|)
    {
      CountChange(st.waiters, w, y, s, |st.waiters|);
    }
    forall v, s, k |
      0 <= v < |next.waiters| && 0 <= s < |next.socks| && Relies(next.waiters[v], s) && !next.waiters[v].signalled
      && Watches(next.waiters[v].fds, s, k) && Ready(next.socks[s], k)
      ensures Coming(next, v, s, k)
    {
      assert Ready(mid.socks[s], k);
      assert Coming(mid, v, s, k);
    }
  }

  // ---------------------------------------------------------------------------
  // The list
  // ---------------------------------------------------------------------------

  lemma {:induction false} RemoveMembers<T>(s: seq<T>, x: T, y: T)
    ensures y in Remove(s, x) <==> y in s && y != x
  {
    if s != [] {
      RemoveMembers(s[1..], x, y);
    }
  }

  lemma {:induction false} RemoveKeepsDistinct<T>(s: seq<T>, x: T)
    requires forall p, q :: 0 <= p < q < |s| ==> s[p] != s[q]
    ensures forall p, q :: 0 <= p < q < |Remove(s, x)| ==> Remove(s, x)[p] != Remove(s, x)[q]
  {
    if s != [] {
      RemoveKeepsDistinct(s[1..], x);
      RemoveMembers(s[1..], x, s[0]);
    }
  }

  /** A changed generation makes every pass start again, so whoever was to be visited still is. */
  lemma ListChangeKeepsWake(st: State, w: nat, y: Waiter, list: seq<nat>)
    requires WakeOk(st) && w < |st.waiters| && forall s :: !Relies(y, s)
    requires forall j :: 0 <= j < |st.walkers| ==> st.walkers[j].seen <= st.ctr
    ensures WakeOk(SetWaiter(st, w, y).(list := list, ctr := st.ctr + 1))
  {
    var next := SetWaiter(st, w, y).(list := list, ctr := st.ctr + 1);
    forall v, s, k |
      0 <= v < |next.waiters| && 0 <= s < |next.socks| && Relies(next.waiters[v], s) && !next.waiters[v].signalled
      && Watches(next.waiters[v].fds, s, k) && Ready(next.socks[s], k)
      ensures Coming(next, v, s, k)
    {
      assert Coming(st, v, s, k);
      var j :| 0 <= j < |st.walkers| && st.walkers[j].sock == s && Carries(st.walkers[j], k)
               && Visits(st.walkers[j], st.list, st.ctr, v);
      assert Visits(next.walkers[j], next.list, next.ctr, v);
    }
  }

  lemma ListChangeKeepsInv(st: State, w: nat, y: Waiter, list: seq<nat>)
    requires Inv(st) && w < |st.waiters| && (forall s :: !Relies(y, s))
    requires SameCounts(st, st.waiters[w], y) && y.limit <= |st.socks| && PcOk(y)
    requires forall p, q :: 0 <= p < q < |list| ==> list[p] != list[q]
    requires forall v :: v in list <==> if v == w then Linked(y) else v in st.list
    ensures Inv(SetWaiter(st, w, y).(list := list, ctr := st.ctr + 1))
  {
    ListChangeKeepsWake(st, w, y, list);
    SetWaiterKeepsCounts(st, w, y);
    var next := SetWaiter(st, w, y).(list := list, ctr := st.ctr + 1);
    assert Shape(next) by {
      forall p | 0 <= p < |list| ensures list[p] < |st.waiters| {
        assert list[p] in list;
      }
    }
  }

  lemma LinkKeepsInv(st: State, w: nat)
    requires Inv(st) && w < |st.waiters| && st.waiters[w].pc.Linking?
    ensures Inv(Link(st, w))
  {
    assert w !in st.list;
    ListChangeKeepsInv(st, w, st.waiters[w].(pc := Raising(0), signalled := false, tokens := 0), [w] + st.list);
  }

  lemma UnlinkKeepsInv(st: State, w: nat, outcome: Outcome)
    requires Inv(st) && w < |st.waiters| && st.waiters[w].pc == Unlinking(outcome)
    ensures Inv(Unlink(st, w, outcome))
  {
    var next := Unlink(st, w, outcome);
    RemoveKeepsDistinct(st.list, w);
    forall v ensures v in next.list <==> v in st.list && v != w {
      RemoveMembers(st.list, w, v);
    }
    ListChangeKeepsInv(st, w, next.waiters[w], next.list);
  }

  // ---------------------------------------------------------------------------
  // Events
  // ---------------------------------------------------------------------------

  /** An event that makes a watched kind ready looks for waiters, if the counter does not run below its range. */
  lemma NewlyReadyChecks(sock: Sock, e: Event, k: Kind)
    requires e.RcvMinus? ==> sock.rcvevent > S16_MIN
    requires Ready(Updated(sock, e), k) && !Ready(sock, k)
    ensures ChecksWaiters(sock, e) && Carries(NewWalker(Updated(sock, e), 0), k)
  {
  }

  lemma NotifyKeepsWake(st: State, s: nat, e: Event)
    requires Inv(st) && s < |st.socks| && (e.RcvMinus? ==> st.socks[s].rcvevent > S16_MIN)
    ensures WakeOk(NotifyStep(st, s, e))
  {
    var next := NotifyStep(st, s, e);
    forall v, t, k |
      0 <= v < |next.waiters| && 0 <= t < |next.socks| && Relies(next.waiters[v], t) && !next.waiters[v].signalled
      && Watches(next.waiters[v].fds, t, k) && Ready(next.socks[t], k)
      ensures Coming(next, v, t, k)
    {
      if Ready(st.socks[t], k) {
        assert Coming(st, v, t, k);
        var j :| 0 <= j < |st.walkers| && st.walkers[j].sock == t && Carries(st.walkers[j], k)
                 && Visits(st.walkers[j], st.list, st.ctr, v);
        assert next.walkers[j] == st.walkers[j];
      } else {
        ReliesIsCounted(st, v, t, k);
        NewlyReadyChecks(st.socks[s], e, k);
        var j := |st.walkers|;
        assert next.walkers[j] == NewWalker(next.socks[s], s);
        assert Visits(next.walkers[j], next.list, next.ctr, v);
      }
    }
  }

  lemma NotifyKeepsInv(st: State, s: nat, e: Event)
    requires Inv(st) && s < |st.socks| && (e.RcvMinus? ==> st.socks[s].rcvevent > S16_MIN)
    ensures Inv(NotifyStep(st, s, e))
  {
    NotifyKeepsWake(st, s, e);
  }

  // ---------------------------------------------------------------------------
  // The list walk
  // ---------------------------------------------------------------------------

  /** A turn of a pass either wakes the thread it was to visit or still has it ahead. */
  lemma WalkApproaches(st: State, j: nat, v: nat, k: Kind)
    requires Inv(st) && j < |st.walkers| && st.walkers[j].active && v < |st.waiters| && v in st.list
    requires Visits(st.walkers[j], st.list, st.ctr, v) && Carries(st.walkers[j], k)
    requires Watches(st.waiters[v].fds, st.walkers[j].sock, k)
    ensures var next := WalkStep(st, j);
            next.waiters[v].signalled || Visits(next.walkers[j], next.list, next.ctr, v)
  {
    var x := st.walkers[j];
    var p := if x.seen != st.ctr then 0 else x.pos + 1;
    var q :| 0 <= q < |st.list| && st.list[q] == v && p <= q;
    var next := WalkStep(st, j);
    if p == q {
      assert Hits(x, st.waiters[v].fds);
    } else {
      assert next.walkers[j].pos < q < |next.list| && next.list[q] == v;
    }
  }

  lemma WalkKeepsWake(st: State, j: nat)
    requires Inv(st) && j < |st.walkers| && st.walkers[j].active
    ensures WakeOk(WalkStep(st, j))
  {
    var next := WalkStep(st, j);
    forall v, s, k |
      0 <= v < |next.waiters| && 0 <= s < |next.socks| && Relies(next.waiters[v], s) && !next.waiters[v].signalled
      && Watches(next.waiters[v].fds, s, k) && Ready(next.socks[s], k)
      ensures Coming(next, v, s, k)
    {
      assert Relies(st.waiters[v], s) && !st.waiters[v].signalled;
      assert Coming(st, v, s, k);
      var i :| 0 <= i < |st.walkers| && st.walkers[i].sock == s && Carries(st.walkers[i], k)
               && Visits(st.walkers[i], st.list, st.ctr, v);
      if i == j {
        WalkApproaches(st, j, v, k);
        assert Carries(next.walkers[j], k) && next.walkers[j].sock == s;
      } else {
        assert next.walkers[i] == st.walkers[i];
      }
    }
  }

  lemma WalkKeepsInv(st: State, j: nat)
    requires Inv(st) && j < |st.walkers| && st.walkers[j].active
    ensures Inv(WalkStep(st, j))
  {
    WalkKeepsWake(st, j);
    var next := WalkStep(st, j);
    forall s | 0 <= s < |st.socks|
      ensures CountTo(next.waiters, s, |next.waiters|) == CountTo(st.waiters, s, |st.waiters|)
    {
      SignalKeepsCount(st, j, s);
    }
  }

  lemma SignalKeepsCount(st: State, j: nat, s: nat)
    requires Shape(st) && j < |st.walkers|
    ensures CountTo(WalkStep(st, j).waiters, s, |st.waiters|) == CountTo(st.waiters, s, |st.waiters|)
  {
    var next := WalkStep(st, j);
    if next.waiters != st.waiters {
      var w := next.walkers[j].at;
      CountChange(st.waiters, w, next.waiters[w], s, |st.waiters|);
      assert next.waiters == st.waiters[w := next.waiters[w]];
    }
  }

  // ---------------------------------------------------------------------------
  // All steps
  // ---------------------------------------------------------------------------

  lemma RaiseKeepsInv(st: State, w: nat, i: nat)
    requires Inv(st) && w < |st.waiters| && st.waiters[w].pc == Raising(i) && i < st.waiters[w].limit
    ensures Inv(Raise(st, w, i))
  {
    var x := st.waiters[w];
    if !Watched(x.fds, i) {
      SetWaiterKeepsInv(st, w, x.(pc := Raising(i + 1)));
    } else if st.socks[i].waiting == SELWAIT_MAX {
      SetWaiterKeepsInv(st, w, x.(pc := Lowering(0, i, Aborted)));
    } else {
      var n := st.socks[i].waiting + 1;
      CountKeepsInv(st, w, x.(pc := Raising(i + 1)), i, n);
      assert Raise(st, w, i) == SetWaiting(SetWaiter(st, w, x.(pc := Raising(i + 1))), i, n);
    }
  }

  lemma LowerKeepsInv(st: State, w: nat, i: nat, until: nat, outcome: Outcome)
    requires Inv(st) && w < |st.waiters| && st.waiters[w].pc == Lowering(i, until, outcome) && i < until
    ensures Inv(Lower(st, w, i, until, outcome))
  {
    var x := st.waiters[w];
    var y := x.(pc := Lowering(i + 1, until, outcome));
    if Watched(x.fds, i) {
      CountedIsCounted(st.waiters, w, i, |st.waiters|);
      CountKeepsInv(st, w, y, i, st.socks[i].waiting - 1);
    } else {
      SetWaiterKeepsInv(st, w, y);
    }
  }

  /** Looking at socket `i` adds it to what the call relies on only if nothing watched is ready there. */
  lemma NoMatchNothingReady(st: State, x: Waiter, i: nat, found: nat)
    requires i < |st.socks| && x.pc == Rescanning(i, found)
    ensures NothingNewReady(st, x, x.(pc := Rescanning(i + 1, found + Matches(x.fds, st.socks[i], i))))
  {
  }

  lemma RescanTurnKeepsInv(st: State, w: nat, i: nat, found: nat)
    requires Inv(st) && w < |st.waiters| && st.waiters[w].pc == Rescanning(i, found) && i < st.waiters[w].limit
    ensures Inv(AdvanceStep(st, w))
  {
    var x := st.waiters[w];
    NoMatchNothingReady(st, x, i, found);
    SetWaiterKeepsInv(st, w, x.(pc := Rescanning(i + 1, found + Matches(x.fds, st.socks[i], i))));
  }

  lemma RescanEndKeepsInv(st: State, w: nat, i: nat, found: nat)
    requires Inv(st) && w < |st.waiters| && st.waiters[w].pc == Rescanning(i, found) && i >= st.waiters[w].limit
    ensures Inv(AdvanceStep(st, w))
  {
    var x := st.waiters[w];
    SetWaiterKeepsInv(st, w, x.(pc := if found > 0 then Lowering(0, x.limit, Scan) else Blocked));
  }

  lemma ScanKeepsInv(st: State, w: nat)
    requires Inv(st) && w < |st.waiters| && (st.waiters[w].pc.FirstScan? || st.waiters[w].pc.LastScan?)
    ensures Inv(AdvanceStep(st, w))
  {
    SetWaiterKeepsInv(st, w, AdvanceStep(st, w).waiters[w]);
  }

  lemma AdvanceKeepsInv(st: State, w: nat)
    requires Inv(st) && w < |st.waiters|
    ensures Inv(AdvanceStep(st, w))
  {
    var x := st.waiters[w];
    match x.pc
    case FirstScan(_, _) => ScanKeepsInv(st, w);
    case Linking => LinkKeepsInv(st, w);
    case Raising(i) =>
      if i < x.limit {
        RaiseKeepsInv(st, w, i);
      } else {
        SetWaiterKeepsInv(st, w, x.(pc := Rescanning(0, 0)));
      }
    case Rescanning(i, found) =>
      if i < x.limit {
        RescanTurnKeepsInv(st, w, i, found);
      } else {
        RescanEndKeepsInv(st, w, i, found);
      }
    case Blocked =>
    case Lowering(i, until, outcome) =>
      if i < until {
        LowerKeepsInv(st, w, i, until, outcome);
      } else {
        SetWaiterKeepsInv(st, w, x.(pc := Unlinking(outcome)));
      }
    case Unlinking(outcome) => UnlinkKeepsInv(st, w, outcome);
    case LastScan(_, _) => ScanKeepsInv(st, w);
    case Returned(_) =>
  }

  /** Every step keeps the invariant. */
  lemma StepKeepsInv(st: State, a: Action)
    requires Inv(st) && Enabled(st, a)
    ensures Inv(Step(st, a))
  {
    match a
    case Begin(w, _, _, _) => SetWaiterKeepsInv(st, w, Step(st, a).waiters[w]);
    case Advance(w) => AdvanceKeepsInv(st, w);
    case Wake(w) => SetWaiterKeepsInv(st, w, Step(st, a).waiters[w]);
    case Expire(w) => SetWaiterKeepsInv(st, w, Step(st, a).waiters[w]);
    case Notify(s, e) => NotifyKeepsInv(st, s, e);
    case Walk(j) => WalkKeepsInv(st, j);
  }
}
