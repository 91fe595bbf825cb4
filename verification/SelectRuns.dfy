/** What the invariant of the select protocol says about whole runs. */
module SelectRuns {
  import opened Words
  import opened SelectProtocol
  import opened SelectSafety

  /** `n` open sockets and `m` threads that have not called anything yet. */
  predicate Initial(st: State) {
    && (forall w :: 0 <= w < |st.waiters| ==> st.waiters[w].pc.Returned? && st.waiters[w].limit == 0)
    && (forall s :: 0 <= s < |st.socks| ==> st.socks[s].waiting == 0 && !st.socks[s].lastdata)
    && st.list == [] && st.walkers == []
  }

  predicate LegalRun(st: State, actions: seq<Action>)
    requires Inv(st)
    decreases |actions|
  {
    actions != [] ==>
      Enabled(st, actions[0]) &&
      (StepKeepsInv(st, actions[0]); LegalRun(Step(st, actions[0]), actions[1..]))
  }

  /** The state after a run. */
  function Run(st: State, actions: seq<Action>): (r: State)
    requires Inv(st) && LegalRun(st, actions)
    ensures Shape(r)
    decreases |actions|
  {
    if actions == [] then st else
      StepKeepsInv(st, actions[0]);
      Run(Step(st, actions[0]), actions[1..])
  }

  /** The invariant holds in every state that a run can reach. */
  lemma {:induction false} RunKeepsInv(st: State, actions: seq<Action>)
    requires Inv(st) && LegalRun(st, actions)
    ensures Inv(Run(st, actions))
    decreases |actions|
  {
    if actions != [] {
      StepKeepsInv(st, actions[0]);
      RunKeepsInv(Step(st, actions[0]), actions[1..]);
    }
  }

  lemma {:induction false} NobodyCounted(ws: seq<Waiter>, s: nat, n: nat)
    requires n <= |ws| && forall w :: 0 <= w < n ==> ws[w].pc.Returned?
    ensures CountTo(ws, s, n) == 0
  {
    if n > 0 {
      NobodyCounted(ws, s, n - 1);
    }
  }

  lemma InitialInv(st: State)
    requires Initial(st)
    ensures Inv(st)
  {
    forall s | 0 <= s < |st.socks| ensures CountTo(st.waiters, s, |st.waiters|) == 0 {
      NobodyCounted(st.waiters, s, |st.waiters|);
    }
  }

  /** No lost wake-up: after any run, a thread that waits without having been signalled has no watched
      socket ready, unless a pass about that very event will still come to it. */
  lemma NoLostWakeUp(st: State, actions: seq<Action>, w: nat, s: nat, k: Kind)
    requires Inv(st) && LegalRun(st, actions)
    requires var now := Run(st, actions);
             && w < |now.waiters| && now.waiters[w].pc.Blocked? && now.waiters[w].tokens == 0
             && s < now.waiters[w].limit && Watches(now.waiters[w].fds, s, k) && Ready(now.socks[s], k)
    ensures Coming(Run(st, actions), w, s, k)
  {
    RunKeepsInv(st, actions);
    var now := Run(st, actions);
    assert PcOk(now.waiters[w]) && Relies(now.waiters[w], s);
  }

  /** Once every pass is over, only threads without a ready socket sleep. */
  lemma QuietMeansNothingReady(st: State, actions: seq<Action>, w: nat, s: nat, k: Kind)
    requires Inv(st) && LegalRun(st, actions)
    requires var now := Run(st, actions);
             && (forall j :: 0 <= j < |now.walkers| ==> !now.walkers[j].active)
             && w < |now.waiters| && now.waiters[w].pc.Blocked? && now.waiters[w].tokens == 0
             && s < now.waiters[w].limit && Watches(now.waiters[w].fds, s, k)
    ensures !Ready(Run(st, actions).socks[s], k)
  {
    if Ready(Run(st, actions).socks[s], k) {
      NoLostWakeUp(st, actions, w, s, k);
    }
  }

  // ---------------------------------------------------------------------------
  // A pass that is left alone arrives
  // ---------------------------------------------------------------------------

  /** `n` turns of pass `j` with nothing in between. */
  function WalkAlone(st: State, j: nat, n: nat): (r: State)
    requires Inv(st) && j < |st.walkers|
    ensures |r.waiters| == |st.waiters|
    decreases n
  {
    if n == 0 || !st.walkers[j].active then st else
      WalkKeepsInv(st, j);
      WalkAlone(WalkStep(st, j), j, n - 1)
  }

  /** Turns until the pass looks at the entry at position `q`. */
  function TurnsTo(x: Walker, ctr: nat, q: nat): int {
    if x.seen != ctr then q + 1 else q - x.pos
  }

  /** The pass that is coming signals the waiting thread within as many turns as the list has entries. */
  lemma {:induction false} PassDelivers(st: State, j: nat, w: nat, k: Kind, q: nat)
    requires Inv(st) && j < |st.walkers| && w < |st.waiters|
    requires q < |st.list| && st.list[q] == w
    requires st.walkers[j].active && TurnsTo(st.walkers[j], st.ctr, q) > 0
    requires Carries(st.walkers[j], k) && Watches(st.waiters[w].fds, st.walkers[j].sock, k)
    ensures WalkAlone(st, j, TurnsTo(st.walkers[j], st.ctr, q)).waiters[w].signalled
    decreases TurnsTo(st.walkers[j], st.ctr, q)
  {
    var n := TurnsTo(st.walkers[j], st.ctr, q);
    var next := WalkStep(st, j);
    WalkKeepsInv(st, j);
    if n == 1 {
      assert WalkAlone(next, j, 0) == next;
    } else {
      assert TurnsTo(next.walkers[j], next.ctr, q) == n - 1;
      PassDelivers(next, j, w, k, q);
    }
  }

  // ---------------------------------------------------------------------------
  // Counters, semaphores and list entries
  // ---------------------------------------------------------------------------

  /** select_waiting of a socket is the number of calls that have raised and not yet lowered it, never
      above its 8 bits; with no call under way it is 0, aborted and timed-out calls included. */
  lemma WaitingCountsCalls(st: State, actions: seq<Action>, s: nat)
    requires Inv(st) && LegalRun(st, actions) && s < |Run(st, actions).socks|
    ensures var now := Run(st, actions);
            && now.socks[s].waiting == CountTo(now.waiters, s, |now.waiters|) <= SELWAIT_MAX
            && ((forall w :: 0 <= w < |now.waiters| ==> now.waiters[w].pc.Returned?) ==> now.socks[s].waiting == 0)
  {
    RunKeepsInv(st, actions);
    var now := Run(st, actions);
    if forall w :: 0 <= w < |now.waiters| ==> now.waiters[w].pc.Returned? {
      NobodyCounted(now.waiters, s, |now.waiters|);
    }
  }

  /** A call that lowers a counter finds it above 0, as the source asserts. */
  lemma LoweringFindsItselfCounted(st: State, actions: seq<Action>, w: nat)
    requires Inv(st) && LegalRun(st, actions)
    requires var now := Run(st, actions);
             && w < |now.waiters| && now.waiters[w].pc.Lowering? && now.waiters[w].pc.i < now.waiters[w].pc.until
             && Watched(now.waiters[w].fds, now.waiters[w].pc.i)
    ensures var now := Run(st, actions);
            && now.waiters[w].pc.i < |now.socks| && now.socks[now.waiters[w].pc.i].waiting > 0
  {
    RunKeepsInv(st, actions);
    var now := Run(st, actions);
    assert PcOk(now.waiters[w]);
    CountedIsCounted(now.waiters, w, now.waiters[w].pc.i, |now.waiters|);
  }

  /** A pass whose generation is current stands on an entry that is still in the list, so the pointer
      it follows next belongs to a call that has not returned. */
  lemma PassStandsOnLinkedEntry(st: State, actions: seq<Action>, j: nat)
    requires Inv(st) && LegalRun(st, actions)
    requires var now := Run(st, actions);
             j < |now.walkers| && now.walkers[j].active && now.walkers[j].seen == now.ctr
    ensures var now := Run(st, actions);
            var x := now.walkers[j];
            x.at < |now.waiters| && Linked(now.waiters[x.at]) && x.pos < |now.list| && now.list[x.pos] == x.at
  {
    RunKeepsInv(st, actions);
    var now := Run(st, actions);
    assert WalkerOk(now.walkers[j], now.list, now.ctr);
    assert now.walkers[j].at in now.list;
  }

  /** A call's semaphore is given at most once. */
  lemma SemaphoreGivenOnce(st: State, actions: seq<Action>, w: nat)
    requires Inv(st) && LegalRun(st, actions)
    requires w < |Run(st, actions).waiters| && Linked(Run(st, actions).waiters[w])
    ensures var x := Run(st, actions).waiters[w];
            x.tokens <= 1 && (x.pc.Blocked? ==> (x.tokens == 1 <==> x.signalled))
  {
    RunKeepsInv(st, actions);
    assert PcOk(Run(st, actions).waiters[w]);
  }

  // ---------------------------------------------------------------------------
  // The limits of the 16-bit event counter
  // ---------------------------------------------------------------------------

  /** Thread `v` waits, or is about to, for data on socket `s`, and no pass about data will come to it. */
  predicate Unvisited(st: State, v: nat, s: nat) {
    && v < |st.waiters| && Relies(st.waiters[v], s) && !st.waiters[v].signalled
    && Watches(st.waiters[v].fds, s, Read) && !Coming(st, v, s, Read)
  }

  /** RCVMINUS with the counter at its least value makes a socket ready and looks for nobody. */
  predicate Underflow(sock: Sock, e: Event) {
    e.RcvMinus? && sock.rcvevent == S16_MIN
  }

  /** An event keeps the promise to every thread exactly unless it is RCVMINUS with the 16-bit counter at
      its least value, while some thread waits for data there that no pass will visit. */
  lemma EventKeepsPromiseIff(st: State, s: nat, e: Event)
    requires Inv(st) && s < |st.socks| && S16_MIN <= st.socks[s].rcvevent <= S16_MAX
    ensures WakeOk(NotifyStep(st, s, e))
       <==> !(Underflow(st.socks[s], e) && exists v: nat :: Unvisited(st, v, s))
  {
    if !Underflow(st.socks[s], e) {
      NotifyKeepsWake(st, s, e);
    } else {
      UnderflowLosesUnvisited(st, s, e);
    }
  }

  lemma UnderflowLosesUnvisited(st: State, s: nat, e: Event)
    requires Inv(st) && s < |st.socks| && Underflow(st.socks[s], e)
    ensures WakeOk(NotifyStep(st, s, e)) <==> !exists v: nat :: Unvisited(st, v, s)
  {
    var next := NotifyStep(st, s, e);
    assert next == st.(socks := st.socks[s := Updated(st.socks[s], e)]);
    assert forall v, t, k {:trigger Coming(next, v, t, k)} :: Coming(next, v, t, k) <==> Coming(st, v, t, k);
    if v: nat :| Unvisited(st, v, s) {
      assert Ready(next.socks[s], Read) && !Coming(next, v, s, Read);
    } else {
      forall v, t, k |
        0 <= v < |next.waiters| && 0 <= t < |next.socks| && Relies(next.waiters[v], t) && !next.waiters[v].signalled
        && Watches(next.waiters[v].fds, t, k) && Ready(next.socks[t], k)
        ensures Coming(next, v, t, k)
      {
        if t == s && k == Read {
          assert !Unvisited(st, v, s);
        } else {
          assert Ready(st.socks[t], k);
        }
      }
    }
  }

  /** `n` times RCVMINUS on socket 0, then the rest. */
  function Falling(n: nat, rest: seq<Action>): seq<Action> {
    if n == 0 then rest else [Notify(0, RcvMinus)] + Falling(n - 1, rest)
  }

  /** A call for data on socket 0 goes to sleep: it is begun, scans, links itself, raises the counter,
      scans again and blocks. */
  function Sleeping(): seq<Action> {
    [Begin(0, FdSets({0}, {}, {}), 1, false)] + Advances(7)
  }

  function Advances(n: nat): seq<Action> {
    if n == 0 then [] else [Advance(0)] + Advances(n - 1)
  }

  /** One socket with a counter, one thread, nothing under way. */
  function Idle(rcvevent: int): State {
    State([Sock(false, rcvevent, false, false, 0)], [Waiter(Returned(0), FdSets({}, {}, {}), 0, false, false, 0)],
          [], 0, [])
  }

  /** Where a legal run ends. */
  function Outcome(st: State, actions: seq<Action>): Option<State> {
    if Inv(st) && LegalRun(st, actions) then Some(Run(st, actions)) else None
  }

  lemma ActionLeads(st: State, a: Action, rest: seq<Action>)
    requires Inv(st) && Enabled(st, a)
    ensures Outcome(st, [a] + rest) == Outcome(Step(st, a), rest)
  {
    StepKeepsInv(st, a);
    assert ([a] + rest)[1..] == rest;
  }

  lemma FallStep(c: int)
    requires S16_MIN < c
    ensures Inv(Idle(c)) && Enabled(Idle(c), Notify(0, RcvMinus))
    ensures Step(Idle(c), Notify(0, RcvMinus)) == Idle(c - 1)
  {
    InitialInv(Idle(c));
  }

  lemma FallLeads(c: int, rest: seq<Action>)
    requires S16_MIN < c
    ensures Outcome(Idle(c), [Notify(0, RcvMinus)] + rest) == Outcome(Idle(c - 1), rest)
  {
    FallStep(c);
    ActionLeads(Idle(c), Notify(0, RcvMinus), rest);
  }

  /** What one RCVMINUS does to an outcome, `n` of them do. */
  lemma {:induction false} FallingFrom(f: (int, seq<Action>) -> Option<State>, c: int, n: nat, rest: seq<Action>)
    requires S16_MIN <= c - n
    requires forall e, r :: S16_MIN < e ==> f(e, [Notify(0, RcvMinus)] + r) == f(e - 1, r)
    ensures f(c, Falling(n, rest)) == f(c - n, rest)
    decreases n
  {
    if n > 0 {
      FallingFrom(f, c - 1, n - 1, rest);
    }
  }

  function FromIdle(rcvevent: int, actions: seq<Action>): Option<State> {
    Outcome(Idle(rcvevent), actions)
  }

  lemma AnyFallLeads()
    ensures forall e, r :: S16_MIN < e ==> FromIdle(e, [Notify(0, RcvMinus)] + r) == FromIdle(e - 1, r)
  {
    forall e, r | S16_MIN < e
      ensures FromIdle(e, [Notify(0, RcvMinus)] + r) == FromIdle(e - 1, r)
    {
      FallLeads(e, r);
    }
  }

  lemma FallingRun(c: int, n: nat, rest: seq<Action>)
    requires S16_MIN <= c - n
    ensures FromIdle(c, Falling(n, rest)) == FromIdle(c - n, rest)
  {
    AnyFallLeads();
    FallingFrom(FromIdle, c, n, rest);
  }

  /** Where the call stands after each step. */
  function Asleep(rcvevent: int, pc: Pc): State {
    var linked := !(pc.FirstScan? || pc.Linking?);
    State([Sock(false, rcvevent, false, false,
                if pc == Raising(1) || pc.Rescanning? || pc.Blocked? then 1 else 0)],
          [Waiter(pc, FdSets({0}, {}, {}), 1, false, false, 0)],
          if linked then [0] else [], if linked then 1 else 0, [])
  }

  /** The place of the call that step `n` of falling asleep starts from. */
  function Place(n: nat): Pc {
    if n == 0 then FirstScan(0, 0) else if n == 1 then FirstScan(1, 0) else if n == 2 then Linking
    else if n == 3 then Raising(0) else if n == 4 then Raising(1) else if n == 5 then Rescanning(0, 0)
    else if n == 6 then Rescanning(1, 0) else Blocked
  }

  lemma AsleepStep(c: int, n: nat)
    requires c <= 0 && n < 7 && Inv(Asleep(c, Place(n)))
    ensures Enabled(Asleep(c, Place(n)), Advance(0))
    ensures Step(Asleep(c, Place(n)), Advance(0)) == Asleep(c, Place(n + 1))
    ensures Inv(Asleep(c, Place(n + 1)))
  {
    StepKeepsInv(Asleep(c, Place(n)), Advance(0));
  }

  lemma {:induction false} AsleepRun(c: int, n: nat)
    requires c <= 0 && n <= 7 && Inv(Asleep(c, Place(n)))
    ensures Outcome(Asleep(c, Place(n)), Advances(7 - n)) == Some(Asleep(c, Blocked))
    decreases 7 - n
  {
    if n < 7 {
      AsleepStep(c, n);
      ActionLeads(Asleep(c, Place(n)), Advance(0), Advances(7 - (n + 1)));
      AsleepRun(c, n + 1);
    }
  }

  lemma SleepingRun(c: int)
    requires c <= 0
    ensures Outcome(Idle(c), Sleeping()) == Some(Asleep(c, Blocked))
  {
    InitialInv(Idle(c));
    var begin := Begin(0, FdSets({0}, {}, {}), 1, false);
    assert Step(Idle(c), begin) == Asleep(c, Place(0));
    StepKeepsInv(Idle(c), begin);
    ActionLeads(Idle(c), begin, Advances(7));
    AsleepRun(c, 0);
  }

  lemma UnderflowRun(c: int)
    requires S16_MIN <= c <= 0
    ensures Outcome(Idle(0), Falling(-c, Sleeping())) == Some(Asleep(c, Blocked))
  {
    SleepingRun(c);
    FallingRun(0, -c, Sleeping());
  }

  /** A counter that starts at 0 is lowered to `c`, and a thread goes to sleep on its socket. One more
      RCVMINUS makes the socket ready with nobody coming exactly if `c` is the least value. */
  lemma CounterUnderflowLosesWakeUp(c: int)
    requires S16_MIN <= c <= 0
    ensures Initial(Idle(0)) && Inv(Idle(0)) && LegalRun(Idle(0), Falling(-c, Sleeping()))
    ensures var st := Run(Idle(0), Falling(-c, Sleeping()));
            && |st.socks| == |st.waiters| == 1 && st.socks[0].rcvevent == c && !Ready(st.socks[0], Read)
            && st.waiters[0].pc.Blocked? && st.waiters[0].tokens == 0
            && 0 < st.waiters[0].limit && Watches(st.waiters[0].fds, 0, Read)
            && (var next := NotifyStep(st, 0, RcvMinus);
                Ready(next.socks[0], Read) && !Coming(next, 0, 0, Read) <==> c == S16_MIN)
  {
    InitialInv(Idle(0));
    UnderflowRun(c);
    assert NotifyStep(Asleep(c, Blocked), 0, RcvMinus).walkers == [];
  }
}
