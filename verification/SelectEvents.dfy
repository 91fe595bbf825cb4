/** What events do to the sockets of the select protocol, whom they wake, and what a call returns. */
module SelectEvents {
  import opened Words
  import opened SelectProtocol
  import opened SelectSafety
  import opened SelectRuns

  // ---------------------------------------------------------------------------
  // The counters over a run
  // ---------------------------------------------------------------------------

  function Change(a: Action, s: nat): int {
    if a == Notify(s, RcvPlus) then 1 else if a == Notify(s, RcvMinus) then -1 else 0
  }

  /** RCVPLUS less RCVMINUS for socket `s`. */
  function Arrived(actions: seq<Action>, s: nat): int
    decreases |actions|
  {
    if actions == [] then 0 else
      Change(actions[0], s) + Arrived(actions[1..], s)
  }

  /** `a` and `b` are the same as 16-bit numbers. */
  predicate Same16(a: int, b: int) {
    (a - b) % 0x1_0000 == 0
  }

  predicate Is16(n: int) {
    S16_MIN <= n <= S16_MAX
  }

  lemma Same16Chain(a: int, b: int, x: int, c: int)
    requires Same16(a, b + x) && Same16(b, c)
    ensures Same16(a, c + x)
  {
    assert a - (c + x) == (a - (b + x)) + (b - c);
  }

  /** Nothing but its own events changes what is present at a socket. */
  lemma StepSocks(st: State, a: Action, s: nat)
    requires Inv(st) && Enabled(st, a) && s < |st.socks|
    ensures var x, y := st.socks[s], Step(st, a).socks;
            && |y| == |st.socks|
            && y[s] == (if a.Notify? && a.s == s then Updated(x, a.e) else x).(waiting := y[s].waiting)
  {
    match a
    case Advance(w) => AdvanceSocks(st, w, s);
    case _ =>
  }

  lemma AdvanceSocks(st: State, w: nat, s: nat)
    requires Inv(st) && w < |st.waiters| && s < |st.socks|
    ensures var y := AdvanceStep(st, w).socks;
            |y| == |st.socks| && y[s] == st.socks[s].(waiting := y[s].waiting)
  {
  }

  /** How one action changes the events of socket `s`. */
  ghost predicate StepChanged(x: State, a: Action, y: State, s: nat)
    requires s < |x.socks|
  {
    && s < |y.socks| == |x.socks| && Is16(y.socks[s].rcvevent)
    && Same16(y.socks[s].rcvevent, x.socks[s].rcvevent + Change(a, s))
    && (y.socks[s].sendevent <==> a == Notify(s, SendPlus) || (x.socks[s].sendevent && a != Notify(s, SendMinus)))
    && (y.socks[s].errevent <==> a == Notify(s, Error) || x.socks[s].errevent)
  }

  lemma StepEvents(st: State, a: Action, s: nat)
    requires Inv(st) && Enabled(st, a) && s < |st.socks| && Is16(st.socks[s].rcvevent)
    ensures StepChanged(st, a, Step(st, a), s)
  {
    StepSocks(st, a, s);
  }

  /** Some SENDPLUS for socket `s` has no SENDMINUS after it. */
  ghost predicate LeftWritable(actions: seq<Action>, s: nat) {
    exists n :: 0 <= n < |actions| && actions[n] == Notify(s, SendPlus) && Notify(s, SendMinus) !in actions[n + 1..]
  }

  lemma LeftWritableStep(actions: seq<Action>, s: nat)
    requires actions != []
    ensures LeftWritable(actions, s)
       <==> LeftWritable(actions[1..], s) ||
            (actions[0] == Notify(s, SendPlus) && Notify(s, SendMinus) !in actions[1..])
  {
    var rest := actions[1..];
    if n :| 0 <= n < |actions| && actions[n] == Notify(s, SendPlus) && Notify(s, SendMinus) !in actions[n + 1..] {
      if n > 0 {
        assert rest[n - 1] == actions[n] && rest[n..] == actions[n + 1..];
      }
    }
    if n :| 0 <= n < |rest| && rest[n] == Notify(s, SendPlus) && Notify(s, SendMinus) !in rest[n + 1..] {
      assert actions[n + 1] == rest[n] && actions[n + 2..] == rest[n + 1..];
    }
  }

  /** The events that were present in `x` have changed as `actions` says when they are those of `y`. */
  ghost predicate Changed(x: State, actions: seq<Action>, y: State, s: nat)
    requires s < |x.socks|
  {
    && s < |y.socks| == |x.socks| && Is16(y.socks[s].rcvevent)
    && Same16(y.socks[s].rcvevent, x.socks[s].rcvevent + Arrived(actions, s))
    && (y.socks[s].sendevent
        <==> LeftWritable(actions, s) || (x.socks[s].sendevent && Notify(s, SendMinus) !in actions))
    && (y.socks[s].errevent <==> Notify(s, Error) in actions || x.socks[s].errevent)
  }

  lemma InTail(actions: seq<Action>, a: Action)
    requires actions != []
    ensures a in actions <==> a == actions[0] || a in actions[1..]
  {
  }

  lemma ChangedFirst(x: State, actions: seq<Action>, y: State, z: State, s: nat)
    requires actions != [] && s < |x.socks| && StepChanged(x, actions[0], y, s) && Changed(y, actions[1..], z, s)
    ensures Changed(x, actions, z, s)
  {
    LeftWritableStep(actions, s);
    InTail(actions, Notify(s, SendMinus));
    InTail(actions, Notify(s, Error));
    Same16Chain(z.socks[s].rcvevent, y.socks[s].rcvevent, Arrived(actions[1..], s),
                x.socks[s].rcvevent + Change(actions[0], s));
  }

  predicate Counts16(st: State, s: nat) {
    s < |st.socks| && Is16(st.socks[s].rcvevent)
  }

  /** A run leads from `x` to a changed state of the same outcome. */
  ghost predicate Leads(f: (State, seq<Action>) -> Option<State>, s: nat, x: State, actions: seq<Action>)
    requires Counts16(x, s) && actions != []
  {
    exists y :: f(x, actions) == f(y, actions[1..]) && StepChanged(x, actions[0], y, s)
  }

  ghost predicate AlwaysLeads(f: (State, seq<Action>) -> Option<State>, s: nat) {
    && (forall x :: f(x, []).Some? ==> f(x, []) == Some(x))
    && forall x, actions :: actions != [] && f(x, actions).Some? && Counts16(x, s) ==> Leads(f, s, x, actions)
  }

  /** What each action changes adds up over a run. */
  lemma {:induction false} ChangesAddUp(f: (State, seq<Action>) -> Option<State>, st: State, actions: seq<Action>,
                                        s: nat)
    requires AlwaysLeads(f, s) && f(st, actions).Some? && Counts16(st, s)
    ensures Changed(st, actions, f(st, actions).value, s)
    decreases |actions|
  {
    if actions != [] {
      assert Leads(f, s, st, actions);
      var y :| f(st, actions) == f(y, actions[1..]) && StepChanged(st, actions[0], y, s);
      ChangesAddUp(f, y, actions[1..], s);
      ChangedFirst(st, actions, y, f(st, actions).value, s);
    }
  }

  lemma RunLeads(s: nat)
    ensures AlwaysLeads(SelectRuns.Outcome, s)
  {
    forall x, actions | actions != [] && SelectRuns.Outcome(x, actions).Some? && Counts16(x, s)
      ensures Leads(SelectRuns.Outcome, s, x, actions)
    {
      ActionLeads(x, actions[0], actions[1..]);
      assert [actions[0]] + actions[1..] == actions;
      StepEvents(x, actions[0], s);
      assert StepChanged(x, actions[0], Step(x, actions[0]), s);
    }
  }

  lemma RunChanges(st: State, actions: seq<Action>, s: nat)
    requires Inv(st) && LegalRun(st, actions) && Counts16(st, s)
    ensures Changed(st, actions, Run(st, actions), s) && !Run(st, actions).socks[s].lastdata
  {
    RunLeads(s);
    assert SelectRuns.Outcome(st, actions) == Some(Run(st, actions));
    ChangesAddUp(SelectRuns.Outcome, st, actions, s);
    RunKeepsInv(st, actions);
  }

  /** Socket `s` is readable exactly if more has arrived than was taken, as long as that fits the 16-bit
      counter; writable exactly if it was marked so last; and in error exactly if an error came. */
  ghost predicate ReadyAsTold(x: State, actions: seq<Action>, y: State, s: nat)
    requires s < |x.socks|
  {
    && s < |y.socks|
    && (var n := x.socks[s].rcvevent + Arrived(actions, s);
        Is16(n) ==> y.socks[s].rcvevent == n && (Ready(y.socks[s], Read) <==> n > 0))
    && (Ready(y.socks[s], Write)
        <==> LeftWritable(actions, s) || (x.socks[s].sendevent && Notify(s, SendMinus) !in actions))
    && (Ready(y.socks[s], Except) <==> Notify(s, Error) in actions || x.socks[s].errevent)
  }

  lemma ChangedIsReady(x: State, actions: seq<Action>, y: State, s: nat)
    requires s < |x.socks| && Changed(x, actions, y, s) && !y.socks[s].lastdata
    ensures ReadyAsTold(x, actions, y, s)
  {
    var n := x.socks[s].rcvevent + Arrived(actions, s);
    if Is16(n) {
      SameNumber(y.socks[s].rcvevent, n);
    }
  }

  lemma SameNumber(a: int, b: int)
    requires Is16(a) && Is16(b)
    ensures Same16(a, b) ==> a == b
  {
  }

  /** That is so after every run. */
  lemma ReadyIff(st: State, actions: seq<Action>, s: nat)
    requires Inv(st) && LegalRun(st, actions) && Counts16(st, s)
    ensures ReadyAsTold(st, actions, Run(st, actions), s)
  {
    RunChanges(st, actions, s);
    ChangedIsReady(st, actions, Run(st, actions), s);
  }

  // ---------------------------------------------------------------------------
  // Whom an event wakes
  // ---------------------------------------------------------------------------

  /** An event starts a pass exactly if some call is counted at the socket and it is the first data, room
      where there was none, or an error; the pass is about the events that are present then. */
  lemma NotifyStartsPass(st: State, s: nat, e: Event)
    requires s < |st.socks|
    ensures var x, next := st.socks[s], NotifyStep(st, s, e);
            var looks := (e.RcvPlus? && (x.rcvevent <= 0 || x.rcvevent == 32767))
                         || (e.SendPlus? && !x.sendevent) || e.Error?;
            && next.waiters == st.waiters && next.list == st.list && next.ctr == st.ctr
            && |next.walkers| == |st.walkers| + (if x.waiting > 0 && looks then 1 else 0)
            && next.walkers[..|st.walkers|] == st.walkers
            && (|next.walkers| > |st.walkers| ==>
                  var pass := next.walkers[|st.walkers|];
                  && pass.active && pass.sock == s && pass.seen == -1
                  && (pass.read <==> next.socks[s].rcvevent > 0)
                  && (pass.write <==> next.socks[s].sendevent) && (pass.except <==> next.socks[s].errevent))
  {
  }

  /** The kind of event that `e` brings to the socket. */
  predicate BringsKind(sock: Sock, e: Event, k: Kind) {
    || (e.RcvPlus? && k.Read? && 0 <= sock.rcvevent < S16_MAX)
    || (e.SendPlus? && k.Write?)
    || (e.Error? && k.Except?)
  }

  /** Thread `v` is blocked, unsignalled, in a call that watches socket `s` for `k`. */
  predicate SleepsFor(st: State, v: nat, s: nat, k: Kind) {
    && v < |st.waiters| && st.waiters[v].pc.Blocked? && st.waiters[v].tokens == 0
    && s < st.waiters[v].limit && Watches(st.waiters[v].fds, s, k)
  }

  /** Pass `j`, left alone, gives thread `v` its semaphore within as many turns as the list has entries. */
  ghost predicate Signals(st: State, j: nat, v: nat)
    requires Inv(st)
  {
    j < |st.walkers| && v < |st.waiters| && exists n: nat :: n <= |st.list| && WalkAlone(st, j, n).waiters[v].signalled
  }

  lemma ComingSignals(st: State, v: nat, s: nat, k: Kind)
    requires Inv(st) && SleepsFor(st, v, s, k) && Coming(st, v, s, k)
    ensures exists j: nat :: Signals(st, j, v)
  {
    var j :| 0 <= j < |st.walkers| && st.walkers[j].sock == s && Carries(st.walkers[j], k)
             && Visits(st.walkers[j], st.list, st.ctr, v);
    var x := st.walkers[j];
    assert v in st.list;
    var q: nat;
    if x.seen != st.ctr {
      q :| q < |st.list| && st.list[q] == v;
    } else {
      q :| x.pos < q < |st.list| && st.list[q] == v;
    }
    PassDelivers(st, j, v, k, q);
    assert WalkAlone(st, j, TurnsTo(x, st.ctr, q)).waiters[v].signalled;
    assert Signals(st, j, v);
  }

  /** Data, room or an error that comes to a socket wakes every thread that sleeps for it. */
  lemma EventWakesSleeper(st: State, s: nat, e: Event, v: nat, k: Kind)
    requires Inv(st) && s < |st.socks| && BringsKind(st.socks[s], e, k) && SleepsFor(st, v, s, k)
    ensures var next := NotifyStep(st, s, e);
            Inv(next) && Ready(next.socks[s], k) && exists j: nat :: Signals(next, j, v)
  {
    var next := NotifyStep(st, s, e);
    NotifyKeepsInv(st, s, e);
    assert PcOk(next.waiters[v]) && Relies(next.waiters[v], s);
    assert Coming(next, v, s, k);
    ComingSignals(next, v, s, k);
  }

  /** Some pass about an event that the call of `x` watches has been started. */
  ghost predicate HasCause(x: Waiter, walkers: seq<Walker>) {
    exists j, k :: 0 <= j < |walkers| && Carries(walkers[j], k) && Watches(x.fds, walkers[j].sock, k)
  }

  /** Only calls that watch what a pass is about have been signalled. */
  ghost predicate WakesOk(st: State) {
    match st
    case State(_, waiters, _, _, walkers) =>
      forall v :: 0 <= v < |waiters| && waiters[v].signalled ==> HasCause(waiters[v], walkers)
  }

  /** Passes are never taken away, and keep what they are about. */
  predicate PassesKept(before: seq<Walker>, after: seq<Walker>) {
    && |before| <= |after|
    && forall j :: 0 <= j < |before| ==>
         after[j].sock == before[j].sock && after[j].read == before[j].read && after[j].write == before[j].write
         && after[j].except == before[j].except
  }

  lemma CauseKept(x: Waiter, y: Waiter, before: seq<Walker>, after: seq<Walker>)
    requires HasCause(x, before) && PassesKept(before, after) && x.fds == y.fds
    ensures HasCause(y, after)
  {
    var j, k :| 0 <= j < |before| && Carries(before[j], k) && Watches(x.fds, before[j].sock, k);
    assert Carries(after[j], k);
  }

  lemma StepKeepsPasses(st: State, a: Action)
    requires Inv(st) && Enabled(st, a)
    ensures PassesKept(st.walkers, Step(st, a).walkers) && |Step(st, a).waiters| == |st.waiters|
    ensures forall v :: 0 <= v < |st.waiters| && Step(st, a).waiters[v].signalled && !a.Walk? ==>
                          st.waiters[v].signalled && st.waiters[v].fds == Step(st, a).waiters[v].fds
  {
    match a
    case Advance(w) => AdvanceKeepsPasses(st, w);
    case Notify(s, e) => NotifyStartsPass(st, s, e);
    case Walk(j) => WalkKeepsPasses(st, j);
    case _ =>
  }

  lemma WalkKeepsPasses(st: State, j: nat)
    requires Inv(st) && j < |st.walkers|
    ensures PassesKept(st.walkers, WalkStep(st, j).walkers) && |WalkStep(st, j).waiters| == |st.waiters|
  {
  }

  lemma AdvanceKeepsPasses(st: State, w: nat)
    requires Inv(st) && w < |st.waiters|
    ensures AdvanceStep(st, w).walkers == st.walkers && |AdvanceStep(st, w).waiters| == |st.waiters|
    ensures forall v :: 0 <= v < |st.waiters| && AdvanceStep(st, w).waiters[v].signalled ==>
                          st.waiters[v].signalled && st.waiters[v].fds == AdvanceStep(st, w).waiters[v].fds
  {
  }

  lemma WalkHasCause(st: State, j: nat, v: nat)
    requires Inv(st) && j < |st.walkers| && v < |st.waiters|
    requires WalkStep(st, j).waiters[v].signalled && !st.waiters[v].signalled
    ensures HasCause(st.waiters[v], st.walkers)
  {
    var x := st.walkers[j];
    assert Carries(x, Read) ==> x.read;
    assert Watches(st.waiters[v].fds, x.sock, Read) ==> x.sock in st.waiters[v].fds.read;
    assert Carries(x, Write) ==> x.write;
    assert Watches(st.waiters[v].fds, x.sock, Write) ==> x.sock in st.waiters[v].fds.write;
    assert Carries(x, Except) ==> x.except;
    assert Watches(st.waiters[v].fds, x.sock, Except) ==> x.sock in st.waiters[v].fds.except;
  }

  lemma StepKeepsWakes(st: State, a: Action)
    requires Inv(st) && Enabled(st, a) && WakesOk(st)
    ensures WakesOk(Step(st, a))
  {
    StepKeepsPasses(st, a);
    var next := Step(st, a);
    forall v | 0 <= v < |next.waiters| && next.waiters[v].signalled
      ensures HasCause(next.waiters[v], next.walkers)
    {
      if a.Walk? && !st.waiters[v].signalled {
        WalkHasCause(st, a.j, v);
      }
      CauseKept(st.waiters[v], next.waiters[v], st.walkers, next.walkers);
    }
  }

  /** No thread is woken for nothing: in every run a signalled call watches a kind of event and a socket
      that some pass is about. */
  lemma {:induction false} WakeUpsHaveCause(st: State, actions: seq<Action>)
    requires Inv(st) && LegalRun(st, actions) && WakesOk(st)
    ensures WakesOk(Run(st, actions))
    decreases |actions|
  {
    if actions != [] {
      StepKeepsInv(st, actions[0]);
      StepKeepsWakes(st, actions[0]);
      WakeUpsHaveCause(Step(st, actions[0]), actions[1..]);
    }
  }

  // ---------------------------------------------------------------------------
  // What a call returns
  // ---------------------------------------------------------------------------

  /** `n` steps one after another. */
  function Times(f: State -> State, st: State, n: nat): State
    decreases n
  {
    if n == 0 then st else Times(f, f(st), n - 1)
  }

  lemma {:induction false} TimesAdd(f: State -> State, st: State, a: nat, b: nat)
    ensures Times(f, st, a + b) == Times(f, Times(f, st, a), b)
    decreases a
  {
    if a > 0 {
      TimesAdd(f, f(st), a - 1, b);
    }
  }

  /** A step of thread `w`. */
  function Turn(w: nat): State -> State {
    st => if Shape(st) && w < |st.waiters| then AdvanceStep(st, w) else st
  }

  /** `n` steps of thread `w` with nothing in between. */
  function Alone(st: State, w: nat, n: nat): State {
    Times(Turn(w), st, n)
  }

  /** The sockets from `i` to `n` that are watched for `k` and ready. */
  ghost function ReadySet(f: FdSets, socks: seq<Sock>, k: Kind, i: nat, n: nat): set<nat>
    requires n <= |socks|
  {
    set s: nat | i <= s < n && Watches(f, s, k) && Ready(socks[s], k)
  }

  /** How many watched events there are at the sockets from `i` to `n`. */
  ghost function ReadyCount(f: FdSets, socks: seq<Sock>, i: nat, n: nat): nat
    requires n <= |socks|
  {
    |ReadySet(f, socks, Read, i, n)| + |ReadySet(f, socks, Write, i, n)| + |ReadySet(f, socks, Except, i, n)|
  }

  lemma ReadySetStep(f: FdSets, socks: seq<Sock>, k: Kind, i: nat, n: nat)
    requires i < n <= |socks|
    ensures |ReadySet(f, socks, k, i, n)|
         == |ReadySet(f, socks, k, i + 1, n)| + if Watches(f, i, k) && Ready(socks[i], k) then 1 else 0
  {
    var rest := ReadySet(f, socks, k, i + 1, n);
    if Watches(f, i, k) && Ready(socks[i], k) {
      assert ReadySet(f, socks, k, i, n) == rest + {i};
    } else {
      assert ReadySet(f, socks, k, i, n) == rest;
    }
  }

  lemma ReadyCountStep(f: FdSets, socks: seq<Sock>, i: nat, n: nat)
    requires i < n <= |socks|
    ensures ReadyCount(f, socks, i, n) == Matches(f, socks[i], i) + ReadyCount(f, socks, i + 1, n)
  {
    ReadySetStep(f, socks, Read, i, n);
    ReadySetStep(f, socks, Write, i, n);
    ReadySetStep(f, socks, Except, i, n);
  }

  lemma ReadyCountEnd(f: FdSets, socks: seq<Sock>, i: nat, n: nat)
    requires n <= |socks| && i >= n
    ensures ReadyCount(f, socks, i, n) == 0
  {
    assert ReadySet(f, socks, Read, i, n) == {};
    assert ReadySet(f, socks, Write, i, n) == {};
    assert ReadySet(f, socks, Except, i, n) == {};
  }

  /** A place in one of the three scans. */
  predicate Scans(pc: Pc) {
    pc.FirstScan? || pc.Rescanning? || pc.LastScan?
  }

  /** What a scan that has found `n` events goes on with. */
  function AfterScan(x: Waiter, n: nat): Pc {
    match x.pc
    case FirstScan(_, _) => if n > 0 || x.noWait then Returned(n) else Linking
    case Rescanning(_, _) => if n > 0 then Lowering(0, x.limit, Scan) else Blocked
    case _ => Returned(n)
  }

  /** `f` takes `at` to the next socket, and from the limit to `done`. */
  ghost predicate Loops(f: State -> State, at: (nat, nat) -> State, done: nat -> State, x: Waiter, socks: seq<Sock>,
                        i: nat, found: nat)
    requires x.limit <= |socks|
  {
    f(at(i, found)) == if i < x.limit then at(i + 1, found + Matches(x.fds, socks[i], i)) else done(found)
  }

  /** A loop over the sockets from `i` to the limit of `x` adds up the watched events. */
  lemma {:induction false} ScanFrom(f: State -> State, at: (nat, nat) -> State, done: nat -> State, x: Waiter,
                                    socks: seq<Sock>, i: nat, found: nat)
    requires i <= x.limit <= |socks|
    requires forall j: nat, m: nat :: Loops(f, at, done, x, socks, j, m)
    ensures Times(f, at(i, found), x.limit - i + 1) == done(found + ReadyCount(x.fds, socks, i, x.limit))
    decreases x.limit - i
  {
    assert Loops(f, at, done, x, socks, i, found);
    if i < x.limit {
      ReadyCountStep(x.fds, socks, i, x.limit);
      ScanFrom(f, at, done, x, socks, i + 1, found + Matches(x.fds, socks[i], i));
    } else {
      ReadyCountEnd(x.fds, socks, i, x.limit);
      assert Times(f, done(found), 0) == done(found);
    }
  }

  /** The scan of `pc` at socket `i` with `found` events. */
  function ScanPc(pc: Pc, i: nat, found: nat): Pc
    requires Scans(pc)
  {
    match pc
    case FirstScan(_, _) => FirstScan(i, found)
    case Rescanning(_, _) => Rescanning(i, found)
    case _ => LastScan(i, found)
  }

  lemma ScanStep(st: State, w: nat, i: nat, found: nat)
    requires Shape(st) && w < |st.waiters| && Scans(st.waiters[w].pc)
    ensures var x, at := st.waiters[w], Goto(st, w, ScanPc(st.waiters[w].pc, i, found));
            Turn(w)(at)
            == if i < x.limit then Goto(st, w, ScanPc(x.pc, i + 1, found + Matches(x.fds, st.socks[i], i)))
               else Goto(st, w, AfterScan(x, found))
  {
    var at := Goto(st, w, ScanPc(st.waiters[w].pc, i, found));
    assert Shape(at);
    assert at.waiters[w := st.waiters[w]] == st.waiters;
  }

  ghost function ScanAt(st: State, w: nat): (nat, nat) -> State
    requires w < |st.waiters| && Scans(st.waiters[w].pc)
  {
    (j: nat, m: nat) => Goto(st, w, ScanPc(st.waiters[w].pc, j, m))
  }

  ghost function ScanDone(st: State, w: nat): nat -> State
    requires w < |st.waiters| && Scans(st.waiters[w].pc)
  {
    (m: nat) => Goto(st, w, AfterScan(st.waiters[w], m))
  }

  lemma ScanLoops(st: State, w: nat, i: nat, found: nat)
    requires Shape(st) && w < |st.waiters| && Scans(st.waiters[w].pc)
    ensures Loops(Turn(w), ScanAt(st, w), ScanDone(st, w), st.waiters[w], st.socks, i, found)
  {
    ScanStep(st, w, i, found);
  }

  /** A scan that begins and is left alone finds every watched event that is present, and each once. */
  lemma ScanAlone(st: State, w: nat)
    requires Shape(st) && w < |st.waiters| && Scans(st.waiters[w].pc)
    requires st.waiters[w].pc == ScanPc(st.waiters[w].pc, 0, 0)
    ensures var x := st.waiters[w];
            Alone(st, w, x.limit + 1) == Goto(st, w, AfterScan(x, ReadyCount(x.fds, st.socks, 0, x.limit)))
  {
    forall i: nat, found: nat
      ensures Loops(Turn(w), ScanAt(st, w), ScanDone(st, w), st.waiters[w], st.socks, i, found)
    {
      ScanLoops(st, w, i, found);
    }
    ScanFrom(Turn(w), ScanAt(st, w), ScanDone(st, w), st.waiters[w], st.socks, 0, 0);
    assert ScanAt(st, w)(0, 0) == st;
  }

  /** The scan after the call has been linked: with a watched event present the call goes on to return it,
      and without one it sleeps. */
  lemma RescanDecides(st: State, w: nat)
    requires Shape(st) && w < |st.waiters| && st.waiters[w].pc == Rescanning(0, 0)
    ensures var x := st.waiters[w];
            Alone(st, w, x.limit + 1)
            == Goto(st, w, if ReadyCount(x.fds, st.socks, 0, x.limit) > 0 then Lowering(0, x.limit, Scan) else Blocked)
  {
    ScanAlone(st, w);
  }

  /** The same events are present, and the call of `w` has the same arguments. */
  predicate SameEvents(a: State, b: State, w: nat) {
    && |a.socks| == |b.socks| && w < |a.waiters| == |b.waiters|
    && a.waiters[w].fds == b.waiters[w].fds && a.waiters[w].limit == b.waiters[w].limit
    && forall s :: 0 <= s < |a.socks| ==> b.socks[s] == a.socks[s].(waiting := b.socks[s].waiting)
  }

  lemma SameReadyCount(a: State, b: State, w: nat)
    requires SameEvents(a, b, w) && a.waiters[w].limit <= |a.socks|
    ensures var x := a.waiters[w];
            ReadyCount(x.fds, b.socks, 0, x.limit) == ReadyCount(x.fds, a.socks, 0, x.limit)
  {
    var x := a.waiters[w];
    assert ReadySet(x.fds, b.socks, Read, 0, x.limit) == ReadySet(x.fds, a.socks, Read, 0, x.limit);
    assert ReadySet(x.fds, b.socks, Write, 0, x.limit) == ReadySet(x.fds, a.socks, Write, 0, x.limit);
    assert ReadySet(x.fds, b.socks, Except, 0, x.limit) == ReadySet(x.fds, a.socks, Except, 0, x.limit);
  }

  lemma LowerStep(st: State, w: nat)
    requires Shape(st) && w < |st.waiters| && st.waiters[w].pc.Lowering?
    requires st.waiters[w].pc.i < st.waiters[w].pc.until <= st.waiters[w].limit
    ensures var next, pc := Turn(w)(st), st.waiters[w].pc;
            Shape(next) && SameEvents(st, next, w) && next.waiters[w].pc == Lowering(pc.i + 1, pc.until, pc.outcome)
  {
  }

  lemma {:induction false} LowerAlone(st: State, w: nat)
    requires Shape(st) && w < |st.waiters| && st.waiters[w].pc.Lowering?
    requires st.waiters[w].pc.i <= st.waiters[w].pc.until <= st.waiters[w].limit
    ensures var pc := st.waiters[w].pc;
            var r := Alone(st, w, pc.until - pc.i + 1);
            Shape(r) && SameEvents(st, r, w) && r.waiters[w].pc == Unlinking(pc.outcome)
    decreases st.waiters[w].pc.until - st.waiters[w].pc.i
  {
    var pc := st.waiters[w].pc;
    var next := Turn(w)(st);
    if pc.i < pc.until {
      LowerStep(st, w);
      LowerAlone(next, w);
    } else {
      assert Times(Turn(w), next, 0) == next;
    }
  }

  /** Lowering, unlinking and, for a call that was woken, the last scan. */
  function StepsToReturn(limit: nat, pc: Pc): nat
    requires pc.Lowering? && pc.i == 0
  {
    pc.until + 2 + if pc.outcome.Scan? then limit + 1 else 0
  }

  /** A call that has waited and runs on alone returns 0 after its time is over, -1 if a counter was full,
      and otherwise the number of watched events that are present. */
  lemma CallReturns(st: State, w: nat)
    requires Shape(st) && w < |st.waiters| && st.waiters[w].pc.Lowering? && st.waiters[w].pc.i == 0
    requires st.waiters[w].pc.until <= st.waiters[w].limit
    ensures var x := st.waiters[w];
            var r := Alone(st, w, StepsToReturn(x.limit, x.pc));
            && w < |r.waiters|
            && r.waiters[w].pc == Returned(match x.pc.outcome
                                           case Scan => ReadyCount(x.fds, st.socks, 0, x.limit)
                                           case TimedOut => 0
                                           case Aborted => -1)
  {
    var x := st.waiters[w];
    var r := LoweredThen(st, w, 1 + if x.pc.outcome.Scan? then x.limit + 1 else 0);
    UnlinkedReturns(r, w);
    SameReadyCount(st, r, w);
  }

  lemma LoweredThen(st: State, w: nat, m: nat) returns (r: State)
    requires Shape(st) && w < |st.waiters| && st.waiters[w].pc.Lowering? && st.waiters[w].pc.i == 0
    requires st.waiters[w].pc.until <= st.waiters[w].limit
    ensures Shape(r) && SameEvents(st, r, w) && r.waiters[w].pc == Unlinking(st.waiters[w].pc.outcome)
    ensures Alone(st, w, st.waiters[w].pc.until + 1 + m) == Alone(r, w, m)
  {
    var n := st.waiters[w].pc.until + 1;
    LowerAlone(st, w);
    AloneAdd(st, w, n, m);
    r := Alone(st, w, n);
  }

  lemma AloneAdd(st: State, w: nat, a: nat, b: nat)
    ensures Alone(st, w, a + b) == Alone(Alone(st, w, a), w, b)
  {
    TimesAdd(Turn(w), st, a, b);
  }

  lemma UnlinkedReturns(st: State, w: nat)
    requires Shape(st) && w < |st.waiters| && st.waiters[w].pc.Unlinking?
    ensures var x := st.waiters[w];
            var r := Alone(st, w, 1 + if x.pc.outcome.Scan? then x.limit + 1 else 0);
            && w < |r.waiters|
            && r.waiters[w].pc == Returned(match x.pc.outcome
                                           case Scan => ReadyCount(x.fds, st.socks, 0, x.limit)
                                           case TimedOut => 0
                                           case Aborted => -1)
  {
    var x := st.waiters[w];
    var next := Turn(w)(st);
    UnlinkTurn(st, w);
    TimesAdd(Turn(w), st, 1, if x.pc.outcome.Scan? then x.limit + 1 else 0);
    assert Times(Turn(w), next, 0) == next;
    if x.pc.outcome.Scan? {
      ScanAlone(next, w);
    }
  }

  lemma {:induction false} RemovedFrom(list: seq<nat>, w: nat)
    ensures forall p :: 0 <= p < |Remove(list, w)| ==> Remove(list, w)[p] in list
  {
    forall p | 0 <= p < |Remove(list, w)|
      ensures Remove(list, w)[p] in list
    {
      RemoveMembers(list, w, Remove(list, w)[p]);
    }
  }

  lemma UnlinkTurn(st: State, w: nat)
    requires Shape(st) && w < |st.waiters| && st.waiters[w].pc.Unlinking?
    ensures var x, next := st.waiters[w], Turn(w)(st);
            && Shape(next) && next.socks == st.socks && w < |next.waiters|
            && next.waiters[w] == x.(pc := match x.pc.outcome
                                           case Scan => LastScan(0, 0)
                                           case TimedOut => Returned(0)
                                           case Aborted => Returned(-1))
  {
    RemovedFrom(st.list, w);
  }

  /** A call with too many sockets returns -1. Any other looks at them first, and returns at once if a
      watched event is present or it must not wait. */
  lemma CallBegins(st: State, w: nat, fds: FdSets, limit: int, noWait: bool)
    requires Inv(st) && Enabled(st, Begin(w, fds, limit, noWait))
    ensures var next := Step(st, Begin(w, fds, limit, noWait));
            if 0 <= limit <= |st.socks| then
              var n := ReadyCount(fds, st.socks, 0, limit);
              Alone(next, w, limit + 1) == Goto(next, w, if n > 0 || noWait then Returned(n) else Linking)
            else next.waiters[w].pc == Returned(-1)
  {
    if 0 <= limit <= |st.socks| {
      ScanAlone(Step(st, Begin(w, fds, limit, noWait)), w);
    }
  }

  /** A sleeping call that is woken returns the number of watched events that are present, and one whose
      time is over returns 0, when nothing comes in between. */
  lemma SleeperReturns(st: State, w: nat)
    requires Inv(st) && w < |st.waiters| && st.waiters[w].pc.Blocked?
    ensures var r := Alone(Step(st, Expire(w)), w, st.waiters[w].limit + 2);
            w < |r.waiters| && r.waiters[w].pc == Returned(0)
    ensures var x := st.waiters[w];
            x.tokens > 0 ==>
              var r := Alone(Step(st, Wake(w)), w, 2 * x.limit + 3);
              w < |r.waiters| && r.waiters[w].pc == Returned(ReadyCount(x.fds, st.socks, 0, x.limit))
  {
    CallReturns(Step(st, Expire(w)), w);
    if st.waiters[w].tokens > 0 {
      CallReturns(Step(st, Wake(w)), w);
    }
  }

  /** A call that meets a full counter takes back what it has raised and returns -1. */
  lemma FullCounterAborts(st: State, w: nat, i: nat)
    requires Inv(st) && w < |st.waiters| && st.waiters[w].pc == Raising(i) && i < st.waiters[w].limit
    requires Watched(st.waiters[w].fds, i) && st.socks[i].waiting == 255
    ensures var r := Alone(AdvanceStep(st, w), w, i + 2);
            w < |r.waiters| && r.waiters[w].pc == Returned(-1)
  {
    CallReturns(AdvanceStep(st, w), w);
  }

  /** Below 255 the counter of a watched socket is raised, and nothing else but the place of the call
      changes. */
  lemma CounterIsRaised(st: State, w: nat, i: nat)
    requires Inv(st) && w < |st.waiters| && st.waiters[w].pc == Raising(i) && i < st.waiters[w].limit
    requires Watched(st.waiters[w].fds, i) && st.socks[i].waiting < 255
    ensures var sock := st.socks[i].(waiting := st.socks[i].waiting + 1);
            AdvanceStep(st, w) == Goto(st, w, Raising(i + 1)).(socks := st.socks[i := sock])
  {
  }
}
