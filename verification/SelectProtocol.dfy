/** The wake-up protocol between lwip_select, event_callback and select_check_waiters, as a state machine
    whose steps are the regions that the source runs under SYS_ARCH_PROTECT. */
module SelectProtocol {

  // ---------------------------------------------------------------------------
  // Sockets
  // ---------------------------------------------------------------------------

  datatype Kind = Read | Write | Except

  /** The three sets of a call; a null pointer is an empty set. */
  datatype FdSets = FdSets(read: set<nat>, write: set<nat>, except: set<nat>)

  predicate Watches(f: FdSets, s: nat, k: Kind) {
    match k
    case Read => s in f.read
    case Write => s in f.write
    case Except => s in f.except
  }

  predicate Watched(f: FdSets, s: nat) {
    s in f.read || s in f.write || s in f.except
  }

  datatype Sock = Sock(lastdata: bool, rcvevent: int, sendevent: bool, errevent: bool, waiting: nat)

  predicate Ready(sock: Sock, k: Kind) {
    match k
    case Read => sock.lastdata || sock.rcvevent > 0
    case Write => sock.sendevent
    case Except => sock.errevent
  }

  /** How many of the watched events of socket `s` are present. */
  function Matches(f: FdSets, sock: Sock, s: nat): nat {
    (if s in f.read && Ready(sock, Read) then 1 else 0)
    + (if s in f.write && Ready(sock, Write) then 1 else 0)
    + (if s in f.except && Ready(sock, Except) then 1 else 0)
  }

  datatype Event = RcvPlus | RcvMinus | SendPlus | SendMinus | Error

  const S16_MAX := 32767
  const S16_MIN := -32768

  /** The counters after an event; rcvevent is a 16-bit number. */
  function Updated(sock: Sock, e: Event): Sock {
    match e
    case RcvPlus => sock.(rcvevent := if sock.rcvevent == S16_MAX then S16_MIN else sock.rcvevent + 1)
    case RcvMinus => sock.(rcvevent := if sock.rcvevent == S16_MIN then S16_MAX else sock.rcvevent - 1)
    case SendPlus => sock.(sendevent := true)
    case SendMinus => sock.(sendevent := false)
    case Error => sock.(errevent := true)
  }

  /** Whether the event makes the callback look for waiters. */
  predicate ChecksWaiters(sock: Sock, e: Event) {
    match e
    case RcvPlus => Updated(sock, RcvPlus).rcvevent <= 1
    case RcvMinus => false
    case SendPlus => !sock.sendevent
    case SendMinus => false
    case Error => true
  }

  // ---------------------------------------------------------------------------
  // Threads
  // ---------------------------------------------------------------------------

  /** What is left of a call after it has been taken off the socket counters. */
  datatype Outcome = Scan | TimedOut | Aborted

  /** Where a call to lwip_select stands; an index is the next socket of the loop. */
  datatype Pc =
    | FirstScan(i: nat, found: nat)
    | Linking
    | Raising(i: nat)
    | Rescanning(i: nat, found: nat)
    | Blocked
    | Lowering(i: nat, until: nat, outcome: Outcome)
    | Unlinking(outcome: Outcome)
    | LastScan(i: nat, found: nat)
    | Returned(result: int)

  datatype Waiter = Waiter(pc: Pc, fds: FdSets, limit: nat, noWait: bool, signalled: bool, tokens: nat)

  /** A pass of select_check_waiters: `at` is the entry looked at last, `pos` where it was in the list,
      and `seen` the generation of the list at that moment, -1 before the first look. */
  datatype Walker = Walker(sock: nat, read: bool, write: bool, except: bool, seen: int, pos: nat, at: nat, active: bool)

  predicate Carries(x: Walker, k: Kind) {
    match k
    case Read => x.read
    case Write => x.write
    case Except => x.except
  }

  /** `list` is select_cb_list from its head, `ctr` its generation counter. */
  datatype State = State(socks: seq<Sock>, waiters: seq<Waiter>, list: seq<nat>, ctr: nat, walkers: seq<Walker>)

  datatype Action =
    | Begin(w: nat, fds: FdSets, limit: int, noWait: bool)
    | Advance(w: nat)
    | Wake(w: nat)
    | Expire(w: nat)
    | Notify(s: nat, e: Event)
    | Walk(j: nat)

  const SELWAIT_MAX := 255

  // ---------------------------------------------------------------------------
  // Steps
  // ---------------------------------------------------------------------------

  predicate Shape(st: State) {
    && (forall w :: 0 <= w < |st.waiters| ==> st.waiters[w].limit <= |st.socks|)
    && (forall p :: 0 <= p < |st.list| ==> st.list[p] < |st.waiters|)
  }

  /** Sockets stay open, and no more data is taken from one than its counter can count. */
  predicate Enabled(st: State, a: Action) {
    match a
    case Begin(w, fds, limit, noWait) => w < |st.waiters| && st.waiters[w].pc.Returned?
    case Advance(w) => w < |st.waiters| && !st.waiters[w].pc.Returned? && !st.waiters[w].pc.Blocked?
    case Wake(w) => w < |st.waiters| && st.waiters[w].pc.Blocked? && st.waiters[w].tokens > 0
    case Expire(w) => w < |st.waiters| && st.waiters[w].pc.Blocked?
    case Notify(s, e) => s < |st.socks| && (e.RcvMinus? ==> st.socks[s].rcvevent > S16_MIN)
    case Walk(j) => j < |st.walkers| && st.walkers[j].active
  }

  function Goto(st: State, w: nat, pc: Pc): State
    requires w < |st.waiters|
  {
    st.(waiters := st.waiters[w := st.waiters[w].(pc := pc)])
  }

  function Remove<T(==)>(s: seq<T>, x: T): seq<T> {
    if s == [] then [] else (if s[0] == x then [] else [s[0]]) + Remove(s[1..], x)
  }

  function Link(st: State, w: nat): State
    requires w < |st.waiters|
  {
    st.(waiters := st.waiters[w := st.waiters[w].(pc := Raising(0), signalled := false, tokens := 0)],
        list := [w] + st.list, ctr := st.ctr + 1)
  }

  function Unlink(st: State, w: nat, outcome: Outcome): State
    requires w < |st.waiters|
  {
    var pc := match outcome
              case Scan => LastScan(0, 0)
              case TimedOut => Returned(0)
              case Aborted => Returned(-1);
    Goto(st, w, pc).(list := Remove(st.list, w), ctr := st.ctr + 1)
  }

  function SetWaiting(st: State, s: nat, n: nat): State
    requires s < |st.socks|
  {
    st.(socks := st.socks[s := st.socks[s].(waiting := n)])
  }

  /** One turn of the loop that counts the caller at its sockets; a full counter aborts the call. */
  function Raise(st: State, w: nat, i: nat): State
    requires w < |st.waiters| && i < |st.socks|
  {
    if !Watched(st.waiters[w].fds, i) then Goto(st, w, Raising(i + 1))
    else if st.socks[i].waiting == SELWAIT_MAX then Goto(st, w, Lowering(0, i, Aborted))
    else Goto(SetWaiting(st, i, st.socks[i].waiting + 1), w, Raising(i + 1))
  }

  function Lower(st: State, w: nat, i: nat, until: nat, outcome: Outcome): State
    requires w < |st.waiters| && i < |st.socks|
  {
    var next := Goto(st, w, Lowering(i + 1, until, outcome));
    if Watched(st.waiters[w].fds, i) && st.socks[i].waiting > 0
    then SetWaiting(next, i, st.socks[i].waiting - 1) else next
  }

  /** The next region of the call that thread `w` is in. */
  function AdvanceStep(st: State, w: nat): State
    requires Shape(st) && w < |st.waiters|
  {
    var x := st.waiters[w];
    match x.pc
    case FirstScan(i, found) =>
      if i < x.limit then Goto(st, w, FirstScan(i + 1, found + Matches(x.fds, st.socks[i], i)))
      else if found > 0 || x.noWait then Goto(st, w, Returned(found))
      else Goto(st, w, Linking)
    case Linking => Link(st, w)
    case Raising(i) =>
      if i < x.limit then Raise(st, w, i) else Goto(st, w, Rescanning(0, 0))
    case Rescanning(i, found) =>
      if i < x.limit then Goto(st, w, Rescanning(i + 1, found + Matches(x.fds, st.socks[i], i)))
      else if found > 0 then Goto(st, w, Lowering(0, x.limit, Scan))
      else Goto(st, w, Blocked)
    case Blocked => st
    case Lowering(i, until, outcome) =>
      if i < until && i < |st.socks| then Lower(st, w, i, until, outcome) else Goto(st, w, Unlinking(outcome))
    case Unlinking(outcome) => Unlink(st, w, outcome)
    case LastScan(i, found) =>
      if i < x.limit then Goto(st, w, LastScan(i + 1, found + Matches(x.fds, st.socks[i], i)))
      else Goto(st, w, Returned(found))
    case Returned(_) => st
  }

  /** Whether a pass wakes the owner of an entry; the highest socket of the call is not consulted. */
  predicate Hits(x: Walker, f: FdSets) {
    (x.read && x.sock in f.read) || (x.write && x.sock in f.write) || (x.except && x.sock in f.except)
  }

  /** One turn of the list walk: start again if the list has changed, else go to the next entry. */
  function WalkStep(st: State, j: nat): State
    requires Shape(st) && j < |st.walkers|
  {
    var x := st.walkers[j];
    var p := if x.seen != st.ctr then 0 else x.pos + 1;
    if p >= |st.list| then st.(walkers := st.walkers[j := x.(active := false)])
    else
      var w := st.list[p];
      var next := st.(walkers := st.walkers[j := x.(seen := st.ctr, pos := p, at := w)]);
      if !st.waiters[w].signalled && Hits(x, st.waiters[w].fds)
      then next.(waiters := st.waiters[w := st.waiters[w].(signalled := true, tokens := st.waiters[w].tokens + 1)])
      else next
  }

  function NewWalker(sock: Sock, s: nat): Walker {
    Walker(s, sock.rcvevent > 0, sock.sendevent, sock.errevent, -1, 0, 0, true)
  }

  function NotifyStep(st: State, s: nat, e: Event): State
    requires s < |st.socks|
  {
    var sock := Updated(st.socks[s], e);
    var next := st.(socks := st.socks[s := sock]);
    if sock.waiting > 0 && ChecksWaiters(st.socks[s], e)
    then next.(walkers := st.walkers + [NewWalker(sock, s)]) else next
  }

  function Step(st: State, a: Action): State
    requires Shape(st) && Enabled(st, a)
  {
    match a
    case Begin(w, fds, limit, noWait) =>
      if limit < 0 || limit > |st.socks| then Goto(st, w, Returned(-1))
      else st.(waiters := st.waiters[w := Waiter(FirstScan(0, 0), fds, limit, noWait, false, 0)])
    case Advance(w) => AdvanceStep(st, w)
    case Wake(w) =>
      var x := st.waiters[w];
      st.(waiters := st.waiters[w := x.(pc := Lowering(0, x.limit, Scan), tokens := x.tokens - 1)])
    case Expire(w) => Goto(st, w, Lowering(0, st.waiters[w].limit, TimedOut))
    case Notify(s, e) => NotifyStep(st, s, e)
    case Walk(j) => WalkStep(st, j)
  }

  // ---------------------------------------------------------------------------
  // Invariant
  // ---------------------------------------------------------------------------

  predicate Linked(x: Waiter) {
    x.pc.Raising? || x.pc.Rescanning? || x.pc.Blocked? || x.pc.Lowering? || x.pc.Unlinking?
  }

  /** Whether the call is at the moment counted in select_waiting of socket `s`. */
  predicate Counted(x: Waiter, s: nat) {
    Watched(x.fds, s) &&
    match x.pc
    case Raising(i) => s < i && s < x.limit
    case Rescanning(_, _) => s < x.limit
    case Blocked => s < x.limit
    case Lowering(i, until, _) => i <= s < until
    case _ => false
  }

  /** How many of the first `n` threads are counted at socket `s`. */
  function CountTo(ws: seq<Waiter>, s: nat, n: nat): nat
    requires n <= |ws|
  {
    if n == 0 then 0 else CountTo(ws, s, n - 1) + if Counted(ws[n - 1], s) then 1 else 0
  }

  /** The call has looked at socket `s` for the last time before it waits, and saw nothing so far. */
  predicate Relies(x: Waiter, s: nat) {
    s < x.limit &&
    match x.pc
    case Rescanning(i, found) => found == 0 && s < i
    case Blocked => true
    case _ => false
  }

  predicate Visits(x: Walker, list: seq<nat>, ctr: nat, w: nat) {
    x.active && (x.seen != ctr || exists q :: x.pos < q < |list| && list[q] == w)
  }

  /** Some pass about this event will still come to the entry of thread `w`. */
  predicate Coming(st: State, w: nat, s: nat, k: Kind) {
    exists j :: 0 <= j < |st.walkers| && st.walkers[j].sock == s && Carries(st.walkers[j], k)
                && Visits(st.walkers[j], st.list, st.ctr, w)
  }

  predicate ListOk(st: State) {
    && (forall p, q :: 0 <= p < q < |st.list| ==> st.list[p] != st.list[q])
    && (forall w :: 0 <= w < |st.waiters| ==> (w in st.list <==> Linked(st.waiters[w])))
  }

  predicate PcOk(x: Waiter) {
    && (x.pc.Raising? ==> x.pc.i <= x.limit)
    && (x.pc.Lowering? ==> x.pc.until <= x.limit)
    && (Linked(x) ==> x.tokens <= (if x.signalled then 1 else 0))
    && (x.pc.Raising? || x.pc.Rescanning? || x.pc.Blocked? ==> x.tokens == (if x.signalled then 1 else 0))
  }

  predicate PcsOk(st: State) {
    forall w :: 0 <= w < |st.waiters| ==> PcOk(st.waiters[w])
  }

  predicate SocksOk(st: State) {
    forall s :: 0 <= s < |st.socks| ==>
      !st.socks[s].lastdata && st.socks[s].waiting <= SELWAIT_MAX
  }

  predicate CountsOk(st: State) {
    forall s :: 0 <= s < |st.socks| ==>
      st.socks[s].waiting == CountTo(st.waiters, s, |st.waiters|)
  }

  predicate WalkerOk(x: Walker, list: seq<nat>, ctr: nat) {
    x.seen <= ctr && (x.active && x.seen == ctr ==> x.pos < |list| && list[x.pos] == x.at)
  }

  predicate WalkersOk(st: State) {
    forall j :: 0 <= j < |st.walkers| ==> WalkerOk(st.walkers[j], st.list, st.ctr)
  }

  predicate WakeOk(st: State) {
    forall w, s, k ::
      0 <= w < |st.waiters| && 0 <= s < |st.socks| && Relies(st.waiters[w], s) && !st.waiters[w].signalled
      && Watches(st.waiters[w].fds, s, k) && Ready(st.socks[s], k)
      ==> Coming(st, w, s, k)
  }

  predicate Inv(st: State) {
    match st
    case State(_, _, _, _, _) =>
      Shape(st) && ListOk(st) && PcsOk(st) && SocksOk(st) && CountsOk(st) && WalkersOk(st) && WakeOk(st)
  }
}
