/** What the callbacks of the DNS client are told, and what a request and an answer leave in the tables. */
module DnsAnswers {
  import opened Words
  import opened CText
  import opened DnsTable
  import opened DnsSafety
  import opened DnsRuns
  import opened DnsRetry

  // ---------------------------------------------------------------------------
  // Which slots are called
  // ---------------------------------------------------------------------------

  /** The slots among the first `n` that wait for entry `idx`. */
  ghost function Waiters(requests: seq<Request>, n: nat, idx: nat): set<nat>
    requires n <= |requests|
  {
    set r: nat | r < n && requests[r].found.Some? && requests[r].tableIdx == idx
  }

  lemma WaitersStep(requests: seq<Request>, n: nat, idx: nat)
    requires n < |requests|
    ensures var here := requests[n].found.Some? && requests[n].tableIdx == idx;
            |Waiters(requests, n + 1, idx)| == |Waiters(requests, n, idx)| + if here then 1 else 0
  {
    var now, next := Waiters(requests, n, idx), Waiters(requests, n + 1, idx);
    assert n !in now;
    if requests[n].found.Some? && requests[n].tableIdx == idx {
      assert next == now + {n};
    } else {
      assert next == now;
    }
  }

  lemma {:induction false} FiredCount(requests: seq<Request>, n: nat, idx: nat, name: seq<u8>, addr: Option<u32>)
    requires n <= |requests|
    ensures |Fired(requests, n, idx, name, addr)| == |Waiters(requests, n, idx)|
    ensures forall k :: 0 <= k < |Fired(requests, n, idx, name, addr)| ==>
              var c := Fired(requests, n, idx, name, addr)[k]; c.name == name && c.addr == addr
  {
    if n == 0 {
      assert Waiters(requests, 0, idx) == {};
    } else {
      WaitersStep(requests, n - 1, idx);
      FiredCount(requests, n - 1, idx, name, addr);
    }
  }

  /** A slot that waits is called after those that wait before it. */
  lemma {:induction false} FiredAt(requests: seq<Request>, n: nat, idx: nat, name: seq<u8>, addr: Option<u32>, r: nat)
    requires r < n <= |requests| && requests[r].found.Some? && requests[r].tableIdx == idx
    ensures var calls, k := Fired(requests, n, idx, name, addr), |Waiters(requests, r, idx)|;
            k < |calls| && calls[k] == Call(requests[r].found.value, name, addr)
  {
    FiredCount(requests, n - 1, idx, name, addr);
    if r < n - 1 {
      FiredAt(requests, n - 1, idx, name, addr, r);
    }
  }

  /** The callbacks that wait for entry `i`, and no others, have been called in slot order with `addr`. */
  ghost predicate CalledWith(d: Dns, i: nat, addr: Option<u32>, calls: seq<Call>)
    requires i < |d.table|
  {
    var n := |d.calls|;
    && |calls| == n + |Waiters(d.requests, |d.requests|, i)| && calls[..n] == d.calls
    && (forall k :: n <= k < |calls| ==> calls[k].name == d.table[i].name && calls[k].addr == addr)
    && forall r: nat :: r in Waiters(d.requests, |d.requests|, i) ==>
         var k := n + |Waiters(d.requests, r, i)|;
         n <= k < |calls| && calls[k] == Call(d.requests[r].found.value, d.table[i].name, addr)
  }

  lemma FiredIsCalledWith(d: Dns, i: nat, addr: Option<u32>)
    requires Shaped(d) && i < TABLE_SIZE
    ensures CalledWith(d, i, addr, d.calls + Fired(d.requests, MAX_REQUESTS, i, d.table[i].name, addr))
  {
    var fired := Fired(d.requests, MAX_REQUESTS, i, d.table[i].name, addr);
    var calls := d.calls + fired;
    FiredCount(d.requests, MAX_REQUESTS, i, d.table[i].name, addr);
    forall r: nat | r in Waiters(d.requests, |d.requests|, i)
      ensures var k := |d.calls| + |Waiters(d.requests, r, i)|;
              k < |calls| && calls[k] == Call(d.requests[r].found.value, d.table[i].name, addr)
    {
      FiredAt(d.requests, MAX_REQUESTS, i, d.table[i].name, addr, r);
    }
  }

  /** The slots of entry `i` are free, and the others are as they were. */
  ghost predicate SlotsFreed(d: Dns, i: nat, requests: seq<Request>) {
    && |requests| == |d.requests|
    && forall r :: 0 <= r < |requests| ==>
         if d.requests[r].found.Some? && d.requests[r].tableIdx == i then requests[r].found.None?
         else requests[r] == d.requests[r]
  }

  // ---------------------------------------------------------------------------
  // An answer
  // ---------------------------------------------------------------------------

  /** The packet is the answer to the pending entry `i`, from the server that was asked. */
  predicate IsFor(d: Dns, i: nat, txid: u16, from: u32) {
    && Shaped(d) && i < |d.table| && d.table[i].state.Asking?
    && d.table[i].txid == txid && d.servers[d.table[i].serverIdx] == from
  }

  /** An address reaches every callback that waits for the query, in slot order, and no other. The entry
      keeps it for its time to live, at most a week, or is free at once if that is 0. */
  lemma AddressReachesCallbacks(d: Dns, i: nat, txid: u16, from: u32, ip: u32, ttl: u32)
    requires Inv(d) && IsFor(d, i, txid, from)
    ensures var d1 := Recv(d, txid, from, Address(ip, ttl));
            && CalledWith(d, i, Some(ip), d1.calls) && SlotsFreed(d, i, d1.requests)
            && |d1.table| == TABLE_SIZE && d1.table == d.table[i := d1.table[i]]
            && d1.table[i].state == (if ttl == 0 then Unused else Done)
            && d1.table[i].ipaddr == ip && d1.table[i].name == d.table[i].name
            && d1.table[i].ttl == (if ttl > 604800 then 604800 else ttl)
  {
    assert FindTxid(d.table, txid, 0) == i;
    FiredIsCalledWith(d, i, Some(ip));
  }

  lemma GivingUpReachesCallbacks(d: Dns, i: nat)
    requires Shaped(d) && i < TABLE_SIZE
    ensures var d1 := GiveUp(d, i);
            && CalledWith(d, i, None, d1.calls) && SlotsFreed(d, i, d1.requests)
            && |d1.table| == TABLE_SIZE && d1.table == d.table[i := d1.table[i]] && d1.table[i].state.Unused?
  {
    FiredIsCalledWith(d, i, None);
  }

  /** A refusal without another server, and a reply without an address, reach them as no address. */
  lemma RefusalReachesCallbacks(d: Dns, i: nat, txid: u16, from: u32, verdict: Verdict)
    requires Inv(d) && IsFor(d, i, txid, from)
    requires verdict.NoAddress? || (verdict.ServerError? && (d.table[i].serverIdx == 1 || d.servers[1] == ANY))
    ensures var d1 := Recv(d, txid, from, verdict);
            && CalledWith(d, i, None, d1.calls) && SlotsFreed(d, i, d1.requests)
            && |d1.table| == TABLE_SIZE && d1.table == d.table[i := d1.table[i]] && d1.table[i].state.Unused?
  {
    assert FindTxid(d.table, txid, 0) == i;
    assert Recv(d, txid, from, verdict) == GiveUp(d, i);
    GivingUpReachesCallbacks(d, i);
  }

  /** A packet that answers no pending query, or that is not fit, changes nothing. */
  lemma StrangersAreIgnored(d: Dns, txid: u16, from: u32, verdict: Verdict)
    requires Inv(d)
    requires verdict.Ignored? || forall i: nat :: !IsFor(d, i, txid, from)
    ensures Recv(d, txid, from, verdict) == d
  {
    var i := FindTxid(d.table, txid, 0);
    assert i < TABLE_SIZE && d.servers[d.table[i].serverIdx] == from ==> IsFor(d, i, txid, from);
  }

  // ---------------------------------------------------------------------------
  // Where addresses come from
  // ---------------------------------------------------------------------------

  /** Calls are only added, and the new ones report no address. */
  ghost predicate AddsNone(before: seq<Call>, after: seq<Call>) {
    && |before| <= |after| && after[..|before|] == before
    && forall k :: |before| <= k < |after| ==> after[k].addr == None
  }

  lemma AddsNoneTwice(a: seq<Call>, b: seq<Call>, c: seq<Call>)
    requires AddsNone(a, b) && AddsNone(b, c)
    ensures AddsNone(a, c)
  {
    assert c[..|a|] == c[..|b|][..|a|];
  }

  lemma CheckAddsNone(d: Dns, i: nat, txid: u16)
    requires Inv(d) && i < TABLE_SIZE
    ensures EntryOk(d.table[i], d.pcbs) && AddsNone(d.calls, CheckEntry(d, i, txid).calls)
  {
    EntryFacts(d, i);
    FiredCount(d.requests, MAX_REQUESTS, i, d.table[i].name, None);
  }

  lemma TickStepAddsNone(d: Dns, n: nat)
    requires Inv(d) && n < TABLE_SIZE
    ensures AddsNone(Tick(d, n).calls, Tick(d, n + 1).calls)
  {
    CheckAddsNone(Tick(d, n), n, 0);
  }

  lemma {:induction false} TickAddsNone(d: Dns, n: nat)
    requires Inv(d) && n <= TABLE_SIZE
    ensures AddsNone(d.calls, Tick(d, n).calls)
  {
    if n > 0 {
      TickAddsNone(d, n - 1);
      TickStepAddsNone(d, n - 1);
      AddsNoneTwice(d.calls, Tick(d, n - 1).calls, Tick(d, n).calls);
    }
  }

  lemma SendAddsNone(d: Dns, i: nat)
    requires Shaped(d) && i < TABLE_SIZE && d.table[i].serverIdx < MAX_SERVERS
    ensures AddsNone(d.calls, Send(d, i).calls)
  {
    FiredCount(d.requests, MAX_REQUESTS, i, d.table[i].name, None);
  }

  lemma RequestAddsNone(d: Dns, name: seq<u8>, wanted: bool, canOpen: bool, txid: u16)
    requires Inv(d)
    ensures AddsNone(d.calls, Enqueue(d, name, wanted, canOpen, txid).0.calls)
  {
    var i, r := FreeEntry(d.table, d.seqno, 0, 0, TABLE_SIZE), FreeSlot(d.requests, 0);
    var (pcbs, pcb) := AllocPcb(d.pcbs, d.lastPcb, canOpen);
    if i < TABLE_SIZE && r < MAX_REQUESTS && pcb < MAX_SOURCE_PORTS {
      OccupyStarts(d, i, r, name, wanted, canOpen, txid);
      SendAddsNone(StartedTables(d, i, r, name, wanted, pcbs, pcb, txid), i);
    }
  }

  lemma RefusalAddsNone(d: Dns, txid: u16, from: u32, verdict: Verdict)
    requires Inv(d) && !verdict.Address?
    ensures AddsNone(d.calls, Recv(d, txid, from, verdict).calls)
  {
    var i := FindTxid(d.table, txid, 0);
    if i < TABLE_SIZE && !verdict.Ignored? && from == d.servers[d.table[i].serverIdx] {
      var e := d.table[i].(retries := MAX_RETRIES - 1, tmr := 1);
      EntryFacts(d, i);
      RetimingKeepsInv(d, i, e);
      CheckAddsNone(SetEntry(d, i, e), i, 0);
      FiredCount(d.requests, MAX_REQUESTS, i, d.table[i].name, None);
    }
  }

  /** The event brings the address `ip` for a pending query of this name, from the server that was asked. */
  ghost predicate Brings(d: Dns, ev: Event, name: seq<u8>, ip: u32) {
    && ev.Packet? && ev.verdict.Address? && ev.verdict.ipaddr == ip
    && exists i: nat :: IsFor(d, i, ev.txid, ev.from) && d.table[i].name == name
  }

  /** Such an event is among `evs`. */
  ghost predicate Brought(d: Dns, evs: seq<Event>, name: seq<u8>, ip: u32)
    requires Inv(d) && LegalRun(d, evs)
    decreases |evs|
  {
    |evs| > 0 && (Brings(d, evs[0], name, ip) || Brought(Step(d, evs[0]), evs[1..], name, ip))
  }

  lemma StepAdds(d: Dns, ev: Event)
    requires Inv(d) && Legal(d, ev)
    ensures var before, after := d.calls, Step(d, ev).calls;
            && |before| <= |after| && after[..|before|] == before
            && forall k :: |before| <= k < |after| && after[k].addr.Some? ==>
                 Brings(d, ev, after[k].name, after[k].addr.value)
  {
    match ev
    case TimerTick => TickAddsNone(d, TABLE_SIZE);
    case Packet(txid, from, verdict) =>
      var i := FindTxid(d.table, txid, 0);
      if verdict.Address? && i < TABLE_SIZE && from == d.servers[d.table[i].serverIdx] {
        assert IsFor(d, i, txid, from);
        AddressReachesCallbacks(d, i, txid, from, verdict.ipaddr, verdict.ttl);
      } else if !verdict.Address? {
        RefusalAddsNone(d, txid, from, verdict);
      }
    case Ask(name, wanted, canOpen, txid) => RequestAddsNone(d, name, wanted, canOpen, txid);
    case SetServer(_, _) =>
  }

  lemma {:induction false} RunAdds(d: Dns, evs: seq<Event>)
    requires Inv(d) && LegalRun(d, evs)
    ensures var before, after := d.calls, Run(d, evs).calls;
            && |before| <= |after| && after[..|before|] == before
            && forall k :: |before| <= k < |after| && after[k].addr.Some? ==>
                 Brought(d, evs, after[k].name, after[k].addr.value)
    decreases |evs|
  {
    if |evs| > 0 {
      var d1 := Step(d, evs[0]);
      StepAdds(d, evs[0]);
      RunAdds(d1, evs[1..]);
      var calls := Run(d, evs).calls;
      assert calls[..|d.calls|] == calls[..|d1.calls|][..|d.calls|];
      forall k | |d.calls| <= k < |calls| && calls[k].addr.Some?
        ensures Brought(d, evs, calls[k].name, calls[k].addr.value)
      {
        assert k < |d1.calls| ==> calls[k] == d1.calls[k];
      }
    }
  }

  /** In every run from the start a callback is told an address only if the server that was asked for its
      name sent that address. */
  lemma AddressesComeFromServers(servers: seq<u32>, evs: seq<Event>, k: nat)
    requires |servers| == MAX_SERVERS && Inv(Initial(servers)) && LegalRun(Initial(servers), evs)
    requires k < |Run(Initial(servers), evs).calls| && Run(Initial(servers), evs).calls[k].addr.Some?
    ensures var c := Run(Initial(servers), evs).calls[k];
            Brought(Initial(servers), evs, c.name, c.addr.value)
  {
    RunAdds(Initial(servers), evs);
  }

  lemma {:induction false} CalledTwice(calls: seq<Call>, n: nat, t: nat, k: nat)
    requires k < n <= |calls| && calls[k].ticket == t
    ensures CallsOf(calls, n, t) >= 1
    ensures forall q :: 0 <= q < n && q != k && calls[q].ticket == t ==> CallsOf(calls, n, t) >= 2
    decreases n
  {
    if k < n - 1 {
      CalledTwice(calls, n - 1, t, k);
    } else {
      forall q | 0 <= q < n - 1 && calls[q].ticket == t
        ensures CallsOf(calls, n - 1, t) >= 1
      {
        CalledTwice(calls, n - 1, t, q);
      }
    }
  }

  /** And an address that comes for a waiting callback is what that callback is told, whatever follows. */
  lemma AddressIsDelivered(d: Dns, ev: Event, evs: seq<Event>, i: nat, r: nat)
    requires Inv(d) && Legal(d, ev) && LegalRun(Step(d, ev), evs)
    requires ev.Packet? && ev.verdict.Address? && IsFor(d, i, ev.txid, ev.from)
    requires r < MAX_REQUESTS && d.requests[r].found.Some? && d.requests[r].tableIdx == i
    ensures var calls, c := Run(Step(d, ev), evs).calls,
                            Call(d.requests[r].found.value, d.table[i].name, Some(ev.verdict.ipaddr));
            c in calls && forall k :: 0 <= k < |calls| && calls[k].ticket == c.ticket ==> calls[k] == c
  {
    AddressReachesSlot(d, ev, i, r);
    StaysCalled(Step(d, ev), evs, |d.calls| + |Waiters(d.requests, r, i)|);
  }

  /** A call that has been made stays the only one with its number. */
  lemma StaysCalled(d: Dns, evs: seq<Event>, k: nat)
    requires Inv(d) && LegalRun(d, evs) && k < |d.calls|
    ensures var calls := Run(d, evs).calls;
            && k < |calls| && calls[k] == d.calls[k]
            && forall q :: 0 <= q < |calls| && calls[q].ticket == d.calls[k].ticket ==> calls[q] == d.calls[k]
  {
    RunAdds(d, evs);
    var d1 := Run(d, evs);
    assert d1.calls[..|d.calls|][k] == d1.calls[k];
    OnlyCall(d1, d.calls[k], k);
  }

  lemma AddressReachesSlot(d: Dns, ev: Event, i: nat, r: nat)
    requires Inv(d) && Legal(d, ev)
    requires ev.Packet? && ev.verdict.Address? && IsFor(d, i, ev.txid, ev.from)
    requires r < MAX_REQUESTS && d.requests[r].found.Some? && d.requests[r].tableIdx == i
    ensures var calls, k := Step(d, ev).calls, |d.calls| + |Waiters(d.requests, r, i)|;
            k < |calls| && calls[k] == Call(d.requests[r].found.value, d.table[i].name, Some(ev.verdict.ipaddr))
  {
    AddressReachesCallbacks(d, i, ev.txid, ev.from, ev.verdict.ipaddr, ev.verdict.ttl);
    assert r in Waiters(d.requests, |d.requests|, i);
  }

  lemma OnlyCall(d: Dns, c: Call, k: nat)
    requires Inv(d) && k < |d.calls| && d.calls[k] == c
    ensures forall q :: 0 <= q < |d.calls| && d.calls[q].ticket == c.ticket ==> d.calls[q] == c
  {
    AtMostOnce(d, c.ticket);
    CalledTwice(d.calls, |d.calls|, c.ticket, k);
  }

  lemma AtMostOnce(d: Dns, t: nat)
    requires Inv(d)
    ensures CallsOf(d.calls, |d.calls|, t) <= 1
  {
    assert CallsOf(d.calls, |d.calls|, t) + SlotsOf(d.requests, |d.requests|, t)
        == if t < |d.asked| then 1 else 0;
  }

  // ---------------------------------------------------------------------------
  // How long an answer is kept
  // ---------------------------------------------------------------------------

  /** No request of the run takes entry `i`. */
  ghost predicate NotTaken(d: Dns, i: nat, evs: seq<Event>)
    requires Inv(d) && LegalRun(d, evs)
    decreases |evs|
  {
    |evs| > 0 ==>
      && (evs[0].Ask? ==> FreeEntry(d.table, d.seqno, 0, 0, TABLE_SIZE) != i)
      && NotTaken(Step(d, evs[0]), i, evs[1..])
  }

  /** The entry holds its answer for `ttl` more ticks, or is free once that is 0. */
  ghost predicate Holding(d: Dns, i: nat, e: Entry, ttl: int) {
    match d
    case Dns(table, _, _, _, _, _, _, _) =>
      Inv(d) && i < TABLE_SIZE && ttl < TWO_32 && if ttl > 0 then table[i] == e.(ttl := ttl) else table[i].state.Unused?
  }

  lemma CheckAges(d: Dns, i: nat, e: Entry, ttl: int)
    requires Holding(d, i, e, ttl) && e.state.Done?
    ensures EntryOk(d.table[i], d.pcbs) && Inv(CheckEntry(d, i, 0)) && Holding(CheckEntry(d, i, 0), i, e, ttl - 1)
  {
    CheckEntryKeepsInv(d, i, 0);
  }

  lemma {:induction false} TickAges(d: Dns, n: nat, i: nat, e: Entry, ttl: int)
    requires Holding(d, i, e, ttl) && e.state.Done? && n <= TABLE_SIZE
    ensures Holding(Tick(d, n), i, e, ttl - if i < n then 1 else 0)
  {
    if n > 0 {
      TickAges(d, n - 1, i, e, ttl);
      if n - 1 == i {
        CheckAges(Tick(d, i), i, e, ttl);
      } else {
        TickStepKeepsOthers(d, n - 1, i);
      }
    }
  }

  lemma StepAges(d: Dns, ev: Event, i: nat, e: Entry, ttl: int)
    requires Holding(d, i, e, ttl) && e.state.Done? && Legal(d, ev)
    requires ev.Ask? ==> FreeEntry(d.table, d.seqno, 0, 0, TABLE_SIZE) != i
    ensures Holding(Step(d, ev), i, e, ttl - if ev.TimerTick? then 1 else 0)
  {
    match ev
    case TimerTick => TickAges(d, TABLE_SIZE, i, e, ttl);
    case Packet(txid, from, verdict) => RecvKeepsOthers(d, txid, from, verdict, i);
    case Ask(name, wanted, canOpen, txid) =>
      var k, r := FreeEntry(d.table, d.seqno, 0, 0, TABLE_SIZE), FreeSlot(d.requests, 0);
      if k < TABLE_SIZE && r < MAX_REQUESTS {
        OccupyingKeepsOthers(d, k, r, name, wanted, canOpen, txid, i);
      }
    case SetServer(_, _) =>
  }

  /** In any run a completed entry keeps its answer for exactly its time to live, counted in ticks, unless
      a new query takes the entry. */
  lemma {:induction false} KeptForItsTime(d: Dns, i: nat, e: Entry, ttl: int, evs: seq<Event>)
    requires Holding(d, i, e, ttl) && e.state.Done?
    requires LegalRun(d, evs) && NotTaken(d, i, evs)
    ensures var d1, left := Run(d, evs), ttl - TicksIn(evs);
            if left > 0 then d1.table[i] == e.(ttl := left) else d1.table[i].state.Unused?
    decreases |evs|
  {
    if |evs| > 0 {
      StepAges(d, evs[0], i, e, ttl);
      KeptForItsTime(Step(d, evs[0]), i, e, ttl - if evs[0].TimerTick? then 1 else 0, evs[1..]);
    }
  }

  // ---------------------------------------------------------------------------
  // A request
  // ---------------------------------------------------------------------------

  /** Nobody waits for an entry that is not pending. */
  lemma NobodyWaits(d: Dns, i: nat)
    requires Inv(d) && i < TABLE_SIZE && !d.table[i].state.Asking?
    ensures forall r :: 0 <= r < MAX_REQUESTS ==> !WaitsFor(d.requests[r], i)
  {
    forall r | 0 <= r < MAX_REQUESTS
      ensures !WaitsFor(d.requests[r], i)
    {
      assert SlotOk(d.requests[r], d.table, d.asked);
    }
  }

  /** The one slot that waits is the one that is called. */
  lemma {:induction false} FiresOne(requests: seq<Request>, n: nat, idx: nat, name: seq<u8>, addr: Option<u32>, r: nat)
    requires n <= |requests| && r < |requests|
    requires forall k :: 0 <= k < |requests| && k != r ==> !WaitsFor(requests[k], idx)
    ensures Fired(requests, n, idx, name, addr)
         == if r < n && WaitsFor(requests[r], idx) then [Call(requests[r].found.value, name, addr)] else []
  {
    if n > 0 {
      FiresOne(requests, n - 1, idx, name, addr, r);
    }
  }

  /** Entry `i` is a fresh query for `name`, sent to the first server from port `pcb`. */
  predicate FreshQuery(e: Entry, name: seq<u8>, txid: u16, seqno: u8, pcb: nat) {
    && e.state.Asking? && e.name == name && e.txid == txid && e.seqno == seqno && e.pcbIdx == pcb
    && e.serverIdx == 0 && e.tmr == 1 && e.retries == 0
  }

  lemma RequestIsSent(d: Dns, name: seq<u8>, wanted: bool, canOpen: bool, txid: u16)
    requires Inv(d) && !Joins(d, name) && Starts(d, canOpen)
    ensures var i, r := FreeEntry(d.table, d.seqno, 0, 0, TABLE_SIZE), FreeSlot(d.requests, 0);
            var (pcbs, pcb) := AllocPcb(d.pcbs, d.lastPcb, canOpen);
            && i < TABLE_SIZE && r < MAX_REQUESTS && pcb < MAX_SOURCE_PORTS == |pcbs|
            && Enqueue(d, name, wanted, canOpen, txid).0
               == Send(StartedTables(d, i, r, name, wanted, pcbs, pcb, txid), i)
  {
    TableFullIff(d.table, d.seqno);
    AllocFailsIff(d.pcbs, d.lastPcb, canOpen);
    DuplicateFound(d.table, name, 0);
    var i, r := FreeEntry(d.table, d.seqno, 0, 0, TABLE_SIZE), FreeSlot(d.requests, 0);
    OccupyStarts(d, i, r, name, wanted, canOpen, txid);
  }

  /** Entry `i` is unused again, and slot `r` has been called, if it was wanted, without an address. */
  ghost predicate Refused(d: Dns, d1: Dns, i: nat, r: nat, name: seq<u8>, wanted: bool)
    requires i < |d1.table| && r < |d1.requests|
  {
    && d1.table[i].state.Unused? && FreeSlotAt(d1.requests, r)
    && d1.calls == d.calls + if wanted then [Call(|d.asked|, name, None)] else []
  }

  lemma SentWithoutServer(d: Dns, i: nat, r: nat, name: seq<u8>, wanted: bool, pcbs: seq<bool>, pcb: u8, txid: u16)
    requires Inv(d) && i < TABLE_SIZE && r < MAX_REQUESTS && !d.table[i].state.Asking?
    requires pcb < MAX_SOURCE_PORTS == |pcbs| && d.servers[0] == ANY
    ensures var d1 := Send(StartedTables(d, i, r, name, wanted, pcbs, pcb, txid), i);
            && d1.table == d.table[i := d1.table[i]] && d1.servers == d.servers
            && d1.seqno == (d.seqno + 1) % 256 && Refused(d, d1, i, r, name, wanted)
  {
    NobodyWaits(d, i);
    var d1 := StartedTables(d, i, r, name, wanted, pcbs, pcb, txid);
    FiresOne(d1.requests, MAX_REQUESTS, i, name, None, r);
  }

  lemma SentToServer(d: Dns, i: nat, r: nat, name: seq<u8>, wanted: bool, pcbs: seq<bool>, pcb: u8, txid: u16)
    requires Shaped(d) && i < TABLE_SIZE && r < MAX_REQUESTS
    requires pcb < MAX_SOURCE_PORTS == |pcbs| && d.servers[0] != ANY
    ensures var d1 := Send(StartedTables(d, i, r, name, wanted, pcbs, pcb, txid), i);
            && d1.table == d.table[i := d1.table[i]] && d1.servers == d.servers
            && d1.seqno == (d.seqno + 1) % 256
            && FreshQuery(d1.table[i], name, txid, d.seqno, d1.lastPcb) && d1.calls == d.calls
            && d1.requests == d.requests[r := Request(if wanted then Some(|d.asked|) else None, i)]
  {
  }

  /** A request that starts a query takes an entry, a slot and a port, and one sequence number: slot `r` is
      free, entry `k` is unused or completed and not of age 0, and port `j` is open unless a new one can be
      had. With a server the query is pending; without one the callback is told at once that there is no
      address. */
  lemma RequestStarts(d: Dns, name: seq<u8>, wanted: bool, canOpen: bool, txid: u16, k: nat, r: nat, j: nat)
    requires Inv(d) && k < TABLE_SIZE && r < MAX_REQUESTS && d.requests[r].found.None?
    requires d.table[k].state.Unused? || (d.table[k].state.Done? && d.table[k].seqno != d.seqno)
    requires canOpen || (j < MAX_SOURCE_PORTS && d.pcbs[j])
    requires forall i :: 0 <= i < TABLE_SIZE && d.table[i].state.Asking? ==> !SameText(name, d.table[i].name)
    ensures var d1 := Enqueue(d, name, wanted, canOpen, txid).0;
            var i, s := FreeEntry(d.table, d.seqno, 0, 0, TABLE_SIZE), FreeSlot(d.requests, 0);
            && i < TABLE_SIZE && s < MAX_REQUESTS && d1.table == d.table[i := d1.table[i]]
            && d1.servers == d.servers && d1.seqno == (d.seqno + 1) % 256
            && (if d.servers[0] == 0 then Refused(d, d1, i, s, name, wanted)
                else
                  && FreshQuery(d1.table[i], name, txid, d.seqno, d1.lastPcb) && d1.calls == d.calls
                  && d1.requests == d.requests[s := Request(if wanted then Some(|d.asked|) else None, i)])
  {
    assert FreeSlotAt(d.requests, r) && Takeable(d.table[k], d.seqno);
    forall i | 0 <= i < TABLE_SIZE
      ensures !Duplicate(d.table, i, name)
    {
    }
    RequestIsSent(d, name, wanted, canOpen, txid);
    var i, s := FreeEntry(d.table, d.seqno, 0, 0, TABLE_SIZE), FreeSlot(d.requests, 0);
    var (pcbs, pcb) := AllocPcb(d.pcbs, d.lastPcb, canOpen);
    if d.servers[0] == 0 {
      SentWithoutServer(d, i, s, name, wanted, pcbs, pcb, txid);
    } else {
      SentToServer(d, i, s, name, wanted, pcbs, pcb, txid);
    }
  }

  /** A request for a name that entry `i` is asking for, in any letter case, waits in a free slot for a
      pending query of that name, and changes nothing else. */
  lemma RequestJoins(d: Dns, name: seq<u8>, wanted: bool, canOpen: bool, txid: u16, i: nat, r: nat)
    requires Inv(d) && i < TABLE_SIZE && r < MAX_REQUESTS && d.requests[r].found.None?
    requires d.table[i].state.Asking? && SameText(name, d.table[i].name)
    ensures var (d1, err) := Enqueue(d, name, wanted, canOpen, txid);
            var s := FreeSlot(d.requests, 0);
            && err == InProgress
            && s < MAX_REQUESTS && |d1.requests| == MAX_REQUESTS && d1.requests == d.requests[s := d1.requests[s]]
            && d.requests[s].found.None?
            && d1.requests[s].found == (if wanted then Some(|d.asked|) else None)
            && d1.requests[s].tableIdx < TABLE_SIZE && d1.table[d1.requests[s].tableIdx].state.Asking?
            && SameText(name, d1.table[d1.requests[s].tableIdx].name)
            && d1 == d.(requests := d1.requests, asked := d1.asked)
  {
    assert Duplicate(d.table, i, name) && FreeSlotAt(d.requests, r);
    DuplicateFound(d.table, name, 0);
  }

  /** Where the search for an open port ends: at the first one in ring order. */
  lemma {:induction false} OpenPortIsNext(pcbs: seq<bool>, idx: nat, n: nat)
    requires 0 < |pcbs| && idx <= |pcbs| && n <= |pcbs| && OpenPort(pcbs, idx, n) < |pcbs|
    ensures forall j :: 0 <= j < |pcbs| && pcbs[j] ==>
              PortDist(idx, OpenPort(pcbs, idx, n), |pcbs|) <= PortDist(idx, j, |pcbs|)
    decreases n
  {
    var k := if idx >= |pcbs| then 0 else idx;
    if !pcbs[k] {
      OpenPortIsNext(pcbs, k + 1, n - 1);
      forall j | 0 <= j < |pcbs| && pcbs[j]
        ensures PortDist(idx, OpenPort(pcbs, idx, n), |pcbs|) <= PortDist(idx, j, |pcbs|)
      {
        assert j != k;
        assert PortDist(k + 1, OpenPort(pcbs, idx, n), |pcbs|) <= PortDist(k + 1, j, |pcbs|);
      }
    }
  }

  /** A query gets a port of its own, the first closed one, exactly if one can be opened. Otherwise it
      shares the open port that comes next after the last one handed out. */
  lemma PortChoice(pcbs: seq<bool>, lastPcb: nat, canOpen: bool)
    requires |pcbs| == MAX_SOURCE_PORTS && lastPcb < MAX_SOURCE_PORTS
    ensures var (pcbs1, j) := AllocPcb(pcbs, lastPcb, canOpen);
            j < MAX_SOURCE_PORTS ==>
              && pcbs1 == pcbs[j := true]
              && (!pcbs[j] <==> canOpen && exists k :: 0 <= k < |pcbs| && !pcbs[k])
              && (!pcbs[j] ==> forall k :: 0 <= k < j ==> pcbs[k])
              && (pcbs[j] ==> forall k :: 0 <= k < |pcbs| && pcbs[k] ==>
                                (j - lastPcb - 1) % MAX_SOURCE_PORTS <= (k - lastPcb - 1) % MAX_SOURCE_PORTS)
  {
    var (pcbs1, j) := AllocPcb(pcbs, lastPcb, canOpen);
    if j < MAX_SOURCE_PORTS && pcbs[j] {
      OpenPortIsNext(pcbs, lastPcb + 1, MAX_SOURCE_PORTS);
      forall k | 0 <= k < |pcbs| && pcbs[k]
        ensures (j - lastPcb - 1) % MAX_SOURCE_PORTS <= (k - lastPcb - 1) % MAX_SOURCE_PORTS
      {
        assert PortDist(lastPcb + 1, j, |pcbs|) <= PortDist(lastPcb + 1, k, |pcbs|);
        DistIsModulo(lastPcb, j);
        DistIsModulo(lastPcb, k);
      }
    }
  }

  lemma DistIsModulo(lastPcb: nat, j: nat)
    requires lastPcb < MAX_SOURCE_PORTS && j < MAX_SOURCE_PORTS
    ensures (j - lastPcb - 1) % MAX_SOURCE_PORTS == PortDist(lastPcb + 1, j, MAX_SOURCE_PORTS)
  {
  }
}
