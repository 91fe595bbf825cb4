/** What every step of the DNS client keeps, and what follows for whole runs: each accepted callback
    is called exactly once, ports are open exactly while a query uses them, IDs stay distinct. */
module DnsSafety {
  import opened Words
  import opened CText
  import opened DnsTable

  // ---------------------------------------------------------------------------
  // The invariant
  // ---------------------------------------------------------------------------

  /** How often request `t` occurs among the first `n` calls, and among the first `n` slots. */
  function CallsOf(calls: seq<Call>, n: nat, t: nat): nat
    requires n <= |calls|
  {
    if n == 0 then 0 else CallsOf(calls, n - 1, t) + if calls[n - 1].ticket == t then 1 else 0
  }

  function SlotsOf(requests: seq<Request>, n: nat, t: nat): nat
    requires n <= |requests|
  {
    if n == 0 then 0 else SlotsOf(requests, n - 1, t) + Holds(requests[n - 1], t)
  }

  function Holds(r: Request, t: nat): nat {
    if r.found == Some(t) then 1 else 0
  }

  /** Between steps no entry is new, and a pending one has an open port and a running timer. */
  predicate EntryOk(e: Entry, pcbs: seq<bool>) {
    && !e.state.New?
    && (e.state.Asking? ==>
          && e.pcbIdx < |pcbs| && pcbs[e.pcbIdx]
          && e.retries < MAX_RETRIES && 0 < e.tmr <= (if e.retries == 0 then 1 else e.retries))
  }

  predicate PcbUsed(table: seq<Entry>, j: nat) {
    exists i :: 0 <= i < |table| && Uses(table, i, j)
  }

  /** A waiting slot belongs to a pending query for the name that its callback was requested for. */
  predicate SlotOk(r: Request, table: seq<Entry>, asked: seq<seq<u8>>) {
    r.found.Some? ==>
      && r.tableIdx < |table| && table[r.tableIdx].state.Asking?
      && r.found.value < |asked| && SameText(asked[r.found.value], table[r.tableIdx].name)
  }

  /** A call tells the callback the name that it was requested for, up to case. */
  predicate CallOk(c: Call, asked: seq<seq<u8>>) {
    c.ticket < |asked| && SameText(asked[c.ticket], c.name)
  }

  predicate DistinctTxids(table: seq<Entry>) {
    forall i, k :: 0 <= i < k < |table| && table[i].state.Asking? && table[k].state.Asking? ==>
                     table[i].txid != table[k].txid
  }

  /** Every accepted request either has been called once or holds one slot; no other number does. */
  ghost predicate Conserved(calls: seq<Call>, requests: seq<Request>, tickets: nat) {
    forall t: nat ::
      CallsOf(calls, |calls|, t) + SlotsOf(requests, |requests|, t) == if t < tickets then 1 else 0
  }

  ghost predicate Inv(d: Dns) {
    match d
    case Dns(table, requests, pcbs, _, _, _, calls, asked) =>
      && Shaped(d)
      && (forall i :: 0 <= i < TABLE_SIZE ==> EntryOk(table[i], pcbs))
      && (forall j :: 0 <= j < MAX_SOURCE_PORTS && pcbs[j] ==> PcbUsed(table, j))
      && DistinctTxids(table)
      && (forall r :: 0 <= r < MAX_REQUESTS ==> SlotOk(requests[r], table, asked))
      && (forall k :: 0 <= k < |calls| ==> CallOk(calls[k], asked))
      && Conserved(calls, requests, |asked|)
  }

  /** An ID that no pending query uses. */
  predicate Fresh(table: seq<Entry>, txid: u16) {
    forall i :: 0 <= i < |table| && table[i].state.Asking? ==> table[i].txid != txid
  }

  // ---------------------------------------------------------------------------
  // Conservation of requests
  // ---------------------------------------------------------------------------

  lemma {:induction false} CallsOfPrefix(a: seq<Call>, b: seq<Call>, n: nat, t: nat)
    requires n <= |a|
    ensures CallsOf(a + b, n, t) == CallsOf(a, n, t)
  {
    if n > 0 {
      CallsOfPrefix(a, b, n - 1, t);
    }
  }

  /** dns_call_found turns the slots that wait for an entry into calls, one for one. */
  lemma {:induction false} FiringConserves(before: seq<Call>, requests: seq<Request>, n: nat, idx: nat,
                                           name: seq<u8>, addr: Option<u32>, t: nat)
    requires n <= |requests|
    ensures var calls := before + Fired(requests, n, idx, name, addr);
            CallsOf(calls, |calls|, t) + SlotsOf(Flushed(requests, idx), n, t)
            == CallsOf(before, |before|, t) + SlotsOf(requests, n, t)
  {
    var calls := before + Fired(requests, n, idx, name, addr);
    if n == 0 {
      assert calls == before;
    } else {
      FiringConserves(before, requests, n - 1, idx, name, addr, t);
      var fewer := before + Fired(requests, n - 1, idx, name, addr);
      if WaitsFor(requests[n - 1], idx) {
        var c := Call(requests[n - 1].found.value, name, addr);
        assert calls == fewer + [c];
        CallsOfPrefix(fewer, [c], |fewer|, t);
      }
    }
  }

  /** Filling a free slot adds what is put there. */
  lemma {:induction false} FillingAdds(requests: seq<Request>, r: nat, q: Request, n: nat, t: nat)
    requires r < |requests| && n <= |requests| && requests[r].found.None?
    ensures SlotsOf(requests[r := q], n, t) == SlotsOf(requests, n, t) + if r < n then Holds(q, t) else 0
  {
    if n > 0 {
      FillingAdds(requests, r, q, n - 1, t);
    }
  }

  /** Every callback of an entry is told the name that it was requested for. */
  lemma {:induction false} FiringNames(requests: seq<Request>, n: nat, table: seq<Entry>, asked: seq<seq<u8>>,
                                       idx: nat, addr: Option<u32>)
    requires n <= |requests| && idx < |table|
    requires forall r :: 0 <= r < |requests| ==> SlotOk(requests[r], table, asked)
    ensures forall c :: c in Fired(requests, n, idx, table[idx].name, addr) ==> CallOk(c, asked)
  {
    if n > 0 {
      FiringNames(requests, n - 1, table, asked, idx, addr);
      assert SlotOk(requests[n - 1], table, asked);
    }
  }

  lemma LeavingConserves(calls: seq<Call>, requests: seq<Request>, tickets: nat, i: nat, name: seq<u8>,
                         addr: Option<u32>)
    requires Conserved(calls, requests, tickets)
    ensures Conserved(calls + Fired(requests, |requests|, i, name, addr), Flushed(requests, i), tickets)
  {
    var calls1, requests1 := calls + Fired(requests, |requests|, i, name, addr), Flushed(requests, i);
    forall t: nat
      ensures CallsOf(calls1, |calls1|, t) + SlotsOf(requests1, |requests1|, t) == if t < tickets then 1 else 0
    {
      FiringConserves(calls, requests, |requests|, i, name, addr, t);
    }
  }

  lemma FillingConserves(calls: seq<Call>, requests: seq<Request>, tickets: nat, r: nat, wanted: bool, idx: u8)
    requires Conserved(calls, requests, tickets) && r < |requests| && FreeSlotAt(requests, r)
    ensures Conserved(calls, requests[r := Request(if wanted then Some(tickets) else None, idx)],
                      if wanted then tickets + 1 else tickets)
  {
    var q := Request(if wanted then Some(tickets) else None, idx);
    forall t: nat
      ensures CallsOf(calls, |calls|, t) + SlotsOf(requests[r := q], |requests|, t)
           == if t < (if wanted then tickets + 1 else tickets) then 1 else 0
    {
      FillingAdds(requests, r, q, |requests|, t);
    }
  }

  // ---------------------------------------------------------------------------
  // Leaving the table
  // ---------------------------------------------------------------------------

  /** A pending query that leaves: its callbacks are made, its port is closed unless shared. */
  lemma LeavingKeepsInv(d: Dns, i: nat, addr: Option<u32>, e: Entry)
    requires Inv(d) && i < TABLE_SIZE && d.table[i].state.Asking?
    requires !e.state.Asking? && !e.state.New?
    ensures Inv(CallFound(d, i, addr).(table := d.table[i := e]))
  {
    var d1 := CallFound(d, i, addr).(table := d.table[i := e]);
    var pcb := d.table[i].pcbIdx;
    LeavingConserves(d.calls, d.requests, |d.asked|, i, d.table[i].name, addr);
    FiringNames(d.requests, MAX_REQUESTS, d.table, d.asked, i, addr);
    forall j | 0 <= j < MAX_SOURCE_PORTS && d1.pcbs[j]
      ensures PcbUsed(d1.table, j)
    {
      if j == pcb {
        var k :| 0 <= k < |d.table| && k != i && Uses(d.table, k, pcb);
        assert Uses(d1.table, k, j);
      } else {
        var k :| 0 <= k < |d.table| && Uses(d.table, k, j);
        assert Uses(d1.table, k, j);
      }
    }
    forall k | 0 <= k < TABLE_SIZE
      ensures EntryOk(d1.table[k], d1.pcbs)
    {
      assert EntryOk(d.table[k], d.pcbs);
      if k != i && d.table[k].state.Asking? && d.table[k].pcbIdx == pcb {
        assert Uses(d.table, k, pcb);
      }
    }
    forall r | 0 <= r < MAX_REQUESTS
      ensures SlotOk(d1.requests[r], d1.table, d1.asked)
    {
      assert SlotOk(d.requests[r], d.table, d.asked);
    }
  }

  /** dns_call_found looks at the entry it is called for only through its port. */
  lemma CallFoundIgnoresOwnState(d: Dns, i: nat, addr: Option<u32>, e: Entry)
    requires Shaped(d) && i < TABLE_SIZE && e.pcbIdx == d.table[i].pcbIdx && e.name == d.table[i].name
    requires e.state.Asking? ==> e.serverIdx < MAX_SERVERS
    ensures var a, b := CallFound(SetEntry(d, i, e), i, addr), CallFound(d, i, addr);
            (a.calls == b.calls && a.requests == b.requests && a.pcbs == b.pcbs
             && a.table == d.table[i := a.table[i]])
  {
    var t := d.table[i := e];
    assert t[i].pcbIdx == e.pcbIdx;
    if SharesPcb(t, i) {
      var k :| 0 <= k < |t| && k != i && Uses(t, k, e.pcbIdx);
      assert Uses(d.table, k, e.pcbIdx);
      assert SharesPcb(d.table, i);
    }
    if SharesPcb(d.table, i) {
      var k :| 0 <= k < |d.table| && k != i && Uses(d.table, k, d.table[i].pcbIdx);
      assert Uses(t, k, t[i].pcbIdx);
      assert SharesPcb(t, i);
    }
    assert SharesPcb(t, i) == SharesPcb(d.table, i);
  }

  lemma GiveUpKeepsInv(d: Dns, i: nat, e: Entry)
    requires Inv(d) && i < TABLE_SIZE && d.table[i].state.Asking?
    requires e.state.Asking? && e.pcbIdx == d.table[i].pcbIdx && e.name == d.table[i].name
    requires e.serverIdx < MAX_SERVERS
    ensures Inv(GiveUp(SetEntry(d, i, e), i))
  {
    CallFoundIgnoresOwnState(d, i, None, e);
    var d1 := GiveUp(SetEntry(d, i, e), i);
    LeavingKeepsInv(d, i, None, d1.table[i]);
    assert d1 == CallFound(d, i, None).(table := d.table[i := d1.table[i]]);
  }

  // ---------------------------------------------------------------------------
  // Steps
  // ---------------------------------------------------------------------------

  /** A pending query may change its timer, retry counter and server. */
  lemma RetimingKeepsInv(d: Dns, i: nat, e: Entry)
    requires Inv(d) && i < TABLE_SIZE && d.table[i].state.Asking?
    requires e.state.Asking? && e.pcbIdx == d.table[i].pcbIdx && e.txid == d.table[i].txid
    requires e.name == d.table[i].name && e.serverIdx < MAX_SERVERS && EntryOk(e, d.pcbs)
    ensures Inv(SetEntry(d, i, e))
  {
    var d1 := SetEntry(d, i, e);
    forall j | 0 <= j < MAX_SOURCE_PORTS && d1.pcbs[j]
      ensures PcbUsed(d1.table, j)
    {
      var k :| 0 <= k < |d.table| && Uses(d.table, k, j);
      assert Uses(d1.table, k, j);
    }
    forall r | 0 <= r < MAX_REQUESTS
      ensures SlotOk(d1.requests[r], d1.table, d1.asked)
    {
      assert SlotOk(d.requests[r], d.table, d.asked);
    }
  }

  /** A completed entry may age or be dropped. */
  lemma AgingKeepsInv(d: Dns, i: nat, e: Entry)
    requires Inv(d) && i < TABLE_SIZE && !d.table[i].state.Asking?
    requires !e.state.Asking? && !e.state.New?
    ensures Inv(SetEntry(d, i, e))
  {
    var d1 := SetEntry(d, i, e);
    forall j | 0 <= j < MAX_SOURCE_PORTS && d1.pcbs[j]
      ensures PcbUsed(d1.table, j)
    {
      var k :| 0 <= k < |d.table| && Uses(d.table, k, j);
      assert Uses(d1.table, k, j);
    }
    forall r | 0 <= r < MAX_REQUESTS
      ensures SlotOk(d1.requests[r], d1.table, d1.asked)
    {
      assert SlotOk(d.requests[r], d.table, d.asked);
    }
  }

  lemma SendKeepsInv(d: Dns, i: nat)
    requires Inv(d) && i < TABLE_SIZE && d.table[i].state.Asking?
    ensures Inv(Send(d, i))
  {
    if d.servers[d.table[i].serverIdx] == ANY {
      GiveUpKeepsInv(d, i, d.table[i]);
      assert SetEntry(d, i, d.table[i]) == d;
    }
  }

  /** A query asked again, of the same server or of the next one. */
  lemma AskingAgainKeepsInv(d: Dns, i: nat, e: Entry)
    requires Inv(d) && i < TABLE_SIZE && d.table[i].state.Asking?
    requires e.state.Asking? && e.pcbIdx == d.table[i].pcbIdx && e.txid == d.table[i].txid
    requires e.name == d.table[i].name && e.serverIdx < MAX_SERVERS && EntryOk(e, d.pcbs)
    ensures Inv(Send(SetEntry(d, i, e), i))
  {
    RetimingKeepsInv(d, i, e);
    SendKeepsInv(SetEntry(d, i, e), i);
  }

  /** The timer runs out for the last time. */
  lemma LastRetryKeepsInv(d: Dns, i: nat, txid: u16)
    requires Inv(d) && i < TABLE_SIZE && d.table[i].state.Asking? && EntryOk(d.table[i], d.pcbs)
    requires d.table[i].tmr == 1 && d.table[i].retries + 1 == MAX_RETRIES
    ensures Inv(CheckEntry(d, i, txid))
  {
    var e := d.table[i];
    if BackupAvailable(d.servers, e.serverIdx) {
      AskingAgainKeepsInv(d, i, e.(serverIdx := e.serverIdx + 1, tmr := 1, retries := 0));
    } else {
      GiveUpKeepsInv(d, i, e.(tmr := 0, retries := e.retries + 1));
    }
  }

  lemma CheckPendingKeepsInv(d: Dns, i: nat, txid: u16)
    requires Inv(d) && i < TABLE_SIZE && d.table[i].state.Asking? && EntryOk(d.table[i], d.pcbs)
    ensures Inv(CheckEntry(d, i, txid))
  {
    var e := d.table[i];
    if e.tmr == 1 && e.retries + 1 == MAX_RETRIES {
      LastRetryKeepsInv(d, i, txid);
    } else if e.tmr == 1 {
      AskingAgainKeepsInv(d, i, e.(tmr := e.retries + 1, retries := e.retries + 1));
    } else {
      RetimingKeepsInv(d, i, e.(tmr := e.tmr - 1));
    }
  }

  lemma EntryFacts(d: Dns, i: nat)
    requires Inv(d) && i < TABLE_SIZE
    ensures EntryOk(d.table[i], d.pcbs)
  {
  }

  lemma CheckEntryKeepsInv(d: Dns, i: nat, txid: u16)
    requires Inv(d) && i < TABLE_SIZE
    ensures EntryOk(d.table[i], d.pcbs) && Inv(CheckEntry(d, i, txid))
  {
    EntryFacts(d, i);
    match d.table[i].state
    case Asking => CheckPendingKeepsInv(d, i, txid);
    case Done =>
      var e := d.table[i];
      AgingKeepsInv(d, i, if e.ttl <= 1 then e.(ttl := 0, state := Unused) else e.(ttl := e.ttl - 1));
    case Unused =>
  }

  /** dns_tmr after the first `n` entries have been checked. */
  ghost function Tick(d: Dns, n: nat): (r: Dns)
    requires Inv(d) && n <= TABLE_SIZE
    ensures Inv(r)
  {
    if n == 0 then d
    else
      CheckEntryKeepsInv(Tick(d, n - 1), n - 1, 0);
      CheckEntry(Tick(d, n - 1), n - 1, 0)
  }

  lemma RecvKeepsInv(d: Dns, txid: u16, from: u32, verdict: Verdict)
    requires Inv(d)
    ensures Inv(Recv(d, txid, from, verdict))
  {
    var i := FindTxid(d.table, txid, 0);
    if i < TABLE_SIZE && !verdict.Ignored? && from == d.servers[d.table[i].serverIdx] {
      var e := d.table[i];
      match verdict
      case Address(ipaddr, ttl) =>
        var d1 := CorrectResponse(d, i, ipaddr, ttl);
        var kept := if ttl > MAX_TTL then MAX_TTL else ttl;
        CallFoundIgnoresOwnState(d, i, Some(ipaddr), e.(ipaddr := ipaddr, state := Done, ttl := kept));
        LeavingKeepsInv(d, i, Some(ipaddr), d1.table[i]);
        assert d1 == CallFound(d, i, Some(ipaddr)).(table := d.table[i := d1.table[i]]);
      case ServerError =>
        if BackupAvailable(d.servers, e.serverIdx) {
          var e1 := e.(retries := MAX_RETRIES - 1, tmr := 1);
          assert EntryOk(e, d.pcbs);
          RetimingKeepsInv(d, i, e1);
          CheckEntryKeepsInv(SetEntry(d, i, e1), i, 0);
        } else {
          GiveUpKeepsInv(d, i, e);
          assert SetEntry(d, i, e) == d;
        }
      case NoAddress =>
        GiveUpKeepsInv(d, i, e);
        assert SetEntry(d, i, e) == d;
    }
  }

  /** The tables once a new query has been set up and made pending, before it is sent. */
  function StartedTables(d: Dns, i: nat, r: nat, name: seq<u8>, wanted: bool, pcbs: seq<bool>, pcb: u8,
                         txid: u16): Dns
    requires Shaped(d) && i < TABLE_SIZE && r < MAX_REQUESTS
    requires pcb < MAX_SOURCE_PORTS == |pcbs|
  {
    var d1 := Filled(d, i, r, name, wanted, pcbs, pcb);
    SetEntry(d1, i, Started(d1.table[i], txid))
  }

  lemma StartingKeepsInv(d: Dns, i: nat, r: nat, name: seq<u8>, wanted: bool, pcbs: seq<bool>, pcb: u8, txid: u16)
    requires Inv(d) && i < TABLE_SIZE && r < MAX_REQUESTS && FreeSlotAt(d.requests, r)
    requires !d.table[i].state.Asking? && Fresh(d.table, txid)
    requires pcb < MAX_SOURCE_PORTS && pcbs == d.pcbs[pcb := true]
    ensures Inv(StartedTables(d, i, r, name, wanted, pcbs, pcb, txid))
  {
    var d1 := StartedTables(d, i, r, name, wanted, pcbs, pcb, txid);
    FillingConserves(d.calls, d.requests, |d.asked|, r, wanted, i);
    forall j | 0 <= j < MAX_SOURCE_PORTS && d1.pcbs[j]
      ensures PcbUsed(d1.table, j)
    {
      if j == pcb {
        assert Uses(d1.table, i, j);
      } else {
        var k :| 0 <= k < |d.table| && Uses(d.table, k, j);
        assert Uses(d1.table, k, j);
      }
    }
    forall k | 0 <= k < TABLE_SIZE
      ensures EntryOk(d1.table[k], d1.pcbs)
    {
      assert EntryOk(d.table[k], d.pcbs);
    }
    forall q | 0 <= q < MAX_REQUESTS
      ensures SlotOk(d1.requests[q], d1.table, d1.asked)
    {
      assert SlotOk(d.requests[q], d.table, d.asked);
    }
  }

  lemma EnqueueKeepsInv(d: Dns, name: seq<u8>, wanted: bool, canOpen: bool, txid: u16)
    requires Inv(d) && Fresh(d.table, txid)
    ensures Inv(Enqueue(d, name, wanted, canOpen, txid).0)
  {
    var dup, r := FindDuplicate(d.table, name, 0), FreeSlot(d.requests, 0);
    var i := FreeEntry(d.table, d.seqno, 0, 0, TABLE_SIZE);
    var d1 := Enqueue(d, name, wanted, canOpen, txid).0;
    if dup < TABLE_SIZE && r < MAX_REQUESTS {
      FillingConserves(d.calls, d.requests, |d.asked|, r, wanted, dup);
    } else if i < TABLE_SIZE && r < MAX_REQUESTS {
      var (pcbs, pcb) := AllocPcb(d.pcbs, d.lastPcb, canOpen);
      if pcb < MAX_SOURCE_PORTS {
        StartingKeepsInv(d, i, r, name, wanted, pcbs, pcb, txid);
        SendKeepsInv(StartedTables(d, i, r, name, wanted, pcbs, pcb, txid), i);
        OccupyStarts(d, i, r, name, wanted, canOpen, txid);
      } else {
        AgingKeepsInv(d, i, d1.table[i]);
        FillingConserves(d.calls, d.requests, |d.asked|, r, false, i);
      }
    }
  }

  lemma OccupyStarts(d: Dns, i: nat, r: nat, name: seq<u8>, wanted: bool, canOpen: bool, txid: u16)
    requires Shaped(d) && i < TABLE_SIZE && r < MAX_REQUESTS && !d.table[i].state.Asking?
    requires AllocPcb(d.pcbs, d.lastPcb, canOpen).1 < MAX_SOURCE_PORTS
    ensures var (pcbs, pcb) := AllocPcb(d.pcbs, d.lastPcb, canOpen);
            Occupy(d, i, r, name, wanted, canOpen, txid)
            == (Send(StartedTables(d, i, r, name, wanted, pcbs, pcb, txid), i), InProgress)
  {
  }
}
