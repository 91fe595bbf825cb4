/** Whole runs of the DNS client: any sequence of timer ticks, packets, requests and server changes. */
module DnsRuns {
  import opened Words
  import opened CText
  import opened DnsTable
  import opened DnsSafety

  datatype Event =
    | TimerTick
    | Packet(txid: u16, from: u32, verdict: Verdict)
    | Ask(name: seq<u8>, wanted: bool, canOpen: bool, freshTxid: u16)
    | SetServer(n: nat, addr: u32)

  /** The ID drawn for a new query is one that no pending query uses. */
  ghost predicate Legal(d: Dns, ev: Event) {
    ev.Ask? ==> Fresh(d.table, ev.freshTxid)
  }

  ghost function Step(d: Dns, ev: Event): (r: Dns)
    requires Inv(d) && Legal(d, ev)
    ensures Inv(r)
  {
    match ev
    case TimerTick => Tick(d, |d.table|)
    case Packet(txid, from, verdict) => RecvKeepsInv(d, txid, from, verdict); Recv(d, txid, from, verdict)
    case Ask(name, wanted, canOpen, txid) =>
      EnqueueKeepsInv(d, name, wanted, canOpen, txid);
      Enqueue(d, name, wanted, canOpen, txid).0
    case SetServer(n, addr) => if n < MAX_SERVERS then d.(servers := d.servers[n := addr]) else d
  }

  ghost predicate LegalRun(d: Dns, evs: seq<Event>)
    requires Inv(d)
    decreases |evs|
  {
    |evs| > 0 ==> Legal(d, evs[0]) && LegalRun(Step(d, evs[0]), evs[1..])
  }

  ghost function Run(d: Dns, evs: seq<Event>): (r: Dns)
    requires Inv(d) && LegalRun(d, evs)
    ensures Inv(r)
    decreases |evs|
  {
    if |evs| == 0 then d else Run(Step(d, evs[0]), evs[1..])
  }

  /** After dns_init everything is zero. */
  function Initial(servers: seq<u32>): Dns {
    var entry := Entry(Unused, [], 0, 0, 0, 0, 0, 0, 0, 0);
    Dns(seq(TABLE_SIZE, _ => entry), seq(MAX_REQUESTS, _ => Request(None, 0)),
        seq(MAX_SOURCE_PORTS, _ => false), 0, 0, servers, [], [])
  }

  lemma InitialInv(servers: seq<u32>)
    requires |servers| == MAX_SERVERS
    ensures Inv(Initial(servers))
  {
    var d := Initial(servers);
    forall t: nat
      ensures CallsOf(d.calls, 0, t) + SlotsOf(d.requests, MAX_REQUESTS, t) == 0
    {
      NoSlotHolds(d.requests, MAX_REQUESTS, t);
    }
  }

  lemma {:induction false} NoSlotHolds(requests: seq<Request>, n: nat, t: nat)
    requires n <= |requests|
    ensures SlotsOf(requests, n, t) == 0 <==> forall r :: 0 <= r < n ==> requests[r].found != Some(t)
  {
    if n > 0 {
      NoSlotHolds(requests, n - 1, t);
    }
  }

  /** The callback of request `t` is still to come: some slot holds it. */
  predicate Waiting(d: Dns, t: nat) {
    exists r :: 0 <= r < |d.requests| && d.requests[r].found == Some(t)
  }

  /** In every reachable state an accepted callback has been called exactly once or is waiting, and
      never both; it is called with the name it was requested for, up to case, and waits only while its
      table entry is pending for that name. */
  lemma CalledExactlyOnce(servers: seq<u32>, evs: seq<Event>, t: nat)
    requires |servers| == MAX_SERVERS && Inv(Initial(servers)) && LegalRun(Initial(servers), evs)
    ensures var d := Run(Initial(servers), evs);
            && CallsOf(d.calls, |d.calls|, t) == (if t < |d.asked| && !Waiting(d, t) then 1 else 0)
            && (Waiting(d, t) ==> t < |d.asked|)
            && (forall k :: 0 <= k < |d.calls| && d.calls[k].ticket == t ==>
                  t < |d.asked| && SameText(d.asked[t], d.calls[k].name))
            && forall r :: 0 <= r < MAX_REQUESTS && d.requests[r].found == Some(t) ==>
                 && d.requests[r].tableIdx < TABLE_SIZE && d.table[d.requests[r].tableIdx].state.Asking?
                 && t < |d.asked| && SameText(d.asked[t], d.table[d.requests[r].tableIdx].name)
  {
    var d := Run(Initial(servers), evs);
    NoSlotHolds(d.requests, MAX_REQUESTS, t);
    forall r | 0 <= r < MAX_REQUESTS && d.requests[r].found == Some(t)
      ensures SlotOk(d.requests[r], d.table, d.asked)
    {
    }
    forall k | 0 <= k < |d.calls| && d.calls[k].ticket == t
      ensures CallOk(d.calls[k], d.asked)
    {
    }
  }

  /** In every reachable state each port is open exactly while some pending query sends from it. */
  lemma PortsOpenWhileUsed(servers: seq<u32>, evs: seq<Event>)
    requires |servers| == MAX_SERVERS && Inv(Initial(servers)) && LegalRun(Initial(servers), evs)
    ensures var d := Run(Initial(servers), evs);
            forall j :: 0 <= j < MAX_SOURCE_PORTS ==>
              (d.pcbs[j] <==> exists i :: 0 <= i < TABLE_SIZE && Uses(d.table, i, j))
  {
    var d := Run(Initial(servers), evs);
    forall j | 0 <= j < MAX_SOURCE_PORTS
      ensures d.pcbs[j] <==> exists i :: 0 <= i < TABLE_SIZE && Uses(d.table, i, j)
    {
      OpenWhileUsed(d, j);
    }
  }

  lemma OpenWhileUsed(d: Dns, j: nat)
    requires Inv(d) && j < MAX_SOURCE_PORTS
    ensures d.pcbs[j] <==> exists i :: 0 <= i < TABLE_SIZE && Uses(d.table, i, j)
  {
    if i :| 0 <= i < TABLE_SIZE && Uses(d.table, i, j) {
      assert EntryOk(d.table[i], d.pcbs);
    }
    assert d.pcbs[j] ==> PcbUsed(d.table, j);
  }

  // ---------------------------------------------------------------------------
  // What a request does to the tables
  // ---------------------------------------------------------------------------

  /** A request never disturbs a pending query. */
  lemma AskingKeepsQueries(d: Dns, name: seq<u8>, wanted: bool, canOpen: bool, txid: u16, k: nat)
    requires Inv(d) && k < TABLE_SIZE && d.table[k].state.Asking?
    ensures Enqueue(d, name, wanted, canOpen, txid).0.table[k] == d.table[k]
  {
    var i, r := FreeEntry(d.table, d.seqno, 0, 0, TABLE_SIZE), FreeSlot(d.requests, 0);
    if i < TABLE_SIZE && r < MAX_REQUESTS {
      OccupyingKeepsOthers(d, i, r, name, wanted, canOpen, txid, k);
    }
  }

  lemma OccupyingKeepsOthers(d: Dns, i: nat, r: nat, name: seq<u8>, wanted: bool, canOpen: bool, txid: u16, k: nat)
    requires Shaped(d) && i < TABLE_SIZE && r < MAX_REQUESTS && !d.table[i].state.Asking?
    requires k < TABLE_SIZE && k != i
    ensures Occupy(d, i, r, name, wanted, canOpen, txid).0.table[k] == d.table[k]
  {
    if AllocPcb(d.pcbs, d.lastPcb, canOpen).1 < MAX_SOURCE_PORTS {
      OccupyStarts(d, i, r, name, wanted, canOpen, txid);
    }
  }

  /** A callback number is given out exactly when a request with a callback is accepted, and the name of
      the request goes with it. */
  lemma AcceptedIffInProgress(d: Dns, name: seq<u8>, wanted: bool, canOpen: bool, txid: u16)
    requires Inv(d)
    ensures var (d1, err) := Enqueue(d, name, wanted, canOpen, txid);
            d1.asked == if wanted && err.InProgress? then d.asked + [name] else d.asked
  {
    var i, r := FreeEntry(d.table, d.seqno, 0, 0, TABLE_SIZE), FreeSlot(d.requests, 0);
    if i < TABLE_SIZE && r < MAX_REQUESTS && AllocPcb(d.pcbs, d.lastPcb, canOpen).1 < MAX_SOURCE_PORTS {
      OccupyStarts(d, i, r, name, wanted, canOpen, txid);
    }
  }

  /** An entry that a new query may take: unused, or completed and of an age above 0. */
  predicate Takeable(e: Entry, seqno: u8) {
    e.state.Unused? || (e.state.Done? && e.seqno != seqno)
  }

  /** From `from` on no entry is unused and no completed one is older than `age`. */
  predicate Oldest(table: seq<Entry>, seqno: u8, from: nat, age: u8)
    requires from <= |table|
  {
    forall k :: from <= k < |table| ==>
      !table[k].state.Unused? && (table[k].state.Done? ==> Age(seqno, table[k]) <= age)
  }

  /** The scan takes an unused entry if there is one, and otherwise a completed entry of the largest
      8-bit age; it finds none exactly when no entry has a positive age. */
  lemma {:induction false} ScanFinds(table: seq<Entry>, seqno: u8, from: nat, lseq: u8, lseqi: nat)
    requires from <= |table| && lseqi <= |table| && (lseqi < |table| ==> table[lseqi].state.Done?)
    requires lseqi < |table| ==> lseq == Age(seqno, table[lseqi])
    ensures var i := FreeEntry(table, seqno, from, lseq, lseqi);
            && (i == |table| ==> lseqi == |table| && Oldest(table, seqno, from, lseq))
            && (i < |table| && table[i].state.Done? ==>
                  Age(seqno, table[i]) >= lseq && Oldest(table, seqno, from, Age(seqno, table[i])))
            && (i < |table| && i != lseqi && table[i].state.Done? ==> Age(seqno, table[i]) > lseq)
    decreases |table| - from
  {
    if from < |table| && !table[from].state.Unused? {
      if table[from].state.Done? && Age(seqno, table[from]) > lseq {
        ScanFinds(table, seqno, from + 1, Age(seqno, table[from]), from);
      } else {
        ScanFinds(table, seqno, from + 1, lseq, lseqi);
      }
    }
  }

  lemma TableFullIff(table: seq<Entry>, seqno: u8)
    ensures FreeEntry(table, seqno, 0, 0, |table|) == |table|
       <==> forall k :: 0 <= k < |table| ==> !Takeable(table[k], seqno)
  {
    ScanFinds(table, seqno, 0, 0, |table|);
    var i := FreeEntry(table, seqno, 0, 0, |table|);
    if i < |table| {
      assert Takeable(table[i], seqno);
    }
  }

  /** Entry `k` is completed and its 8-bit age has come round to 0; every other entry is pending. */
  predicate Stale(d: Dns, k: nat) {
    && k < |d.table| && d.table[k].state.Done? && d.table[k].seqno == d.seqno
    && forall i :: 0 <= i < |d.table| && i != k ==> d.table[i].state.Asking?
  }

  /** A completed entry is unusable while the number of queries started after it is 255 modulo 256: with
      every other entry pending, a request is refused although that entry could be reused. */
  lemma StaleEntryIsNotReused(d: Dns, k: nat, name: seq<u8>, txid: u16)
    requires Inv(d) && Stale(d, k)
    requires forall i :: 0 <= i < TABLE_SIZE ==> !Duplicate(d.table, i, name)
    ensures Enqueue(d, name, true, true, txid) == (d, ErrMem)
  {
    TableFullIff(d.table, d.seqno);
  }

  /** Steps from port `idx` (or port 0, if `idx` is past the end) to port `j`. */
  function PortDist(idx: nat, j: nat, n: nat): int {
    if j >= idx then j - idx else j + n - idx
  }

  lemma {:induction false} NoOpenPort(pcbs: seq<bool>, idx: nat, n: nat)
    requires 0 < |pcbs| && idx <= |pcbs| && n <= |pcbs|
    ensures OpenPort(pcbs, idx, n) == |pcbs| ==>
              forall j :: 0 <= j < |pcbs| && pcbs[j] ==> PortDist(idx, j, |pcbs|) >= n
    decreases n
  {
    if n > 0 && OpenPort(pcbs, idx, n) == |pcbs| {
      var k := if idx >= |pcbs| then 0 else idx;
      NoOpenPort(pcbs, k + 1, n - 1);
      forall j | 0 <= j < |pcbs| && pcbs[j]
        ensures PortDist(idx, j, |pcbs|) >= n
      {
        assert j != k && PortDist(k + 1, j, |pcbs|) >= n - 1;
      }
    }
  }

  /** No port can be had exactly when none is open and none can be opened. */
  lemma AllocFailsIff(pcbs: seq<bool>, lastPcb: nat, canOpen: bool)
    requires |pcbs| == MAX_SOURCE_PORTS && lastPcb < MAX_SOURCE_PORTS
    ensures AllocPcb(pcbs, lastPcb, canOpen).1 == MAX_SOURCE_PORTS
       <==> !canOpen && forall j :: 0 <= j < |pcbs| ==> !pcbs[j]
  {
    NoOpenPort(pcbs, lastPcb + 1, MAX_SOURCE_PORTS);
    if AllocPcb(pcbs, lastPcb, canOpen).1 == MAX_SOURCE_PORTS {
      assert forall j :: 0 <= j < |pcbs| && pcbs[j] ==> PortDist(lastPcb + 1, j, |pcbs|) >= |pcbs|;
    }
  }

  /** There is a free slot, and a pending query for the same name to share. */
  predicate Joins(d: Dns, name: seq<u8>) {
    && (exists r :: 0 <= r < |d.requests| && FreeSlotAt(d.requests, r))
    && (exists i :: 0 <= i < |d.table| && Duplicate(d.table, i, name))
  }

  /** There are a free slot, an entry to take, and a port to send from. */
  predicate Starts(d: Dns, canOpen: bool) {
    && (exists r :: 0 <= r < |d.requests| && FreeSlotAt(d.requests, r))
    && (exists i :: 0 <= i < |d.table| && Takeable(d.table[i], d.seqno))
    && (canOpen || exists j :: 0 <= j < |d.pcbs| && d.pcbs[j])
  }

  /** dns_enqueue accepts a request exactly when it can join a pending query for the same name or get
      an entry, a slot and a port of its own. */
  lemma AcceptedIff(d: Dns, name: seq<u8>, wanted: bool, canOpen: bool, txid: u16)
    requires Inv(d)
    ensures Enqueue(d, name, wanted, canOpen, txid).1.InProgress? <==>
              Joins(d, name) || Starts(d, canOpen)
  {
    TableFullIff(d.table, d.seqno);
    AllocFailsIff(d.pcbs, d.lastPcb, canOpen);
    DuplicateFound(d.table, name, 0);
    var i, r := FreeEntry(d.table, d.seqno, 0, 0, TABLE_SIZE), FreeSlot(d.requests, 0);
    if i < TABLE_SIZE && r < MAX_REQUESTS && AllocPcb(d.pcbs, d.lastPcb, canOpen).1 < MAX_SOURCE_PORTS {
      OccupyStarts(d, i, r, name, wanted, canOpen, txid);
    }
  }

  lemma {:induction false} DuplicateFound(table: seq<Entry>, name: seq<u8>, from: nat)
    requires from <= |table|
    ensures FindDuplicate(table, name, from) == |table|
       <==> forall i :: from <= i < |table| ==> !Duplicate(table, i, name)
    decreases |table| - from
  {
    if from < |table| {
      DuplicateFound(table, name, from + 1);
    }
  }
}
