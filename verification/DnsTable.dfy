/** The tables of the lwIP DNS client as values, and what each resolver step makes of them.
    Configuration: LWIP_DNS_SECURE = 7, IPv4 only, default table sizes. */
module DnsTable {
  import opened Words
  import opened CText

  const TABLE_SIZE := 4
  const MAX_REQUESTS := TABLE_SIZE
  const MAX_SOURCE_PORTS := MAX_REQUESTS
  const MAX_SERVERS := 2
  const MAX_RETRIES := 4
  const MAX_TTL: u32 := 604800

  /** IP_ADDR_ANY: no server configured. */
  const ANY: u32 := 0

  datatype State = Unused | New | Asking | Done

  datatype Entry = Entry(state: State, name: seq<u8>, txid: u16, serverIdx: u8, tmr: u8, retries: u8,
                         seqno: u8, pcbIdx: u8, ttl: u32, ipaddr: u32)

  /** A request slot. `found` is the serial number of the accepted request: it stands for the
      callback and its argument. */
  datatype Request = Request(found: Option<nat>, tableIdx: u8)

  /** One call of a callback: the name it is told, and the address found or None. */
  datatype Call = Call(ticket: nat, name: seq<u8>, addr: Option<u32>)

  /** The resolver: its tables, and the calls it has made. `asked` are the names that the accepted
      callbacks were requested for. */
  datatype Dns = Dns(table: seq<Entry>, requests: seq<Request>, pcbs: seq<bool>, lastPcb: u8, seqno: u8,
                     servers: seq<u32>, calls: seq<Call>, asked: seq<seq<u8>>)

  datatype Err = InProgress | ErrMem

  predicate Shaped(d: Dns) {
    && |d.table| == TABLE_SIZE && |d.requests| == MAX_REQUESTS
    && |d.pcbs| == MAX_SOURCE_PORTS && |d.servers| == MAX_SERVERS
    && d.lastPcb < MAX_SOURCE_PORTS
    && forall i :: 0 <= i < TABLE_SIZE && d.table[i].state.Asking? ==> d.table[i].serverIdx < MAX_SERVERS
  }

  // ---------------------------------------------------------------------------
  // dns_call_found
  // ---------------------------------------------------------------------------

  predicate WaitsFor(r: Request, idx: nat) {
    r.found.Some? && r.tableIdx == idx
  }

  /** The calls made for entry `idx` by the first `n` slots, in slot order. */
  function Fired(requests: seq<Request>, n: nat, idx: nat, name: seq<u8>, addr: Option<u32>): seq<Call>
    requires n <= |requests|
  {
    if n == 0 then []
    else if WaitsFor(requests[n - 1], idx) then
      Fired(requests, n - 1, idx, name, addr) + [Call(requests[n - 1].found.value, name, addr)]
    else Fired(requests, n - 1, idx, name, addr)
  }

  function Flushed(requests: seq<Request>, idx: nat): (r: seq<Request>)
    ensures |r| == |requests|
    ensures forall k :: 0 <= k < |r| ==>
              r[k] == if WaitsFor(requests[k], idx) then requests[k].(found := None) else requests[k]
  {
    seq(|requests|, k requires 0 <= k < |requests| =>
          if WaitsFor(requests[k], idx) then requests[k].(found := None) else requests[k])
  }

  predicate Uses(table: seq<Entry>, i: nat, pcb: nat)
    requires i < |table|
  {
    table[i].state.Asking? && table[i].pcbIdx == pcb
  }

  /** Another pending query sends from the same port. */
  predicate SharesPcb(table: seq<Entry>, idx: nat)
    requires idx < |table|
  {
    exists i :: 0 <= i < |table| && i != idx && Uses(table, i, table[idx].pcbIdx)
  }

  function CallFound(d: Dns, idx: nat, addr: Option<u32>): (r: Dns)
    requires Shaped(d) && idx < TABLE_SIZE
    ensures Shaped(r)
  {
    var pcb := d.table[idx].pcbIdx;
    var closes := !SharesPcb(d.table, idx) && pcb < MAX_SOURCE_PORTS;
    var entry := if SharesPcb(d.table, idx) || closes then d.table[idx].(pcbIdx := MAX_SOURCE_PORTS) else d.table[idx];
    d.(calls := d.calls + Fired(d.requests, MAX_REQUESTS, idx, d.table[idx].name, addr),
       requests := Flushed(d.requests, idx),
       pcbs := if closes then d.pcbs[pcb := false] else d.pcbs,
       table := d.table[idx := entry])
  }

  function SetState(d: Dns, i: nat, s: State): (r: Dns)
    requires Shaped(d) && i < TABLE_SIZE && !s.Asking?
    ensures Shaped(r)
  {
    d.(table := d.table[i := d.table[i].(state := s)])
  }

  /** A query gives up: callbacks get no address, the entry is free again. */
  function GiveUp(d: Dns, i: nat): (r: Dns)
    requires Shaped(d) && i < TABLE_SIZE
    ensures Shaped(r)
  {
    SetState(CallFound(d, i, None), i, Unused)
  }

  // ---------------------------------------------------------------------------
  // dns_send, dns_check_entry
  // ---------------------------------------------------------------------------

  /** dns_send: without a server address the query is given up; otherwise a packet leaves, and the
      result of udp_sendto is not used. */
  function Send(d: Dns, i: nat): (r: Dns)
    requires Shaped(d) && i < TABLE_SIZE && d.table[i].serverIdx < MAX_SERVERS
    ensures Shaped(r)
  {
    if d.servers[d.table[i].serverIdx] == ANY then GiveUp(d, i) else d
  }

  /** dns_backupserver_available */
  predicate BackupAvailable(servers: seq<u32>, serverIdx: nat)
    requires |servers| == MAX_SERVERS
  {
    serverIdx + 1 < MAX_SERVERS && servers[serverIdx + 1] != ANY
  }

  function SetEntry(d: Dns, i: nat, e: Entry): (r: Dns)
    requires Shaped(d) && i < TABLE_SIZE && (e.state.Asking? ==> e.serverIdx < MAX_SERVERS)
    ensures Shaped(r)
  {
    d.(table := d.table[i := e])
  }

  /** A new query becomes a pending one. */
  function Started(e: Entry, txid: u16): Entry {
    e.(txid := txid, state := Asking, serverIdx := 0, tmr := 1, retries := 0)
  }

  /** dns_check_entry. `txid` is the fresh ID that a new query draws. */
  function CheckEntry(d: Dns, i: nat, txid: u16): (r: Dns)
    requires Shaped(d) && i < TABLE_SIZE
    requires d.table[i].state.Asking? ==> d.table[i].tmr > 0 && d.table[i].retries < MAX_RETRIES
    ensures Shaped(r)
  {
    var e := d.table[i];
    match e.state
    case New => Send(SetEntry(d, i, Started(e, txid)), i)
    case Asking =>
      if e.tmr - 1 == 0 then
        if e.retries + 1 == MAX_RETRIES then
          if BackupAvailable(d.servers, e.serverIdx) then
            Send(SetEntry(d, i, e.(serverIdx := e.serverIdx + 1, tmr := 1, retries := 0)), i)
          else
            GiveUp(SetEntry(d, i, e.(tmr := 0, retries := e.retries + 1)), i)
        else
          Send(SetEntry(d, i, e.(tmr := e.retries + 1, retries := e.retries + 1)), i)
      else
        SetEntry(d, i, e.(tmr := e.tmr - 1))
    case Done =>
      if e.ttl <= 1 then SetEntry(d, i, e.(ttl := 0, state := Unused))
      else SetEntry(d, i, e.(ttl := e.ttl - 1))
    case Unused => d
  }

  // ---------------------------------------------------------------------------
  // dns_recv, dns_correct_response
  // ---------------------------------------------------------------------------

  /** What the parser makes of a packet whose ID matches a pending query. */
  datatype Verdict = Ignored | ServerError | Address(ipaddr: u32, ttl: u32) | NoAddress

  function FindTxid(table: seq<Entry>, txid: u16, from: nat): (i: nat)
    requires from <= |table|
    ensures from <= i <= |table|
    ensures forall k :: from <= k < i ==> !(table[k].state.Asking? && table[k].txid == txid)
    ensures i < |table| ==> table[i].state.Asking? && table[i].txid == txid
    decreases |table| - from
  {
    if from == |table| || (table[from].state.Asking? && table[from].txid == txid) then from
    else FindTxid(table, txid, from + 1)
  }

  /** dns_correct_response */
  function CorrectResponse(d: Dns, i: nat, ipaddr: u32, ttl: u32): (r: Dns)
    requires Shaped(d) && i < TABLE_SIZE
    ensures Shaped(r)
  {
    var kept := if ttl > MAX_TTL then MAX_TTL else ttl;
    var e := d.table[i].(ipaddr := ipaddr, state := Done, ttl := kept);
    var d1 := CallFound(SetEntry(d, i, e), i, Some(ipaddr));
    if kept == 0 then SetState(d1, i, Unused) else d1
  }

  /** dns_recv for a packet with ID `txid` from address `from`. */
  function Recv(d: Dns, txid: u16, from: u32, verdict: Verdict): (r: Dns)
    requires Shaped(d)
    ensures Shaped(r)
  {
    var i := FindTxid(d.table, txid, 0);
    if i == TABLE_SIZE || verdict.Ignored? || from != d.servers[d.table[i].serverIdx] then d
    else match verdict
      case Address(ipaddr, ttl) => CorrectResponse(d, i, ipaddr, ttl)
      case ServerError =>
        if BackupAvailable(d.servers, d.table[i].serverIdx) then
          CheckEntry(SetEntry(d, i, d.table[i].(retries := MAX_RETRIES - 1, tmr := 1)), i, 0)
        else GiveUp(d, i)
      case _ => GiveUp(d, i)
  }

  // ---------------------------------------------------------------------------
  // dns_enqueue
  // ---------------------------------------------------------------------------

  predicate FreeSlotAt(requests: seq<Request>, r: nat)
    requires r < |requests|
  {
    requests[r].found.None?
  }

  /** The first free request slot, or the number of slots. */
  function FreeSlot(requests: seq<Request>, from: nat): (r: nat)
    requires from <= |requests|
    ensures from <= r <= |requests|
    ensures forall k :: from <= k < r ==> !FreeSlotAt(requests, k)
    ensures r < |requests| ==> FreeSlotAt(requests, r)
    decreases |requests| - from
  {
    if from == |requests| || FreeSlotAt(requests, from) then from else FreeSlot(requests, from + 1)
  }

  predicate Duplicate(table: seq<Entry>, i: nat, name: seq<u8>)
    requires i < |table|
  {
    table[i].state.Asking? && SameText(name, table[i].name)
  }

  /** The first pending query for the same name, or the table size. */
  function FindDuplicate(table: seq<Entry>, name: seq<u8>, from: nat): (i: nat)
    requires from <= |table|
    ensures from <= i <= |table|
    ensures i < |table| ==> Duplicate(table, i, name)
    decreases |table| - from
  {
    if from == |table| || Duplicate(table, from, name) then from else FindDuplicate(table, name, from + 1)
  }

  /** The age of an entry is a difference of 8-bit sequence numbers. */
  function Age(seqno: u8, e: Entry): (age: u8)
    ensures (e.seqno + age) % 256 == seqno
  {
    if seqno >= e.seqno then seqno - e.seqno else seqno - e.seqno + 256
  }

  /** The scan for a table entry: the first unused one, else the completed one with the largest age
      above `lseq` (the last found is `lseqi`), else the table size. */
  function FreeEntry(table: seq<Entry>, seqno: u8, from: nat, lseq: u8, lseqi: nat): (i: nat)
    requires from <= |table| && lseqi <= |table| && (lseqi < |table| ==> table[lseqi].state.Done?)
    ensures i <= |table| && (i < |table| ==> table[i].state.Unused? || table[i].state.Done?)
    decreases |table| - from
  {
    if from == |table| then lseqi
    else if table[from].state.Unused? then from
    else if table[from].state.Done? && Age(seqno, table[from]) > lseq then
      FreeEntry(table, seqno, from + 1, Age(seqno, table[from]), from)
    else FreeEntry(table, seqno, from + 1, lseq, lseqi)
  }

  /** The first closed port, or the number of ports. */
  function ClosedPort(pcbs: seq<bool>, from: nat): (j: nat)
    requires from <= |pcbs|
    ensures from <= j <= |pcbs| && (j < |pcbs| ==> !pcbs[j]) && forall k :: from <= k < j ==> pcbs[k]
    decreases |pcbs| - from
  {
    if from == |pcbs| || !pcbs[from] then from else ClosedPort(pcbs, from + 1)
  }

  /** The next open port in ring order from `idx`, looking at `n` ports; else the number of ports. */
  function OpenPort(pcbs: seq<bool>, idx: nat, n: nat): (j: nat)
    requires |pcbs| > 0
    ensures j <= |pcbs| && (j < |pcbs| ==> pcbs[j])
    decreases n
  {
    if n == 0 then |pcbs|
    else
      var k := if idx >= |pcbs| then 0 else idx;
      if pcbs[k] then k else OpenPort(pcbs, k + 1, n - 1)
  }

  /** dns_alloc_pcb: the ports and the index, given whether a new pcb can be had. An existing port
      is shared when it cannot. */
  function AllocPcb(pcbs: seq<bool>, lastPcb: nat, canOpen: bool): (r: (seq<bool>, nat))
    requires |pcbs| == MAX_SOURCE_PORTS
    ensures |r.0| == |pcbs| && r.1 <= |pcbs|
    ensures r.1 < |pcbs| ==> r.0 == pcbs[r.1 := true]
    ensures r.1 == |pcbs| ==> r.0 == pcbs
  {
    var i := ClosedPort(pcbs, 0);
    if i < MAX_SOURCE_PORTS && canOpen then (pcbs[i := true], i)
    else
      var j := OpenPort(pcbs, lastPcb + 1, MAX_SOURCE_PORTS);
      assert j < |pcbs| ==> pcbs[j := true] == pcbs;
      (pcbs, j)
  }

  /** Entry `i` and slot `r` filled for a new query that sends from port `pcb`. */
  function Filled(d: Dns, i: nat, r: nat, name: seq<u8>, wanted: bool, pcbs: seq<bool>, pcb: u8): (res: Dns)
    requires Shaped(d) && i < TABLE_SIZE && r < MAX_REQUESTS
    requires pcb < MAX_SOURCE_PORTS == |pcbs|
    ensures Shaped(res)
  {
    d.(table := d.table[i := d.table[i].(state := New, seqno := d.seqno, name := name, pcbIdx := pcb)],
       requests := d.requests[r := Request(if wanted then Some(|d.asked|) else None, i)],
       asked := if wanted then d.asked + [name] else d.asked,
       pcbs := pcbs, lastPcb := pcb, seqno := if d.seqno == 255 then 0 else d.seqno + 1)
  }

  /** The part of dns_enqueue after a table entry `i` and a request slot `r` have been found. */
  function Occupy(d: Dns, i: nat, r: nat, name: seq<u8>, wanted: bool, canOpen: bool, txid: u16): (res: (Dns, Err))
    requires Shaped(d) && i < TABLE_SIZE && r < MAX_REQUESTS && !d.table[i].state.Asking?
    ensures Shaped(res.0)
  {
    var (pcbs, pcb) := AllocPcb(d.pcbs, d.lastPcb, canOpen);
    if pcb >= MAX_SOURCE_PORTS then
      var e := d.table[i].(state := Unused, seqno := d.seqno, name := name, pcbIdx := pcb);
      (d.(table := d.table[i := e], requests := d.requests[r := Request(None, i)]), ErrMem)
    else
      (CheckEntry(Filled(d, i, r, name, wanted, pcbs, pcb), i, txid), InProgress)
  }

  /** dns_enqueue. `wanted`: a callback is given. `canOpen`: udp_new and udp_bind succeed. */
  function Enqueue(d: Dns, name: seq<u8>, wanted: bool, canOpen: bool, txid: u16): (res: (Dns, Err))
    requires Shaped(d)
    ensures Shaped(res.0)
  {
    var dup, r := FindDuplicate(d.table, name, 0), FreeSlot(d.requests, 0);
    if dup < TABLE_SIZE && r < MAX_REQUESTS then
      (d.(requests := d.requests[r := Request(if wanted then Some(|d.asked|) else None, dup)],
          asked := if wanted then d.asked + [name] else d.asked), InProgress)
    else
      var i := FreeEntry(d.table, d.seqno, 0, 0, TABLE_SIZE);
      if i == TABLE_SIZE || r == MAX_REQUESTS then (d, ErrMem)
      else Occupy(d, i, r, name, wanted, canOpen, txid)
  }
}
