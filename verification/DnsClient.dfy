/** The DNS client as dns.c runs it: global tables changed in place. Every method is tied to the
    function of DnsTable that says what the step makes of the tables. */
module DnsClient {
  import opened Words
  import opened CText
  import opened DnsTable
  import opened DnsSafety

  // ---------------------------------------------------------------------------
  // Drawing transaction IDs
  // ---------------------------------------------------------------------------

  /** Some draw is an ID that no pending query uses. */
  predicate HasFresh(table: seq<Entry>, draws: seq<u16>) {
    exists n :: 0 <= n < |draws| && Fresh(table, draws[n])
  }

  /** Draw `n` is the first of that kind. */
  predicate FirstFresh(table: seq<Entry>, draws: seq<u16>, n: nat) {
    n < |draws| && Fresh(table, draws[n]) && forall k :: 0 <= k < n ==> !Fresh(table, draws[k])
  }

  /** The ID of the first fresh draw from draw `k` on, or 0. */
  function Drawn(table: seq<Entry>, draws: seq<u16>, k: nat): u16
    requires k <= |draws|
    decreases |draws| - k
  {
    if k == |draws| then 0 else if Fresh(table, draws[k]) then draws[k] else Drawn(table, draws, k + 1)
  }

  lemma {:induction false} DrawnIsFirst(table: seq<Entry>, draws: seq<u16>, n: nat, k: nat)
    requires FirstFresh(table, draws, n) && k <= n
    ensures Drawn(table, draws, k) == draws[n]
    decreases n - k
  {
    if k < n {
      DrawnIsFirst(table, draws, n, k + 1);
    }
  }

  lemma {:induction false} FirstFreshExists(table: seq<Entry>, draws: seq<u16>, n: nat)
    requires n < |draws| && Fresh(table, draws[n])
    ensures exists k: nat :: FirstFresh(table, draws, k)
  {
    if !FirstFresh(table, draws, n) {
      var k :| 0 <= k < n && Fresh(table, draws[k]);
      FirstFreshExists(table, draws, k);
    }
  }

  lemma DrawnIsFresh(table: seq<Entry>, draws: seq<u16>)
    requires HasFresh(table, draws)
    ensures Fresh(table, Drawn(table, draws, 0))
  {
    var k :| 0 <= k < |draws| && Fresh(table, draws[k]);
    FirstFreshExists(table, draws, k);
    var n: nat :| FirstFresh(table, draws, n);
    DrawnIsFirst(table, draws, n, 0);
  }

  function UsedIds(table: seq<Entry>, n: nat): set<u16>
    requires n <= |table|
  {
    if n == 0 then {} else UsedIds(table, n - 1) + {table[n - 1].txid}
  }

  lemma {:induction false} UsedIdsAre(table: seq<Entry>, n: nat)
    requires n <= |table|
    ensures |UsedIds(table, n)| <= n
    ensures forall i :: 0 <= i < n ==> table[i].txid in UsedIds(table, n)
  {
    if n > 0 {
      UsedIdsAre(table, n - 1);
    }
  }

  function Different(draws: seq<u16>): set<u16> {
    set x | x in draws
  }

  lemma SubsetSize(a: set<u16>, b: set<u16>)
    requires a <= b
    ensures |a| <= |b|
  {
    assert b == a + (b - a);
  }

  /** More different draws than the table has entries cannot all be in use: five are always enough. */
  lemma DifferentDrawsSuffice(table: seq<Entry>, draws: seq<u16>)
    requires |table| < |Different(draws)|
    ensures HasFresh(table, draws)
  {
    var all := Different(draws);
    if !HasFresh(table, draws) {
      UsedIdsAre(table, |table|);
      forall x | x in all
        ensures x in UsedIds(table, |table|)
      {
        var n :| 0 <= n < |draws| && draws[n] == x;
        var i :| 0 <= i < |table| && table[i].state.Asking? && table[i].txid == draws[n];
        assert table[i].txid in UsedIds(table, |table|);
      }
      SubsetSize(all, UsedIds(table, |table|));
    }
  }

  /** An entry that is not pending has no say in what is fresh. */
  lemma FreshIgnores(table: seq<Entry>, i: nat, e: Entry, draws: seq<u16>, k: nat)
    requires i < |table| && !table[i].state.Asking? && !e.state.Asking? && k <= |draws|
    ensures HasFresh(table, draws) == HasFresh(table[i := e], draws)
    ensures Drawn(table, draws, k) == Drawn(table[i := e], draws, k)
    decreases |draws| - k
  {
    var table1 := table[i := e];
    forall x: u16 ensures Fresh(table, x) == Fresh(table1, x) {
      if Fresh(table1, x) {
        forall j | 0 <= j < |table| && table[j].state.Asking? ensures table[j].txid != x {
          assert table1[j] == table[j];
        }
      }
    }
    if k < |draws| {
      FreshIgnores(table, i, e, draws, k + 1);
    }
  }

  class Client {
    const table: array<Entry>
    const requests: array<Request>
    const pcbs: array<bool>
    const servers: array<u32>
    var lastPcb: u8
    var seqno: u8
    var serial: nat
    ghost var calls: seq<Call>
    ghost var asked: seq<seq<u8>>

    /** The tables have their sizes; `serial` counts the accepted callbacks. */
    ghost predicate Valid()
      reads this, table
    {
      && table.Length == TABLE_SIZE && requests.Length == MAX_REQUESTS
      && pcbs.Length == MAX_SOURCE_PORTS && servers.Length == MAX_SERVERS && lastPcb < MAX_SOURCE_PORTS
      && serial == |asked|
      && forall i :: 0 <= i < TABLE_SIZE && table[i].state.Asking? ==> table[i].serverIdx < MAX_SERVERS
    }

    ghost function Tables(): (d: Dns)
      reads this, table, requests, pcbs, servers
      requires Valid()
      ensures Shaped(d)
    {
      Dns(table[..], requests[..], pcbs[..], lastPcb, seqno, servers[..], calls, asked)
    }

    /** dns_call_found, first loop: call and flush the waiting requests. */
    method FireRequests(idx: nat, addr: Option<u32>)
      requires Valid() && idx < TABLE_SIZE
      modifies this`calls, requests
      ensures requests[..] == Flushed(old(requests[..]), idx)
      ensures calls == old(calls) + Fired(old(requests[..]), MAX_REQUESTS, idx, table[idx].name, addr)
    {
      ghost var was := requests[..];
      var i := 0;
      while i < MAX_REQUESTS
        invariant 0 <= i <= MAX_REQUESTS
        invariant forall k :: 0 <= k < MAX_REQUESTS ==>
                    requests[k] == if k < i then Flushed(was, idx)[k] else was[k]
        invariant calls == old(calls) + Fired(was, i, idx, table[idx].name, addr)
      {
        if requests[i].found.Some? && requests[i].tableIdx == idx {
          calls := calls + [Call(requests[i].found.value, table[idx].name, addr)];
          requests[i] := requests[i].(found := None);
        }
        i := i + 1;
      }
    }

    /** dns_call_found, second loop: is another query using the same pcb? */
    method IsShared(idx: nat) returns (shared: bool)
      requires Valid() && idx < TABLE_SIZE
      ensures shared == SharesPcb(table[..], idx)
    {
      shared := false;
      var i := 0;
      while i < MAX_REQUESTS && !shared
        invariant 0 <= i <= MAX_REQUESTS
        invariant shared ==> SharesPcb(table[..], idx)
        invariant !shared ==> forall k :: 0 <= k < i && k != idx ==> !Uses(table[..], k, table[idx].pcbIdx)
      {
        if i != idx && table[i].state.Asking? && table[i].pcbIdx == table[idx].pcbIdx {
          assert Uses(table[..], i, table[..][idx].pcbIdx);
          shared := true;
        }
        i := i + 1;
      }
    }

    /** dns_call_found */
    method CallFoundAt(idx: nat, addr: Option<u32>)
      requires Valid() && idx < TABLE_SIZE
      modifies this`calls, requests, table, pcbs
      ensures Valid() && Tables() == CallFound(old(Tables()), idx, addr)
    {
      FireRequests(idx, addr);
      var shared := IsShared(idx);
      if shared {
        table[idx] := table[idx].(pcbIdx := MAX_SOURCE_PORTS);
      } else if table[idx].pcbIdx < MAX_SOURCE_PORTS {
        pcbs[table[idx].pcbIdx] := false;
        table[idx] := table[idx].(pcbIdx := MAX_SOURCE_PORTS);
      }
      ghost var d := CallFound(old(Tables()), idx, addr);
      assert table[..] == d.table && pcbs[..] == d.pcbs && requests[..] == d.requests;
    }

    /** dns_call_found without an address, and the entry is free again. */
    method GiveUpAt(i: nat)
      requires Valid() && i < TABLE_SIZE
      modifies this`calls, requests, table, pcbs
      ensures Valid() && Tables() == GiveUp(old(Tables()), i)
    {
      CallFoundAt(i, None);
      table[i] := table[i].(state := Unused);
      assert table[..] == GiveUp(old(Tables()), i).table;
    }

    /** dns_send: the port of a pending query is open when its packet leaves. */
    method SendAt(i: nat)
      requires Valid() && i < TABLE_SIZE && table[i].serverIdx < MAX_SERVERS
      requires table[i].pcbIdx < MAX_SOURCE_PORTS && pcbs[table[i].pcbIdx]
      modifies this`calls, requests, table, pcbs
      ensures Valid() && Tables() == Send(old(Tables()), i)
    {
      if servers[table[i].serverIdx] == ANY {
        GiveUpAt(i);
      } else {
        assert pcbs[table[i].pcbIdx];
      }
    }

    /** dns_create_txid: draw until an ID is drawn that the table scan finds in no pending query. */
    method CreateTxid(draws: seq<u16>) returns (txid: u16)
      requires Valid() && HasFresh(table[..], draws)
      ensures exists n: nat :: FirstFresh(table[..], draws, n) && txid == draws[n]
    {
      var n := 0;
      var used := true;
      txid := 0;
      while used
        invariant 0 <= n <= |draws| && (used ==> forall k :: 0 <= k < n ==> !Fresh(table[..], draws[k]))
        invariant !used ==> exists k: nat :: FirstFresh(table[..], draws, k) && txid == draws[k]
        decreases used, |draws| - n
      {
        txid := draws[n];
        used := false;
        var i := 0;
        while i < TABLE_SIZE && !used
          invariant 0 <= i <= TABLE_SIZE
          invariant used ==> !Fresh(table[..], txid)
          invariant !used ==> forall k :: 0 <= k < i && table[k].state.Asking? ==> table[k].txid != txid
        {
          if table[i].state.Asking? && table[i].txid == txid {
            assert table[..][i].txid == txid;
            used := true;
          }
          i := i + 1;
        }
        assert !used ==> FirstFresh(table[..], draws, n);
        n := n + 1;
      }
    }

    /** An assignment to a whole table entry. */
    method Store(i: nat, e: Entry)
      requires Valid() && i < TABLE_SIZE && (e.state.Asking? ==> e.serverIdx < MAX_SERVERS)
      modifies table
      ensures Valid() && Tables() == SetEntry(old(Tables()), i, e)
    {
      table[i] := e;
      assert table[..] == old(table[..])[i := e];
    }

    /** dns_check_entry for a pending entry whose timer has run out: retry, change the server, or give up. */
    method RunOut(i: nat)
      requires Valid() && i < TABLE_SIZE && table[i].state.Asking?
      requires table[i].tmr == 1 && table[i].retries < MAX_RETRIES
      requires table[i].pcbIdx < MAX_SOURCE_PORTS && pcbs[table[i].pcbIdx]
      modifies this`calls, requests, table, pcbs
      ensures Valid() && Tables() == CheckEntry(old(Tables()), i, 0)
    {
      var e := table[i].(tmr := 0, retries := table[i].retries + 1);
      if e.retries == MAX_RETRIES {
        if e.serverIdx + 1 < MAX_SERVERS && servers[e.serverIdx + 1] != ANY {
          Store(i, e.(serverIdx := e.serverIdx + 1, tmr := 1, retries := 0));
          SendAt(i);
        } else {
          Store(i, e);
          GiveUpAt(i);
        }
      } else {
        Store(i, e.(tmr := e.retries));
        SendAt(i);
      }
    }

    /** dns_check_entry for a pending entry: count down first. */
    method CheckPending(i: nat)
      requires Valid() && i < TABLE_SIZE && table[i].state.Asking?
      requires table[i].tmr > 0 && table[i].retries < MAX_RETRIES
      requires table[i].pcbIdx < MAX_SOURCE_PORTS && pcbs[table[i].pcbIdx]
      modifies this`calls, requests, table, pcbs
      ensures Valid() && Tables() == CheckEntry(old(Tables()), i, 0)
    {
      if table[i].tmr - 1 == 0 {
        RunOut(i);
      } else {
        Store(i, table[i].(tmr := table[i].tmr - 1));
      }
    }

    /** dns_check_entry */
    method CheckEntryAt(i: nat, draws: seq<u16>)
      requires Valid() && i < TABLE_SIZE
      requires table[i].state.New? ==> HasFresh(table[..], draws)
      requires table[i].state.Asking? ==> table[i].tmr > 0 && table[i].retries < MAX_RETRIES
      requires table[i].state.Asking? || table[i].state.New? ==>
                 table[i].pcbIdx < MAX_SOURCE_PORTS && pcbs[table[i].pcbIdx]
      modifies this`calls, requests, table, pcbs
      ensures Valid() && Tables() == CheckEntry(old(Tables()), i, Drawn(old(table[..]), draws, 0))
    {
      var e := table[i];
      match e.state
      case New =>
        var txid := CreateTxid(draws);
        ghost var n: nat :| FirstFresh(table[..], draws, n) && txid == draws[n];
        DrawnIsFirst(table[..], draws, n, 0);
        Store(i, Started(e, txid));
        SendAt(i);
      case Asking =>
        CheckPending(i);
      case Done =>
        if e.ttl == 0 || e.ttl - 1 == 0 {
          Store(i, e.(ttl := 0, state := Unused));
        } else {
          Store(i, e.(ttl := e.ttl - 1));
        }
      case Unused =>
    }

    /** dns_tmr */
    method Tmr()
      requires Valid() && Inv(Tables())
      modifies this`calls, requests, table, pcbs
      ensures Valid() && Inv(Tables()) && Tables() == Tick(old(Tables()), TABLE_SIZE)
    {
      var i := 0;
      while i < TABLE_SIZE
        invariant 0 <= i <= TABLE_SIZE && Valid() && Inv(Tables())
        invariant Tables() == Tick(old(Tables()), i)
      {
        CheckEntryKeepsInv(Tables(), i, 0);
        assert EntryOk(table[i], pcbs[..]);
        CheckEntryAt(i, []);
        i := i + 1;
      }
    }

    /** dns_correct_response */
    method CorrectResponseAt(idx: nat, ipaddr: u32, ttl: u32)
      requires Valid() && idx < TABLE_SIZE
      modifies this`calls, requests, table, pcbs
      ensures Valid() && Tables() == CorrectResponse(old(Tables()), idx, ipaddr, ttl)
    {
      var kept := ttl;
      if kept > MAX_TTL {
        kept := MAX_TTL;
      }
      Store(idx, table[idx].(ipaddr := ipaddr, state := Done, ttl := kept));
      CallFoundAt(idx, Some(ipaddr));
      if table[idx].ttl == 0 && table[idx].state == Done {
        Store(idx, table[idx].(state := Unused));
      }
    }

    /** dns_recv */
    method RecvPacket(txid: u16, from: u32, verdict: Verdict)
      requires Valid() && Inv(Tables())
      modifies this`calls, requests, table, pcbs
      ensures Valid() && Inv(Tables()) && Tables() == Recv(old(Tables()), txid, from, verdict)
    {
      RecvKeepsInv(Tables(), txid, from, verdict);
      var i := 0;
      while i < TABLE_SIZE && !(table[i].state.Asking? && table[i].txid == txid)
        invariant 0 <= i <= TABLE_SIZE
        invariant FindTxid(table[..], txid, 0) == FindTxid(table[..], txid, i)
      {
        i := i + 1;
      }
      assert i == FindTxid(table[..], txid, 0);
      if i < TABLE_SIZE {
        assert EntryOk(table[i], pcbs[..]);
        if verdict.Ignored? || from != servers[table[i].serverIdx] {
          return;
        }
        match verdict
        case Address(ipaddr, ttl) =>
          CorrectResponseAt(i, ipaddr, ttl);
        case ServerError =>
          if table[i].serverIdx + 1 < MAX_SERVERS && servers[table[i].serverIdx + 1] != ANY {
            Store(i, table[i].(retries := MAX_RETRIES - 1, tmr := 1));
            CheckEntryAt(i, []);
          } else {
            GiveUpAt(i);
          }
        case NoAddress =>
          GiveUpAt(i);
      }
    }

    /** dns_alloc_pcb */
    method AllocPcbIndex(canOpen: bool) returns (idx: nat)
      requires Valid()
      modifies this`lastPcb, pcbs
      ensures Valid() && (pcbs[..], idx) == AllocPcb(old(pcbs[..]), old(lastPcb), canOpen)
      ensures lastPcb == if idx < MAX_SOURCE_PORTS then idx else old(lastPcb)
    {
      var i := 0;
      while i < MAX_SOURCE_PORTS && pcbs[i]
        invariant 0 <= i <= MAX_SOURCE_PORTS
        invariant ClosedPort(pcbs[..], 0) == ClosedPort(pcbs[..], i)
      {
        i := i + 1;
      }
      if i < MAX_SOURCE_PORTS && canOpen {
        pcbs[i] := true;
        assert pcbs[..] == old(pcbs[..])[i := true];
        lastPcb := i;
        return i;
      }
      i := 0;
      idx := lastPcb + 1;
      while i < MAX_SOURCE_PORTS
        invariant 0 <= i <= MAX_SOURCE_PORTS && idx <= MAX_SOURCE_PORTS
        invariant OpenPort(pcbs[..], lastPcb + 1, MAX_SOURCE_PORTS) == OpenPort(pcbs[..], idx, MAX_SOURCE_PORTS - i)
      {
        if idx >= MAX_SOURCE_PORTS {
          idx := 0;
        }
        if pcbs[idx] {
          lastPcb := idx;
          return;
        }
        i, idx := i + 1, idx + 1;
      }
      return MAX_SOURCE_PORTS;
    }

    /** The search for a pending query of the same name. */
    method SearchDuplicate(name: seq<u8>) returns (i: nat)
      requires Valid()
      ensures i == FindDuplicate(table[..], name, 0)
    {
      i := 0;
      while i < TABLE_SIZE && !(table[i].state.Asking? && SameText(name, table[i].name))
        invariant 0 <= i <= TABLE_SIZE
        invariant FindDuplicate(table[..], name, 0) == FindDuplicate(table[..], name, i)
      {
        i := i + 1;
      }
    }

    /** The search for a free request slot. */
    method SearchSlot() returns (r: nat)
      requires Valid()
      ensures r == FreeSlot(requests[..], 0)
    {
      r := 0;
      while r < MAX_REQUESTS && requests[r].found.Some?
        invariant 0 <= r <= MAX_REQUESTS
        invariant FreeSlot(requests[..], 0) == FreeSlot(requests[..], r)
      {
        r := r + 1;
      }
    }

    /** The search for an unused entry, or the oldest completed one. */
    method SearchEntry() returns (i: nat)
      requires Valid()
      ensures i == FreeEntry(table[..], seqno, 0, 0, TABLE_SIZE)
    {
      var lseq: u8, lseqi := 0, TABLE_SIZE;
      i := 0;
      while i < TABLE_SIZE && !table[i].state.Unused?
        invariant 0 <= i <= TABLE_SIZE && 0 <= lseqi <= TABLE_SIZE
        invariant lseqi < TABLE_SIZE ==> table[lseqi].state.Done?
        invariant FreeEntry(table[..], seqno, 0, 0, TABLE_SIZE) == FreeEntry(table[..], seqno, i, lseq, lseqi)
      {
        if table[i].state.Done? {
          var age := Age(seqno, table[i]);
          if age > lseq {
            lseq, lseqi := age, i;
          }
        }
        i := i + 1;
      }
      if i == TABLE_SIZE {
        i := lseqi;
      }
    }

    /** dns_enqueue: fill the entry and the slot for a query that has a port. */
    method Fill(i: nat, r: nat, name: seq<u8>, wanted: bool, ghost before: Dns)
      requires Valid() && i < TABLE_SIZE && r < MAX_REQUESTS && Shaped(before)
      requires Tables() == before.(pcbs := pcbs[..], lastPcb := lastPcb)
      modifies this`serial, this`asked, this`seqno, requests, table
      ensures Valid() && Tables() == Filled(before, i, r, name, wanted, pcbs[..], lastPcb)
    {
      table[i] := table[i].(state := New, seqno := seqno, name := name, pcbIdx := lastPcb);
      requests[r] := Request(if wanted then Some(serial) else None, i);
      serial, asked := if wanted then serial + 1 else serial, if wanted then asked + [name] else asked;
      seqno := if seqno == 255 then 0 else seqno + 1;
      ghost var d := Filled(before, i, r, name, wanted, pcbs[..], lastPcb);
      assert requests[..] == d.requests && table[..] == d.table;
    }

    /** dns_enqueue, once entry `i` and slot `r` have been found. */
    method OccupyEntry(i: nat, r: nat, name: seq<u8>, wanted: bool, canOpen: bool, draws: seq<u16>)
      returns (err: Err)
      requires Valid() && i < TABLE_SIZE && r < MAX_REQUESTS && !table[i].state.Asking?
      requires HasFresh(table[..], draws)
      modifies this, requests, table, pcbs
      ensures Valid()
      ensures (Tables(), err)
           == Occupy(old(Tables()), i, r, name, wanted, canOpen, Drawn(old(table[..]), draws, 0))
    {
      ghost var before := Tables();
      var pcb := AllocPcbIndex(canOpen);
      if pcb >= MAX_SOURCE_PORTS {
        requests[r] := Request(None, i);
        assert requests[..] == before.requests[r := Request(None, i)];
        Store(i, table[i].(state := Unused, seqno := seqno, name := name, pcbIdx := pcb));
        return ErrMem;
      }
      Fill(i, r, name, wanted, before);
      FreshIgnores(before.table, i, table[i], draws, 0);
      assert table[..] == before.table[i := table[i]];
      CheckEntryAt(i, draws);
      err := InProgress;
    }

    /** dns_enqueue. `draws` is what the random numbers would be if an ID has to be drawn. */
    method EnqueueName(name: seq<u8>, wanted: bool, canOpen: bool, draws: seq<u16>) returns (err: Err)
      requires Valid() && Inv(Tables()) && HasFresh(table[..], draws)
      modifies this, requests, table, pcbs
      ensures Valid() && Inv(Tables()) && Fresh(old(table[..]), Drawn(old(table[..]), draws, 0))
      ensures (Tables(), err)
           == Enqueue(old(Tables()), name, wanted, canOpen, Drawn(old(table[..]), draws, 0))
    {
      DrawnIsFresh(table[..], draws);
      EnqueueKeepsInv(Tables(), name, wanted, canOpen, Drawn(table[..], draws, 0));
      var dup := SearchDuplicate(name);
      var r := SearchSlot();
      if dup < TABLE_SIZE && r < MAX_REQUESTS {
        requests[r] := Request(if wanted then Some(serial) else None, dup);
        assert requests[..] == old(requests[..])[r := requests[r]];
        serial, asked := if wanted then serial + 1 else serial, if wanted then asked + [name] else asked;
        return InProgress;
      }
      var i := SearchEntry();
      if i == TABLE_SIZE || r == MAX_REQUESTS {
        return ErrMem;
      }
      err := OccupyEntry(i, r, name, wanted, canOpen, draws);
    }
  }
}
