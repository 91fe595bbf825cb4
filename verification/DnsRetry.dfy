/** How long a DNS query can stay pending, counted in timer ticks: exactly without an answer, and at most
    in any run. */
module DnsRetry {
  import opened Words
  import opened DnsTable
  import opened DnsSafety
  import opened DnsRuns

  // ---------------------------------------------------------------------------
  // The waits
  // ---------------------------------------------------------------------------

  /** The waits before retries `k`, `k + 1`, ... up to the last one, when `r` retries end the query. */
  function Waits(k: nat, r: nat): nat
    decreases r - k
  {
    if k >= r then 0 else k + Waits(k + 1, r)
  }

  /** Ticks spent on one server. */
  const TICKS_PER_SERVER: nat := 1 + Waits(1, MAX_RETRIES)

  lemma {:induction false} WaitsSum(k: nat, r: nat)
    requires k <= r
    ensures 2 * Waits(k, r) == r * (r - 1) - k * (k - 1)
    decreases r - k
  {
    if k < r {
      WaitsSum(k + 1, r);
    }
  }

  /** With R retries a server gets 1 + R(R-1)/2 ticks. */
  lemma TicksPerServer(r: nat)
    requires r >= 1
    ensures 1 + Waits(1, r) == 1 + r * (r - 1) / 2
    ensures TICKS_PER_SERVER == 7
  {
    WaitsSum(1, r);
    WaitsSum(1, MAX_RETRIES);
  }

  /** Ticks on the servers that come after `serverIdx`. */
  function BackupTicks(servers: seq<u32>, serverIdx: nat): nat
    requires |servers| == MAX_SERVERS
    decreases MAX_SERVERS - serverIdx
  {
    if BackupAvailable(servers, serverIdx) then TICKS_PER_SERVER + BackupTicks(servers, serverIdx + 1) else 0
  }

  /** The ticks after which an unanswered pending entry is given up. */
  function TicksLeft(e: Entry, servers: seq<u32>): nat
    requires |servers| == MAX_SERVERS
  {
    e.tmr + Waits(e.retries + 1, MAX_RETRIES) + BackupTicks(servers, e.serverIdx)
  }

  /** A pending query whose server is configured. */
  ghost predicate Served(d: Dns, i: nat) {
    match d
    case Dns(table, _, _, _, _, servers, _, _) =>
      Inv(d) && i < TABLE_SIZE && table[i].state.Asking? && servers[table[i].serverIdx] != ANY
  }

  ghost predicate Countdown(d: Dns, i: nat, c: nat) {
    match d
    case Dns(table, _, _, _, _, servers, _, _) =>
      Served(d, i) && TicksLeft(table[i], servers) == c
  }

  // ---------------------------------------------------------------------------
  // Ticks
  // ---------------------------------------------------------------------------

  /** One check brings the end one tick nearer, and only the last one ends the query. */
  lemma CheckCountsDown(d: Dns, i: nat, txid: u16)
    requires Served(d, i)
    ensures EntryOk(d.table[i], d.pcbs) && TicksLeft(d.table[i], d.servers) > 0
    ensures var d1 := CheckEntry(d, i, txid);
            && d1.servers == d.servers
            && (TicksLeft(d.table[i], d.servers) == 1 ==> d1.table[i].state.Unused?)
            && (TicksLeft(d.table[i], d.servers) > 1 ==>
                  Served(d1, i) && TicksLeft(d1.table[i], d1.servers) == TicksLeft(d.table[i], d.servers) - 1)
  {
    CheckEntryKeepsInv(d, i, txid);
    var e := d.table[i];
    assert EntryOk(e, d.pcbs);
    assert e.retries + 1 < MAX_RETRIES ==> Waits(e.retries + 1, MAX_RETRIES) > 0;
  }

  /** Entry `i` and the servers are the same. */
  predicate SameQuery(d: Dns, d1: Dns, i: nat) {
    match d1
    case Dns(table, _, _, _, _, servers, _, _) =>
      i < |table| == |d.table| && table[i] == d.table[i] && servers == d.servers
  }

  /** Checking another entry leaves this one alone. */
  lemma CheckKeepsOthers(d: Dns, k: nat, i: nat, txid: u16)
    requires Inv(d) && k < TABLE_SIZE && i < TABLE_SIZE && i != k
    ensures EntryOk(d.table[k], d.pcbs)
    ensures SameQuery(d, CheckEntry(d, k, txid), i)
  {
    EntryFacts(d, k);
  }

  lemma TickStepKeepsOthers(d: Dns, n: nat, i: nat)
    requires Inv(d) && n < TABLE_SIZE && i < TABLE_SIZE && i != n
    ensures SameQuery(Tick(d, n), Tick(d, n + 1), i)
  {
    CheckKeepsOthers(Tick(d, n), n, i, 0);
  }

  lemma {:induction false} TickKeepsUnchecked(d: Dns, n: nat, i: nat)
    requires Inv(d) && n <= i < TABLE_SIZE
    ensures SameQuery(d, Tick(d, n), i)
  {
    if n > 0 {
      TickKeepsUnchecked(d, n - 1, i);
      TickStepKeepsOthers(d, n - 1, i);
    }
  }

  lemma UncheckedCountdown(d: Dns, d1: Dns, i: nat, c: nat)
    requires Countdown(d, i, c) && Inv(d1) && SameQuery(d, d1, i)
    ensures Countdown(d1, i, c)
  {
  }

  /** The check of the entry itself. */
  lemma CheckedCountdown(d: Dns, i: nat, c: nat)
    requires Countdown(d, i, c)
    ensures EntryOk(d.table[i], d.pcbs)
    ensures c > 0 && CheckEntry(d, i, 0).servers == d.servers
    ensures if c == 1 then CheckEntry(d, i, 0).table[i].state.Unused? else Countdown(CheckEntry(d, i, 0), i, c - 1)
  {
    CheckCountsDown(d, i, 0);
  }

  /** A timer tick counts every unanswered query down by one, and ends it at one. */
  lemma {:induction false} TickCountsDown(d: Dns, n: nat, i: nat, c: nat)
    requires Countdown(d, i, c) && i < n <= TABLE_SIZE
    ensures c > 0 && Tick(d, n).servers == d.servers
    ensures if c == 1 then Tick(d, n).table[i].state.Unused? else Countdown(Tick(d, n), i, c - 1)
  {
    var d1 := Tick(d, n - 1);
    if n - 1 == i {
      TickKeepsUnchecked(d, i, i);
      UncheckedCountdown(d, d1, i, c);
      CheckedCountdown(d1, i, c);
    } else {
      TickCountsDown(d, n - 1, i, c);
      TickStepKeepsOthers(d, n - 1, i);
      if c > 1 {
        UncheckedCountdown(d1, Tick(d, n), i, c - 1);
      }
    }
  }

  // ---------------------------------------------------------------------------
  // Runs without an answer
  // ---------------------------------------------------------------------------

  /** How many of the events are timer ticks. */
  function TicksIn(evs: seq<Event>): nat
    decreases |evs|
  {
    if |evs| == 0 then 0 else (if evs[0].TimerTick? then 1 else 0) + TicksIn(evs[1..])
  }

  /** The servers stay, and a packet with the ID of entry `i` comes from another address than its server
      or is not an answer to it. */
  predicate NoAnswer(d: Dns, i: nat, ev: Event)
    requires Shaped(d) && i < TABLE_SIZE && d.table[i].serverIdx < MAX_SERVERS
  {
    !ev.SetServer? &&
    (ev.Packet? && ev.txid == d.table[i].txid ==>
       ev.verdict.Ignored? || ev.from != d.servers[d.table[i].serverIdx])
  }

  /** The run brings no answer for entry `i` while it is pending. */
  ghost predicate Unanswered(d: Dns, i: nat, evs: seq<Event>)
    requires Inv(d) && LegalRun(d, evs) && i < TABLE_SIZE
    decreases |evs|
  {
    |evs| > 0 && d.table[i].state.Asking? ==>
      NoAnswer(d, i, evs[0]) && Unanswered(Step(d, evs[0]), i, evs[1..])
  }

  /** A packet changes no entry but the one that it answers, and no server. */
  lemma RecvKeepsOthers(d: Dns, txid: u16, from: u32, verdict: Verdict, i: nat)
    requires Shaped(d) && i < TABLE_SIZE && FindTxid(d.table, txid, 0) != i
    ensures Recv(d, txid, from, verdict).table[i] == d.table[i]
    ensures Recv(d, txid, from, verdict).servers == d.servers
  {
  }

  lemma EnqueueKeepsServers(d: Dns, name: seq<u8>, wanted: bool, canOpen: bool, txid: u16)
    requires Shaped(d)
    ensures Enqueue(d, name, wanted, canOpen, txid).0.servers == d.servers
  {
  }

  /** Requests, and packets that do not answer it, leave a pending query as it is. */
  lemma NoAnswerKeepsCountdown(d: Dns, i: nat, ev: Event, c: nat)
    requires Countdown(d, i, c) && Legal(d, ev) && !ev.TimerTick? && NoAnswer(d, i, ev)
    ensures Countdown(Step(d, ev), i, c)
  {
    match ev
    case Packet(txid, from, verdict) =>
      if FindTxid(d.table, txid, 0) != i {
        RecvKeepsOthers(d, txid, from, verdict, i);
      }
    case Ask(name, wanted, canOpen, txid) =>
      AskingKeepsQueries(d, name, wanted, canOpen, txid, i);
      EnqueueKeepsServers(d, name, wanted, canOpen, txid);
  }

  /** A query that nobody answers is pending for exactly its number of ticks and is given up by the last
      of them, whatever requests, packets for other queries and unfit packets come in between. */
  lemma {:induction false} GivenUpAfterExactly(d: Dns, i: nat, evs: seq<Event>, c: nat)
    requires Countdown(d, i, c) && LegalRun(d, evs) && Unanswered(d, i, evs)
    ensures TicksIn(evs) < c ==> Countdown(Run(d, evs), i, c - TicksIn(evs))
    ensures TicksIn(evs) + 1 == c ==> Step(Run(d, evs), TimerTick).table[i].state.Unused?
    decreases |evs|
  {
    if |evs| == 0 {
      TickCountsDown(d, TABLE_SIZE, i, c);
    } else if evs[0].TimerTick? {
      TickCountsDown(d, TABLE_SIZE, i, c);
      if c > 1 {
        GivenUpAfterExactly(Step(d, evs[0]), i, evs[1..], c - 1);
      }
    } else {
      NoAnswerKeepsCountdown(d, i, evs[0], c);
      GivenUpAfterExactly(Step(d, evs[0]), i, evs[1..], c);
    }
  }

  /** A new query that is answered by no server is given up after TICKS_PER_SERVER ticks for each
      configured server in a row. */
  lemma NewQueryTicks(d: Dns, i: nat, txid: u16)
    requires Shaped(d) && i < TABLE_SIZE && d.servers[0] != ANY
    ensures var e := Started(d.table[i], txid);
            TicksLeft(e, d.servers) == TICKS_PER_SERVER * if d.servers[1] != ANY then 2 else 1
  {
    assert !BackupAvailable(d.servers, 1);
    assert BackupAvailable(d.servers, 0) == (d.servers[1] != ANY);
    assert BackupTicks(d.servers, 1) == 0;
  }

  /** An error reply that moves a query to the next server also brings its end nearer. */
  lemma FailoverCountsDown(d: Dns, i: nat)
    requires Served(d, i) && BackupAvailable(d.servers, d.table[i].serverIdx)
    ensures var d1 := Recv(d, d.table[i].txid, d.servers[d.table[i].serverIdx], ServerError);
            && d1.table[i].state.Asking? && d1.table[i].serverIdx == d.table[i].serverIdx + 1
            && TicksLeft(d1.table[i], d1.servers) < TicksLeft(d.table[i], d.servers)
  {
    assert EntryOk(d.table[i], d.pcbs);
    var k := FindTxid(d.table, d.table[i].txid, 0);
    assert k == i;
  }

  // ---------------------------------------------------------------------------
  // Any run
  // ---------------------------------------------------------------------------

  /** The most ticks that a pending query can still last, with any server that may yet be configured. */
  function Patience(e: Entry): int {
    e.tmr + Waits(e.retries + 1, MAX_RETRIES) + TICKS_PER_SERVER * (MAX_SERVERS - 1 - e.serverIdx)
  }

  /** It is positive and at most MAX_SERVERS * TICKS_PER_SERVER. */
  lemma PatienceBounds(d: Dns, i: nat)
    requires Inv(d) && i < TABLE_SIZE && d.table[i].state.Asking?
    ensures 0 < Patience(d.table[i]) <= MAX_SERVERS * TICKS_PER_SERVER
  {
    EntryFacts(d, i);
    var e := d.table[i];
    assert Waits(e.retries + 1, MAX_RETRIES) + e.tmr <= TICKS_PER_SERVER;
  }

  /** A timer check lowers the patience of a query that stays pending. */
  lemma CheckLowersPatience(d: Dns, i: nat, txid: u16)
    requires Inv(d) && i < TABLE_SIZE
    ensures EntryOk(d.table[i], d.pcbs)
    ensures CheckEntry(d, i, txid).table[i].state.Asking? ==>
              d.table[i].state.Asking? && Patience(CheckEntry(d, i, txid).table[i]) < Patience(d.table[i])
  {
    EntryFacts(d, i);
  }

  lemma TickStepLowersPatience(d: Dns, n: nat, i: nat)
    requires Inv(d) && n < TABLE_SIZE && i < TABLE_SIZE
    ensures var e, e1 := Tick(d, n).table[i], Tick(d, n + 1).table[i];
            e1.state.Asking? ==> e.state.Asking? && Patience(e1) <= Patience(e) - if i == n then 1 else 0
  {
    if n == i {
      CheckLowersPatience(Tick(d, n), i, 0);
    } else {
      TickStepKeepsOthers(d, n, i);
    }
  }

  lemma {:induction false} TickLowersPatience(d: Dns, n: nat, i: nat)
    requires Inv(d) && n <= TABLE_SIZE && i < TABLE_SIZE
    ensures Tick(d, n).table[i].state.Asking? ==>
              d.table[i].state.Asking? &&
              Patience(Tick(d, n).table[i]) <= Patience(d.table[i]) - if i < n then 1 else 0
  {
    if n > 0 {
      TickLowersPatience(d, n - 1, i);
      TickStepLowersPatience(d, n - 1, i);
    }
  }

  /** A change of server lowers it. */
  lemma FailoverLowersPatience(d: Dns, i: nat)
    requires Inv(d) && i < TABLE_SIZE && d.table[i].state.Asking? && BackupAvailable(d.servers, d.table[i].serverIdx)
    ensures EntryOk(d.table[i], d.pcbs)
    ensures var e := d.table[i].(retries := MAX_RETRIES - 1, tmr := 1);
            var e1 := CheckEntry(SetEntry(d, i, e), i, 0).table[i];
            e1.state.Asking? ==> Patience(e1) <= Patience(d.table[i])
  {
    EntryFacts(d, i);
  }

  /** No packet raises it. */
  lemma RecvNeverRaisesPatience(d: Dns, txid: u16, from: u32, verdict: Verdict, i: nat)
    requires Inv(d) && i < TABLE_SIZE && d.table[i].state.Asking?
    requires Recv(d, txid, from, verdict).table[i].state.Asking?
    ensures Patience(Recv(d, txid, from, verdict).table[i]) <= Patience(d.table[i])
  {
    if FindTxid(d.table, txid, 0) != i {
      RecvKeepsOthers(d, txid, from, verdict, i);
    } else if verdict.ServerError? && BackupAvailable(d.servers, d.table[i].serverIdx) {
      FailoverLowersPatience(d, i);
    }
  }

  /** A slot of the later tables that holds request `t` is as it was. */
  predicate SlotsKept(before: Dns, after: Dns, t: nat) {
    match after
    case Dns(_, requests, _, _, _, _, _, asked) =>
      && |requests| == |before.requests| && |before.asked| <= |asked|
      && forall r :: 0 <= r < |requests| && requests[r].found == Some(t) ==> requests[r] == before.requests[r]
  }

  lemma SlotsKeptTwice(a: Dns, b: Dns, c: Dns, t: nat)
    requires SlotsKept(a, b, t) && SlotsKept(b, c, t)
    ensures SlotsKept(a, c, t)
  {
  }

  lemma CheckKeepsSlots(d: Dns, i: nat, txid: u16, t: nat)
    requires Inv(d) && i < TABLE_SIZE
    ensures EntryOk(d.table[i], d.pcbs)
    ensures SlotsKept(d, CheckEntry(d, i, txid), t)
  {
    EntryFacts(d, i);
  }

  lemma {:induction false} TickKeepsSlots(d: Dns, n: nat, t: nat)
    requires Inv(d) && n <= TABLE_SIZE
    ensures SlotsKept(d, Tick(d, n), t)
  {
    if n > 0 {
      TickKeepsSlots(d, n - 1, t);
      CheckKeepsSlots(Tick(d, n - 1), n - 1, 0, t);
      SlotsKeptTwice(d, Tick(d, n - 1), Tick(d, n), t);
    }
  }

  lemma RecvKeepsSlots(d: Dns, txid: u16, from: u32, verdict: Verdict, t: nat)
    requires Shaped(d)
    ensures SlotsKept(d, Recv(d, txid, from, verdict), t)
  {
  }

  lemma EnqueueKeepsSlots(d: Dns, name: seq<u8>, wanted: bool, canOpen: bool, txid: u16, t: nat)
    requires Inv(d) && t < |d.asked|
    ensures SlotsKept(d, Enqueue(d, name, wanted, canOpen, txid).0, t)
  {
    var i, r := FreeEntry(d.table, d.seqno, 0, 0, TABLE_SIZE), FreeSlot(d.requests, 0);
    if i < TABLE_SIZE && r < MAX_REQUESTS {
      OccupyingKeepsSlots(d, i, r, name, wanted, canOpen, txid, t);
    }
  }

  lemma OccupyingKeepsSlots(d: Dns, i: nat, r: nat, name: seq<u8>, wanted: bool, canOpen: bool, txid: u16, t: nat)
    requires Shaped(d) && i < TABLE_SIZE && r < MAX_REQUESTS && !d.table[i].state.Asking? && t < |d.asked|
    ensures SlotsKept(d, Occupy(d, i, r, name, wanted, canOpen, txid).0, t)
  {
    if AllocPcb(d.pcbs, d.lastPcb, canOpen).1 < MAX_SOURCE_PORTS {
      OccupyStarts(d, i, r, name, wanted, canOpen, txid);
    }
  }

  /** Request `t`, once accepted, waits for at most `k` more ticks. */
  ghost predicate Within(d: Dns, t: nat, k: int) {
    match d
    case Dns(table, requests, _, _, _, _, _, asked) =>
      && Inv(d) && t < |asked|
      && forall r :: 0 <= r < |requests| && requests[r].found == Some(t) ==>
           requests[r].tableIdx < |table| && Patience(table[requests[r].tableIdx]) <= k
  }

  lemma StepKeepsSlots(d: Dns, ev: Event, t: nat)
    requires Inv(d) && Legal(d, ev) && t < |d.asked|
    ensures SlotsKept(d, Step(d, ev), t)
  {
    match ev
    case TimerTick => TickKeepsSlots(d, TABLE_SIZE, t);
    case Packet(txid, from, verdict) => RecvKeepsSlots(d, txid, from, verdict, t);
    case Ask(name, wanted, canOpen, txid) => EnqueueKeepsSlots(d, name, wanted, canOpen, txid, t);
    case SetServer(_, _) =>
  }

  /** No event raises the patience of a query that stays pending, and a timer tick lowers it. */
  lemma StepLowersPatience(d: Dns, ev: Event, i: nat)
    requires Inv(d) && Legal(d, ev) && i < TABLE_SIZE
    requires d.table[i].state.Asking? && Step(d, ev).table[i].state.Asking?
    ensures Patience(Step(d, ev).table[i]) <= Patience(d.table[i]) - if ev.TimerTick? then 1 else 0
  {
    match ev
    case TimerTick => TickLowersPatience(d, TABLE_SIZE, i);
    case Packet(txid, from, verdict) => RecvNeverRaisesPatience(d, txid, from, verdict, i);
    case Ask(name, wanted, canOpen, txid) => AskingKeepsQueries(d, name, wanted, canOpen, txid, i);
    case SetServer(_, _) =>
  }

  lemma SlotFacts(d: Dns, r: nat)
    requires Inv(d) && r < MAX_REQUESTS
    ensures SlotOk(d.requests[r], d.table, d.asked)
  {
  }

  lemma StepWithin(d: Dns, ev: Event, t: nat, k: int)
    requires Within(d, t, k) && Legal(d, ev)
    ensures Within(Step(d, ev), t, k - if ev.TimerTick? then 1 else 0)
  {
    var d1 := Step(d, ev);
    StepKeepsSlots(d, ev, t);
    forall r | 0 <= r < |d1.requests| && d1.requests[r].found == Some(t)
      ensures d1.requests[r].tableIdx < |d1.table|
      ensures Patience(d1.table[d1.requests[r].tableIdx]) <= k - if ev.TimerTick? then 1 else 0
    {
      SlotFacts(d, r);
      SlotFacts(d1, r);
      StepLowersPatience(d, ev, d1.requests[r].tableIdx);
    }
  }

  lemma {:induction false} RunWithin(d: Dns, evs: seq<Event>, t: nat, k: int)
    requires Within(d, t, k) && LegalRun(d, evs)
    ensures Within(Run(d, evs), t, k - TicksIn(evs))
    decreases |evs|
  {
    if |evs| > 0 {
      StepWithin(d, evs[0], t, k);
      RunWithin(Step(d, evs[0]), evs[1..], t, k - if evs[0].TimerTick? then 1 else 0);
    }
  }

  /** No accepted callback waits through more than MAX_SERVERS * TICKS_PER_SERVER timer ticks, whatever
      else happens in between: by then it has been called, once. */
  lemma CalledInTime(d: Dns, evs: seq<Event>, t: nat)
    requires Inv(d) && LegalRun(d, evs) && t < |d.asked|
    requires TicksIn(evs) >= MAX_SERVERS * TICKS_PER_SERVER
    ensures var d1 := Run(d, evs); CallsOf(d1.calls, |d1.calls|, t) == 1 && !Waiting(d1, t)
  {
    forall r | 0 <= r < |d.requests| && d.requests[r].found == Some(t)
      ensures d.requests[r].tableIdx < |d.table|
      ensures Patience(d.table[d.requests[r].tableIdx]) <= MAX_SERVERS * TICKS_PER_SERVER
    {
      SlotFacts(d, r);
      PatienceBounds(d, d.requests[r].tableIdx);
    }
    RunWithin(d, evs, t, MAX_SERVERS * TICKS_PER_SERVER);
    var d1 := Run(d, evs);
    if r :| 0 <= r < |d1.requests| && d1.requests[r].found == Some(t) {
      SlotFacts(d1, r);
      PatienceBounds(d1, d1.requests[r].tableIdx);
      assert false;
    }
    NoSlotHolds(d1.requests, MAX_REQUESTS, t);
  }
}
