/** A run of the DNS client that ends with a completed entry of age 0: 255 queries after its own. */
module DnsStale {
  import opened Words
  import opened CText
  import opened DnsTable
  import opened DnsSafety
  import opened DnsRuns

  // ---------------------------------------------------------------------------
  // The run
  // ---------------------------------------------------------------------------

  const HOUR: u32 := 3600
  const SHORT_LIVED := 252

  /** A query for the one-letter name `c` with ID `c`. */
  function Query(c: u8): Event {
    Ask([c], true, true, c)
  }

  function Answer(c: u8, server: u32, ttl: u32): Event {
    Packet(c, server, Address(1, ttl))
  }

  /** `n` queries one after another, each answered with a time to live of 0. */
  function ShortLived(n: nat, server: u32, rest: seq<Event>): seq<Event> {
    if n == 0 then rest else OnceMore(server, ShortLived(n - 1, server, rest))
  }

  function OnceMore(server: u32, rest: seq<Event>): seq<Event> {
    [Query(98)] + ([Answer(98, server, 0)] + rest)
  }

  /** Three queries that stay without an answer. */
  function Unheard(): seq<Event> {
    [Query(98)] + ([Query(99)] + ([Query(100)] + []))
  }

  /** One query is answered for an hour; 252 short-lived ones follow, and three that stay pending. */
  function StaleRun(server: u32): seq<Event> {
    [Query(97)] + ([Answer(97, server, HOUR)] + ShortLived(SHORT_LIVED, server, Unheard()))
  }

  /** Where a legal run ends. */
  ghost function Outcome(d: Dns, evs: seq<Event>): Option<Dns> {
    if Inv(d) && LegalRun(d, evs) then Some(Run(d, evs)) else None
  }

  lemma EventLeads(d: Dns, ev: Event, rest: seq<Event>)
    requires Inv(d) && Legal(d, ev)
    ensures Outcome(d, [ev] + rest) == Outcome(Step(d, ev), rest)
  {
    assert ([ev] + rest)[1..] == rest;
  }

  // ---------------------------------------------------------------------------
  // A query is started
  // ---------------------------------------------------------------------------

  lemma {:induction false} FirstUnused(table: seq<Entry>, seqno: u8, from: nat, lseq: u8, lseqi: nat, i: nat)
    requires from <= i < |table| && lseqi <= |table| && (lseqi < |table| ==> table[lseqi].state.Done?)
    requires table[i].state.Unused? && forall k :: from <= k < i ==> !table[k].state.Unused?
    ensures FreeEntry(table, seqno, from, lseq, lseqi) == i
    decreases i - from
  {
    if from < i {
      if table[from].state.Done? && Age(seqno, table[from]) > lseq {
        FirstUnused(table, seqno, from + 1, Age(seqno, table[from]), from, i);
      } else {
        FirstUnused(table, seqno, from + 1, lseq, lseqi, i);
      }
    }
  }

  lemma {:induction false} FirstFree(requests: seq<Request>, from: nat, r: nat)
    requires from <= r < |requests| && FreeSlotAt(requests, r)
    requires forall k :: from <= k < r ==> !FreeSlotAt(requests, k)
    ensures FreeSlot(requests, from) == r
    decreases r - from
  {
    if from < r {
      FirstFree(requests, from + 1, r);
    }
  }

  /** Entry `i` is the first unused one, slot `r` the first free one, and nobody asks for `name`. */
  predicate Open(d: Dns, i: nat, r: nat, name: seq<u8>) {
    && Shaped(d) && i < TABLE_SIZE && r < MAX_REQUESTS && d.servers[0] != ANY
    && d.table[i].state.Unused? && (forall k :: 0 <= k < i ==> !d.table[k].state.Unused?)
    && FreeSlotAt(d.requests, r) && (forall k :: 0 <= k < r ==> !FreeSlotAt(d.requests, k))
    && forall k :: 0 <= k < TABLE_SIZE ==> !Duplicate(d.table, k, name)
  }

  /** The query takes that entry and that slot. */
  lemma QueryStarts(d: Dns, i: nat, r: nat, name: seq<u8>, txid: u16)
    requires Open(d, i, r, name)
    ensures var d1 := Enqueue(d, name, true, true, txid).0;
            && |d1.table| == TABLE_SIZE && d1.table == d.table[i := d1.table[i]]
            && d1.table[i].state.Asking? && d1.table[i].txid == txid && d1.table[i].name == name
            && d1.table[i].serverIdx == 0 && d1.table[i].seqno == d.seqno
            && d1.requests == d.requests[r := Request(Some(|d.asked|), i)]
            && d1.servers == d.servers && d1.seqno == if d.seqno == 255 then 0 else d.seqno + 1
  {
    FirstUnused(d.table, d.seqno, 0, 0, TABLE_SIZE, i);
    FirstFree(d.requests, 0, r);
    DuplicateFound(d.table, name, 0);
    AllocFailsIff(d.pcbs, d.lastPcb, true);
    OccupyStarts(d, i, r, name, true, true, txid);
  }

  // ---------------------------------------------------------------------------
  // A query is answered
  // ---------------------------------------------------------------------------

  /** No query is pending; entry `i` is the first unused one. */
  ghost predicate Idle(d: Dns, servers: seq<u32>, i: nat) {
    match d
    case Dns(table, _, _, _, _, servers1, _, _) =>
      && Inv(d) && servers1 == servers && |servers| == MAX_SERVERS && servers[0] != ANY
      && (forall k :: 0 <= k < TABLE_SIZE ==> !table[k].state.Asking?)
      && i < TABLE_SIZE && table[i].state.Unused? && (forall k :: 0 <= k < i ==> !table[k].state.Unused?)
  }

  /** Then no callback waits, so slot 0 is free. */
  lemma IdleOpens(d: Dns, servers: seq<u32>, i: nat, name: seq<u8>, txid: u16)
    requires Idle(d, servers, i)
    ensures Open(d, i, 0, name) && Fresh(d.table, txid)
  {
    assert SlotOk(d.requests[0], d.table, d.asked);
  }

  /** The answer to the only pending query completes it, or frees its entry if it must not be kept. */
  lemma AnswerEnds(d: Dns, i: nat, txid: u16, ttl: u32)
    requires Inv(d) && i < TABLE_SIZE && d.table[i].state.Asking? && d.table[i].txid == txid && ttl <= MAX_TTL
    ensures var d1 := Recv(d, txid, d.servers[d.table[i].serverIdx], Address(1, ttl));
            && |d1.table| == TABLE_SIZE && d1.table == d.table[i := d1.table[i]]
            && d1.table[i].state == (if ttl == 0 then Unused else Done) && d1.table[i].seqno == d.table[i].seqno
            && d1.servers == d.servers && d1.seqno == d.seqno
  {
    assert FindTxid(d.table, txid, 0) == i;
  }

  /** A query and its answer use up one sequence number, and touch one entry. */
  lemma QueryAnswered(d: Dns, servers: seq<u32>, i: nat, c: u8, ttl: u32, rest: seq<Event>) returns (d2: Dns)
    requires Idle(d, servers, i) && ttl <= MAX_TTL
    ensures Inv(d2) && d2.servers == servers && d2.table == d.table[i := d2.table[i]]
    ensures d2.table[i].state == (if ttl == 0 then Unused else Done) && d2.table[i].seqno == d.seqno
    ensures d2.seqno == if d.seqno == 255 then 0 else d.seqno + 1
    ensures Outcome(d, [Query(c)] + ([Answer(c, servers[0], ttl)] + rest)) == Outcome(d2, rest)
  {
    IdleOpens(d, servers, i, [c], c);
    QueryStarts(d, i, 0, [c], c);
    var d1 := Step(d, Query(c));
    AnswerEnds(d1, i, c, ttl);
    d2 := Step(d1, Answer(c, servers[0], ttl));
    var rest1 := [Answer(c, servers[0], ttl)] + rest;
    EventLeads(d, Query(c), rest1);
    EventLeads(d1, Answer(c, servers[0], ttl), rest);
  }

  /** The entry of the first query is kept and keeps its number; the others are unused. */
  ghost predicate Kept(d: Dns, servers: seq<u32>, seqno: nat) {
    match d
    case Dns(table, _, _, _, seqno1, servers1, _, _) =>
      && Inv(d) && servers1 == servers && |servers| == MAX_SERVERS && servers[0] != ANY && seqno1 == seqno
      && table[0].state.Done? && table[0].seqno == 0
      && forall k :: 1 <= k < TABLE_SIZE ==> table[k].state.Unused?
  }

  lemma OneShortLived(d: Dns, servers: seq<u32>, seqno: nat, rest: seq<Event>) returns (d2: Dns)
    requires Kept(d, servers, seqno) && seqno < 255
    ensures Kept(d2, servers, seqno + 1)
    ensures Outcome(d, OnceMore(servers[0], rest)) == Outcome(d2, rest)
  {
    d2 := QueryAnswered(d, servers, 1, 98, 0, rest);
  }

  /** Once more leads from `e` to a good state of the same outcome. */
  ghost predicate LeadsOn(f: (Dns, seq<Event>) -> Option<Dns>, good: (Dns, nat) -> bool, server: u32, e: Dns, m: nat,
                          r: seq<Event>) {
    exists e2 :: good(e2, m + 1) && f(e, OnceMore(server, r)) == f(e2, r)
  }

  ghost predicate AlwaysLeadsOn(f: (Dns, seq<Event>) -> Option<Dns>, good: (Dns, nat) -> bool, server: u32) {
    forall e, m: nat, r :: good(e, m) && m < 255 ==> LeadsOn(f, good, server, e, m, r)
  }

  /** What holds for once more holds for `n` times more. */
  lemma {:induction false} ShortLivedFrom(f: (Dns, seq<Event>) -> Option<Dns>, good: (Dns, nat) -> bool, server: u32,
                                          d: Dns, seqno: nat, n: nat, rest: seq<Event>) returns (d1: Dns)
    requires good(d, seqno) && seqno + n <= 255 && AlwaysLeadsOn(f, good, server)
    ensures good(d1, seqno + n) && f(d, ShortLived(n, server, rest)) == f(d1, rest)
    decreases n
  {
    if n == 0 {
      d1 := d;
    } else {
      var r := ShortLived(n - 1, server, rest);
      assert LeadsOn(f, good, server, d, seqno, r);
      var e2 :| good(e2, seqno + 1) && f(d, OnceMore(server, r)) == f(e2, r);
      d1 := ShortLivedFrom(f, good, server, e2, seqno + 1, n - 1, rest);
    }
  }

  ghost function KeptOf(servers: seq<u32>): (Dns, nat) -> bool {
    (e: Dns, m: nat) => Kept(e, servers, m)
  }

  lemma KeptLeads(servers: seq<u32>)
    requires |servers| == MAX_SERVERS
    ensures AlwaysLeadsOn(Outcome, KeptOf(servers), servers[0])
  {
    var f: (Dns, seq<Event>) -> Option<Dns>, good := Outcome, KeptOf(servers);
    forall e, m: nat, r | good(e, m) && m < 255
      ensures LeadsOn(f, good, servers[0], e, m, r)
    {
      var e2 := OneShortLived(e, servers, m, r);
      assert good(e2, m + 1) && f(e, OnceMore(servers[0], r)) == f(e2, r);
    }
  }

  /** After `n` short-lived queries the entry is still kept. */
  lemma ShortLivedRun(d: Dns, servers: seq<u32>, seqno: nat, n: nat, rest: seq<Event>) returns (d1: Dns)
    requires Kept(d, servers, seqno) && seqno + n <= 255
    ensures Kept(d1, servers, seqno + n)
    ensures Outcome(d, ShortLived(n, servers[0], rest)) == Outcome(d1, rest)
  {
    KeptLeads(servers);
    assert KeptOf(servers)(d, seqno);
    d1 := ShortLivedFrom(Outcome, KeptOf(servers), servers[0], d, seqno, n, rest);
    assert KeptOf(servers)(d1, seqno + n);
  }

  // ---------------------------------------------------------------------------
  // Three queries stay pending
  // ---------------------------------------------------------------------------

  /** Entries 1 to `m` are pending for the letters from b on, with one slot each. */
  ghost predicate Filling(d: Dns, servers: seq<u32>, m: nat, seqno: nat) {
    match d
    case Dns(table, requests, _, _, seqno1, servers1, _, _) =>
      && Inv(d) && servers1 == servers && |servers| == MAX_SERVERS && servers[0] != ANY && seqno1 == seqno
      && table[0].state.Done? && table[0].seqno == 0
      && (forall k :: 1 <= k < TABLE_SIZE ==>
            if k <= m then table[k].state.Asking? && table[k].name == [(97 + k) as u8] && table[k].txid == 97 + k
            else table[k].state.Unused?)
      && (forall r :: 0 <= r < MAX_REQUESTS ==> (FreeSlotAt(requests, r) <==> r >= m))
  }

  lemma KeptFills(d: Dns, servers: seq<u32>, seqno: nat)
    requires Kept(d, servers, seqno)
    ensures Filling(d, servers, 0, seqno)
  {
    forall r | 0 <= r < MAX_REQUESTS ensures FreeSlotAt(d.requests, r) {
      assert SlotOk(d.requests[r], d.table, d.asked);
    }
  }

  lemma NobodyAsks(d: Dns, servers: seq<u32>, m: nat, seqno: nat, c: u8)
    requires Filling(d, servers, m, seqno) && m < TABLE_SIZE && c == 98 + m
    ensures Shaped(d) && Fresh(d.table, c) && forall k :: 0 <= k < TABLE_SIZE ==> !Duplicate(d.table, k, [c])
  {
    forall k | 0 <= k < TABLE_SIZE && d.table[k].state.Asking?
      ensures !SameText([c], d.table[k].name)
    {
      var name := d.table[k].name;
      assert name == [(97 + k) as u8];
      assert Lower([c][0]) != Lower(name[0]);
    }
  }

  lemma FillingOpens(d: Dns, servers: seq<u32>, m: nat, seqno: nat, c: u8)
    requires Filling(d, servers, m, seqno) && m + 1 < TABLE_SIZE && c == 98 + m
    ensures Open(d, m + 1, m, [c]) && Fresh(d.table, c)
  {
    NobodyAsks(d, servers, m, seqno, c);
    assert d.table[m + 1].state.Unused?;
    assert forall k :: 0 <= k < m + 1 ==> !d.table[k].state.Unused?;
  }

  lemma QueryFillsEntry(d: Dns, d1: Dns, servers: seq<u32>, m: nat, seqno: nat, c: u8)
    requires Filling(d, servers, m, seqno) && m + 1 < TABLE_SIZE && c == 98 + m
    requires Inv(d1) && d1.servers == servers && d1.seqno == if seqno == 255 then 0 else seqno + 1
    requires |d1.table| == TABLE_SIZE && d1.table == d.table[m + 1 := d1.table[m + 1]]
    requires d1.table[m + 1].state.Asking? && d1.table[m + 1].txid == c && d1.table[m + 1].name == [c]
    requires d1.requests == d.requests[m := Request(Some(|d.asked|), m + 1)]
    ensures Filling(d1, servers, m + 1, if seqno == 255 then 0 else seqno + 1)
  {
    forall k | 1 <= k < TABLE_SIZE
      ensures if k <= m + 1 then d1.table[k].state.Asking? && d1.table[k].name == [(97 + k) as u8]
                                 && d1.table[k].txid == 97 + k
              else d1.table[k].state.Unused?
    {
      assert k != m + 1 ==> d1.table[k] == d.table[k];
    }
    forall r | 0 <= r < MAX_REQUESTS
      ensures FreeSlotAt(d1.requests, r) <==> r >= m + 1
    {
      assert FreeSlotAt(d.requests, r) <==> r >= m;
    }
  }

  lemma QueryFills(d: Dns, servers: seq<u32>, m: nat, seqno: nat, c: u8, rest: seq<Event>) returns (d1: Dns)
    requires Filling(d, servers, m, seqno) && m + 1 < TABLE_SIZE && c == 98 + m
    ensures Filling(d1, servers, m + 1, if seqno == 255 then 0 else seqno + 1)
    ensures Outcome(d, [Query(c)] + rest) == Outcome(d1, rest)
  {
    FillingOpens(d, servers, m, seqno, c);
    QueryStarts(d, m + 1, m, [c], c);
    EventLeads(d, Query(c), rest);
    d1 := Step(d, Query(c));
    QueryFillsEntry(d, d1, servers, m, seqno, c);
  }

  lemma UnheardRun(d: Dns, servers: seq<u32>) returns (d3: Dns)
    requires Kept(d, servers, 253)
    ensures Filling(d3, servers, 3, 0) && Outcome(d, Unheard()) == Outcome(d3, [])
  {
    KeptFills(d, servers, 253);
    var d1 := QueryFills(d, servers, 0, 253, 98, [Query(99)] + ([Query(100)] + []));
    var d2 := QueryFills(d1, servers, 1, 254, 99, [Query(100)] + []);
    d3 := QueryFills(d2, servers, 2, 255, 100, []);
  }

  lemma LongLivedRun(servers: seq<u32>, rest: seq<Event>) returns (d: Dns)
    requires |servers| == MAX_SERVERS && servers[0] != ANY
    ensures Kept(d, servers, 1)
    ensures Outcome(Initial(servers), [Query(97)] + ([Answer(97, servers[0], HOUR)] + rest)) == Outcome(d, rest)
  {
    InitialInv(servers);
    d := QueryAnswered(Initial(servers), servers, 0, 97, HOUR, rest);
  }

  lemma StaleRunEnds(servers: seq<u32>) returns (d: Dns)
    requires |servers| == MAX_SERVERS && servers[0] != ANY
    ensures Filling(d, servers, 3, 0) && Outcome(Initial(servers), StaleRun(servers[0])) == Outcome(d, [])
  {
    d := LongLivedRun(servers, ShortLived(SHORT_LIVED, servers[0], Unheard()));
    d := ShortLivedRun(d, servers, 1, SHORT_LIVED, Unheard());
    d := UnheardRun(d, servers);
  }

  /** The run leads to a stale entry: a fourth name is refused, with a slot and a port to be had. */
  lemma StaleEntryIsReached(servers: seq<u32>, txid: u16)
    requires |servers| == MAX_SERVERS && servers[0] != ANY
    ensures Inv(Initial(servers)) && LegalRun(Initial(servers), StaleRun(servers[0]))
    ensures var d := Run(Initial(servers), StaleRun(servers[0]));
            && Stale(d, 0) && FreeSlotAt(d.requests, 3)
            && Enqueue(d, [101], true, true, txid) == (d, ErrMem)
  {
    var d := StaleRunEnds(servers);
    assert Run(d, []) == d;
    NobodyAsks(d, servers, 3, 0, 101);
    StaleEntryIsNotReused(d, 0, [101], txid);
  }
}
