/** The doubly linked list of waiting calls, and the loop that looks at the sockets of a call. */
module SelectList {
  import opened Words
  import opened SelectProtocol

  /** struct lwip_select_cb, as far as the list is concerned. */
  class Entry {
    var next: Entry?
    var prev: Entry?

    /** As the memset of the caller leaves it. */
    constructor ()
      ensures next == null && prev == null
    {
      next, prev := null, null;
    }
  }

  ghost predicate Distinct<T>(s: seq<T>) {
    forall p, q :: 0 <= p < q < |s| ==> s[p] != s[q]
  }

  function At(s: seq<Entry>, i: int): Entry? {
    if 0 <= i < |s| then s[i] else null
  }

  function Neighbour(e: Entry?): set<Entry> {
    if e == null then {} else {e}
  }

  /** The pointers run through the entries in both directions. */
  ghost predicate Chained(s: seq<Entry>)
    reads s
  {
    && (forall i {:trigger s[i].next} :: 0 <= i < |s| ==> s[i].next == At(s, i + 1))
    && (forall i {:trigger s[i].prev} :: 0 <= i < |s| ==> s[i].prev == At(s, i - 1))
  }

  /** select_cb_list and select_cb_ctr. */
  class WaitList {
    var head: Entry?
    var ctr: nat
    ghost var entries: seq<Entry>

    ghost predicate Valid()
      reads this, entries
    {
      Distinct(entries) && head == At(entries, 0) && Chained(entries)
    }

    constructor ()
      ensures Valid() && entries == [] && ctr == 0
    {
      head, ctr, entries := null, 0, [];
    }

    /** lwip_link_select_cb */
    method Link(e: Entry)
      requires Valid() && e !in entries && e.prev == null
      modifies this, e, entries
      ensures Valid() && entries == [e] + old(entries) && ctr == old(ctr) + 1
    {
      e.next := head;
      if head != null {
        head.prev := e;
      }
      head := e;
      ctr := ctr + 1;
      entries := [e] + entries;
    }

    /** lwip_unlink_select_cb: what is left is the same list without the entry, in the same order. */
    method Unlink(e: Entry)
      requires Valid() && e in entries
      modifies this, entries
      ensures Valid() && entries == Remove(old(entries), e) && ctr == old(ctr) + 1
    {
      ghost var i :| 0 <= i < |entries| && entries[i] == e;
      ghost var rest := Without(entries, i);
      Neighbours(entries, i);
      Bridge(e);
      forall j: nat | j < |rest|
        ensures rest[j].next == At(rest, j + 1)
      {
        ghost var m: int := Beside(entries, rest, i, j);
        assert old(entries[m].next) == At(entries, m + 1);
      }
      forall j: nat | j < |rest|
        ensures rest[j].prev == At(rest, j - 1)
      {
        ghost var m: int := Beside(entries, rest, i, j);
        assert old(entries[m].prev) == At(entries, m - 1);
      }
      entries := rest;
    }

    /** The pointer part of lwip_unlink_select_cb. */
    method Bridge(e: Entry)
      requires (head == e) == (e.prev == null) && e.next != e && e.prev != e
      modifies this`head, this`ctr, Neighbour(e.next)`prev, Neighbour(e.prev)`next
      ensures ctr == old(ctr) + 1 && head == if old(head) == e then old(e.next) else old(head)
      ensures old(e.next) != null ==> old(e.next).prev == old(e.prev)
      ensures old(e.prev) != null ==> old(e.prev).next == old(e.next)
    {
      if e.next != null {
        e.next.prev := e.prev;
      }
      if head == e {
        assert e.prev == null;
        head := e.next;
      } else {
        assert e.prev != null;
        e.prev.next := e.next;
      }
      ctr := ctr + 1;
    }
  }

  /** The entry that is now at `j` and what it was beside. */
  lemma Beside(s: seq<Entry>, t: seq<Entry>, k: nat, j: nat) returns (m: nat)
    requires k < |s| && Distinct(s) && j < |t| && |t| == |s| - 1
    requires forall i :: 0 <= i < |t| ==> t[i] == s[if i < k then i else i + 1]
    ensures m < |s| && t[j] == s[m]
    ensures At(t, j + 1) == if m == k - 1 then At(s, k + 1) else At(s, m + 1)
    ensures At(t, j - 1) == if m == k + 1 then At(s, k - 1) else At(s, m - 1)
    ensures (At(s, k - 1) == s[m] <==> m == k - 1) && (At(s, k + 1) == s[m] <==> m == k + 1)
  {
    m := if j < k then j else j + 1;
  }

  /** What is left of the list when entry `k` goes. */
  lemma Without(s: seq<Entry>, k: nat) returns (t: seq<Entry>)
    requires k < |s| && Distinct(s)
    ensures t == Remove(s, s[k]) && Distinct(t) && |t| == |s| - 1
    ensures forall i :: 0 <= i < |t| ==> t[i] == s[if i < k then i else i + 1]
  {
    RemoveAt(s, k);
    t := s[..k] + s[k + 1..];
  }

  lemma Neighbours(s: seq<Entry>, i: nat)
    requires i < |s| && Distinct(s) && Chained(s)
    ensures s[i].next == At(s, i + 1) && s[i].prev == At(s, i - 1)
    ensures s[i].next != null ==> s[i].next in s && s[i].next != s[i]
    ensures s[i].prev != null ==> s[i].prev in s && s[i].prev != s[i] && s[i].prev != s[i].next
    ensures At(s, 0) == s[i] <==> s[i].prev == null
  {
  }

  lemma {:induction false} RemoveAbsent<T>(s: seq<T>, x: T)
    requires x !in s
    ensures Remove(s, x) == s
  {
    if s != [] {
      RemoveAbsent(s[1..], x);
    }
  }

  /** From a list without repetitions exactly the one place goes. */
  lemma {:induction false} RemoveAt<T>(s: seq<T>, i: nat)
    requires i < |s| && Distinct(s)
    ensures Remove(s, s[i]) == s[..i] + s[i + 1..]
  {
    if i == 0 {
      RemoveAbsent(s[1..], s[0]);
      assert s[..0] + s[1..] == s[1..];
    } else {
      RemoveAt(s[1..], i - 1);
      assert s[..i] + s[i + 1..] == [s[0]] + (s[1..][..i - 1] + s[1..][i..]);
    }
  }

  // ---------------------------------------------------------------------------
  // lwip_selscan
  // ---------------------------------------------------------------------------

  /** Socket `i` is watched, open and ready for an event of kind `k`. */
  predicate Hit(socks: seq<Option<Sock>>, f: FdSets, k: Kind, i: nat)
    requires i < |socks|
  {
    Watches(f, i, k) && socks[i].Some? && Ready(socks[i].value, k)
  }

  ghost predicate AreHits(hits: set<nat>, socks: seq<Option<Sock>>, f: FdSets, k: Kind, n: nat)
    requires n <= |socks|
  {
    forall i: nat :: i in hits <==> i < n && Hit(socks, f, k, i)
  }

  lemma AddHit(hits: set<nat>, socks: seq<Option<Sock>>, f: FdSets, k: Kind, n: nat)
    requires n < |socks| && AreHits(hits, socks, f, k, n)
    ensures Hit(socks, f, k, n) ==> AreHits(hits + {n}, socks, f, k, n + 1) && |hits + {n}| == |hits| + 1
    ensures !Hit(socks, f, k, n) ==> AreHits(hits, socks, f, k, n + 1)
  {
  }

  /** lwip_selscan. Other threads may run between two sockets: `socks[i]` is what the scan sees of socket
      `i` in the one protected region in which it looks there. -1 exactly when a watched socket is seen
      closed, otherwise the sets of watched sockets that are seen ready and the number of their members. */
  method SelScan(maxfdp1: nat, f: FdSets, before: FdSets, socks: seq<Option<Sock>>) returns (nready: int, out: FdSets)
    requires maxfdp1 <= |socks|
    ensures nready == -1 <==> exists i :: 0 <= i < maxfdp1 && Watched(f, i) && socks[i].None?
    ensures nready < 0 ==> nready == -1 && out == before
    ensures nready >= 0 ==> nready == |out.read| + |out.write| + |out.except|
    ensures nready >= 0 ==> AreHits(out.read, socks, f, Read, maxfdp1)
    ensures nready >= 0 ==> AreHits(out.write, socks, f, Write, maxfdp1)
    ensures nready >= 0 ==> AreHits(out.except, socks, f, Except, maxfdp1)
  {
    var lread: set<nat>, lwrite: set<nat>, lexcept: set<nat> := {}, {}, {};
    nready := 0;
    out := before;
    var i: nat := 0;
    while i < maxfdp1
      invariant i <= maxfdp1 && nready == |lread| + |lwrite| + |lexcept|
      invariant AreHits(lread, socks, f, Read, i)
      invariant AreHits(lwrite, socks, f, Write, i)
      invariant AreHits(lexcept, socks, f, Except, i)
      invariant forall j :: 0 <= j < i && Watched(f, j) ==> socks[j].Some?
    {
      AddHit(lread, socks, f, Read, i);
      AddHit(lwrite, socks, f, Write, i);
      AddHit(lexcept, socks, f, Except, i);
      if Watched(f, i) {
        if socks[i].None? {
          nready := -1;
          return;
        }
        var sock := socks[i].value;
        if i in f.read && (sock.lastdata || sock.rcvevent > 0) {
          lread := lread + {i};
          nready := nready + 1;
        }
        if i in f.write && sock.sendevent {
          lwrite := lwrite + {i};
          nready := nready + 1;
        }
        if i in f.except && sock.errevent {
          lexcept := lexcept + {i};
          nready := nready + 1;
        }
      }
      i := i + 1;
    }
    out := FdSets(lread, lwrite, lexcept);
  }
}
