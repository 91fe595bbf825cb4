/** Domain names on the wire (sections 3.1 and 4.1.2 of RFC 1035): the encoder in dns_send and the two
    walks over an encoded name. Names are C strings; a packet is the bytes of its pbuf chain. */
module DnsNames {
  import opened Words
  import opened CText

  const DOT: u8 := 46
  const HEADER: nat := 12
  const FAILED: u16 := 0xFFFF

  // ---------------------------------------------------------------------------
  // The encoding
  // ---------------------------------------------------------------------------

  /** The end of the label that starts at `h`. */
  function LabelEnd(name: seq<u8>, h: nat): (e: nat)
    requires h <= |name|
    ensures h <= e <= |name| && (forall i :: h <= i < e ==> name[i] != DOT) && (e < |name| ==> name[e] == DOT)
    decreases |name| - h
  {
    if h == |name| || name[h] == DOT then h else LabelEnd(name, h + 1)
  }

  /** Byte `j` of the encoding: the length of a label in front of it, in the place of its dot; the
      characters between; a zero at the end. */
  function WireByte(name: seq<u8>, j: nat): u8
    requires |name| <= 255 && j < |name| + 2
  {
    if j == |name| + 1 then 0
    else if j == 0 || name[j - 1] == DOT then LabelEnd(name, j) - j
    else name[j - 1]
  }

  /** The encoding of `name` lies at `off` of `p`. */
  predicate EncodedAt(p: seq<u8>, off: nat, name: seq<u8>) {
    |name| <= 255 && off + |name| + 2 <= |p| && forall j :: 0 <= j < |name| + 2 ==> p[off + j] == WireByte(name, j)
  }

  /** From label start `h` on: no later label is empty, none is longer than 191 bytes (above that the
      length looks like a compression pointer). These are the names that survive the round trip. */
  predicate Walkable(name: seq<u8>, h: nat)
    requires h <= |name|
    decreases |name| - h
  {
    var e := LabelEnd(name, h);
    e - h < 0xC0 && (e < |name| ==> LabelEnd(name, e + 1) > e + 1 && Walkable(name, e + 1))
  }

  /** Every label has 1 to 63 bytes, as the standard demands. */
  predicate StandardName(name: seq<u8>) {
    forall h :: 0 <= h <= |name| && (h == 0 || name[h - 1] == DOT) ==> 1 <= LabelEnd(name, h) - h <= 63
  }

  lemma {:induction false} StandardIsWalkable(name: seq<u8>, h: nat)
    requires StandardName(name) && h <= |name| && (h == 0 || name[h - 1] == DOT)
    ensures Walkable(name, h)
    decreases |name| - h
  {
    var e := LabelEnd(name, h);
    if e < |name| {
      StandardIsWalkable(name, e + 1);
    }
  }

  // ---------------------------------------------------------------------------
  // dns_compare_name
  // ---------------------------------------------------------------------------

  /** A character of a C string; behind its end the NUL is read. */
  function At(s: seq<u8>, i: nat): u8 {
    if i < |s| then s[i] else 0
  }

  /** `n` packet bytes from `off` on match the query from `qi` on, up to case. */
  predicate MatchesAt(q: seq<u8>, qi: nat, p: seq<u8>, off: nat, n: nat)
    decreases n
  {
    n == 0 || (off < |p| && Lower(At(q, qi)) == Lower(p[off]) && MatchesAt(q, qi + 1, p, off + 1, n - 1))
  }

  /** dns_compare_name from a label on: the offset behind the name, or FAILED. */
  function CompareFrom(q: seq<u8>, qi: nat, p: seq<u8>, off: nat): (r: u16)
    requires |p| <= 0xFFFF
    decreases |p| - off
  {
    if off >= |p| || p[off] >= 0xC0 then FAILED
    else
      var n: nat := p[off];
      var next := off + 1 + n;
      if !MatchesAt(q, qi, p, off + 1, n) || next >= |p| then FAILED
      else if p[next] == 0 then next + 1
      else CompareFrom(q, qi + n + 1, p, next)
  }

  lemma {:induction false} MatchesLabel(q: seq<u8>, name: seq<u8>, p: seq<u8>, off: nat, h: nat, n: nat)
    requires EncodedAt(p, off, name) && SameText(q, name)
    requires h <= |name| && h + n <= LabelEnd(name, h)
    ensures MatchesAt(q, h, p, off + h + 1, n)
    decreases n
  {
    if n > 0 {
      assert p[off + (h + 1)] == WireByte(name, h + 1);
      MatchesLabel(q, name, p, off, h + 1, n - 1);
    }
  }

  /** What the walks read at a label start: its length, and behind the label the length of the next one
      or the closing zero. */
  lemma LabelRead(p: seq<u8>, off: nat, name: seq<u8>, h: nat)
    requires EncodedAt(p, off, name) && h <= |name| && (h == 0 || name[h - 1] == DOT)
    ensures var e := LabelEnd(name, h);
            && p[off + h] == e - h
            && p[off + (e + 1)] == if e == |name| then 0 else LabelEnd(name, e + 1) - (e + 1)
  {
    var e := LabelEnd(name, h);
    assert p[off + h] == WireByte(name, h);
    assert p[off + (e + 1)] == WireByte(name, e + 1);
  }

  /** Over one label of its encoding the walk goes on behind it, unless the length looks like a pointer. */
  lemma CompareLabel(q: seq<u8>, name: seq<u8>, p: seq<u8>, off: nat, h: nat)
    requires |p| <= 0xFFFF && EncodedAt(p, off, name) && SameText(q, name)
    requires h <= |name| && (h == 0 || name[h - 1] == DOT)
    ensures var e := LabelEnd(name, h);
            CompareFrom(q, h, p, off + h)
            == (if e - h >= 0xC0 then FAILED
                else if e == |name| || LabelEnd(name, e + 1) == e + 1 then off + e + 2
                else CompareFrom(q, e + 1, p, off + e + 1))
  {
    LabelRead(p, off, name, h);
    MatchesLabel(q, name, p, off, h, LabelEnd(name, h) - h);
  }

  /** The query agrees with the name from `h` on, up to case, except that it may have any character where
      the name has a dot, and any more behind its end. */
  predicate Agrees(q: seq<u8>, name: seq<u8>, h: nat) {
    forall i :: h <= i < |name| && name[i] != DOT ==> Lower(At(q, i)) == Lower(name[i])
  }

  /** Over a piece of a label the comparison succeeds exactly if all its characters agree. */
  lemma {:induction false} MatchesIff(q: seq<u8>, name: seq<u8>, p: seq<u8>, off: nat, h: nat, n: nat)
    requires EncodedAt(p, off, name) && h <= |name| && h + n <= LabelEnd(name, h)
    ensures MatchesAt(q, h, p, off + h + 1, n)
       <==> forall i :: h <= i < h + n ==> Lower(At(q, i)) == Lower(name[i])
    decreases n
  {
    if n > 0 {
      assert p[off + (h + 1)] == WireByte(name, h + 1) == name[h];
      MatchesIff(q, name, p, off, h + 1, n - 1);
    }
  }

  lemma AgreesLabel(q: seq<u8>, name: seq<u8>, h: nat)
    requires h <= |name|
    ensures var e := LabelEnd(name, h);
            Agrees(q, name, h) <==> (forall i :: h <= i < e ==> Lower(At(q, i)) == Lower(name[i]))
                                    && (e < |name| ==> Agrees(q, name, e + 1))
  {
  }

  /** Exactly the queries that agree with a walkable name are found at its encoding, and left just behind
      it; any other one is rejected. */
  lemma {:induction false} FoundIffAgrees(q: seq<u8>, name: seq<u8>, p: seq<u8>, off: nat, h: nat)
    requires |p| <= 0xFFFF && EncodedAt(p, off, name) && off + |name| + 2 < 0xFFFF
    requires h <= |name| && (h == 0 || name[h - 1] == DOT) && Walkable(name, h)
    ensures CompareFrom(q, h, p, off + h) == if Agrees(q, name, h) then off + |name| + 2 else 0xFFFF
    decreases |name| - h
  {
    var e := LabelEnd(name, h);
    LabelRead(p, off, name, h);
    MatchesIff(q, name, p, off, h, e - h);
    AgreesLabel(q, name, h);
    if e < |name| {
      FoundIffAgrees(q, name, p, off, e + 1);
    }
  }

  lemma {:induction false} UnwalkableMissed(q: seq<u8>, name: seq<u8>, p: seq<u8>, off: nat, h: nat)
    requires |p| <= 0xFFFF && EncodedAt(p, off, name) && off + |name| + 2 < 0xFFFF && SameText(q, name)
    requires h <= |name| && (h == 0 || name[h - 1] == DOT) && !Walkable(name, h)
    ensures CompareFrom(q, h, p, off + h) != off + |name| + 2
    decreases |name| - h
  {
    CompareLabel(q, name, p, off, h);
    var e := LabelEnd(name, h);
    if e - h < 0xC0 && LabelEnd(name, e + 1) > e + 1 {
      UnwalkableMissed(q, name, p, off, e + 1);
    }
  }

  /** A query, in any letter case, is found at its encoding and left just behind it exactly when its
      labels are walkable. */
  lemma CompareEncoded(q: seq<u8>, name: seq<u8>, p: seq<u8>, off: nat, h: nat)
    requires |p| <= 0xFFFF && EncodedAt(p, off, name) && off + |name| + 2 < 0xFFFF && SameText(q, name)
    requires h <= |name| && (h == 0 || name[h - 1] == DOT)
    ensures CompareFrom(q, h, p, off + h) == off + |name| + 2 <==> Walkable(name, h)
  {
    if Walkable(name, h) {
      FoundIffAgrees(q, name, p, off, h);
    } else {
      UnwalkableMissed(q, name, p, off, h);
    }
  }

  /** The labels of `name` lie at `off` of `p`, and a compression pointer follows. */
  predicate CompressedAt(p: seq<u8>, off: nat, name: seq<u8>) {
    && |name| <= 255 && off + |name| + 1 < |p| && p[off + |name| + 1] >= 0xC0
    && forall j :: 0 <= j <= |name| ==> p[off + j] == WireByte(name, j)
  }

  /** A compressed name is skipped to just behind the two bytes of its pointer, if its labels are walkable. */
  lemma {:induction false} SkipCompressed(name: seq<u8>, p: seq<u8>, off: nat, h: nat)
    requires |p| <= 0xFFFF && CompressedAt(p, off, name) && off + |name| + 3 < 0xFFFF
    requires h <= |name| && (h == 0 || name[h - 1] == DOT) && Walkable(name, h)
    ensures SkipFrom(p, off + h) == off + |name| + 3
    decreases |name| - h
  {
    var e := LabelEnd(name, h);
    assert p[off + h] == WireByte(name, h);
    if e < |name| {
      assert p[off + (e + 1)] == WireByte(name, e + 1);
      SkipCompressed(name, p, off, e + 1);
    }
  }

  /** A comparison rejects every compressed name. */
  lemma {:induction false} CompressedIsRejected(q: seq<u8>, name: seq<u8>, p: seq<u8>, off: nat, h: nat)
    requires |p| <= 0xFFFF && CompressedAt(p, off, name)
    requires h <= |name| && (h == 0 || name[h - 1] == DOT) && Walkable(name, h)
    ensures CompareFrom(q, h, p, off + h) == 0xFFFF
    decreases |name| - h
  {
    var e := LabelEnd(name, h);
    assert p[off + h] == WireByte(name, h);
    if e < |name| {
      assert p[off + (e + 1)] == WireByte(name, e + 1);
      CompressedIsRejected(q, name, p, off, e + 1);
    } else {
      assert CompareFrom(q, e + 1, p, off + e + 1) == FAILED;
    }
  }

  /** For names that obey the standard both walks go just behind the encoding. */
  lemma StandardNameAccepted(q: seq<u8>, name: seq<u8>, p: seq<u8>, off: nat)
    requires StandardName(name) && SameText(q, name)
    requires |p| <= 0xFFFF && EncodedAt(p, off, name) && off + |name| + 2 < 0xFFFF
    ensures CompareFrom(q, 0, p, off) == off + |name| + 2 == SkipFrom(p, off)
  {
    StandardIsWalkable(name, 0);
    CompareEncoded(q, name, p, off, 0);
    SkipEncoded(name, p, off, 0);
  }

  /** A name that ends in the root dot, with labels of 1 to 191 bytes before it. */
  predicate Absolute(name: seq<u8>) {
    && name != [] && name[|name| - 1] == DOT
    && forall h :: 0 <= h < |name| && (h == 0 || name[h - 1] == DOT) ==> 1 <= LabelEnd(name, h) - h <= 191
  }

  /** The root dot of an absolute name is encoded as an empty label, which the walks take for the end:
      from any label on they stop one byte short. */
  lemma {:induction false} TrailingDotStopsShort(q: seq<u8>, name: seq<u8>, p: seq<u8>, off: nat, h: nat)
    requires |p| <= 0xFFFF && EncodedAt(p, off, name) && Absolute(name) && SameText(q, name)
    requires h < |name| && (h == 0 || name[h - 1] == DOT)
    ensures CompareFrom(q, h, p, off + h) == off + |name| + 1 == SkipFrom(p, off + h)
    decreases |name| - h
  {
    CompareLabel(q, name, p, off, h);
    LabelRead(p, off, name, h);
    var e := LabelEnd(name, h);
    assert e < |name|;
    if e + 1 < |name| {
      TrailingDotStopsShort(q, name, p, off, e + 1);
    }
  }

  /** dns_compare_name */
  method CompareName(query: seq<u8>, p: seq<u8>, startOffset: nat) returns (r: u16)
    requires |p| <= 0xFFFF
    ensures r == CompareFrom(query, 0, p, startOffset)
  {
    var offset, qi := startOffset, 0;
    while true
      invariant 0 <= qi && startOffset <= offset
      invariant CompareFrom(query, 0, p, startOffset) == CompareFrom(query, qi, p, offset)
      decreases |p| - offset
    {
      if offset >= |p| || offset == 0xFFFF {
        return FAILED;
      }
      ghost var off0, qi0 := offset, qi;
      var n: nat := p[offset];
      offset := offset + 1;
      if n >= 0xC0 {
        return FAILED;
      }
      while n > 0
        invariant 0 <= n <= p[off0] && offset == off0 + 1 + (p[off0] as int - n) && qi == qi0 + (p[off0] as int - n)
        invariant MatchesAt(query, qi0, p, off0 + 1, p[off0]) == MatchesAt(query, qi, p, offset, n)
      {
        if offset >= |p| {
          return FAILED;
        }
        if Lower(At(query, qi)) != Lower(p[offset]) {
          return FAILED;
        }
        offset, qi, n := offset + 1, qi + 1, n - 1;
      }
      qi := qi + 1;
      if offset >= |p| {
        return FAILED;
      }
      if p[offset] == 0 {
        return offset + 1;
      }
    }
  }

  // ---------------------------------------------------------------------------
  // dns_skip_name
  // ---------------------------------------------------------------------------

  /** dns_skip_name from a label on. */
  function SkipFrom(p: seq<u8>, off: nat): (r: u16)
    requires |p| <= 0xFFFF
    decreases |p| - off
  {
    if off >= |p| then FAILED
    else if p[off] >= 0xC0 then (if off + 1 == 0xFFFF then FAILED else off + 2)
    else
      var next := off + 1 + p[off] as int;
      if next >= |p| then FAILED else if p[next] == 0 then next + 1 else SkipFrom(p, next)
  }

  lemma {:induction false} SkipEncoded(name: seq<u8>, p: seq<u8>, off: nat, h: nat)
    requires |p| <= 0xFFFF && EncodedAt(p, off, name) && off + |name| + 2 < 0xFFFF
    requires h <= |name| && (h == 0 || name[h - 1] == DOT)
    ensures SkipFrom(p, off + h) == off + |name| + 2 <==> Walkable(name, h)
    decreases |name| - h
  {
    LabelRead(p, off, name, h);
    var e := LabelEnd(name, h);
    if e - h < 0xC0 && e < |name| && LabelEnd(name, e + 1) > e + 1 {
      SkipEncoded(name, p, off, e + 1);
    }
  }

  /** dns_skip_name */
  method SkipName(p: seq<u8>, queryIdx: nat) returns (r: u16)
    requires |p| <= 0xFFFF
    ensures r == SkipFrom(p, queryIdx)
  {
    var offset := queryIdx;
    while true
      invariant queryIdx <= offset
      invariant SkipFrom(p, queryIdx) == SkipFrom(p, offset)
      decreases |p| - offset
    {
      if offset >= |p| {
        return FAILED;
      }
      var n: nat := p[offset];
      offset := offset + 1;
      if n >= 0xC0 {
        return if offset == 0xFFFF then FAILED else offset + 1;
      }
      if offset + n >= |p| {
        return FAILED;
      }
      offset := offset + n;
      if p[offset] == 0 {
        return offset + 1;
      }
    }
  }

  // ---------------------------------------------------------------------------
  // The encoder in dns_send
  // ---------------------------------------------------------------------------

  /** The part of dns_send that writes the query name behind the header: strlen + 2 bytes. */
  method PutQueryName(p: array<u8>, name: seq<u8>) returns (queryIdx: nat)
    requires |name| <= 255 && IsText(name) && p.Length >= HEADER + |name| + 2
    modifies p
    ensures queryIdx == HEADER + |name| + 2 && EncodedAt(p[..], HEADER, name)
    ensures forall i :: 0 <= i < HEADER || queryIdx <= i < p.Length ==> p[i] == old(p[i])
  {
    queryIdx := HEADER;
    var host := 0;
    while host <= |name|
      invariant 0 <= host <= |name| + 1 && queryIdx == HEADER + host
      invariant host == 0 || host == |name| + 1 || name[host - 1] == DOT
      invariant forall j :: 0 <= j < host ==> p[HEADER + j] == WireByte(name, j)
      invariant forall i :: 0 <= i < HEADER || HEADER + |name| + 2 <= i < p.Length ==> p[i] == old(p[i])
    {
      var part := host;
      while host < |name| && name[host] != DOT
        invariant part <= host <= |name| && LabelEnd(name, part) == LabelEnd(name, host)
      {
        host := host + 1;
      }
      var n := host - part;
      assert n == WireByte(name, part);
      p[queryIdx] := n;
      forall k | 0 <= k < n {
        p[queryIdx + 1 + k] := name[part + k];
      }
      assert forall j :: part <= j <= host ==> p[HEADER + j] == WireByte(name, j);
      queryIdx := queryIdx + n + 1;
      host := host + 1;
    }
    p[queryIdx] := 0;
    queryIdx := queryIdx + 1;
  }
}
