// Merging two queued packets in place: the packet already queued becomes (or
// stays) a container and the sub-packets of the arriving one are put behind its own.
module Aggregation {
  import opened Common
  import opened PacketBytes
  import opened Subpackets

  /** The length a merge gives, from the lengths of its inputs. */
  function MergedLen(arriving: seq<byte>, queued: seq<byte>): int
    requires |arriving| >= HEADER && |queued| >= HEADER
  {
    |arriving| + |queued| +
    (if IsMerged(arriving) && IsMerged(queued) then -9 else if IsMerged(arriving) || IsMerged(queued) then -4 else 1)
  }

  /** What a merge makes of the queued packet. */
  function Merged(queued: seq<byte>, s2: seq<Sub>, s1: seq<Sub>): seq<byte>
    requires |queued| >= HEADER && |s2 + s1| < 256
  {
    Container(SetMerged(queued[..HEADER]), s2 + s1)
  }

  /** The lengths of the sub-packets decide the length of the container. */
  lemma {:induction false} MergedLenIs(arriving: seq<byte>, s1: seq<Sub>, queued: seq<byte>, s2: seq<Sub>)
    requires Carries(arriving, s1) && Carries(queued, s2)
    ensures HEADER + 1 + |EncSubs(s2 + s1)| == MergedLen(arriving, queued)
    ensures |arriving| + |queued| <= SDN_MAX_PACKET_SIZE ==>
              (MergedLen(arriving, queued) <= SDN_MAX_PACKET_SIZE
               <==> IsMerged(arriving) || IsMerged(queued) || |arriving| + |queued| < SDN_MAX_PACKET_SIZE)
  {
    EncSubsJoin(s2, s1);
    assert EncSubs([OwnSub(arriving)]) == EncSub(OwnSub(arriving));
    assert EncSubs([OwnSub(queued)]) == EncSub(OwnSub(queued));
  }

  /** A merge of packets that the checks let through carries the sub-packets of both. */
  lemma {:induction false} MergedCarries(arriving: seq<byte>, s1: seq<Sub>, queued: seq<byte>, s2: seq<Sub>)
    requires Carries(arriving, s1) && Carries(queued, s2)
    requires |s1| + |s2| <= SDN_MAX_SUBPACKETS && |arriving| + |queued| <= SDN_MAX_PACKET_SIZE
    ensures
      var b := Merged(queued, s2, s1);
      && Carries(b, s2 + s1) && IsMerged(b) && |b| == MergedLen(arriving, queued)
      && b[..HEADER] == SetMerged(queued[..HEADER]) && b[TYPE] == queued[TYPE]
  {
    MergedLenIs(arriving, s1, queued, s2);
    var b := Merged(queued, s2, s1);
    assert b[..HEADER] == SetMerged(queued[..HEADER]);
    assert b[TYPE] == b[..HEADER][TYPE] && b[RESERVED] == b[..HEADER][RESERVED];
  }

  /** Walks a container to find its length. */
  method MergedNewLength(p: array<byte>, ghost subs: seq<Sub>) returns (newLen: nat)
    requires p.Length == REACH
    requires |subs| < 256 && HEADER + 1 + |EncSubs(subs)| <= p.Length
    requires p[HEADER] == |subs| && p[HEADER + 1..HEADER + 1 + |EncSubs(subs)|] == EncSubs(subs)
    ensures newLen == HEADER + 1 + |EncSubs(subs)|
  {
    newLen := HEADER + 1;
    var offset: byte := HEADER + 1;
    assert Start(subs, 0) == HEADER + 1;
    for i := 0 to p[HEADER]
      invariant newLen == offset == Start(subs, i)
    {
      SubAt(p[..], subs, i);
      SubRead(p[..], offset, subs[i]);
      offset := offset + 3;
      var subLen := p[offset];
      newLen := newLen + SUB_HEADER + subLen;
      offset := offset + 1 + subLen;
    }
    assert subs[..|subs|] == subs;
  }

  /** Puts one sub-packet, its payload taken from p1, at the cursor; returns the advanced cursor. */
  method PutSub(p2: array<byte>, at: byte, seqNo: byte, source: Addr, payload: Payload) returns (next: byte)
    requires at + SUB_HEADER + |payload| <= p2.Length < 256
    modifies p2
    ensures p2[..] == Overwrite(old(p2[..]), at, EncSub(Sub(seqNo, source, payload)))
    ensures next == at + SUB_HEADER + |payload|
  {
    ghost var was := p2[..];
    next := at;
    Write(p2, next, [seqNo]);
    next := next + 1;
    Write(p2, next, EncAddr(source));
    next := next + 2;
    Write(p2, next, [|payload|]);
    next := next + 1;
    Write(p2, next, payload);
    next := next + |payload|;
    OverwriteRow(was, at, [seqNo], EncAddr(source), [|payload|], payload);
  }

  /** Shifts the octets behind the header five places to the right, last one first. */
  method ShiftRight(p2: array<byte>, len: byte)
    requires p2.Length == REACH && HEADER <= len && len + 5 <= p2.Length
    modifies p2
    ensures p2[..HEADER + 1] == old(p2[..HEADER + 1])
    ensures p2[HEADER + 5..len + 5] == old(p2[HEADER..len])
    ensures p2[len + 5..] == old(p2[len + 5..])
  {
    var i := len + 4;
    while i > HEADER
      invariant HEADER <= i <= len + 4
      invariant p2[..i + 1] == old(p2[..i + 1])
      invariant forall k :: i < k <= len + 4 ==> p2[k] == old(p2[k - 5])
      invariant p2[len + 5..] == old(p2[len + 5..])
    {
      p2[i] := p2[i - 5];
      i := i - 1;
    }
  }

  /** Makes an unmerged packet the container of its own sub-packet. */
  method OpenContainer(p2: array<byte>, len: byte) returns (offset: byte)
    requires p2.Length == REACH && HEADER <= len && len + 5 <= p2.Length
    requires !IsMerged(p2[..len])
    modifies p2
    ensures offset == len + 5
    ensures p2[..offset] == Container(SetMerged(old(p2[..HEADER])), [OwnSub(old(p2[..len]))])
    ensures p2[offset..] == old(p2[offset..])
  {
    ghost var was := p2[..len];
    var seqNo, source, payloadLen := p2[SEQ_NO], Addr(p2[SOURCE], p2[SOURCE + 1]), len - HEADER;
    p2[RESERVED] := p2[RESERVED] + 1;
    ShiftRight(p2, len);
    ghost var shifted := p2[..];
    assert shifted[..HEADER] == SetMerged(was[..HEADER]);
    offset := FillFirst(p2, seqNo, source, payloadLen);
    offset := offset + payloadLen;
    FirstFilled(shifted, SetMerged(was[..HEADER]), OwnSub(was), offset);
  }

  /** The count and the fields in front of the first payload. */
  method FillFirst(p2: array<byte>, seqNo: byte, source: Addr, payloadLen: byte) returns (offset: byte)
    requires p2.Length == REACH
    modifies p2
    ensures offset == HEADER + 5
    ensures p2[..] == Overwrite(old(p2[..]), HEADER, [1, seqNo, source.u0, source.u1, payloadLen])
  {
    offset := HEADER;
    p2[offset] := 1;
    offset := offset + 1;
    p2[offset] := seqNo;
    offset := offset + 1;
    p2[offset], p2[offset + 1] := source.u0, source.u1;
    offset := offset + 2;
    p2[offset] := payloadLen;
    offset := offset + 1;
  }

  lemma {:induction false} FirstFilled(b: seq<byte>, header: seq<byte>, s: Sub, end: nat)
    requires |header| == HEADER && end == HEADER + 5 + |s.payload| <= |b|
    requires b[..HEADER] == header && b[HEADER + 5..end] == s.payload
    ensures
      var b' := Overwrite(b, HEADER, [1, s.seqNo, s.source.u0, s.source.u1, |s.payload|]);
      b'[..end] == Container(header, [s]) && b'[end..] == b[end..]
  {
    var b' := Overwrite(b, HEADER, [1, s.seqNo, s.source.u0, s.source.u1, |s.payload|]);
    assert b'[..end][..HEADER] == header && b'[..end][HEADER + 5..] == s.payload;
    OneSub(header, s, b'[..end]);
  }

  lemma {:induction false} OneSub(header: seq<byte>, s: Sub, b: seq<byte>)
    requires |header| == HEADER && |b| == HEADER + 5 + |s.payload|
    requires b[..HEADER] == header && b[HEADER] == 1 && b[HEADER + 1] == s.seqNo && AddrAt(b, HEADER + 2) == s.source
    requires b[HEADER + 4] == |s.payload| && b[HEADER + 5..] == s.payload
    ensures b == Container(header, [s])
  {
    var sub := b[HEADER + 1..];
    assert sub[0] == b[HEADER + 1] && sub[1] == b[HEADER + 2] && sub[2] == b[HEADER + 3] && sub[3] == b[HEADER + 4];
    assert sub[SUB_HEADER..] == b[HEADER + 5..];
    assert sub == [sub[0]] + [sub[1], sub[2]] + [sub[3]] + sub[SUB_HEADER..];
    assert sub == EncSub(s) && EncSubs([s]) == EncSub(s);
    assert b == b[..HEADER] + [b[HEADER]] + sub;
  }

  /** b starts as a container of these sub-packets, with a count yet to be set. */
  predicate Holds(b: seq<byte>, header: seq<byte>, count: byte, subs: seq<Sub>) {
    b == header + [count] + EncSubs(subs)
  }

  /** Setting the count completes the container. */
  lemma {:induction false} CountSet(put: seq<byte>, b: seq<byte>, at: nat, header: seq<byte>, count: byte, subs: seq<Sub>)
    requires |header| == HEADER && HEADER < at <= |put| && Holds(put[..at], header, count, subs)
    requires |subs| < 256 && b == put[HEADER := |subs|]
    ensures b[..at] == Container(header, subs) && b[at..] == put[at..]
    ensures b[HEADER] == |subs| && b[HEADER + 1..at] == EncSubs(subs)
  {
    assert put[..at][HEADER + 1..] == put[HEADER + 1..at] == b[HEADER + 1..at];
    assert b[..at] == put[..at][HEADER := |subs|];
  }

  lemma {:induction false} HoldsMore(b: seq<byte>, at: nat, header: seq<byte>, count: byte, subs: seq<Sub>, s: Sub)
    requires at + |EncSub(s)| <= |b| && Holds(b[..at], header, count, subs)
    ensures
      var b', at' := Overwrite(b, at, EncSub(s)), at + |EncSub(s)|;
      Holds(b'[..at'], header, count, subs + [s]) && b'[at'..] == b[at'..]
  {
    assert (subs + [s])[..|subs|] == subs;
    var b' := Overwrite(b, at, EncSub(s));
    assert b'[..at + |EncSub(s)|] == b[..at] + EncSub(s);
  }

  /** Puts every sub-packet of p1 behind those of p2. */
  method PutAll(p1: array<byte>, p1Len: byte, p2: array<byte>, at: byte, ghost s1: seq<Sub>,
                ghost header: seq<byte>, ghost count: byte, ghost s2: seq<Sub>)
    returns (offset2: byte)
    requires p1 != p2 && p1.Length == p2.Length == REACH
    requires p1Len <= p1.Length && Carries(p1[..p1Len], s1)
    requires at + |EncSubs(s1)| <= p2.Length && Holds(p2[..at], header, count, s2)
    modifies p2
    ensures offset2 == at + |EncSubs(s1)|
    ensures Holds(p2[..offset2], header, count, s2 + s1)
    ensures p2[offset2..] == old(p2[offset2..])
  {
    offset2 := at;
    var offset1: byte := HEADER;
    if IsMerged(p1[..p1Len]) {
      offset2 := PutEach(p1, p1Len, p2, at, s1, header, count, s2);
    } else {
      assert EncSubs(s1) == EncSub(s1[0]);
      ghost var was := p2[..];
      offset2 := PutSub(p2, offset2, p1[SEQ_NO], Addr(p1[SOURCE], p1[SOURCE + 1]), p1[offset1..p1Len]);
      HoldsMore(was, at, header, count, s2, s1[0]);
    }
  }

  /** Copies the sub-packet at one cursor to the other. */
  method PutNext(p1: array<byte>, from: byte, p2: array<byte>, to: byte, ghost s: Sub) returns (offset1: byte, offset2: byte)
    requires p1 != p2 && p1.Length == p2.Length == REACH
    requires from + |EncSub(s)| <= p1.Length && p1[from..from + |EncSub(s)|] == EncSub(s)
    requires to + |EncSub(s)| <= p2.Length
    modifies p2
    ensures offset1 == from + |EncSub(s)| && offset2 == to + |EncSub(s)|
    ensures p2[..] == Overwrite(old(p2[..]), to, EncSub(s))
  {
    SubRead(p1[..], from, s);
    offset1 := from;
    var seqNo := p1[offset1];
    offset1 := offset1 + 1;
    var source := Addr(p1[offset1], p1[offset1 + 1]);
    offset1 := offset1 + 2;
    var len := p1[offset1];
    offset1 := offset1 + 1;
    offset2 := PutSub(p2, to, seqNo, source, p1[offset1..offset1 + len]);
    offset1 := offset1 + len;
  }

  /** Sub-packet i of the packet in a buffer. */
  lemma {:induction false} FoundAt(p: seq<byte>, len: nat, subs: seq<Sub>, i: nat, from: nat)
    requires len <= |p| && Carries(p[..len], subs) && IsMerged(p[..len]) && i < |subs| && from == Start(subs, i)
    ensures
      var to := from + |EncSub(subs[i])|;
      to == Start(subs, i + 1) <= len && p[from..to] == EncSub(subs[i])
    ensures len == HEADER + 1 + |EncSubs(subs)|
  {
    SubAt(p[..len], subs, i);
    SliceOfSlice(p, 0, len, from, from + |EncSub(subs[i])|);
  }

  /** Puts the sub-packets of a container p1, one by one. */
  method PutEach(p1: array<byte>, p1Len: byte, p2: array<byte>, at: byte, ghost s1: seq<Sub>,
                 ghost header: seq<byte>, ghost count: byte, ghost s2: seq<Sub>)
    returns (offset2: byte)
    requires p1 != p2 && p1.Length == p2.Length == REACH
    requires p1Len <= p1.Length && Carries(p1[..p1Len], s1) && IsMerged(p1[..p1Len])
    requires at + |EncSubs(s1)| <= p2.Length && Holds(p2[..at], header, count, s2)
    modifies p2
    ensures offset2 == at + |EncSubs(s1)|
    ensures Holds(p2[..offset2], header, count, s2 + s1)
    ensures p2[offset2..] == old(p2[offset2..])
  {
    offset2 := at;
    var offset1: byte, num: nat := HEADER + 1, p1[HEADER];
    ghost var put, b1, was := s2, p1[..p1Len], p2[..];
    assert b1[HEADER] == |s1| && s1[..num] == s1;
    for i := 0 to num
      invariant offset1 == Start(s1, i) && offset2 - offset1 == at - HEADER - 1 && at <= offset2 <= p2.Length
      invariant put == s2 + s1[..i] && Holds(p2[..offset2], header, count, put)
      invariant p2[offset2..] == was[offset2..]
    {
      ghost var b, at2 := p2[..], offset2;
      FoundAt(p1[..], p1Len, s1, i, offset1);
      HoldsMore(b, at2, header, count, put, s1[i]);
      offset1, offset2 := PutNext(p1, offset1, p2, offset2, s1[i]);
      SameBehind(was, b, p2[..], at2, offset2);
      put := put + [s1[i]];
    }
  }

  /**
   * sdn_queue_combine_packets: p1 is the arriving packet, p2 the queued one.
   * The octet after the buffer is part of p2 here because one case writes it.
   */
  method CombinePackets(p1: array<byte>, p1Len: byte, p2: array<byte>, p2Len: byte, ghost s1: seq<Sub>, ghost s2: seq<Sub>)
    returns (ok: bool, newLen: nat)
    requires p1 != p2 && p1.Length == p2.Length == REACH
    requires p1Len <= p1.Length && p2Len <= p2.Length
    requires Carries(p1[..p1Len], s1) && Carries(p2[..p2Len], s2)
    modifies p2
    ensures ok <==> |s1| + |s2| <= SDN_MAX_SUBPACKETS && p1Len + p2Len <= SDN_MAX_PACKET_SIZE
    ensures !ok ==> newLen == p2Len && p2[..] == old(p2[..])
    ensures ok ==> newLen == MergedLen(p1[..p1Len], old(p2[..p2Len])) <= p2.Length
    ensures ok ==> p2[..newLen] == Merged(old(p2[..p2Len]), s2, s1) && p2[newLen..] == old(p2[newLen..])
  {
    newLen := p2Len;
    var num1 := if IsMerged(p1[..p1Len]) then p1[HEADER] else 1;
    var num2 := if IsMerged(p2[..p2Len]) then p2[HEADER] else 1;
    if num1 > SDN_MAX_SUBPACKETS || num2 > SDN_MAX_SUBPACKETS {
      return false, p2Len;
    }
    if num1 + num2 > SDN_MAX_SUBPACKETS {
      return false, p2Len;
    }
    if p1Len + p2Len > SDN_MAX_PACKET_SIZE {
      return false, p2Len;
    }
    ok := true;
    newLen := Combine(p1, p1Len, p2, p2Len, num1 + num2, s1, s2);
  }

  /** Leaves a container alone and opens any other packet; the cursor ends up behind the sub-packets. */
  method AsContainer(p2: array<byte>, p2Len: byte, ghost s2: seq<Sub>) returns (offset2: byte)
    requires p2.Length == REACH && p2Len + 5 <= p2.Length
    requires Carries(p2[..p2Len], s2)
    modifies p2
    ensures offset2 == HEADER + 1 + |EncSubs(s2)| <= p2.Length
    ensures Holds(p2[..offset2], SetMerged(old(p2[..HEADER])), |s2|, s2)
    ensures p2[offset2..] == old(p2[offset2..])
  {
    offset2 := p2Len;
    if !IsMerged(p2[..p2Len]) {
      offset2 := OpenContainer(p2, p2Len);
    }
  }

  /** The part after the checks. */
  method Combine(p1: array<byte>, p1Len: byte, p2: array<byte>, p2Len: byte, count: byte, ghost s1: seq<Sub>, ghost s2: seq<Sub>)
    returns (newLen: nat)
    requires p1 != p2 && p1.Length == p2.Length == REACH
    requires p1Len + p2Len <= SDN_MAX_PACKET_SIZE && |s1| + |s2| == count
    requires Carries(p1[..p1Len], s1) && Carries(p2[..p2Len], s2)
    modifies p2
    ensures newLen == MergedLen(p1[..p1Len], old(p2[..p2Len])) <= p2.Length
    ensures p2[..newLen] == Container(SetMerged(old(p2[..HEADER])), s2 + s1) && p2[newLen..] == old(p2[newLen..])
  {
    MergedLenIs(p1[..p1Len], s1, p2[..p2Len], s2);
    EncSubsJoin(s2, s1);
    ghost var was, header := p2[..], SetMerged(p2[..HEADER]);
    var at := AsContainer(p2, p2Len, s2);
    ghost var started := p2[..];
    var offset2 := PutAll(p1, p1Len, p2, at, s1, header, |s2|, s2);
    ghost var put := p2[..];
    p2[HEADER] := count;
    SameBehind(was, started, put, at, offset2);
    CountSet(put, p2[..], offset2, header, |s2|, s2 + s1);
    newLen := MergedNewLength(p2, s2 + s1);
  }

  lemma {:induction false} SameBehind(a: seq<byte>, b: seq<byte>, c: seq<byte>, i: nat, j: nat)
    requires i <= j <= |a| == |b| == |c| && a[i..] == b[i..] && b[j..] == c[j..]
    ensures a[j..] == c[j..]
  {
    assert a[i..][j - i..] == b[i..][j - i..];
  }
}
