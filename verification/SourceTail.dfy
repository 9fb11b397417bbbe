// Source-routed packets end in a tail: the real destination, the number of
// addresses left, and the addresses.  In a merged packet the tail starts where
// the sub-packets end, and three different functions look for it.
module SourceTail {
  import opened Common
  import opened PacketBytes
  import opened Subpackets
  import opened Aggregation

  datatype Route = Route(realDest: Addr, path: seq<Addr>)

  function EncTail(r: Route): (b: seq<byte>)
    requires |r.path| < 256
    ensures |b| == 3 + 2 * |r.path|
  {
    EncAddr(r.realDest) + [|r.path|] + EncAddrs(r.path)
  }

  const SRC_ROUTED_TYPES: set<byte> :=
    {SDN_PACKET_SRC_ROUTED_ACK, SDN_PACKET_SRC_ROUTED_CONTROL_FLOW_SETUP, SDN_PACKET_SRC_ROUTED_DATA_FLOW_SETUP}

  /** Size of the fields in front of the real destination, unmerged. */
  function BodySize(ptype: byte): nat {
    if ptype == SDN_PACKET_SRC_ROUTED_ACK then HEADER + 2 else HEADER + 5
  }

  /** b is a source-routed packet with these sub-packets and this route. */
  predicate SrcCarries(b: seq<byte>, subs: seq<Sub>, r: Route) {
    && |r.path| < 256 && HEADER + |EncTail(r)| <= |b| <= REACH
    && var n := |b| - |EncTail(r)|;
    && b[TYPE] in SRC_ROUTED_TYPES
    && b[n..] == EncTail(r) && Carries(b[..n], subs)
    && (!IsMerged(b) ==> n == BodySize(b[TYPE]))
  }

  /** The tail's fields, read at the place where it starts. */
  lemma {:induction false} TailRead(b: seq<byte>, n: nat, r: Route)
    requires |r.path| < 256 && n + |EncTail(r)| == |b| && b[n..] == EncTail(r)
    ensures AddrAt(b, n) == r.realDest && b[n + 2] == |r.path| && b[n + 3..] == EncAddrs(r.path)
  {
    var c := b[n..];
    assert b[n] == c[0] && b[n + 1] == c[1] && b[n + 2] == c[2];
    assert b[n + 3..] == c[3..];
  }

  /** In an unmerged packet the fields stand at fixed places: an acknowledgement's body has two octets, a setup's five. */
  lemma {:induction false} UnmergedFields(b: seq<byte>, subs: seq<Sub>, r: Route, j: nat)
    requires SrcCarries(b, subs, r) && b[1] % 2 == 0 && j <= |r.path|
    ensures
      var n := if b[0] == SDN_PACKET_SRC_ROUTED_ACK then 10 else 13;
      && n + 3 + 2 * |r.path| == |b| && AddrAt(b, n) == r.realDest && b[n + 2] == |r.path|
      && (j < |r.path| ==> AddrAt(b, n + 3 + 2 * j) == r.path[j])
      && subs == [Sub(b[3], AddrAt(b, 4), b[8..n])]
  {
    var n := BodySize(b[TYPE]);
    TailRead(b, n, r);
    assert b[..n][8..] == b[8..n] && b[..n][3] == b[3] && b[..n][4] == b[4] && b[..n][5] == b[5];
    if j < |r.path| {
      AddrOctets(r.path, j);
      assert b[n + 3..][2 * j] == b[n + 3 + 2 * j] && b[n + 3..][2 * j + 1] == b[n + 4 + 2 * j];
    }
  }

  /** In a merged packet the tail starts right behind the sub-packets. */
  lemma {:induction false} TailBehindSubs(b: seq<byte>, subs: seq<Sub>, r: Route)
    requires SrcCarries(b, subs, r) && IsMerged(b)
    ensures
      var n := HEADER + 1 + |EncSubs(subs)|;
      && n + |EncTail(r)| == |b| && b[n..] == EncTail(r)
      && |subs| < 256 && b[HEADER] == |subs| && b[HEADER + 1..n] == EncSubs(subs)
  {
    var n := |b| - |EncTail(r)|;
    assert b[..n][HEADER + 1..] == b[HEADER + 1..n];
  }

  /** sdn_get_src_rtd_merged_subpackets_len */
  method MergedSubpacketsLen(p: seq<byte>, ghost subs: seq<Sub>) returns (total: Option<nat>)
    requires HEADER < |p| && |subs| < 256 && p[HEADER] == |subs| && HEADER + 1 + |EncSubs(subs)| <= |p|
    requires p[HEADER + 1..HEADER + 1 + |EncSubs(subs)|] == EncSubs(subs)
    ensures total == if |subs| > SDN_MAX_SUBPACKETS then None else Some(|EncSubs(subs)|)
  {
    var numSub, at, size := p[HEADER], HEADER + 1, 0;
    if numSub > 8 {
      return None;
    }
    assert Start(subs, 0) == HEADER + 1;
    for i := 0 to numSub
      invariant at == Start(subs, i) == HEADER + 1 + size
    {
      SubAt(p, subs, i);
      SubRead(p, at, subs[i]);
      at := at + 3;
      var len := p[at];
      at := at + 1;
      size := size + SUB_HEADER + len;
      at := at + len;
    }
    assert subs[..|subs|] == subs;
    total := Some(size);
  }

  /** sdn_get_src_routing_info: the path is given by the place where it starts. */
  method SrcRoutingInfo(p: seq<byte>, ghost subs: seq<Sub>, ghost r: Route)
    returns (realDest: Addr, pathLen: byte, path: nat)
    requires SrcCarries(p, subs, r)
    ensures realDest == r.realDest && pathLen == |r.path|
    ensures path + 2 * pathLen == |p| && p[path..] == EncAddrs(r.path)
  {
    if !IsMerged(p) {
      var n := BodySize(p[TYPE]);
      TailRead(p, n, r);
      return AddrAt(p, n), p[n + 2], n + 3;
    }
    TailBehindSubs(p, subs, r);
    var offset, num := HEADER + 1, p[HEADER];
    assert Start(subs, 0) == HEADER + 1;
    for i := 0 to num
      invariant offset == Start(subs, i)
    {
      SubAt(p, subs, i);
      SubRead(p, offset, subs[i]);
      offset := offset + 3;
      var len := p[offset];
      offset := offset + 1 + len;
    }
    assert subs[..|subs|] == subs;
    TailRead(p, offset, r);
    return AddrAt(p, offset), p[offset + 2], offset + 3;
  }

  /** sdn_get_real_dest_from_merged_packet */
  method RealDest(p: seq<byte>, ghost subs: seq<Sub>, ghost r: Route) returns (dest: Option<Addr>)
    requires SrcCarries(p, subs, r)
    ensures dest == if IsMerged(p) && |subs| > SDN_MAX_SUBPACKETS then None else Some(r.realDest)
  {
    if !IsMerged(p) {
      TailRead(p, BodySize(p[TYPE]), r);
      return Some(AddrAt(p, BodySize(p[TYPE])));
    }
    TailBehindSubs(p, subs, r);
    var subLen := MergedSubpacketsLen(p, subs);
    if subLen == None {
      return None;
    }
    TailRead(p, HEADER + 1 + subLen.value, r);
    dest := Some(AddrAt(p, HEADER + 1 + subLen.value));
  }

  /**
   * sdn_packet_get_next_src_addr.  A relay counts the path length down first, so
   * the tail then describes a route r one address shorter than the octets go on:
   * the next hop is the address that starts where that tail ends.
   */
  method NextSrcAddr(p: seq<byte>, len: nat, ghost subs: seq<Sub>, ghost r: Route) returns (at: Option<nat>)
    requires len <= |p| && SrcCarries(p[..len], subs, r)
    ensures at == if IsMerged(p) && |subs| > SDN_MAX_SUBPACKETS then None else Some(len)
  {
    var b := p[..len];
    if IsMerged(p) {
      TailBehindSubs(b, subs, r);
      var subLen := MergedSubpacketsLen(b, subs);
      if subLen == None {
        return None;
      }
      TailRead(b, HEADER + 1 + subLen.value, r);
      var pathLenAt := HEADER + 1 + subLen.value + 2;
      return Some(pathLenAt + 1 + 2 * p[pathLenAt]);
    } else {
      TailRead(b, BodySize(p[TYPE]), r);
      var pathLenAt := BodySize(p[TYPE]) + 3 - 1;
      return Some(pathLenAt + 1 + 2 * p[pathLenAt]);
    }
  }

  /**
   * sdn_queue_combine_src_packets: both tails are cut off, the bodies merged, and
   * the queued packet's tail put back.  A merge that is refused for its number of
   * sub-packets leaves the queued packet's length without the tail.
   */
  method CombineSrcPackets(p1: array<byte>, p1Len: byte, p2: array<byte>, p2Len: byte,
                           ghost s1: seq<Sub>, ghost r1: Route, ghost s2: seq<Sub>, ghost r2: Route)
    returns (ok: bool, newLen: nat)
    requires p1 != p2 && p1.Length == p2.Length == REACH
    requires p1Len <= p1.Length && p2Len <= p2.Length
    requires SrcCarries(p1[..p1Len], s1, r1) && SrcCarries(p2[..p2Len], s2, r2)
    modifies p2
    ensures
      var tail1, tail2 := |EncTail(r1)|, |EncTail(r2)|;
      var fits := (p1Len - tail1) + (p2Len - tail2) <= SDN_MAX_PACKET_SIZE - tail2;
      && (ok <==> fits && |s1| + |s2| <= SDN_MAX_SUBPACKETS)
      && (!ok ==> p2[..] == old(p2[..]) && newLen == if fits then p2Len - tail2 else p2Len)
    ensures ok ==>
      && newLen <= REACH && p2[newLen..] == old(p2[newLen..])
      && SrcCarries(p2[..newLen], s2 + s1, r2) && IsMerged(p2[..]) && p2[..HEADER] == SetMerged(old(p2[..HEADER]))
  {
    var _, pathLen1, _ := SrcRoutingInfo(p1[..p1Len], s1, r1);
    var realDest2, pathLen2, path2 := SrcRoutingInfo(p2[..p2Len], s2, r2);
    var tail1, tail2 := 3 + 2 * pathLen1, 3 + 2 * pathLen2;
    if (p1Len - tail1) + (p2Len - tail2) > SDN_MAX_PACKET_SIZE - tail2 {
      return false, p2Len;
    }
    var saved := p2[..p2Len][path2..];
    var n1: byte, n2: byte := p1Len - tail1, p2Len - tail2;
    BodyOf(p1[..], p1Len, n1, s1, r1);
    BodyOf(p2[..], p2Len, n2, s2, r2);
    ok, newLen := CombineBodies(p1, n1, p2, n2, s1, s2, realDest2, pathLen2, saved, r2);
  }

  /** Without its tail a source-routed packet carries the same sub-packets. */
  lemma {:induction false} BodyOf(b: seq<byte>, len: nat, n: nat, subs: seq<Sub>, r: Route)
    requires len <= |b| && SrcCarries(b[..len], subs, r) && n + |EncTail(r)| == len
    ensures HEADER <= n && Carries(b[..n], subs) && b[TYPE] in SRC_ROUTED_TYPES
  {
    assert b[..len][..n] == b[..n];
  }

  /** Merges two bodies and puts the saved tail back. */
  method CombineBodies(p1: array<byte>, n1: byte, p2: array<byte>, n2: byte, ghost s1: seq<Sub>, ghost s2: seq<Sub>,
                       realDest: Addr, pathLen: byte, path: seq<byte>, ghost r: Route)
    returns (ok: bool, newLen: nat)
    requires p1 != p2 && p1.Length == p2.Length == REACH && n1 + n2 + 3 + |path| <= SDN_MAX_PACKET_SIZE
    requires Carries(p1[..n1], s1) && Carries(p2[..n2], s2) && p2[TYPE] in SRC_ROUTED_TYPES
    requires |r.path| == pathLen && realDest == r.realDest && path == EncAddrs(r.path)
    modifies p2
    ensures ok <==> |s1| + |s2| <= SDN_MAX_SUBPACKETS
    ensures !ok ==> p2[..] == old(p2[..]) && newLen == n2
    ensures ok ==>
      && newLen <= REACH && p2[newLen..] == old(p2[newLen..])
      && SrcCarries(p2[..newLen], s2 + s1, r) && IsMerged(p2[..]) && p2[..HEADER] == SetMerged(old(p2[..HEADER]))
  {
    ghost var was := p2[..];
    ok, newLen := CombinePackets(p1, n1, p2, n2, s1, s2);
    if ok {
      var n := newLen;
      ghost var body := p2[..];
      newLen := PutTail(p2, n, realDest, pathLen, path, r);
      Retailed(was, n2, body, n, s2, s1, r);
    }
  }

  /** Writes a tail behind the first len octets. */
  method PutTail(p2: array<byte>, len: nat, realDest: Addr, pathLen: byte, path: seq<byte>, ghost r: Route) returns (newLen: nat)
    requires len + 3 + |path| <= p2.Length
    requires |r.path| == pathLen && realDest == r.realDest && path == EncAddrs(r.path)
    modifies p2
    ensures newLen == len + |EncTail(r)| <= p2.Length && p2[..] == Overwrite(old(p2[..]), len, EncTail(r))
  {
    ghost var was := p2[..];
    var offset := len;
    Write(p2, offset, EncAddr(realDest));
    offset := offset + 2;
    Write(p2, offset, [pathLen]);
    offset := offset + 1;
    Write(p2, offset, path);
    offset := offset + |path|;
    OverwriteOn(was, len, EncAddr(realDest), [pathLen]);
    OverwriteOn(was, len, EncAddr(realDest) + [pathLen], path);
    newLen := offset;
  }

  /** A container with a tail put behind it is a source-routed packet. */
  lemma {:induction false} Retailed(was: seq<byte>, queuedLen: nat, body: seq<byte>, n: nat, s2: seq<Sub>,
                                    s1: seq<Sub>, r: Route)
    requires HEADER <= queuedLen <= |was| == |body| == REACH && was[TYPE] in SRC_ROUTED_TYPES
    requires |r.path| < 256 && n + |EncTail(r)| <= REACH && |s2 + s1| < 256
    requires body[..n] == Merged(was[..queuedLen], s2, s1) && body[n..] == was[n..]
    ensures
      var b, newLen := Overwrite(body, n, EncTail(r)), n + |EncTail(r)|;
      && SrcCarries(b[..newLen], s2 + s1, r) && IsMerged(b)
      && b[..HEADER] == SetMerged(was[..HEADER]) && b[newLen..] == was[newLen..]
  {
    var b, newLen := Overwrite(body, n, EncTail(r)), n + |EncTail(r)|;
    var h := SetMerged(was[..queuedLen][..HEADER]);
    assert was[..queuedLen][..HEADER] == was[..HEADER];
    assert b[..newLen][..n] == body[..n];
    assert b[..newLen][n..] == EncTail(r);
    assert body[..n][..HEADER] == h;
    assert b[..HEADER] == body[..n][..HEADER];
    assert b[newLen..] == body[n..][newLen - n..];
    assert b[TYPE] == h[TYPE];
  }
}
