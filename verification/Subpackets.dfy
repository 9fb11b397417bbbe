// The container format of merged packets: an eight-octet header whose reserved
// field carries the merged flag, a count, and the sub-packets one after the other.
module Subpackets {
  import opened Common
  import opened PacketBytes

  const SDN_MAX_SUBPACKETS: nat := 8

  /** Header and destination (or flow id) of every packet type that is merged. */
  const HEADER: nat := 8

  /** Sequence number, source and length in front of each sub-packet's payload. */
  const SUB_HEADER: nat := 4

  /** sdn_get_header_size, which the receiving side uses. */
  function HeaderSize(ptype: byte): nat {
    if ptype in {SDN_PACKET_CONTROL_FLOW_SETUP, SDN_PACKET_DATA_FLOW_SETUP, SDN_PACKET_ACK_BY_FLOW_ADDRESS,
                 SDN_PACKET_SRC_ROUTED_ACK, SDN_PACKET_SRC_ROUTED_CONTROL_FLOW_SETUP,
                 SDN_PACKET_SRC_ROUTED_DATA_FLOW_SETUP} then SDN_HEADER_SIZE + 2
    else if ptype in {SDN_PACKET_CONTROL_FLOW_REQUEST, SDN_PACKET_DATA_FLOW_REQUEST, SDN_PACKET_REGISTER_FLOWID,
                      SDN_PACKET_ACK_BY_FLOW_ID} then SDN_HEADER_SIZE + 2
    else if ptype == SDN_PACKET_DATA then SDN_HEADER_SIZE + 2
    else SDN_HEADER_SIZE
  }

  /** A sub-packet's length is carried in one octet. */
  type Payload = p: seq<byte> | |p| < 256

  datatype Sub = Sub(seqNo: byte, source: Addr, payload: Payload)

  function EncSub(s: Sub): (b: seq<byte>)
    ensures |b| == SUB_HEADER + |s.payload|
  {
    [s.seqNo] + EncAddr(s.source) + [|s.payload|] + s.payload
  }

  function EncSubs(subs: seq<Sub>): seq<byte> {
    if subs == [] then [] else EncSubs(subs[..|subs| - 1]) + EncSub(Last(subs))
  }

  lemma {:induction false} EncSubsJoin(s: seq<Sub>, t: seq<Sub>)
    ensures EncSubs(s + t) == EncSubs(s) + EncSubs(t)
  {
    if t == [] {
      assert s + t == s;
    } else {
      var u, front := s + t, t[..|t| - 1];
      EncSubsJoin(s, front);
      assert u[..|u| - 1] == s + front && Last(u) == Last(t);
      var a, b, c := EncSubs(s), EncSubs(front), EncSub(Last(t));
      assert EncSubs(u) == (a + b) + c;
      assert EncSubs(t) == b + c;
      assert (a + b) + c == a + (b + c);
    }
  }

  predicate IsMerged(b: seq<byte>)
    requires |b| >= SDN_HEADER_SIZE
  {
    b[RESERVED] % 2 == 1
  }

  function SetMerged(b: seq<byte>): (r: seq<byte>)
    requires |b| >= SDN_HEADER_SIZE
    ensures |r| == |b| && IsMerged(r)
  {
    if IsMerged(b) then b else b[RESERVED := b[RESERVED] + 1]
  }

  function SetNotMerged(b: seq<byte>): (r: seq<byte>)
    requires |b| >= SDN_HEADER_SIZE
    ensures |r| == |b| && !IsMerged(r)
  {
    if IsMerged(b) then b[RESERVED := b[RESERVED] - 1] else b
  }

  /** One octet past the buffer: the size check lets a merge reach this far (see Aggregation.MergedLenIs). */
  const REACH: nat := SDN_MAX_PACKET_SIZE + 1

  /** The one sub-packet an unmerged packet stands for. */
  function OwnSub(b: seq<byte>): Sub
    requires HEADER <= |b| <= REACH
  {
    Sub(b[SEQ_NO], AddrAt(b, SOURCE), b[HEADER..])
  }

  /** The octets of a container. */
  function Container(header: seq<byte>, subs: seq<Sub>): (b: seq<byte>)
    requires |header| == HEADER && |subs| < 256
    ensures |b| == HEADER + 1 + |EncSubs(subs)|
  {
    header + [|subs|] + EncSubs(subs)
  }

  /** Packet b carries exactly these sub-packets. */
  predicate Carries(b: seq<byte>, subs: seq<Sub>) {
    && HEADER <= |b| <= REACH
    && if IsMerged(b) then |subs| < 256 && b == Container(b[..HEADER], subs) else subs == [OwnSub(b)]
  }

  /** Where sub-packet i starts. */
  function Start(subs: seq<Sub>, i: nat): (at: nat)
    requires i <= |subs|
  {
    HEADER + 1 + |EncSubs(subs[..i])|
  }

  /** The i-th sub-packet's octets, with what precedes and what follows them. */
  lemma {:induction false} SplitAt(subs: seq<Sub>, i: nat)
    requires i < |subs|
    ensures EncSubs(subs) == EncSubs(subs[..i]) + EncSub(subs[i]) + EncSubs(subs[i + 1..])
    ensures EncSubs(subs[..i + 1]) == EncSubs(subs[..i]) + EncSub(subs[i])
  {
    assert subs[..i + 1][..i] == subs[..i];
    assert subs == subs[..i + 1] + subs[i + 1..];
    EncSubsJoin(subs[..i + 1], subs[i + 1..]);
  }

  /** The octets of a sub-packet, read back field by field. */
  lemma {:induction false} SubRead(b: seq<byte>, at: nat, s: Sub)
    requires at + |EncSub(s)| <= |b| && b[at..at + |EncSub(s)|] == EncSub(s)
    ensures b[at] == s.seqNo && AddrAt(b, at + 1) == s.source && b[at + 3] == |s.payload|
    ensures b[at + SUB_HEADER..at + |EncSub(s)|] == s.payload
  {
    var c := b[at..at + |EncSub(s)|];
    assert b[at] == c[0] && b[at + 1] == c[1] && b[at + 2] == c[2] && b[at + 3] == c[3];
    assert b[at + SUB_HEADER..at + |EncSub(s)|] == c[SUB_HEADER..];
  }

  lemma {:induction false} SliceOfSlice(b: seq<byte>, lo: nat, hi: nat, n: nat, m: nat)
    requires lo <= hi <= |b| && n <= m <= hi - lo
    ensures b[lo..hi][n..m] == b[lo + n..lo + m]
  {
    assert forall k :: n <= k < m ==> b[lo..hi][n..m][k - n] == b[lo..hi][k] == b[lo + n..lo + m][k - n];
  }

  /** Sub-packet i lies where the lengths before it say, and inside the packet. */
  lemma {:induction false} SubAt(b: seq<byte>, subs: seq<Sub>, i: nat)
    requires i < |subs|
    requires HEADER + 1 + |EncSubs(subs)| <= |b|
    requires b[HEADER + 1..HEADER + 1 + |EncSubs(subs)|] == EncSubs(subs)
    ensures
      var at, s := Start(subs, i), subs[i];
      && Start(subs, i + 1) == at + |EncSub(s)| <= HEADER + 1 + |EncSubs(subs)|
      && b[at..at + |EncSub(s)|] == EncSub(s)
  {
    SplitAt(subs, i);
    var e, n, m := EncSubs(subs), |EncSubs(subs[..i])|, |EncSub(subs[i])|;
    assert e[n..n + m] == EncSub(subs[i]);
    SliceOfSlice(b, HEADER + 1, HEADER + 1 + |e|, n, n + m);
  }
}
