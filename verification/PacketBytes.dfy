// Byte layout shared by the packet models: the six-octet header, addresses,
// and runs of addresses and flow elements.
module PacketBytes {
  import opened Common

  const TYPE: nat := 0
  const RESERVED: nat := 1
  const THL: nat := 2
  const SEQ_NO: nat := 3
  const SOURCE: nat := 4
  const DESTINATION: nat := 6

  const SDN_PACKET_CONTROL_FLOW_SETUP: byte := 0
  const SDN_PACKET_DATA_FLOW_SETUP: byte := 1
  const SDN_PACKET_CONTROL_FLOW_REQUEST: byte := 2
  const SDN_PACKET_DATA_FLOW_REQUEST: byte := 3
  const SDN_PACKET_NEIGHBOR_REPORT: byte := 4
  const SDN_PACKET_DATA: byte := 5
  const SDN_PACKET_SRC_ROUTED_CONTROL_FLOW_SETUP: byte := 6 + 0xE0
  const SDN_PACKET_SRC_ROUTED_DATA_FLOW_SETUP: byte := 7 + 0xE0
  const SDN_PACKET_MULTIPLE_CONTROL_FLOW_SETUP: byte := 8 + 0xD0
  const SDN_PACKET_MULTIPLE_DATA_FLOW_SETUP: byte := 9 + 0xD0
  const SDN_PACKET_ACK_BY_FLOW_ID: byte := 12
  const SDN_PACKET_SRC_ROUTED_ACK: byte := 13
  const SDN_PACKET_REGISTER_FLOWID: byte := 14
  const SDN_PACKET_ACK_BY_FLOW_ADDRESS: byte := 16
  const SDN_PACKET_MNGT_CONT_SRC_RTD: byte := 17
  const SDN_PACKET_GENERIC_SRC_ROUTED: byte := 0x71

  /** One set command of a multiple flow setup. */
  datatype Elem = Elem(action: byte, param: Addr)

  function Header(ptype: byte, thl: byte, seqNo: byte, source: Addr): (h: seq<byte>)
    ensures |h| == SDN_HEADER_SIZE
  {
    [ptype, 0, thl, seqNo] + EncAddr(source)
  }

  function EncAddr(a: Addr): (b: seq<byte>)
    ensures |b| == 2
  {
    [a.u0, a.u1]
  }

  function EncFlow(f: FlowId): (b: seq<byte>)
    ensures |b| == 2
  {
    [f.f0, f.f1]
  }

  function EncAddrs(s: seq<Addr>): (b: seq<byte>)
    ensures |b| == 2 * |s|
  {
    if s == [] then [] else EncAddrs(s[..|s| - 1]) + EncAddr(Last(s))
  }

  function EncElem(e: Elem): (b: seq<byte>)
    ensures |b| == 3
  {
    [e.action] + EncAddr(e.param)
  }

  function EncElems(s: seq<Elem>): (b: seq<byte>)
    ensures |b| == 3 * |s|
  {
    if s == [] then [] else EncElems(s[..|s| - 1]) + EncElem(Last(s))
  }

  /** Address i of a run. */
  lemma {:induction false} AddrOctets(s: seq<Addr>, i: nat)
    requires i < |s|
    ensures EncAddrs(s)[2 * i] == s[i].u0 && EncAddrs(s)[2 * i + 1] == s[i].u1
  {
    var front := s[..|s| - 1];
    assert EncAddrs(s) == EncAddrs(front) + EncAddr(Last(s));
    if i < |front| {
      AddrOctets(front, i);
    }
  }

  /** Set command i of a run. */
  lemma {:induction false} ElemOctets(s: seq<Elem>, i: nat)
    requires i < |s|
    ensures EncElems(s)[3 * i] == s[i].action
    ensures EncElems(s)[3 * i + 1] == s[i].param.u0 && EncElems(s)[3 * i + 2] == s[i].param.u1
  {
    var front := s[..|s| - 1];
    assert EncElems(s) == EncElems(front) + EncElem(Last(s));
    if i < |front| {
      ElemOctets(front, i);
    }
  }

  function AddrAt(b: seq<byte>, i: nat): Addr
    requires i + 2 <= |b|
  {
    Addr(b[i], b[i + 1])
  }

  /** The octets of b with those from position i on overwritten by data. */
  function Overwrite(b: seq<byte>, i: nat, data: seq<byte>): (r: seq<byte>)
    requires i + |data| <= |b|
    ensures |r| == |b|
  {
    b[..i] + data + b[i + |data|..]
  }

  lemma {:induction false} OverwriteInFront(b: seq<byte>, n: nat, i: nat, data: seq<byte>)
    requires i + |data| <= n <= |b|
    ensures Overwrite(b, i, data)[..n] == Overwrite(b[..n], i, data)
  {
  }

  lemma {:induction false} OverwriteBefore(b: seq<byte>, behind: seq<byte>, i: nat, data: seq<byte>)
    requires i + |data| <= |b|
    ensures Overwrite(b + behind, i, data) == Overwrite(b, i, data) + behind
  {
    assert (b + behind)[i + |data|..] == b[i + |data|..] + behind;
  }

  /** Overwriting leaves the octets on either side alone. */
  lemma {:induction false} OverwriteKeeps(b: seq<byte>, i: nat, data: seq<byte>, lo: nat, hi: nat)
    requires i + |data| <= |b| && lo <= hi <= |b|
    requires hi <= i || i + |data| <= lo
    ensures Overwrite(b, i, data)[lo..hi] == b[lo..hi]
  {
  }

  lemma {:induction false} OverwritePuts(b: seq<byte>, i: nat, data: seq<byte>)
    requires i + |data| <= |b|
    ensures Overwrite(b, i, data)[i..i + |data|] == data
  {
  }

  lemma {:induction false} OverwriteOn(b: seq<byte>, i: nat, first: seq<byte>, second: seq<byte>)
    requires i + |first| + |second| <= |b|
    ensures Overwrite(Overwrite(b, i, first), i + |first|, second) == Overwrite(b, i, first + second)
  {
  }

  /** Four writes one behind the other. */
  lemma {:induction false} OverwriteRow(b: seq<byte>, i: nat, p: seq<byte>, q: seq<byte>, r: seq<byte>, s: seq<byte>)
    requires i + |p| + |q| + |r| + |s| <= |b|
    ensures
      var b1 := Overwrite(b, i, p);
      var b2 := Overwrite(b1, i + |p|, q);
      var b3 := Overwrite(b2, i + |p| + |q|, r);
      Overwrite(b3, i + |p| + |q| + |r|, s) == Overwrite(b, i, p + q + r + s)
  {
    OverwriteOn(b, i, p, q);
    OverwriteOn(b, i, p + q, r);
    OverwriteOn(b, i, p + q + r, s);
  }

  /** Copies data into the buffer at position i. */
  method Write(buf: array<byte>, i: nat, data: seq<byte>)
    requires i + |data| <= buf.Length
    modifies buf
    ensures buf[..] == Overwrite(old(buf[..]), i, data)
  {
    for k := 0 to |data|
      invariant forall j :: 0 <= j < buf.Length ==>
                  buf[j] == if i <= j < i + k then data[j - i] else old(buf[j])
    {
      buf[i + k] := data[k];
    }
  }
}
