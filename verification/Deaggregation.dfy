// Splitting a merged packet back into single packets at its destination.
module Deaggregation {
  import opened Common
  import opened PacketBytes
  import opened Subpackets
  import opened Aggregation
  import opened SourceTail

  /** The header of the container with a sub-packet's own sequence number and source, then its payload. */
  function Single(header: seq<byte>, s: Sub): (b: seq<byte>)
    requires |header| >= SDN_HEADER_SIZE
    ensures |b| == |header| + |s.payload|
  {
    SetNotMerged(header)[SEQ_NO := s.seqNo][SOURCE := s.source.u0][SOURCE + 1 := s.source.u1] + s.payload
  }

  /** One packet for each sub-packet, each with the same octets behind it. */
  function Singles(header: seq<byte>, subs: seq<Sub>, tail: seq<byte>): (out: seq<seq<byte>>)
    requires |header| >= SDN_HEADER_SIZE
    ensures |out| == |subs|
  {
    if subs == [] then [] else Singles(header, subs[..|subs| - 1], tail) + [Single(header, Last(subs)) + tail]
  }

  lemma {:induction false} SinglesAt(header: seq<byte>, subs: seq<Sub>, tail: seq<byte>, i: nat)
    requires |header| >= SDN_HEADER_SIZE && i < |subs|
    ensures Singles(header, subs, tail)[i] == Single(header, subs[i]) + tail
  {
    if i < |subs| - 1 {
      SinglesAt(header, subs[..|subs| - 1], tail, i);
    }
  }

  /** The sub-packet at a position, if the packet is long enough for its fields and its payload. */
  function SubFrom(b: seq<byte>, at: nat): Option<Sub> {
    if at + SUB_HEADER > |b| || at + SUB_HEADER + b[at + 3] > |b| then None
    else Some(Sub(b[at], AddrAt(b, at + 1), b[at + SUB_HEADER..at + SUB_HEADER + b[at + 3]]))
  }

  /** The state of reading: what was read, where the cursor is, and whether it is stuck. */
  datatype Reader = Reader(subs: seq<Sub>, at: nat, stuck: bool)

  function Turn(b: seq<byte>, r: Reader): (r': Reader)
    ensures r.at <= r'.at && (r.at <= |b| ==> r'.at <= |b|)
    ensures if r'.stuck then r' == r.(stuck := true) else !r.stuck && |r'.subs| == |r.subs| + 1
  {
    if r.stuck then r
    else match SubFrom(b, r.at)
      case None => r.(stuck := true)
      case Some(s) => Reader(r.subs + [s], r.at + |EncSub(s)|, false)
  }

  /** The reader after n turns. */
  function Parse(b: seq<byte>, at: nat, n: nat): (r: Reader)
    ensures |r.subs| <= n && (!r.stuck ==> |r.subs| == n)
    ensures at <= r.at && (at <= |b| ==> r.at <= |b|)
    decreases n, |b|
  {
    if n == 0 then Reader([], at, false) else Turn(b, Parse(b, at, n - 1))
  }

  /** One turn in a container reads its next sub-packet. */
  lemma {:induction false} TurnReads(b: seq<byte>, subs: seq<Sub>, n: nat)
    requires n < |subs| && HEADER + 1 + |EncSubs(subs)| <= |b|
    requires b[HEADER + 1..HEADER + 1 + |EncSubs(subs)|] == EncSubs(subs)
    ensures Turn(b, Reader(subs[..n], Start(subs, n), false)) == Reader(subs[..n + 1], Start(subs, n + 1), false)
  {
    SubAt(b, subs, n);
    SubRead(b, Start(subs, n), subs[n]);
    assert subs[..n] + [subs[n]] == subs[..n + 1];
  }

  /** Reading a container gives the sub-packets it was made of, whatever follows them. */
  lemma {:induction false} ParseOfContainer(b: seq<byte>, subs: seq<Sub>, n: nat)
    requires n <= |subs| && HEADER + 1 + |EncSubs(subs)| <= |b|
    requires b[HEADER + 1..HEADER + 1 + |EncSubs(subs)|] == EncSubs(subs)
    ensures Parse(b, HEADER + 1, n) == Reader(subs[..n], Start(subs, n), false)
    decreases n
  {
    if n > 0 {
      var m := n - 1;
      ParseOfContainer(b, subs, m);
      TurnReads(b, subs, m);
    }
  }

  /** The cursor only moves forward, and a reader that is stuck stays as it is. */
  lemma {:induction false} ParseOnwards(b: seq<byte>, at: nat, i: nat, n: nat)
    requires i <= n
    ensures Parse(b, at, i).at <= Parse(b, at, n).at
    ensures Parse(b, at, i).stuck ==> Parse(b, at, n) == Parse(b, at, i)
    decreases n - i
  {
    if i < n {
      var m := n - 1;
      ParseOnwards(b, at, i, m);
      assert Parse(b, at, n) == Turn(b, Parse(b, at, m));
    }
  }

  // ---- Treating a part writes into the scratch packet, whose header the next part is given.

  /** What treating a packet does to its header. */
  datatype Effect = Kept | Readdressed(dest: Addr) | MadePlain(ptype: byte, dest: Addr)

  /** The address-routed type that a flow setup turns into where its source route ends. */
  function PlainType(ptype: byte): byte {
    if ptype == SDN_PACKET_SRC_ROUTED_CONTROL_FLOW_SETUP then SDN_PACKET_CONTROL_FLOW_SETUP else SDN_PACKET_DATA_FLOW_SETUP
  }

  /** The effect of a source-routed packet whose fields are these. */
  function EffectOf(self: Addr, ptype: byte, realDest: Addr, pathLen: byte, next: Addr): Effect {
    if pathLen > 0 then Readdressed(next)
    else if realDest == self || ptype == SDN_PACKET_SRC_ROUTED_ACK then Kept
    else MadePlain(PlainType(ptype), realDest)
  }

  /** sdn_treat_packet at node self, as far as the header goes; other than source-routed types only keep it. */
  function TreatEffect(self: Addr, part: seq<byte>): Effect
    requires |part| >= SDN_HEADER_SIZE
  {
    var n := BodySize(part[TYPE]);
    if part[TYPE] !in SRC_ROUTED_TYPES || |part| < n + 3 then Kept
    else
      var pathLen: nat := part[n + 2];
      if |part| < n + 3 + 2 * pathLen || AddrAt(part, DESTINATION) != self then Kept
      else EffectOf(self, part[TYPE], AddrAt(part, n), pathLen, AddrAt(part, n + 1 + 2 * pathLen))
  }

  /** The headers the types have. */
  predicate IsHeader(h: seq<byte>) {
    |h| >= SDN_HEADER_SIZE && |h| == HeaderSize(h[TYPE])
  }

  function Redirected(h: seq<byte>, dest: Addr): (h': seq<byte>)
    requires |h| >= HEADER
    ensures |h'| == |h|
  {
    h[DESTINATION := dest.u0][DESTINATION + 1 := dest.u1]
  }

  function Applied(h: seq<byte>, e: Effect): (h': seq<byte>)
    requires |h| >= HEADER || e == Kept
    ensures |h'| == |h|
  {
    match e
    case Kept => h
    case Readdressed(dest) => Redirected(h, dest)
    case MadePlain(ptype, dest) => Redirected(h, dest)[TYPE := ptype]
  }

  /** The header that the part behind this one is given. */
  function NextHeader(self: Addr, h: seq<byte>, s: Sub, tail: seq<byte>): (h': seq<byte>)
    requires IsHeader(h)
    ensures IsHeader(h') && |h'| == |h|
  {
    Applied(h, TreatEffect(self, Single(h, s) + tail))
  }

  /** The header after these parts. */
  function HeaderAfter(self: Addr, h: seq<byte>, subs: seq<Sub>, tail: seq<byte>): (h': seq<byte>)
    requires IsHeader(h)
    ensures IsHeader(h') && |h'| == |h|
  {
    if subs == [] then h else NextHeader(self, HeaderAfter(self, h, subs[..|subs| - 1], tail), Last(subs), tail)
  }

  /** The parts as they are handed on for treatment. */
  function Parts(self: Addr, h: seq<byte>, subs: seq<Sub>, tail: seq<byte>): (out: seq<seq<byte>>)
    requires IsHeader(h)
    ensures |out| == |subs|
  {
    if subs == [] then []
    else
      var front := subs[..|subs| - 1];
      Parts(self, h, front, tail) + [Single(HeaderAfter(self, h, front, tail), Last(subs)) + tail]
  }

  lemma {:induction false} PartAt(self: Addr, h: seq<byte>, subs: seq<Sub>, tail: seq<byte>, i: nat)
    requires IsHeader(h) && i < |subs|
    ensures Parts(self, h, subs, tail)[i] == Single(HeaderAfter(self, h, subs[..i], tail), subs[i]) + tail
  {
    var front := subs[..|subs| - 1];
    if i < |front| {
      PartAt(self, h, front, tail, i);
      assert front[..i] == subs[..i] && front[i] == subs[i];
      assert Parts(self, h, subs, tail)[i] == Parts(self, h, front, tail)[i];
    } else {
      assert front == subs[..i];
    }
  }

  /** Parts of the other types keep the header, so every part has the container's. */
  lemma {:induction false} OtherPartsKeepHeader(self: Addr, h: seq<byte>, subs: seq<Sub>, tail: seq<byte>)
    requires IsHeader(h) && h[TYPE] !in SRC_ROUTED_TYPES
    ensures HeaderAfter(self, h, subs, tail) == h && Parts(self, h, subs, tail) == Singles(h, subs, tail)
  {
    if subs != [] {
      OtherPartsKeepHeader(self, h, subs[..|subs| - 1], tail);
      assert (Single(h, Last(subs)) + tail)[TYPE] == h[TYPE];
    }
  }

  /** The scratch packet has this header, up to what each sub-packet overwrites. */
  predicate HeaderKept(scratch: seq<byte>, header: seq<byte>) {
    && SDN_HEADER_SIZE <= |header| <= |scratch|
    && forall k :: 0 <= k < |header| && !(SEQ_NO <= k < SOURCE + 2) ==> scratch[k] == SetNotMerged(header)[k]
  }

  /** The scratch packet, zeroed and given the container's header with the merged flag off. */
  method Scratch(header: seq<byte>) returns (individual: array<byte>)
    requires SDN_HEADER_SIZE <= |header| <= HEADER
    ensures fresh(individual) && individual.Length == SDN_MAX_PACKET_SIZE && HeaderKept(individual[..], header)
  {
    individual := new byte[SDN_MAX_PACKET_SIZE](_ => 0);
    Write(individual, 0, header);
    individual[RESERVED] := SetNotMerged(header)[RESERVED];
  }

  /** Fills the scratch packet with one sub-packet; returns the length to treat. */
  method FillIndividual(individual: array<byte>, seqNo: byte, source: Addr, payload: Payload, tail: seq<byte>,
                        headerSize: nat, ghost header: seq<byte>)
    returns (len: nat)
    requires HeaderKept(individual[..], header) && headerSize == |header|
    requires headerSize + |payload| + |tail| <= individual.Length
    modifies individual
    ensures HeaderKept(individual[..], header) && len <= individual.Length
    ensures individual[..len] == Single(header, Sub(seqNo, source, payload)) + tail
  {
    ClearBehind(individual, headerSize);
    Write(individual, headerSize, payload);
    ghost var before := individual[..];
    individual[SEQ_NO] := seqNo;
    individual[SOURCE], individual[SOURCE + 1] := source.u0, source.u1;
    var n := headerSize + |payload|;
    ghost var was := individual[..];
    FilledIsSingle(before, was, header, Sub(seqNo, source, payload));
    Write(individual, n, tail);
    len := n + |tail|;
    assert individual[..len] == was[..n] + tail;
  }

  method ClearBehind(individual: array<byte>, headerSize: nat)
    requires headerSize <= individual.Length
    modifies individual
    ensures individual[..headerSize] == old(individual[..headerSize])
  {
    for k := headerSize to individual.Length
      invariant individual[..headerSize] == old(individual[..headerSize])
    {
      individual[k] := 0;
    }
  }

  /** The scratch packet when its sub-packet's fields and payload are written. */
  lemma {:induction false} FilledIsSingle(before: seq<byte>, was: seq<byte>, header: seq<byte>, s: Sub)
    requires HeaderKept(before, header) && |header| + |s.payload| <= |before|
    requires before[|header|..|header| + |s.payload|] == s.payload
    requires was == before[SEQ_NO := s.seqNo][SOURCE := s.source.u0][SOURCE + 1 := s.source.u1]
    ensures HeaderKept(was, header) && was[..|header| + |s.payload|] == Single(header, s)
  {
    var n := |header|;
    assert was[..n] == Single(header, s)[..n];
    assert was[n..n + |s.payload|] == s.payload;
  }

  /** The writes of treat_src_routed_data_flow_setup and its two siblings. */
  method TreatPart(individual: array<byte>, len: nat, self: Addr, ghost header: seq<byte>, ghost part: seq<byte>)
    requires HeaderKept(individual[..], header) && IsHeader(header) && len <= individual.Length
    requires SDN_HEADER_SIZE <= len && part == individual[..len] && part[TYPE] == header[TYPE]
    modifies individual
    ensures TreatEffect(self, part) == Kept || |header| == HEADER
    ensures HeaderKept(individual[..], Applied(header, TreatEffect(self, part)))
  {
    var ptype := individual[TYPE];
    if ptype !in SRC_ROUTED_TYPES {
      return;
    }
    var n := BodySize(ptype);
    if len < n + 3 {
      return;
    }
    var pathLen: nat := individual[n + 2];
    if len < n + 3 + 2 * pathLen || AddrAt(individual[..], DESTINATION) != self {
      return;
    }
    var realDest := AddrAt(individual[..], n);
    if pathLen == 0 {
      if realDest != self && ptype != SDN_PACKET_SRC_ROUTED_ACK {
        individual[TYPE] := PlainType(ptype);
        individual[DESTINATION], individual[DESTINATION + 1] := realDest.u0, realDest.u1;
      }
    } else {
      individual[n + 2] := pathLen - 1;
      var next := AddrAt(individual[..], n + 3 + 2 * (pathLen - 1));
      individual[DESTINATION], individual[DESTINATION + 1] := next.u0, next.u1;
    }
  }

  /** The types, other than source-routed ones, whose treatment at their destination rewrites the packet. */
  const REWRITTEN_TYPES: set<byte> :=
    {SDN_PACKET_MULTIPLE_CONTROL_FLOW_SETUP, SDN_PACKET_MULTIPLE_DATA_FLOW_SETUP, SDN_PACKET_MNGT_CONT_SRC_RTD,
     SDN_PACKET_GENERIC_SRC_ROUTED}

  /** A packet taken apart at node self. */
  function TakenApart(self: Addr, packet: seq<byte>, tail: seq<byte>): seq<seq<byte>>
    requires HEADER < |packet|
  {
    var size := HeaderSize(packet[TYPE]);
    Parts(self, packet[..size], Parse(packet, size + 1, packet[size]).subs, tail)
  }

  /** Taking a container apart, whatever follows it. */
  lemma {:induction false} ContainerTakenApart(self: Addr, packet: seq<byte>, subs: seq<Sub>, tail: seq<byte>)
    requires HEADER + 1 + |EncSubs(subs)| <= |packet| && HeaderSize(packet[TYPE]) == HEADER
    requires packet[HEADER] == |subs| && packet[HEADER + 1..HEADER + 1 + |EncSubs(subs)|] == EncSubs(subs)
    ensures TakenApart(self, packet, tail) == Parts(self, packet[..HEADER], subs, tail)
  {
    ParseOfContainer(packet, subs, |subs|);
    assert subs[..|subs|] == subs;
  }

  /**
   * sdn_treat_merged_packet: the packets handed on for treatment, in order.
   * The tail of a source-routed packet is taken to start body_len octets behind the header.
   */
  method TreatMergedPacket(packet: seq<byte>, isSrcRtd: bool, self: Addr, ghost subs: seq<Sub>, ghost r: Route)
    returns (handed: seq<seq<byte>>)
    requires HEADER < |packet| <= REACH && packet[TYPE] !in REWRITTEN_TYPES
    requires isSrcRtd <==> packet[TYPE] in SRC_ROUTED_TYPES
    requires isSrcRtd ==> SrcCarries(packet, subs, r) && IsMerged(packet) && 0 < |subs| <= SDN_MAX_SUBPACKETS
    ensures handed == TakenApart(self, packet, if isSrcRtd then [Last(EncSubs(subs))] + EncTail(r) else [])
  {
    var tail := [];
    if isSrcRtd {
      tail := MisplacedTail(packet, subs, r);
    }
    handed := TakeApart(packet, tail, self);
  }

  method TakeApart(packet: seq<byte>, tail: seq<byte>, self: Addr) returns (handed: seq<seq<byte>>)
    requires HEADER < |packet| <= REACH
    requires
      var size := HeaderSize(packet[TYPE]);
      Parse(packet, size + 1, packet[size]).at + |tail| <= REACH + 1
    ensures handed == TakenApart(self, packet, tail)
  {
    var headerSize := HeaderSize(packet[TYPE]);
    var numSubpackets: nat, start: nat := packet[headerSize], headerSize + 1;
    ghost var all := Parse(packet, start, numSubpackets);
    handed := HandOut(packet, packet[..headerSize], start, numSubpackets, tail, self, all);
  }

  /** The tail as the receiver computes it: it starts one octet early, at the end of the last sub-packet. */
  method MisplacedTail(packet: seq<byte>, ghost subs: seq<Sub>, ghost r: Route) returns (tail: seq<byte>)
    requires SrcCarries(packet, subs, r) && IsMerged(packet) && 0 < |subs| <= SDN_MAX_SUBPACKETS
    ensures tail == [Last(EncSubs(subs))] + EncTail(r)
    ensures packet[HEADER] == |subs| && HeaderSize(packet[TYPE]) == HEADER
    ensures Parse(packet, HEADER + 1, |subs|).at + |tail| == |packet| + 1
  {
    TailBehindSubs(packet, subs, r);
    var bodyLen := MergedSubpacketsLen(packet, subs);
    tail := packet[HEADER + bodyLen.value..];
    LastOfSubs(packet, subs, r);
    ParseOfContainer(packet, subs, |subs|);
    assert subs[..|subs|] == subs;
  }

  /** The loop over the sub-packets. */
  method HandOut(packet: seq<byte>, header: seq<byte>, start: nat, numSubpackets: nat, tail: seq<byte>, self: Addr,
                 ghost all: Reader)
    returns (handed: seq<seq<byte>>)
    requires IsHeader(header) && |header| < start && |packet| <= REACH
    requires all == Parse(packet, start, numSubpackets) && all.at + |tail| <= REACH + 1
    ensures handed == Parts(self, header, all.subs, tail)
  {
    var individual := Scratch(header);
    handed := [];
    var offset := start;
    ghost var done, h := [], header;
    var i := 0;
    while i < numSubpackets
      invariant 0 <= i <= numSubpackets && start <= offset
      invariant Parse(packet, start, i) == Reader(done, offset, false)
      invariant i == numSubpackets ==> done == all.subs
      invariant h == HeaderAfter(self, header, done, tail) && HeaderKept(individual[..], h)
      invariant handed == Parts(self, header, done, tail)
    {
      OneTurn(packet, start, i, numSubpackets, done, offset);
      var next, single := HandOne(packet, offset, individual, tail, |header|, self, h);
      if next == None {
        assert done == all.subs;
        break;
      }
      PartsMore(self, header, done, tail, next.value);
      handed := handed + [single];
      h := NextHeader(self, h, next.value, tail);
      offset, done, i := offset + SUB_HEADER + |next.value.payload|, done + [next.value], i + 1;
    }
  }

  /** What reading one more sub-packet means for the reading as a whole. */
  lemma {:induction false} OneTurn(b: seq<byte>, start: nat, i: nat, n: nat, done: seq<Sub>, at: nat)
    requires i < n && Parse(b, start, i) == Reader(done, at, false)
    ensures
      match SubFrom(b, at)
      case None => Parse(b, start, n) == Reader(done, at, true)
      case Some(s) =>
        && Parse(b, start, i + 1) == Reader(done + [s], at + SUB_HEADER + |s.payload|, false)
        && at + SUB_HEADER + |s.payload| <= Parse(b, start, n).at
        && (i + 1 == n ==> Parse(b, start, n).subs == done + [s])
  {
    ParseOnwards(b, start, i + 1, n);
  }

  /** One turn of the loop: the next single packet, if there is one, is handed on and treated. */
  method HandOne(packet: seq<byte>, offset: nat, individual: array<byte>, tail: seq<byte>, headerSize: nat, self: Addr,
                 ghost header: seq<byte>)
    returns (next: Option<Sub>, single: seq<byte>)
    requires HeaderKept(individual[..], header) && IsHeader(header) && headerSize == |header|
    requires SubFrom(packet, offset).Some? ==> headerSize + |SubFrom(packet, offset).value.payload| + |tail| <= individual.Length
    modifies individual
    ensures next == SubFrom(packet, offset)
    ensures next.Some? ==> single == Single(header, next.value) + tail
    ensures next.Some? ==> HeaderKept(individual[..], NextHeader(self, header, next.value, tail))
    ensures next == None ==> HeaderKept(individual[..], header)
  {
    single := [];
    next := ReadSub(packet, offset);
    if next.Some? {
      var s := next.value;
      var len := FillIndividual(individual, s.seqNo, s.source, s.payload, tail, headerSize, header);
      single := individual[..len];
      TreatPart(individual, len, self, header, single);
    }
  }

  /** Reads the sub-packet at the cursor; None ends the loop. */
  method ReadSub(packet: seq<byte>, at: nat) returns (s: Option<Sub>)
    ensures s == SubFrom(packet, at)
  {
    var offset := at;
    if offset + 2 + 2 > |packet| {
      return None;
    }
    var seqNo := packet[offset];
    offset := offset + 1;
    var source := Addr(packet[offset], packet[offset + 1]);
    offset := offset + 2;
    var subpacketLen := packet[offset];
    offset := offset + 1;
    if offset + subpacketLen > |packet| {
      return None;
    }
    s := Some(Sub(seqNo, source, packet[offset..offset + subpacketLen]));
  }

  lemma {:induction false} PartsMore(self: Addr, h: seq<byte>, subs: seq<Sub>, tail: seq<byte>, s: Sub)
    requires IsHeader(h)
    ensures Parts(self, h, subs + [s], tail) == Parts(self, h, subs, tail) + [Single(HeaderAfter(self, h, subs, tail), s) + tail]
    ensures HeaderAfter(self, h, subs + [s], tail) == NextHeader(self, HeaderAfter(self, h, subs, tail), s, tail)
  {
    assert (subs + [s])[..|subs|] == subs;
  }

  /** The octet in front of the tail ends the last sub-packet. */
  lemma {:induction false} LastOfSubs(b: seq<byte>, subs: seq<Sub>, r: Route)
    requires SrcCarries(b, subs, r) && IsMerged(b) && |subs| > 0
    ensures HEADER + |EncSubs(subs)| < |b|
    ensures b[HEADER + |EncSubs(subs)|..] == [Last(EncSubs(subs))] + EncTail(r)
  {
    TailBehindSubs(b, subs, r);
    var n := HEADER + |EncSubs(subs)|;
    assert b[HEADER + 1..n + 1][|EncSubs(subs)| - 1] == b[n];
    assert b[n..] == [b[n]] + b[n + 1..];
  }

  // ---- The off-by-one of the source-routed branch.

  /** The header behind the first part, as the misplaced tail makes it. */
  function MisplacedHeader(self: Addr, h: seq<byte>, last: byte, r: Route): (h': seq<byte>)
    requires |h| == HEADER && |r.path| < 256
    ensures |h'| == HEADER
  {
    var dest, pathLen := Addr(last, r.realDest.u0), r.realDest.u1;
    if pathLen > |r.path| then h
    else if pathLen == 0 then Applied(h, EffectOf(self, h[TYPE], dest, 0, dest))
    else Redirected(h, AddrAt([|r.path|] + EncAddrs(r.path), 2 * pathLen as nat - 2))
  }

  /**
   * Which octets of the header that changes.  With v, the second octet of the real destination, taken for the
   * length of the list: nothing changes if v is beyond the list; otherwise the header goes to two octets from the
   * middle of it, or, if v is 0, a setup that is not at home becomes one by address.
   */
  lemma {:induction false} MisplacedHeaderIs(self: Addr, h: seq<byte>, last: byte, r: Route)
    requires |h| == HEADER && h[0] in SRC_ROUTED_TYPES && |r.path| < 256
    ensures
      var h', v, first: byte := MisplacedHeader(self, h, last, r), r.realDest.u1, r.realDest.u0;
      && (v > |r.path| ==> h' == h)
      && (v == 0 && (Addr(last, first) == self || h[0] == SDN_PACKET_SRC_ROUTED_ACK) ==> h' == h)
      && (v == 0 && Addr(last, first) != self && h[0] == SDN_PACKET_SRC_ROUTED_CONTROL_FLOW_SETUP ==>
            h' == [SDN_PACKET_CONTROL_FLOW_SETUP] + h[1..6] + [last, first])
      && (v == 0 && Addr(last, first) != self && h[0] == SDN_PACKET_SRC_ROUTED_DATA_FLOW_SETUP ==>
            h' == [SDN_PACKET_DATA_FLOW_SETUP] + h[1..6] + [last, first])
      && (v == 1 <= |r.path| ==> h' == h[..6] + [|r.path|, r.path[0].u0])
      && (2 <= v <= |r.path| ==> h' == h[..6] + [r.path[v - 2].u1, r.path[v - 1].u0])
  {
    var h', v: nat := MisplacedHeader(self, h, last, r), r.realDest.u1;
    if v == 0 {
      assert h == [h[0]] + h[1..6] + h[6..8];
    } else if v <= |r.path| {
      var list := [|r.path|] + EncAddrs(r.path);
      assert h == h[..6] + h[6..8] && h' == h[..6] + [list[2 * v - 2], list[2 * v - 1]];
      AddrOctets(r.path, v - 1);
      if v >= 2 {
        AddrOctets(r.path, v - 2);
        assert list[2 * v - 2] == EncAddrs(r.path)[2 * (v - 2) + 1];
      }
      assert list[2 * v - 1] == EncAddrs(r.path)[2 * (v - 1)];
    }
  }

  /** Where the fields of a part lie that has a body of the right size. */
  lemma {:induction false} PartFields(h: seq<byte>, s: Sub, tail: seq<byte>, last: byte, r: Route)
    requires |h| == HEADER && HEADER + |s.payload| == BodySize(h[TYPE])
    requires |r.path| < 256 && tail == [last] + EncTail(r)
    ensures
      var part, n := Single(h, s) + tail, BodySize(h[TYPE]);
      && |part| == n + 4 + 2 * |r.path| && part[TYPE] == h[TYPE] && AddrAt(part, DESTINATION) == AddrAt(h, DESTINATION)
      && AddrAt(part, n) == Addr(last, r.realDest.u0) && part[n + 2] == r.realDest.u1
      && part[n + 3..] == [|r.path|] + EncAddrs(r.path)
  {
    var part, n := Single(h, s) + tail, BodySize(h[TYPE]);
    assert part[n..] == tail;
    assert part[n] == tail[0] && part[n + 1] == tail[1] && part[n + 2] == tail[2];
    assert tail[3..] == [|r.path|] + EncAddrs(r.path);
    assert part[n + 3..] == part[n..][3..];
  }

  /** Treating a part with the misplaced tail. */
  lemma {:induction false} PartRewrites(self: Addr, h: seq<byte>, s: Sub, tail: seq<byte>, last: byte, r: Route)
    requires |h| == HEADER && h[TYPE] in SRC_ROUTED_TYPES && AddrAt(h, DESTINATION) == self
    requires HEADER + |s.payload| == BodySize(h[TYPE]) && |r.path| < 256 && tail == [last] + EncTail(r)
    ensures NextHeader(self, h, s, tail) == MisplacedHeader(self, h, last, r)
  {
    PartFields(h, s, tail, last, r);
    var part, n, pathLen: nat := Single(h, s) + tail, BodySize(h[TYPE]), r.realDest.u1;
    if 0 < pathLen <= |r.path| {
      var rest := part[n + 3..];
      assert part[n + 1 + 2 * pathLen] == rest[2 * pathLen - 2] && part[n + 2 + 2 * pathLen] == rest[2 * pathLen - 1];
    }
  }

  /** At any other node, and for any other type, the header is kept. */
  lemma {:induction false} OthersKeep(self: Addr, h: seq<byte>, s: Sub, tail: seq<byte>)
    requires |h| == HEADER && IsHeader(h) && (h[TYPE] !in SRC_ROUTED_TYPES || AddrAt(h, DESTINATION) != self)
    ensures NextHeader(self, h, s, tail) == h
  {
    var part := Single(h, s) + tail;
    assert part[TYPE] == h[TYPE] && AddrAt(part, DESTINATION) == AddrAt(h, DESTINATION);
  }

  /** What the first part makes of the header the others leave alone. */
  lemma {:induction false} MisplacedSettles(self: Addr, h: seq<byte>, last: byte, r: Route)
    requires |h| == HEADER && h[TYPE] in SRC_ROUTED_TYPES && AddrAt(h, DESTINATION) == self && |r.path| < 256
    ensures
      var h1 := MisplacedHeader(self, h, last, r);
      IsHeader(h1) && (h1 == h || h1[TYPE] !in SRC_ROUTED_TYPES || AddrAt(h1, DESTINATION) != self)
  {
    var h1 := MisplacedHeader(self, h, last, r);
    if h1[TYPE] == h[TYPE] && AddrAt(h1, DESTINATION) == self {
      assert h1 == h;
    }
  }

  lemma {:induction false} HeaderBehindFirst(self: Addr, h: seq<byte>, subs: seq<Sub>, tail: seq<byte>, last: byte, r: Route)
    requires |h| == HEADER && h[TYPE] in SRC_ROUTED_TYPES && AddrAt(h, DESTINATION) == self
    requires (forall s :: s in subs ==> HEADER + |s.payload| == BodySize(h[TYPE])) && |r.path| < 256 && tail == [last] + EncTail(r)
    ensures HeaderAfter(self, h, subs, tail) == if subs == [] then h else MisplacedHeader(self, h, last, r)
  {
    if subs != [] {
      var front, s := subs[..|subs| - 1], Last(subs);
      assert s in subs;
      HeaderBehindFirst(self, h, front, tail, last, r);
      PartRewrites(self, h, s, tail, last, r);
      MisplacedSettles(self, h, last, r);
      var h1 := MisplacedHeader(self, h, last, r);
      if front != [] && h1 != h {
        OthersKeep(self, h1, s, tail);
      }
    }
  }

  /** Part i of a container. */
  lemma {:induction false} ContainerPart(self: Addr, b: seq<byte>, subs: seq<Sub>, r: Route, tail: seq<byte>, i: nat)
    requires SrcCarries(b, subs, r) && IsMerged(b) && i < |subs|
    ensures |TakenApart(self, b, tail)| == |subs|
    ensures TakenApart(self, b, tail)[i] == Single(HeaderAfter(self, b[..HEADER], subs[..i], tail), subs[i]) + tail
  {
    TailBehindSubs(b, subs, r);
    ContainerTakenApart(self, b, subs, tail);
    PartAt(self, b[..HEADER], subs, tail, i);
  }

  /**
   * A part is a single packet with one octet too many in front of its tail: its real destination is right
   * only where three neighbouring octets agree.
   */
  predicate Misplaced(part: seq<byte>, single: seq<byte>, last: byte, r: Route)
    requires |r.path| < 256
  {
    var n := |single|;
    && part == single + [last] + EncTail(r) && part != single + EncTail(r)
    && AddrAt(part, n) == Addr(last, r.realDest.u0) && part[n + 2] == r.realDest.u1
    && (AddrAt(part, n) == r.realDest <==> last == r.realDest.u0 == r.realDest.u1)
  }

  lemma {:induction false} MisplacedFields(single: seq<byte>, last: byte, r: Route)
    requires |r.path| < 256
    ensures Misplaced(single + ([last] + EncTail(r)), single, last, r)
  {
    var part, n := single + [last] + EncTail(r), |single|;
    assert part == single + ([last] + EncTail(r));
    assert part[n] == last && part[n + 1] == r.realDest.u0 && part[n + 2] == r.realDest.u1;
    assert |part| != |single + EncTail(r)|;
  }

  /**
   * The off-by-one of the source-routed branch, at the node the packet was sent to: every part is misplaced,
   * and what the node makes of the first part's header is the header of all the others.
   */
  lemma {:induction false} SourceRoutedPartsAreMisplaced(self: Addr, b: seq<byte>, subs: seq<Sub>, r: Route, i: nat)
    requires SrcCarries(b, subs, r) && IsMerged(b) && i < |subs| <= SDN_MAX_SUBPACKETS && AddrAt(b, DESTINATION) == self
    requires forall s :: s in subs ==> HEADER + |s.payload| == BodySize(b[TYPE])
    ensures
      var last, h := Last(EncSubs(subs)), b[..HEADER];
      var parts := TakenApart(self, b, [last] + EncTail(r));
      && |parts| == |subs|
      && var single := Single(if i == 0 then h else MisplacedHeader(self, h, last, r), subs[i]);
      |single| == BodySize(b[TYPE]) && Misplaced(parts[i], single, last, r)
  {
    TailBehindSubs(b, subs, r);
    var last, h := Last(EncSubs(subs)), b[..HEADER];
    var tail := [last] + EncTail(r);
    ContainerPart(self, b, subs, r, tail, i);
    HeaderBehindFirst(self, h, subs[..i], tail, last, r);
    assert subs[i] in subs;
    MisplacedFields(Single(if i == 0 then h else MisplacedHeader(self, h, last, r), subs[i]), last, r);
  }
}
