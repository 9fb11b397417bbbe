// Aggregation and de-aggregation together: however packets of one type and
// destination were merged, splitting the result gives them back.
module MergeHistory {
  import opened Common
  import opened PacketBytes
  import opened Subpackets
  import opened Aggregation
  import opened SourceTail
  import opened Deaggregation

  /** A packet that has not been merged. */
  type Plain = b: seq<byte> | HEADER <= |b| <= SDN_MAX_PACKET_SIZE && !IsMerged(b) witness [0, 0, 0, 0, 0, 0, 0, 0]

  /** How a queue entry came about: merges may happen at several nodes, so both sides may be merged. */
  datatype Build = Packet(octets: Plain) | Merge(arriving: Build, queued: Build)

  function Subs(t: Build): seq<Sub> {
    match t
    case Packet(b) => [OwnSub(b)]
    case Merge(arriving, queued) => Subs(queued) + Subs(arriving)
  }

  function Originals(t: Build): (s: seq<Plain>)
    ensures |s| == |Subs(t)|
  {
    match t
    case Packet(b) => [b]
    case Merge(arriving, queued) => Originals(queued) + Originals(arriving)
  }

  /** The packet whose buffer all others were merged into. */
  function Oldest(t: Build): Plain {
    if t.Packet? then t.octets else Oldest(t.queued)
  }

  /** Every merge passed the checks of Aggregation.CombinePackets. */
  predicate Accepted(t: Build)
    decreases t, 0
  {
    t.Packet?
    || (&& Accepted(t.arriving) && Accepted(t.queued)
        && |Subs(t)| <= SDN_MAX_SUBPACKETS
        && |Octets(t.arriving)| + |Octets(t.queued)| <= SDN_MAX_PACKET_SIZE)
  }

  function Octets(t: Build): (b: seq<byte>)
    requires Accepted(t)
    ensures |b| >= HEADER
    decreases t, 1
  {
    match t
    case Packet(b) => b
    case Merge(arriving, queued) => Merged(Octets(queued), Subs(queued), Subs(arriving))
  }

  /** All packets have this type and this destination (or flow id). */
  predicate SameTarget(t: Build, ptype: byte, dest: seq<byte>) {
    match t
    case Packet(b) => b[TYPE] == ptype && b[DESTINATION..DESTINATION + 2] == dest
    case Merge(arriving, queued) => SameTarget(arriving, ptype, dest) && SameTarget(queued, ptype, dest)
  }

  /** Every intermediate packet is well formed, so each merge may be followed by another. */
  lemma {:induction false} BuildCarries(t: Build)
    requires Accepted(t)
    ensures Carries(Octets(t), Subs(t))
    ensures IsMerged(Octets(t)) == t.Merge?
    ensures Octets(t)[..HEADER] == if t.Merge? then SetMerged(Oldest(t)[..HEADER]) else Oldest(t)[..HEADER]
    decreases t
  {
    if t.Merge? {
      BuildCarries(t.arriving);
      BuildCarries(t.queued);
      MergedCarries(Octets(t.arriving), Subs(t.arriving), Octets(t.queued), Subs(t.queued));
    }
  }

  /** A packet as it comes back: reserved field and hop limit are those of the packet merged into. */
  function Restored(b: Plain, into: Plain): seq<byte> {
    b[RESERVED := into[RESERVED]][THL := into[THL]]
  }

  lemma {:induction false} RestoredIs(b: Plain, into: Plain)
    requires b[TYPE] == into[TYPE] && b[DESTINATION..DESTINATION + 2] == into[DESTINATION..DESTINATION + 2]
    ensures Single(SetMerged(into[..HEADER]), OwnSub(b)) == Restored(b, into)
  {
    var h := into[..HEADER];
    assert SetNotMerged(SetMerged(h)) == h;
    assert b[6] == b[DESTINATION..DESTINATION + 2][0] && b[7] == b[DESTINATION..DESTINATION + 2][1];
    assert into[6] == into[DESTINATION..DESTINATION + 2][0] && into[7] == into[DESTINATION..DESTINATION + 2][1];
    assert Single(SetMerged(h), OwnSub(b))[..HEADER] == Restored(b, into)[..HEADER];
  }

  lemma {:induction false} OriginalAt(t: Build, ptype: byte, dest: seq<byte>, i: nat)
    requires SameTarget(t, ptype, dest) && i < |Originals(t)|
    ensures Subs(t)[i] == OwnSub(Originals(t)[i])
    ensures Originals(t)[i][TYPE] == ptype && Originals(t)[i][DESTINATION..DESTINATION + 2] == dest
    decreases t
  {
    if t.Merge? {
      var n := |Originals(t.queued)|;
      if i < n {
        OriginalAt(t.queued, ptype, dest, i);
      } else {
        OriginalAt(t.arriving, ptype, dest, i - n);
      }
    }
  }

  lemma {:induction false} OldestIsOne(t: Build, ptype: byte, dest: seq<byte>)
    requires SameTarget(t, ptype, dest)
    ensures Oldest(t)[TYPE] == ptype && Oldest(t)[DESTINATION..DESTINATION + 2] == dest
    decreases t
  {
    if t.Merge? {
      OldestIsOne(t.queued, ptype, dest);
    }
  }

  /** In front of the count every packet of a type that is merged has eight octets. */
  lemma {:induction false} HeaderBeforeCount(ptype: byte)
    requires ptype in {SDN_PACKET_DATA, SDN_PACKET_CONTROL_FLOW_SETUP, SDN_PACKET_DATA_FLOW_SETUP, SDN_PACKET_CONTROL_FLOW_REQUEST,
                       SDN_PACKET_DATA_FLOW_REQUEST, SDN_PACKET_REGISTER_FLOWID, SDN_PACKET_ACK_BY_FLOW_ADDRESS,
                       SDN_PACKET_ACK_BY_FLOW_ID}
    ensures HeaderSize(ptype) == 8 && ptype !in SRC_ROUTED_TYPES
  {
  }

  lemma {:induction false} BuildTakenApart(t: Build, ptype: byte, dest: seq<byte>, self: Addr)
    requires t.Merge? && Accepted(t) && SameTarget(t, ptype, dest) && HeaderSize(ptype) == HEADER && ptype !in SRC_ROUTED_TYPES
    ensures
      var out := TakenApart(self, Octets(t), []);
      && |out| == |Originals(t)|
      && forall i :: 0 <= i < |out| ==> out[i] == Restored(Originals(t)[i], Oldest(t))
  {
    BuildCarries(t);
    OldestIsOne(t, ptype, dest);
    var b, header := Octets(t), SetMerged(Oldest(t)[..HEADER]);
    assert b[HEADER + 1..HEADER + 1 + |EncSubs(Subs(t))|] == EncSubs(Subs(t));
    assert b[TYPE] == b[..HEADER][TYPE] == ptype;
    ContainerTakenApart(self, b, Subs(t), []);
    OtherPartsKeepHeader(self, header, Subs(t), []);
    forall i | 0 <= i < |Originals(t)|
      ensures Singles(header, Subs(t), [])[i] == Restored(Originals(t)[i], Oldest(t))
    {
      SinglesAt(header, Subs(t), [], i);
      OriginalAt(t, ptype, dest, i);
      RestoredIs(Originals(t)[i], Oldest(t));
    }
  }

  /**
   * Main theorem: splitting, at whatever node, undoes any accepted sequence of merges.  The packets
   * come back in merge order, whole but for the two header fields named in Restored.
   */
  lemma {:induction false} SplitRestoresOriginals(t: Build, ptype: byte, dest: seq<byte>, self: Addr)
    requires t.Merge? && Accepted(t) && SameTarget(t, ptype, dest)
    requires ptype in {SDN_PACKET_DATA, SDN_PACKET_CONTROL_FLOW_SETUP, SDN_PACKET_DATA_FLOW_SETUP, SDN_PACKET_CONTROL_FLOW_REQUEST,
                       SDN_PACKET_DATA_FLOW_REQUEST, SDN_PACKET_REGISTER_FLOWID, SDN_PACKET_ACK_BY_FLOW_ADDRESS,
                       SDN_PACKET_ACK_BY_FLOW_ID}
    ensures
      var out := TakenApart(self, Octets(t), []);
      && |out| == |Originals(t)|
      && forall i :: 0 <= i < |out| ==> out[i] == Restored(Originals(t)[i], Oldest(t))
  {
    HeaderBeforeCount(ptype);
    BuildTakenApart(t, ptype, dest, self);
  }
}
