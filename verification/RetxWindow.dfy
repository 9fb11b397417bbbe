// The retransmission window: a node keeps its last few unacknowledged control
// packets in four slots and sends each again when its timer runs out.
module RetxWindow {
  import opened Common
  import opened PacketBytes

  const SDN_MAX_TX_WINDOW: nat := 4

  const RELIABLE: set<byte> :=
    {SDN_PACKET_NEIGHBOR_REPORT, SDN_PACKET_DATA_FLOW_REQUEST, SDN_PACKET_CONTROL_FLOW_REQUEST,
                         SDN_PACKET_REGISTER_FLOWID}

  /** The flow id or address a request is about. */
  const SUBJECT: nat := 8

  /** The octets of a slot; those beyond the packet's length are left from earlier packets. */
  type Octets = b: seq<byte> | |b| == SDN_MAX_PACKET_SIZE witness seq(SDN_MAX_PACKET_SIZE, _ => 0)

  /** A packet as it is handed over: it has a header, and a request has its subject. */
  type Packet = p: seq<byte> |
    && SDN_HEADER_SIZE <= |p| <= SDN_MAX_PACKET_SIZE
    && (p[TYPE] in RELIABLE && p[TYPE] != SDN_PACKET_NEIGHBOR_REPORT ==> SUBJECT + 2 <= |p|)
    witness seq(SDN_MAX_PACKET_SIZE, _ => 0)

  datatype Slot = Slot(octets: Octets, len: byte, armed: bool)

  /** count is a lower bound on the place of the first free slot. */
  datatype Window = Window(slots: seq<Slot>, count: nat)

  predicate Live(s: Slot) {
    s.len > 0
  }

  /** Two packets are redundant if they have the same type and, but for neighbor reports, the same subject. */
  predicate SameKey(p: seq<byte>, q: seq<byte>)
    requires |p| >= SDN_HEADER_SIZE && |q| >= SDN_HEADER_SIZE
  {
    && p[TYPE] == q[TYPE]
    && (p[TYPE] == SDN_PACKET_NEIGHBOR_REPORT
        || (SUBJECT + 2 <= |p| && SUBJECT + 2 <= |q| && p[SUBJECT..SUBJECT + 2] == q[SUBJECT..SUBJECT + 2]))
  }

  /** What an acknowledgement names. */
  function Tag(p: seq<byte>): (byte, byte)
    requires |p| >= SDN_HEADER_SIZE
  {
    (p[TYPE], p[SEQ_NO])
  }

  /** A packet copied over what a slot held. */
  function Copied(o: Octets, p: Packet): Octets {
    p + o[|p|..]
  }

  function Placed(s: Slot, p: Packet): Slot {
    Slot(Copied(s.octets, p), |p|, true)
  }

  predicate Tracked(p: Packet, self: Addr) {
    p[RESERVED] % 2 == 0 && p[TYPE] in RELIABLE && AddrAt(p, SOURCE) == self
  }

  /** The first free slot from position i on, or the end. */
  function FreeFrom(slots: seq<Slot>, i: nat): (k: nat)
    requires i <= |slots|
    ensures i <= k <= |slots| && (k < |slots| ==> !Live(slots[k]))
    ensures forall j :: i <= j < k ==> Live(slots[j])
    decreases |slots| - i
  {
    if i == |slots| || !Live(slots[i]) then i else FreeFrom(slots, i + 1)
  }

  /** The first slot that satisfies a lookup, live or not. */
  function FirstWith(slots: seq<Slot>, f: Octets -> bool): (k: nat)
    ensures k <= |slots| && (k < |slots| ==> f(slots[k].octets))
    ensures forall j :: 0 <= j < k ==> !f(slots[j].octets)
  {
    if slots == [] then 0 else if f(slots[0].octets) then 0 else 1 + FirstWith(slots[1..], f)
  }

  function Removed(w: Window, i: nat): Window
    requires i < |w.slots|
  {
    Window(w.slots[i := w.slots[i].(len := 0, armed := false)], if i < w.count then i else w.count)
  }

  /** What holds between events. */
  predicate Inv(w: Window) {
    && |w.slots| == SDN_MAX_TX_WINDOW && w.count <= SDN_MAX_TX_WINDOW
    && (forall i :: 0 <= i < w.count ==> Live(w.slots[i]))
    && (forall i :: 0 <= i < |w.slots| ==> (Live(w.slots[i]) <==> w.slots[i].armed))
    && (forall i :: 0 <= i < |w.slots| && Live(w.slots[i]) ==> w.slots[i].octets[TYPE] in RELIABLE)
    && (forall k, i :: 0 <= k < i < |w.slots| && Live(w.slots[i]) ==> !SameKey(w.slots[k].octets, w.slots[i].octets))
  }

  /** No slot in front of a live one, in use or not, has its type and sequence number. */
  predicate TagsClear(w: Window) {
    forall k, i :: 0 <= k < i < |w.slots| && Live(w.slots[i]) ==> Tag(w.slots[k].octets) != Tag(w.slots[i].octets)
  }

  function ByTag(ptype: byte, seqNo: byte): Octets -> bool {
    (o: Octets) => Tag(o) == (ptype, seqNo)
  }

  /** Flow requests are looked up by flow id, and requests for an address by address. */
  function BySubject(ptype: byte, subject: seq<byte>): Octets -> bool {
    (o: Octets) => o[TYPE] == ptype && o[SUBJECT..SUBJECT + 2] == subject
  }

  /** The octets have this type and sequence number. */
  predicate Names(o: Octets, ptype: byte, seqNo: byte) {
    o[0] == ptype && o[3] == seqNo
  }

  /** They are those of a request of this type about these two octets. */
  predicate Asks(o: Octets, ptype: byte, s0: byte, s1: byte) {
    o[0] == ptype && o[8] == s0 && o[9] == s1
  }

  /** A lookup removes what it finds first. */
  function LookedUp(w: Window, f: Octets -> bool): (Window, bool) {
    var k := FirstWith(w.slots, f);
    if k == |w.slots| then (w, false) else (Removed(w, k), true)
  }

  predicate Redundant(slots: seq<Slot>, p: Packet) {
    exists i :: 0 <= i < |slots| && Live(slots[i]) && SameKey(slots[i].octets, p)
  }

  /** A new neighbor report takes the place of the one that waits, timer and all. */
  function Refreshed(slots: seq<Slot>, p: Packet): (r: seq<Slot>)
    ensures |r| == |slots|
    ensures forall i :: 0 <= i < |slots| ==>
              r[i] == RefreshedSlot(slots[i], p)
  {
    if slots == [] then [] else [RefreshedSlot(slots[0], p)] + Refreshed(slots[1..], p)
  }

  function RefreshedSlot(s: Slot, p: Packet): Slot {
    if Live(s) && s.octets[TYPE] == p[TYPE] then Placed(s, p).(armed := s.armed) else s
  }

  /** The window after a packet went out, and whether it is taken care of. */
  function Awaited(w: Window, p: Packet, self: Addr): (Window, bool)
    requires w.count <= |w.slots|
  {
    if !Tracked(p, self) then (w, true)
    else if Redundant(w.slots, p) then
      (if p[TYPE] == SDN_PACKET_NEIGHBOR_REPORT then w.(slots := Refreshed(w.slots, p)) else w, true)
    else
      var k := FreeFrom(w.slots, w.count);
      if k == |w.slots| then (w.(count := k), false)
      else (Window(w.slots[k := Placed(w.slots[k], p)], k + 1), true)
  }

  /** What ALLOC_AND_ENQUEUE meets. */
  datatype Requeue = PoolEmpty | QueueFull | Enqueued

  /** The window after slot i's timer: the copy is given up unless there was no buffer for it. */
  function Fired(w: Window, i: nat, result: Requeue, seqNo: byte): Window
    requires i < |w.slots|
  {
    if result == PoolEmpty then w.(slots := w.slots[i := w.slots[i].(armed := true)])
    else Removed(w.(slots := w.slots[i := w.slots[i].(octets := w.slots[i].octets[SEQ_NO := seqNo])]), i)
  }

  class RetxWindow {
    const self: Addr
    const slots: array<Slot>
    var count: nat

    ghost function State(): Window
      reads this, slots
    {
      Window(slots[..], count)
    }

    ghost predicate Sized()
      reads this
    {
      slots.Length == SDN_MAX_TX_WINDOW && count <= SDN_MAX_TX_WINDOW
    }

    constructor (node: Addr)
      ensures Sized() && Inv(State()) && TagsClear(State()) && self == node && fresh(slots)
    {
      self := node;
      var none := Slot(seq(SDN_MAX_PACKET_SIZE, _ => 0), 0, false);
      slots, count := new Slot[SDN_MAX_TX_WINDOW](_ => none), 0;
    }

    /** sld_remove_element */
    method RemoveElement(index: nat) returns (ok: bool)
      requires Sized()
      modifies this`count, slots
      ensures Sized() && ok == (index < SDN_MAX_TX_WINDOW)
      ensures State() == if ok then Removed(old(State()), index) else old(State())
    {
      if index < SDN_MAX_TX_WINDOW {
        slots[index] := slots[index].(len := 0, armed := false);
        if index < count {
          count := index;
        }
        return true;
      }
      return false;
    }

    /** The lookup loop of sld_rcv_ack, sld_rcv_flow_req and sld_rcv_addr_req: it does not ask whether a slot is in use. */
    method RemoveFirst(f: Octets -> bool) returns (ok: bool)
      requires Sized()
      modifies this`count, slots
      ensures Sized() && (State(), ok) == LookedUp(old(State()), f)
      ensures ok <==> exists j :: 0 <= j < SDN_MAX_TX_WINDOW && f(old(slots[..])[j].octets)
    {
      for i := 0 to SDN_MAX_TX_WINDOW
        invariant Sized() && State() == old(State())
        invariant forall j :: 0 <= j < i ==> !f(slots[..][j].octets)
      {
        if f(slots[i].octets) {
          FirstWithIs(slots[..], f, i);
          ok := RemoveElement(i);
          return;
        }
      }
      return false;
    }

    /** sld_rcv_ack */
    method RcvAck(ptype: byte, seqNo: byte) returns (ok: bool)
      requires Sized()
      modifies this`count, slots
      ensures Sized() && (State(), ok) == LookedUp(old(State()), ByTag(ptype, seqNo))
      ensures ok <==> exists j :: 0 <= j < SDN_MAX_TX_WINDOW && Names(old(slots[..])[j].octets, ptype, seqNo)
    {
      assert forall o: Octets :: ByTag(ptype, seqNo)(o) == Names(o, ptype, seqNo);
      ok := RemoveFirst(ByTag(ptype, seqNo));
    }

    /** sld_rcv_flow_req: the route that was asked for has come. */
    method RcvFlowReq(flow: FlowId) returns (ok: bool)
      requires Sized()
      modifies this`count, slots
      ensures Sized() && (State(), ok) == LookedUp(old(State()), BySubject(SDN_PACKET_DATA_FLOW_REQUEST, EncFlow(flow)))
      ensures ok <==> exists j :: 0 <= j < SDN_MAX_TX_WINDOW &&
                                Asks(old(slots[..])[j].octets, SDN_PACKET_DATA_FLOW_REQUEST, flow.f0, flow.f1)
    {
      assert forall o: Octets {:trigger o[8..10]} :: o[8..10] == [o[8], o[9]];
      assert forall o: Octets :: BySubject(SDN_PACKET_DATA_FLOW_REQUEST, EncFlow(flow))(o) ==
                                 Asks(o, SDN_PACKET_DATA_FLOW_REQUEST, flow.f0, flow.f1);
      ok := RemoveFirst(BySubject(SDN_PACKET_DATA_FLOW_REQUEST, EncFlow(flow)));
    }

    /** sld_rcv_addr_req */
    method RcvAddrReq(addr: Addr) returns (ok: bool)
      requires Sized()
      modifies this`count, slots
      ensures Sized() && (State(), ok) == LookedUp(old(State()), BySubject(SDN_PACKET_CONTROL_FLOW_REQUEST, EncAddr(addr)))
      ensures ok <==> exists j :: 0 <= j < SDN_MAX_TX_WINDOW &&
                                Asks(old(slots[..])[j].octets, SDN_PACKET_CONTROL_FLOW_REQUEST, addr.u0, addr.u1)
    {
      assert forall o: Octets {:trigger o[8..10]} :: o[8..10] == [o[8], o[9]];
      assert forall o: Octets :: BySubject(SDN_PACKET_CONTROL_FLOW_REQUEST, EncAddr(addr))(o) ==
                                 Asks(o, SDN_PACKET_CONTROL_FLOW_REQUEST, addr.u0, addr.u1);
      ok := RemoveFirst(BySubject(SDN_PACKET_CONTROL_FLOW_REQUEST, EncAddr(addr)));
    }

    /** The redundancy loop for neighbor reports, which replaces. */
    method RefreshReport(p: Packet) returns (isRedundant: bool)
      requires Sized() && p[TYPE] == SDN_PACKET_NEIGHBOR_REPORT
      modifies slots
      ensures isRedundant == Redundant(old(slots[..]), p) && slots[..] == Refreshed(old(slots[..]), p)
    {
      isRedundant := false;
      ghost var was := slots[..];
      for i := 0 to SDN_MAX_TX_WINDOW
        invariant isRedundant == exists j :: 0 <= j < i && Live(was[j]) && SameKey(was[j].octets, p)
        invariant forall j :: 0 <= j < SDN_MAX_TX_WINDOW ==> slots[j] == if j < i then RefreshedSlot(was[j], p) else was[j]
      {
        if slots[i].octets[TYPE] == SDN_PACKET_NEIGHBOR_REPORT && slots[i].len > 0 {
          slots[i] := Slot(Copied(slots[i].octets, p), |p|, slots[i].armed);
          isRedundant := true;
        }
      }
    }

    /** The redundancy loops for requests, which only look. */
    method FindRequest(p: Packet) returns (isRedundant: bool)
      requires Sized() && p[TYPE] in RELIABLE && p[TYPE] != SDN_PACKET_NEIGHBOR_REPORT
      ensures isRedundant == Redundant(slots[..], p)
    {
      isRedundant := false;
      for i := 0 to SDN_MAX_TX_WINDOW
        invariant isRedundant == exists j :: 0 <= j < i && Live(slots[..][j]) && SameKey(slots[..][j].octets, p)
      {
        if slots[i].octets[TYPE] == p[TYPE] && slots[i].octets[SUBJECT..SUBJECT + 2] == p[SUBJECT..SUBJECT + 2] && slots[i].len > 0 {
          assert Live(slots[..][i]) && SameKey(slots[..][i].octets, p);
          isRedundant := true;
        }
      }
    }

    /** sld_await_ack */
    method AwaitAck(p: Packet) returns (ok: bool)
      requires Sized()
      modifies this`count, slots
      ensures Sized() && (State(), ok) == Awaited(old(State()), p, self)
    {
      if p[RESERVED] % 2 == 1 {
        return true;
      }
      if p[TYPE] !in RELIABLE || AddrAt(p, SOURCE) != self {
        return true;
      }
      ok := AddTracked(p);
    }

    /** A packet of one of the reliable types: it may be redundant, and else needs a slot. */
    method AddTracked(p: Packet) returns (ok: bool)
      requires Sized() && Tracked(p, self)
      modifies this`count, slots
      ensures Sized() && (State(), ok) == Awaited(old(State()), p, self)
    {
      var isRedundant;
      if p[TYPE] == SDN_PACKET_NEIGHBOR_REPORT {
        isRedundant := RefreshReport(p);
        if !isRedundant {
          NothingRefreshed(old(slots[..]), p);
        }
      } else {
        isRedundant := FindRequest(p);
      }
      if isRedundant {
        return true;
      }
      ok := TakeFreeSlot(p);
    }

    /** The rest of sld_await_ack: an empty buffer position is looked for from the cached count on. */
    method TakeFreeSlot(p: Packet) returns (ok: bool)
      requires Sized()
      modifies this`count, slots
      ensures
        var w, k := old(State()), FreeFrom(old(slots[..]), old(count));
        && Sized() && ok == (k < SDN_MAX_TX_WINDOW)
        && State() == if ok then Window(w.slots[k := Placed(w.slots[k], p)], k + 1) else w.(count := k)
    {
      while count != SDN_MAX_TX_WINDOW && slots[count].len != 0
        invariant Sized() && slots[..] == old(slots[..])
        invariant FreeFrom(slots[..], count) == FreeFrom(slots[..], old(count))
        decreases SDN_MAX_TX_WINDOW - count
      {
        count := count + 1;
      }
      if count == SDN_MAX_TX_WINDOW {
        return false;
      }
      slots[count] := Slot(Copied(slots[count].octets, p), |p|, true);
      count := count + 1;
      return true;
    }

    /** sld_f, given what ALLOC_AND_ENQUEUE meets; the copy that is sent takes the node's next sequence number. */
    method TimerFired(i: nat, result: Requeue, seqNo: byte)
      requires Sized() && i < SDN_MAX_TX_WINDOW
      modifies this`count, slots
      ensures Sized() && State() == Fired(old(State()), i, result, seqNo)
    {
      if result != PoolEmpty {
        slots[i] := slots[i].(octets := slots[i].octets[SEQ_NO := seqNo]);
        var _ := RemoveElement(i);
      } else {
        slots[i] := slots[i].(armed := true);
      }
    }
  }

  lemma {:induction false} FirstWithIs(slots: seq<Slot>, f: Octets -> bool, i: nat)
    requires i < |slots| && f(slots[i].octets) && forall j :: 0 <= j < i ==> !f(slots[j].octets)
    ensures FirstWith(slots, f) == i
  {
  }

  lemma {:induction false} NothingRefreshed(slots: seq<Slot>, p: Packet)
    requires !Redundant(slots, p) && p[TYPE] == SDN_PACKET_NEIGHBOR_REPORT
    ensures Refreshed(slots, p) == slots
  {
    forall i | 0 <= i < |slots|
      ensures Refreshed(slots, p)[i] == slots[i]
    {
      if Live(slots[i]) {
        assert !SameKey(slots[i].octets, p);
      }
    }
  }

  // ---- Runs of the window.

  datatype Event =
    | Sent(packet: Packet)
    | Acked(ptype: byte, seqNo: byte)
    | FlowSet(flow: FlowId)
    | AddrSet(addr: Addr)
    | Timeout(slot: nat, result: Requeue, nextSeqNo: byte)

  function Apply(w: Window, e: Event, self: Addr): Window
    requires w.count <= |w.slots|
  {
    match e
    case Sent(p) => Awaited(w, p, self).0
    case Acked(ptype, seqNo) => LookedUp(w, ByTag(ptype, seqNo)).0
    case FlowSet(flow) => LookedUp(w, BySubject(SDN_PACKET_DATA_FLOW_REQUEST, EncFlow(flow))).0
    case AddrSet(addr) => LookedUp(w, BySubject(SDN_PACKET_CONTROL_FLOW_REQUEST, EncAddr(addr))).0
    case Timeout(i, result, seqNo) => if i < |w.slots| && w.slots[i].armed then Fired(w, i, result, seqNo) else w
  }

  lemma {:induction false} RemovedKeepsInv(w: Window, i: nat)
    requires Inv(w) && i < |w.slots|
    ensures Inv(Removed(w, i)) && (TagsClear(w) ==> TagsClear(Removed(w, i)))
  {
  }

  /** Under the invariant the cached count leads to the first free slot of all. */
  lemma {:induction false} CountIsNoGuess(slots: seq<Slot>, i: nat, count: nat)
    requires i <= count <= |slots| && forall k :: i <= k < count ==> Live(slots[k])
    ensures FreeFrom(slots, i) == FreeFrom(slots, count)
    decreases count - i
  {
    if i < count {
      CountIsNoGuess(slots, i + 1, count);
    }
  }

  lemma {:induction false} RefreshKeepsInv(w: Window, p: Packet)
    requires Inv(w) && p[TYPE] == SDN_PACKET_NEIGHBOR_REPORT
    ensures Inv(w.(slots := Refreshed(w.slots, p)))
    ensures TagsClear(w) ==> TagsClear(w.(slots := Refreshed(w.slots, p)))
  {
    var r := Refreshed(w.slots, p);
    forall k, i | 0 <= k < i < |r| && Live(r[i])
      ensures !SameKey(r[k].octets, r[i].octets)
      ensures TagsClear(w) ==> Tag(r[k].octets) != Tag(r[i].octets)
    {
      assert !SameKey(w.slots[k].octets, w.slots[i].octets);
    }
  }

  /** No live packet has this type and sequence number. */
  predicate TagUnused(slots: seq<Slot>, tag: (byte, byte)) {
    forall i :: 0 <= i < |slots| && Live(slots[i]) ==> Tag(slots[i].octets) != tag
  }

  lemma {:induction false} PlacedKeepsInv(w: Window, p: Packet, k: nat)
    requires Inv(w) && k < |w.slots| && k == FreeFrom(w.slots, 0) && p[TYPE] in RELIABLE && !Redundant(w.slots, p)
    ensures
      var w' := Window(w.slots[k := Placed(w.slots[k], p)], k + 1);
      Inv(w') && (TagsClear(w) && TagUnused(w.slots, Tag(p)) ==> TagsClear(w'))
  {
    var w' := Window(w.slots[k := Placed(w.slots[k], p)], k + 1);
    assert p[TYPE] != SDN_PACKET_NEIGHBOR_REPORT ==> w'.slots[k].octets[SUBJECT..SUBJECT + 2] == p[SUBJECT..SUBJECT + 2];
    assert forall i :: 0 <= i < |w.slots| && Live(w.slots[i]) ==> !SameKey(w.slots[i].octets, p);
  }

  /** The tag an event brings into the window is not that of a live packet. */
  predicate Distinguished(w: Window, e: Event) {
    match e
    case Sent(p) => TagUnused(w.slots, Tag(p))
    case Timeout(i, _, seqNo) => i < |w.slots| ==> TagUnused(w.slots, (w.slots[i].octets[TYPE], seqNo))
    case _ => true
  }

  /** Every event keeps the invariant, and with distinguished tags it keeps the tags clear. */
  lemma {:induction false} EventKeepsInv(w: Window, e: Event, self: Addr)
    requires Inv(w)
    ensures Inv(Apply(w, e, self))
    ensures TagsClear(w) && Distinguished(w, e) ==> TagsClear(Apply(w, e, self))
  {
    match e
    case Sent(p) =>
      if Tracked(p, self) {
        if !Redundant(w.slots, p) {
          CountIsNoGuess(w.slots, 0, w.count);
          var k := FreeFrom(w.slots, 0);
          if k < |w.slots| {
            PlacedKeepsInv(w, p, k);
          }
        } else if p[TYPE] == SDN_PACKET_NEIGHBOR_REPORT {
          RefreshKeepsInv(w, p);
        }
      }
    case Acked(ptype, seqNo) =>
      LookupKeepsInv(w, ByTag(ptype, seqNo));
    case FlowSet(flow) =>
      LookupKeepsInv(w, BySubject(SDN_PACKET_DATA_FLOW_REQUEST, EncFlow(flow)));
    case AddrSet(addr) =>
      LookupKeepsInv(w, BySubject(SDN_PACKET_CONTROL_FLOW_REQUEST, EncAddr(addr)));
    case Timeout(i, result, seqNo) =>
      if i < |w.slots| && w.slots[i].armed {
        FiredKeepsInv(w, i, result, seqNo);
      }
  }

  lemma {:induction false} LookupKeepsInv(w: Window, f: Octets -> bool)
    requires Inv(w)
    ensures Inv(LookedUp(w, f).0) && (TagsClear(w) ==> TagsClear(LookedUp(w, f).0))
  {
    var k := FirstWith(w.slots, f);
    if k < |w.slots| {
      RemovedKeepsInv(w, k);
    }
  }

  lemma {:induction false} FiredKeepsInv(w: Window, i: nat, result: Requeue, seqNo: byte)
    requires Inv(w) && i < |w.slots| && w.slots[i].armed
    ensures Inv(Fired(w, i, result, seqNo))
    ensures TagsClear(w) && TagUnused(w.slots, (w.slots[i].octets[TYPE], seqNo)) ==> TagsClear(Fired(w, i, result, seqNo))
  {
    if result != PoolEmpty {
      var o := w.slots[i].octets[SEQ_NO := seqNo];
      assert o[SUBJECT..SUBJECT + 2] == w.slots[i].octets[SUBJECT..SUBJECT + 2];
    } else {
      assert w.slots[i := w.slots[i].(armed := true)] == w.slots;
    }
  }

  function Start(): Window {
    Window(seq(SDN_MAX_TX_WINDOW, _ => Slot(seq(SDN_MAX_PACKET_SIZE, _ => 0), 0, false)), 0)
  }

  predicate AllDistinguished(events: seq<Event>, self: Addr) {
    events == []
    || (&& AllDistinguished(events[..|events| - 1], self)
        && Distinguished(Run(events[..|events| - 1], self), Last(events)))
  }

  function Run(events: seq<Event>, self: Addr): (w: Window)
    ensures Inv(w)
  {
    if events == [] then Start()
    else
      var w := Run(events[..|events| - 1], self);
      EventKeepsInv(w, Last(events), self);
      Apply(w, Last(events), self)
  }

  lemma {:induction false} RunKeepsTagsClear(events: seq<Event>, self: Addr)
    requires AllDistinguished(events, self)
    ensures TagsClear(Run(events, self))
  {
    if events != [] {
      RunKeepsTagsClear(events[..|events| - 1], self);
      EventKeepsInv(Run(events[..|events| - 1], self), Last(events), self);
    }
  }

  /** The slot is in use for a packet of this type and, unless it is a neighbor report, this subject. */
  predicate Repeats(s: Slot, p: Packet) {
    && s.len > 0 && s.octets[TYPE] == p[TYPE]
    && (p[TYPE] != SDN_PACKET_NEIGHBOR_REPORT ==> |p| >= 10 && s.octets[8] == p[8] && s.octets[9] == p[9])
  }

  lemma {:induction false} RepeatsIsRedundant(slots: seq<Slot>, p: Packet)
    ensures Redundant(slots, p) <==> exists j :: 0 <= j < |slots| && Repeats(slots[j], p)
  {
    forall j | 0 <= j < |slots|
      ensures Repeats(slots[j], p) <==> Live(slots[j]) && SameKey(slots[j].octets, p)
    {
      var o := slots[j].octets;
      if |p| >= 10 {
        assert p[8..10] == [p[8], p[9]] && o[8..10] == [o[8], o[9]];
      }
    }
  }

  /** A reliable packet of this node that is not turned away is in slot i from then on, timer and all; no other slot changes. */
  lemma {:induction false} AwaitedIsKept(w: Window, p: Packet, self: Addr) returns (i: nat)
    requires Inv(w) && p[RESERVED] % 2 == 0 && AddrAt(p, SOURCE) == self && Awaited(w, p, self).1
    requires p[TYPE] in {SDN_PACKET_NEIGHBOR_REPORT, SDN_PACKET_DATA_FLOW_REQUEST, SDN_PACKET_CONTROL_FLOW_REQUEST,
                         SDN_PACKET_REGISTER_FLOWID}
    ensures i < |w.slots| == |Awaited(w, p, self).0.slots|
    ensures
      var slots := Awaited(w, p, self).0.slots;
      var waits := w.slots[i].len > 0;
      && (waits <==> exists j :: 0 <= j < |slots| && Repeats(w.slots[j], p))
      && (forall j :: 0 <= j < |slots| && j != i ==> slots[j] == w.slots[j])
      && slots[i].len > 0 && slots[i].armed && (waits ==> w.slots[i].octets[TYPE] == p[TYPE])
      && (waits && p[TYPE] != SDN_PACKET_NEIGHBOR_REPORT ==>
            slots[i] == w.slots[i] && slots[i].octets[SUBJECT..SUBJECT + 2] == p[SUBJECT..SUBJECT + 2])
      && (!waits || p[TYPE] == SDN_PACKET_NEIGHBOR_REPORT ==>
            slots[i].len == |p| && slots[i].octets[..|p|] == p && slots[i].octets[|p|..] == w.slots[i].octets[|p|..])
  {
    RepeatsIsRedundant(w.slots, p);
    if Redundant(w.slots, p) {
      i :| i < |w.slots| && Live(w.slots[i]) && SameKey(w.slots[i].octets, p);
      if p[TYPE] == SDN_PACKET_NEIGHBOR_REPORT {
        var r := Refreshed(w.slots, p);
        forall j | 0 <= j < |r| && j != i
          ensures r[j] == w.slots[j]
        {
          assert Live(w.slots[j]) ==> !SameKey(w.slots[j].octets, w.slots[i].octets);
        }
      }
    } else {
      i := FreeFrom(w.slots, w.count);
    }
  }

  /** Every other packet leaves the window alone. */
  lemma {:induction false} OtherPacketsPass(w: Window, p: Packet, self: Addr)
    requires Inv(w)
    requires || p[RESERVED] % 2 == 1 || AddrAt(p, SOURCE) != self
             || p[TYPE] !in {SDN_PACKET_NEIGHBOR_REPORT, SDN_PACKET_DATA_FLOW_REQUEST, SDN_PACKET_CONTROL_FLOW_REQUEST,
                         SDN_PACKET_REGISTER_FLOWID}
    ensures Awaited(w, p, self) == (w, true)
  {
  }

  /** What a timer changes: without a buffer nothing; else the slot is free, and what is left in it has the new number. */
  lemma {:induction false} TimeoutIs(w: Window, i: nat, result: Requeue, seqNo: byte, self: Addr)
    requires Inv(w) && i < |w.slots| && w.slots[i].len > 0
    ensures
      var w' := Apply(w, Timeout(i, result, seqNo), self);
      && (result == PoolEmpty ==> w' == w)
      && (result != PoolEmpty ==>
            && |w'.slots| == |w.slots| && w'.slots[i] == Slot(w.slots[i].octets[SEQ_NO := seqNo], 0, false)
            && (forall j :: 0 <= j < |w.slots| && j != i ==> w'.slots[j] == w.slots[j]))
  {
    assert w.slots[i := w.slots[i].(armed := true)] == w.slots;
  }

  /**
   * After any run: a packet is turned away exactly when it is a reliable one of this node, unmerged, all four slots
   * are in use, and none holds the same request.
   */
  lemma {:induction false} FullIffAllLive(events: seq<Event>, p: Packet, self: Addr)
    ensures
      var w := Run(events, self);
      !Awaited(w, p, self).1 <==>
      && p[RESERVED] % 2 == 0 && AddrAt(p, SOURCE) == self
      && p[TYPE] in {SDN_PACKET_NEIGHBOR_REPORT, SDN_PACKET_DATA_FLOW_REQUEST, SDN_PACKET_CONTROL_FLOW_REQUEST,
                         SDN_PACKET_REGISTER_FLOWID}
      && forall i :: 0 <= i < 4 ==> w.slots[i].len > 0 && !Repeats(w.slots[i], p)
  {
    var w := Run(events, self);
    RepeatsIsRedundant(w.slots, p);
    CountIsNoGuess(w.slots, 0, w.count);
  }

  /** Slot i is free in w', with its octets still there, and no other slot has changed. */
  predicate Frees(w: Window, i: nat, w': Window) {
    && i < |w.slots| == |w'.slots| && w'.slots[i] == Slot(w.slots[i].octets, 0, false)
    && forall j :: 0 <= j < |w.slots| && j != i ==> w'.slots[j] == w.slots[j]
  }

  lemma {:induction false} LookupFindsLive(w: Window, ptype: byte, subject: seq<byte>, i: nat)
    requires Inv(w) && i < |w.slots| && Live(w.slots[i]) && w.slots[i].octets[TYPE] == ptype != SDN_PACKET_NEIGHBOR_REPORT
    requires w.slots[i].octets[8..10] == subject
    ensures Frees(w, i, LookedUp(w, BySubject(ptype, subject)).0)
  {
    var f := BySubject(ptype, subject);
    forall j | 0 <= j < i
      ensures !f(w.slots[j].octets)
    {
      assert !SameKey(w.slots[j].octets, w.slots[i].octets);
    }
    FirstWithIs(w.slots, f, i);
  }

  lemma {:induction false} OthersAskElse(w: Window, i: nat, flow: FlowId)
    requires Inv(w) && i < |w.slots| && Live(w.slots[i]) && w.slots[i].octets[TYPE] == SDN_PACKET_DATA_FLOW_REQUEST
    requires w.slots[i].octets[8..10] == EncFlow(flow)
    ensures forall k :: 0 <= k < |w.slots| && k != i && w.slots[k].len > 0 ==>
              w.slots[k].octets[TYPE] != SDN_PACKET_DATA_FLOW_REQUEST || w.slots[k].octets[8..10] != EncFlow(flow)
  {
    forall k | 0 <= k < |w.slots| && k != i && w.slots[k].len > 0
      ensures !SameKey(w.slots[k].octets, w.slots[i].octets)
    {
      assert k < i ==> !SameKey(w.slots[k].octets, w.slots[i].octets);
      assert i < k ==> !SameKey(w.slots[i].octets, w.slots[k].octets);
    }
  }

  lemma {:induction false} FlowAnswer(w: Window, self: Addr, i: nat, flow: FlowId)
    requires Inv(w) && i < |w.slots| && Live(w.slots[i]) && Asks(w.slots[i].octets, SDN_PACKET_DATA_FLOW_REQUEST, flow.f0, flow.f1)
    ensures Frees(w, i, Apply(w, FlowSet(flow), self))
    ensures forall k :: 0 <= k < |w.slots| && k != i && w.slots[k].len > 0 ==>
              w.slots[k].octets[TYPE] != SDN_PACKET_DATA_FLOW_REQUEST || w.slots[k].octets[8..10] != EncFlow(flow)
  {
    assert w.slots[i].octets[8..10] == EncFlow(flow);
    LookupFindsLive(w, SDN_PACKET_DATA_FLOW_REQUEST, EncFlow(flow), i);
    OthersAskElse(w, i, flow);
  }

  lemma {:induction false} AddressAnswer(w: Window, self: Addr, i: nat, addr: Addr)
    requires Inv(w) && i < |w.slots| && Live(w.slots[i])
    requires Asks(w.slots[i].octets, SDN_PACKET_CONTROL_FLOW_REQUEST, addr.u0, addr.u1)
    ensures Frees(w, i, Apply(w, AddrSet(addr), self))
  {
    assert w.slots[i].octets[8..10] == EncAddr(addr);
    LookupFindsLive(w, SDN_PACKET_CONTROL_FLOW_REQUEST, EncAddr(addr), i);
  }

  /** In the window after any run the answer to a request for a flow removes the live one, of which there is one only. */
  lemma {:induction false} AnswerRemovesLiveRequest(events: seq<Event>, self: Addr, w: Window, i: nat, flow: FlowId)
    requires w == Run(events, self) && i < |w.slots| && w.slots[i].len > 0
    requires Asks(w.slots[i].octets, SDN_PACKET_DATA_FLOW_REQUEST, flow.f0, flow.f1)
    ensures Frees(w, i, Apply(w, FlowSet(flow), self))
    ensures forall k :: 0 <= k < |w.slots| && k != i && w.slots[k].len > 0 ==>
              w.slots[k].octets[TYPE] != SDN_PACKET_DATA_FLOW_REQUEST || w.slots[k].octets[8..10] != EncFlow(flow)
  {
    FlowAnswer(w, self, i, flow);
  }

  /** And so does the answer to a request for an address. */
  lemma {:induction false} AddressRemovesLiveRequest(events: seq<Event>, self: Addr, w: Window, i: nat, addr: Addr)
    requires w == Run(events, self) && i < |w.slots| && w.slots[i].len > 0
    requires Asks(w.slots[i].octets, SDN_PACKET_CONTROL_FLOW_REQUEST, addr.u0, addr.u1)
    ensures Frees(w, i, Apply(w, AddrSet(addr), self))
  {
    AddressAnswer(w, self, i, addr);
  }

  /** An acknowledgement removes live packet i exactly when no slot in front of it has the same type and number. */
  lemma {:induction false} AckRemovesIff(w: Window, i: nat, self: Addr)
    requires Inv(w) && i < |w.slots| && Live(w.slots[i])
    ensures
      var o := w.slots[i].octets;
      Frees(w, i, Apply(w, Acked(o[0], o[3]), self)) <==>
      forall k :: 0 <= k < i ==> w.slots[k].octets[0] != o[0] || w.slots[k].octets[3] != o[3]
  {
    var o := w.slots[i].octets;
    var f := ByTag(o[0], o[3]);
    if forall k :: 0 <= k < i ==> w.slots[k].octets[0] != o[0] || w.slots[k].octets[3] != o[3] {
      FirstWithIs(w.slots, f, i);
    } else {
      var k := FirstWith(w.slots, f);
      assert k < i && Live(Removed(w, k).slots[i]);
    }
  }

  /** So while tags of live packets are kept apart, no stale copy ever takes an acknowledgement. */
  lemma {:induction false} AckIsNeverCaptured(events: seq<Event>, self: Addr, i: nat)
    requires AllDistinguished(events, self) && i < SDN_MAX_TX_WINDOW && Live(Run(events, self).slots[i])
    ensures
      var w := Run(events, self);
      Frees(w, i, Apply(w, Acked(w.slots[i].octets[0], w.slots[i].octets[3]), self))
  {
    RunKeepsTagsClear(events, self);
    var w := Run(events, self);
    forall k | 0 <= k < i
      ensures Tag(w.slots[k].octets) != Tag(w.slots[i].octets)
    {
    }
    AckRemovesIff(w, i, self);
  }

  /**
   * How a live packet leaves the window: acknowledged, answered, or timed out with a buffer to be had.
   * The last case includes a full send queue, where the copy is given up although nothing was sent.
   */
  lemma {:induction false} LeavesOnlyIf(w: Window, e: Event, self: Addr, i: nat)
    requires Inv(w) && i < |w.slots| && Live(w.slots[i]) && !Live(Apply(w, e, self).slots[i])
    ensures
      var o := w.slots[i].octets;
      match e
      case Sent(_) => false
      case Acked(t, s) => o[0] == t && o[3] == s
      case FlowSet(flow) => o[TYPE] == SDN_PACKET_DATA_FLOW_REQUEST && o[SUBJECT..SUBJECT + 2] == EncFlow(flow)
      case AddrSet(addr) => o[TYPE] == SDN_PACKET_CONTROL_FLOW_REQUEST && o[SUBJECT..SUBJECT + 2] == EncAddr(addr)
      case Timeout(k, result, _) => k == i && result != PoolEmpty
  {
    if e.Sent? {
      SentStays(w, e.packet, self, i);
    }
  }

  lemma {:induction false} SentStays(w: Window, p: Packet, self: Addr, i: nat)
    requires w.count <= |w.slots| && i < |w.slots| && Live(w.slots[i])
    ensures |Awaited(w, p, self).0.slots| == |w.slots| && Live(Awaited(w, p, self).0.slots[i])
  {
  }

  /** A full queue with a buffer left drops the packet; the comment beside the code says its timer is set again. */
  lemma {:induction false} FullQueueDropsPacket(w: Window, i: nat, seqNo: byte, self: Addr)
    requires Inv(w) && i < |w.slots| && w.slots[i].armed
    ensures forall result :: Live(Apply(w, Timeout(i, result, seqNo), self).slots[i]) <==> result == PoolEmpty
  {
    assert Live(w.slots[i]);
  }
}
