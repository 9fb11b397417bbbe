// Execution of a Multiple Flow Setup: one packet, consumed hop by hop, does the
// work of a separate rule installation at every node of a planned path.
module MultiFlowSetup {
  import opened Common
  import opened PacketBytes
  import opened SourceRoute

  const FLOWID: nat := 8
  const PATH_LEN: nat := 10
  const SET_LEN: nat := 11
  const SETS: nat := 12
  const MAX_MFS_ELEM: nat := 20

  /** The content of a multiple flow setup packet; both lists are kept reversed, as on the air. */
  datatype Mfs = Mfs(header: seq<byte>, dest: Addr, flow: FlowId, sets: seq<Elem>, route: seq<Addr>)

  predicate WellFormed(p: Mfs) {
    |p.header| == SDN_HEADER_SIZE && |p.sets| < 256 && |p.route| < 256
  }

  function Encode(p: Mfs): (b: seq<byte>)
    requires WellFormed(p)
    ensures |b| == SETS + 3 * |p.sets| + 2 * |p.route|
  {
    p.header + EncAddr(p.dest) + EncFlow(p.flow) + [|p.route|, |p.sets|] + EncElems(p.sets) + EncAddrs(p.route)
  }

  /** The fields of the packed structure, octet by octet, and the two lists behind it. */
  lemma {:induction false} EncodedOctets(p: Mfs, i: nat, j: nat)
    requires WellFormed(p) && i <= |p.sets| && j <= |p.route|
    ensures
      var b := Encode(p);
      && |b| == 12 + 3 * |p.sets| + 2 * |p.route| && b[..6] == p.header
      && b[6] == p.dest.u0 && b[7] == p.dest.u1 && b[8] == p.flow.f0 && b[9] == p.flow.f1
      && b[10] == |p.route| && b[11] == |p.sets|
      && (i < |p.sets| ==>
            b[12 + 3 * i] == p.sets[i].action && b[13 + 3 * i] == p.sets[i].param.u0 && b[14 + 3 * i] == p.sets[i].param.u1)
      && (j < |p.route| ==>
            var at := 12 + 3 * |p.sets| + 2 * j;
            b[at] == p.route[j].u0 && b[at + 1] == p.route[j].u1)
  {
    var b := Encode(p);
    if i < |p.sets| {
      ElemOctets(p.sets, i);
      assert b[12..][3 * i] == EncElems(p.sets)[3 * i] && b[12..][3 * i + 1] == EncElems(p.sets)[3 * i + 1];
      assert b[12..][3 * i + 2] == EncElems(p.sets)[3 * i + 2];
    }
    if j < |p.route| {
      AddrOctets(p.route, j);
      assert b[12 + 3 * |p.sets|..] == EncAddrs(p.route);
      assert b[12 + 3 * |p.sets|..][2 * j] == EncAddrs(p.route)[2 * j];
      assert b[12 + 3 * |p.sets|..][2 * j + 1] == EncAddrs(p.route)[2 * j + 1];
    }
  }

  datatype DataFlow = DataFlow(nextHop: Addr, action: byte)

  type FlowRules = map<FlowId, DataFlow>

  /** sdn_dataflow_insert: forwarding to oneself is turned into receiving. */
  function Installed(self: Addr, rules: FlowRules, flow: FlowId, e: Elem): FlowRules {
    var forwards := e.action == SDN_ACTION_FORWARD || e.action == SDN_ACTION_FORWARD_UNIDIR;
    rules[flow := DataFlow(e.param, if forwards && e.param == self then SDN_ACTION_RECEIVE else e.action)]
  }

  /**
   * The flow's entry has the given next hop and action, but forwarding to the node itself becomes receiving;
   * no other flow's entry is touched.
   */
  lemma {:induction false} InstalledEntry(self: Addr, rules: FlowRules, flow: FlowId, e: Elem, f: FlowId)
    ensures
      var now := Installed(self, rules, flow, e);
      && flow in now && now[flow].nextHop == e.param
      && (e.param == self && (e.action == SDN_ACTION_FORWARD || e.action == SDN_ACTION_FORWARD_UNIDIR) ==>
            now[flow].action == SDN_ACTION_RECEIVE)
      && (e.param != self || e.action == SDN_ACTION_DROP || e.action == SDN_ACTION_RECEIVE ==> now[flow].action == e.action)
      && (f != flow ==> (f in now <==> f in rules) && (f in rules ==> now[f] == rules[f]))
  {
  }

  /** What handling the packet at its destination changes there. */
  function RulesAfter(self: Addr, rules: FlowRules, p: Mfs): FlowRules
    requires p.route == [] ==> p.sets != []
  {
    if p.route != [] then rules else Installed(self, rules, p.flow, Last(p.sets))
  }

  /** The packet that is sent on. */
  function Onward(p: Mfs): Option<Mfs>
    requires p.route == [] ==> p.sets != []
  {
    if p.route != [] then Some(p.(dest := Last(p.route), route := p.route[..|p.route| - 1]))
    else if |p.sets| > 1 then Some(p.(dest := Last(p.sets).param, sets := p.sets[..|p.sets| - 1]))
    else None
  }

  class SdnNode {
    const self: Addr
    var dataFlows: FlowRules

    constructor (self: Addr)
      ensures this.self == self && dataFlows == map[]
    {
      this.self := self;
      dataFlows := map[];
    }

    method DataflowInsert(flow: FlowId, nextHop: Addr, action: byte)
      modifies this
      ensures dataFlows == Installed(self, old(dataFlows), flow, Elem(action, nextHop))
      ensures flow in dataFlows && dataFlows[flow].nextHop == nextHop
      ensures dataFlows[flow].action ==
              if nextHop == self && action in {SDN_ACTION_FORWARD, SDN_ACTION_FORWARD_UNIDIR} then SDN_ACTION_RECEIVE else action
      ensures forall f: FlowId :: f != flow ==>
                (f in dataFlows <==> f in old(dataFlows)) && (f in dataFlows ==> dataFlows[f] == old(dataFlows)[f])
    {
      var a := action;
      if (action == SDN_ACTION_FORWARD || action == SDN_ACTION_FORWARD_UNIDIR) && self == nextHop {
        a := SDN_ACTION_RECEIVE;
      }
      dataFlows := dataFlows[flow := DataFlow(nextHop, a)];
    }

    /**
     * treat_mult_data_flow_setup on the octets of the packet, in place.  It
     * returns the octets handed to the send queue, if any.
     */
    method TreatMultDataFlowSetup(buf: array<byte>, len: nat, ghost p: Mfs) returns (sent: Option<seq<byte>>)
      requires WellFormed(p) && (p.route == [] ==> p.sets != [])
      requires len <= buf.Length && buf[..len] == Encode(p)
      modifies this, buf
      ensures dataFlows == RulesAfter(self, old(dataFlows), p)
      ensures sent == (match Onward(p) case Some(q) => Some(Encode(q)) case None => None)
    {
      LayoutIsEncode(buf[..len], p);
      if buf[PATH_LEN] == 0 {
        assert p.route == [];
        sent := InstallLastSet(buf, len, p);
      } else {
        sent := TakeLastHop(buf, len, p);
        assert dataFlows == old(dataFlows);
      }
    }

    method InstallLastSet(buf: array<byte>, len: nat, ghost p: Mfs) returns (sent: Option<seq<byte>>)
      requires WellFormed(p) && p.route == [] && p.sets != []
      requires len <= buf.Length && Layout(buf[..len], p)
      modifies this, buf
      ensures dataFlows == RulesAfter(self, old(dataFlows), p)
      ensures sent == (match Onward(p) case Some(q) => Some(Encode(q)) case None => None)
    {
      sent := None;
      ghost var b := buf[..len];
      LastSetAt(b, p);
      var n: nat := buf[SET_LEN] - 1;
      buf[SET_LEN] := n;
      var at := SETS + 3 * n;
      var e := Elem(buf[at], Addr(buf[at + 1], buf[at + 2]));
      assert e == Last(p.sets);
      assert buf[FLOWID] == b[FLOWID] && buf[FLOWID + 1] == b[FLOWID + 1];
      DataflowInsert(FlowId(buf[FLOWID], buf[FLOWID + 1]), e.param, e.action);
      if n != 0 {
        sent := PassOnSets(buf, len, e.param, b);
        SetDropped(b, p, sent.value);
      }
    }

    /** The packet goes to the node the rule leads to, without the set command that was just taken. */
    static method PassOnSets(buf: array<byte>, len: nat, next: Addr, ghost b: seq<byte>) returns (sent: Option<seq<byte>>)
      requires SETS + 3 <= len == |b| <= buf.Length && b[SET_LEN] > 0 && buf[..len] == b[SET_LEN := b[SET_LEN] - 1]
      modifies buf
      ensures sent.Some? && |sent.value| == len - 3 && Consumed(b, sent.value, SET_LEN, next)
    {
      buf[DESTINATION], buf[DESTINATION + 1] := next.u0, next.u1;
      sent := Some(buf[..len - 3]);
      assert forall k :: 0 <= k < len - 3 && k != SET_LEN && !(DESTINATION <= k < DESTINATION + 2) ==> sent.value[k] == b[k];
    }

    method TakeLastHop(buf: array<byte>, len: nat, ghost p: Mfs) returns (sent: Option<seq<byte>>)
      requires WellFormed(p) && p.route != []
      requires len <= buf.Length && Layout(buf[..len], p)
      modifies buf
      ensures sent == Some(Encode(Onward(p).value))
    {
      ghost var b := buf[..len];
      LastHopAt(b, p);
      var n: nat, k: nat := buf[PATH_LEN] - 1, buf[SET_LEN];
      buf[PATH_LEN] := n;
      var at := SETS + 3 * k + 2 * n;
      buf[DESTINATION], buf[DESTINATION + 1] := buf[at], buf[at + 1];
      sent := Some(buf[..len - 2]);
      HopDropped(b, p, sent.value);
    }
  }

  /** The octets b hold the fields of p at their places. */
  predicate Layout(b: seq<byte>, p: Mfs)
    requires WellFormed(p)
  {
    var lists := SETS + 3 * |p.sets|;
    && |b| == lists + 2 * |p.route|
    && b[..DESTINATION] == p.header
    && b[DESTINATION..FLOWID] == EncAddr(p.dest)
    && b[FLOWID..PATH_LEN] == EncFlow(p.flow)
    && b[PATH_LEN] == |p.route| && b[SET_LEN] == |p.sets|
    && b[SETS..lists] == EncElems(p.sets)
    && b[lists..] == EncAddrs(p.route)
  }

  lemma {:induction false} LayoutIsEncode(b: seq<byte>, p: Mfs)
    requires WellFormed(p)
    ensures Layout(b, p) <==> b == Encode(p)
  {
    if Layout(b, p) {
      var lists := SETS + 3 * |p.sets|;
      assert b == b[..DESTINATION] + b[DESTINATION..FLOWID] + b[FLOWID..PATH_LEN] + [b[PATH_LEN], b[SET_LEN]]
                  + b[SETS..lists] + b[lists..];
    }
  }

  lemma {:induction false} LastSetAt(b: seq<byte>, p: Mfs)
    requires WellFormed(p) && Layout(b, p) && p.sets != []
    ensures
      var at := SETS + 3 * (|p.sets| - 1);
      && Elem(b[at], Addr(b[at + 1], b[at + 2])) == Last(p.sets)
      && b[SETS..at] == EncElems(p.sets[..|p.sets| - 1])
      && FlowId(b[FLOWID], b[FLOWID + 1]) == p.flow
  {
    assert b[FLOWID] == b[FLOWID..PATH_LEN][0] && b[FLOWID + 1] == b[FLOWID..PATH_LEN][1];
    var n, at := |p.sets| - 1, SETS + 3 * (|p.sets| - 1);
    var sets := b[SETS..SETS + 3 * |p.sets|];
    assert sets[3 * n..] == EncElem(Last(p.sets)) && sets[..3 * n] == EncElems(p.sets[..n]);
    assert b[at] == sets[3 * n] && b[at + 1] == sets[3 * n + 1] && b[at + 2] == sets[3 * n + 2];
    assert b[SETS..at] == sets[..3 * n];
  }

  lemma {:induction false} LastHopAt(b: seq<byte>, p: Mfs)
    requires WellFormed(p) && Layout(b, p) && p.route != []
    ensures
      var lists := SETS + 3 * |p.sets|;
      var at := lists + 2 * (|p.route| - 1);
      && AddrAt(b, at) == Last(p.route)
      && b[lists..at] == EncAddrs(p.route[..|p.route| - 1])
  {
    var n, lists := |p.route| - 1, SETS + 3 * |p.sets|;
    assert b[lists..][2 * n..] == EncAddr(Last(p.route)) && b[lists..][..2 * n] == EncAddrs(p.route[..n]);
    assert b[lists..lists + 2 * n] == b[lists..][..2 * n];
    assert b[lists + 2 * n] == b[lists..][2 * n] && b[lists + 2 * n + 1] == b[lists..][2 * n + 1];
  }

  /** c is b with the destination replaced and one count lowered, short of b's last list element. */
  predicate Consumed(b: seq<byte>, c: seq<byte>, count: nat, next: Addr)
    requires |b| >= |c| >= SETS && (count == PATH_LEN || count == SET_LEN)
  {
    && c[..DESTINATION] == b[..DESTINATION]
    && AddrAt(c, DESTINATION) == next
    && c[FLOWID..PATH_LEN] == b[FLOWID..PATH_LEN]
    && c[count] as int == b[count] as int - 1
    && c[PATH_LEN + SET_LEN - count] == b[PATH_LEN + SET_LEN - count]
    && c[SETS..] == b[SETS..|c|]
  }

  lemma {:induction false} SetDropped(b: seq<byte>, p: Mfs, c: seq<byte>)
    requires WellFormed(p) && Layout(b, p) && p.route == [] && |p.sets| > 1
    requires |c| == |b| - 3 && Consumed(b, c, SET_LEN, Last(p.sets).param)
    ensures c == Encode(Onward(p).value)
  {
    LastSetAt(b, p);
    LayoutIsEncode(c, Onward(p).value);
  }

  lemma {:induction false} HopDropped(b: seq<byte>, p: Mfs, c: seq<byte>)
    requires WellFormed(p) && Layout(b, p) && p.route != []
    requires |c| == |b| - 2 && Consumed(b, c, PATH_LEN, Last(p.route))
    ensures c == Encode(Onward(p).value)
  {
    LastHopAt(b, p);
    var lists := SETS + 3 * |p.sets|;
    assert c[lists..] == c[SETS..][3 * |p.sets|..] == b[lists..|c|];
    assert c[SETS..lists] == c[SETS..][..3 * |p.sets|] == b[SETS..lists];
    LayoutIsEncode(c, Onward(p).value);
  }

  /** The set commands of a path, last node first: the last one is for the path's first node. */
  function SetList(path: seq<Addr>): (sets: seq<Elem>)
    ensures |sets| == if path == [] then 0 else |path| - 1
  {
    if |path| <= 1 then [] else SetList(path[1..]) + [Elem(SDN_ACTION_FORWARD, path[1])]
  }

  lemma {:induction false} SetListAt(path: seq<Addr>, j: nat)
    requires j < |SetList(path)|
    ensures SetList(path)[j] == Elem(SDN_ACTION_FORWARD, path[|path| - 1 - j])
  {
    if j < |path| - 2 {
      SetListAt(path[1..], j);
    }
  }

  /** The loop of process_multiple_flow_setup over one path. */
  method BuildSetList(path: seq<Addr>) returns (sets: seq<Elem>)
    requires 2 <= |path| <= MAX_MFS_ELEM + 1
    ensures sets == SetList(path)
    ensures |sets| == |path| - 1 && forall j :: 0 <= j < |sets| ==> sets[j] == Elem(SDN_ACTION_FORWARD, path[|path| - 1 - j])
  {
    var setLen := |path| - 1;
    var setList := new Elem[MAX_MFS_ELEM](_ => Elem(0, Addr(0, 0)));
    var i := setLen;
    while i > 0
      invariant 0 <= i <= setLen
      invariant forall j :: 0 <= j < setLen - i ==> setList[j] == Elem(SDN_ACTION_FORWARD, path[setLen - j])
    {
      setList[setLen - i] := Elem(SDN_ACTION_FORWARD, path[i]);
      i := i - 1;
    }
    sets := setList[..setLen];
    forall j | 0 <= j < setLen
      ensures sets[j] == SetList(path)[j]
    {
      SetListAt(path, j);
    }
  }

  /** The packet the controller builds for a route from its target back to the controller. */
  function Built(self: Addr, seqNo: byte, flow: FlowId, sets: seq<Elem>, route: seq<Addr>): Mfs
    requires |sets| <= MAX_MFS_ELEM && |route| >= 2
  {
    var hops := Fits(SETS + 3 * |sets|, |route| - 2);
    Mfs(Header(SDN_PACKET_MULTIPLE_DATA_FLOW_SETUP, SDN_DEFAULT_TTL, seqNo, self), route[|route| - 2], flow, sets,
        route[|route| - 2 - hops..|route| - 2])
  }

  /**
   * The fields the controller fills in: it is the source, the first hop is the destination, and as many addresses
   * nearest to it are listed as fit into a packet.
   */
  lemma {:induction false} BuiltFields(self: Addr, seqNo: byte, flow: FlowId, sets: seq<Elem>, route: seq<Addr>)
    requires |sets| <= MAX_MFS_ELEM && |route| >= 2
    ensures
      var p, n := Built(self, seqNo, flow, sets, route), |route|;
      && p.header == [SDN_PACKET_MULTIPLE_DATA_FLOW_SETUP, 0, 60, seqNo, self.u0, self.u1]
      && p.dest == route[n - 2] && p.flow == flow && p.sets == sets
      && |p.route| <= n - 2 && p.route == route[n - 2 - |p.route|..n - 2]
      && 12 + 3 * |sets| + 2 * |p.route| <= 116
      && (|p.route| < n - 2 ==> 12 + 3 * |sets| + 2 * (|p.route| + 1) > 116)
  {
    var header := Header(SDN_PACKET_MULTIPLE_DATA_FLOW_SETUP, SDN_DEFAULT_TTL, seqNo, self);
    assert header == [SDN_PACKET_MULTIPLE_DATA_FLOW_SETUP, 0, 60, seqNo, self.u0, self.u1];
  }

  /** send_mult_data_flow_setup; None is SDN_ERROR. */
  method SendMultDataFlowSetup(buf: array<byte>, self: Addr, seqNo: byte, target: Addr, flow: FlowId,
                               sets: seq<Elem>, route: Option<seq<Addr>>)
    returns (len: Option<nat>)
    requires buf.Length == SDN_MAX_PACKET_SIZE && |sets| <= MAX_MFS_ELEM
    requires route.Some? && target != self ==> 2 <= |route.value|
    modifies buf
    ensures len.Some? <==> target != self && route.Some?
    ensures len.Some? ==>
              var p := Built(self, seqNo, flow, sets, route.value);
              WellFormed(p) && len.value <= SDN_MAX_PACKET_SIZE && buf[..len.value] == Encode(p)
  {
    if target == self {
      return None;
    }
    var fixed := SETS + 3 * |sets|;
    FillFixedPart(buf, self, seqNo, flow, sets);
    if route.None? {
      return None;
    }
    ghost var b := buf[..fixed];
    var n := AddSrcRtdHeader(buf, fixed, PATH_LEN, None, target, route.value);
    len := Some(n);
    BuiltLayout(b, self, seqNo, flow, sets, route.value, buf[..n]);
  }

  /** Everything before the source route, but for the destination and the route's length. */
  predicate FixedPart(b: seq<byte>, self: Addr, seqNo: byte, flow: FlowId, sets: seq<Elem>) {
    && |b| == SETS + 3 * |sets| && b[SET_LEN] == |sets| && b[SETS..] == EncElems(sets)
    && b[..DESTINATION] == Header(SDN_PACKET_MULTIPLE_DATA_FLOW_SETUP, SDN_DEFAULT_TTL, seqNo, self)
    && b[FLOWID..PATH_LEN] == EncFlow(flow)
  }

  method FillFixedPart(buf: array<byte>, self: Addr, seqNo: byte, flow: FlowId, sets: seq<Elem>)
    requires buf.Length == SDN_MAX_PACKET_SIZE && |sets| <= MAX_MFS_ELEM
    modifies buf
    ensures FixedPart(buf[..SETS + 3 * |sets|], self, seqNo, flow, sets)
  {
    var header := Header(SDN_PACKET_MULTIPLE_DATA_FLOW_SETUP, SDN_DEFAULT_TTL, seqNo, self);
    Write(buf, 0, header);
    Write(buf, FLOWID, EncFlow(flow));
    assert buf[..DESTINATION] == header;
    buf[SET_LEN] := |sets|;
    assert buf[..DESTINATION] == header && buf[FLOWID..PATH_LEN] == EncFlow(flow);
    ghost var b := buf[..SETS];
    Write(buf, SETS, EncElems(sets));
    assert buf[..SETS] == b && buf[SETS..SETS + 3 * |sets|] == EncElems(sets);
    assert b[..DESTINATION] == header && b[FLOWID..PATH_LEN] == EncFlow(flow);
  }

  lemma {:induction false} BuiltLayout(b: seq<byte>, self: Addr, seqNo: byte, flow: FlowId, sets: seq<Elem>,
                                       route: seq<Addr>, c: seq<byte>)
    requires |sets| <= MAX_MFS_ELEM && 2 <= |route|
    requires FixedPart(b, self, seqNo, flow, sets)
    requires
      var hops := Fits(|b|, |route| - 2);
      c == Filled(b, PATH_LEN, None, Addr(0, 0), hops, route[|route| - 2])
           + EncAddrs(route[|route| - 2 - hops..|route| - 2])
    ensures c == Encode(Built(self, seqNo, flow, sets, route))
  {
    var p, next := Built(self, seqNo, flow, sets, route), EncAddr(route[|route| - 2]);
    var hops := Fits(|b|, |route| - 2);
    var f := FilledFields(b, hops, route[|route| - 2]);
    var addrs := EncAddrs(route[|route| - 2 - hops..|route| - 2]);
    FieldsInFront(f, addrs, c);
    FieldsAreLayout(f, addrs, c, p);
    LayoutIsEncode(c, p);
  }

  lemma {:induction false} FieldsAreLayout(f: seq<byte>, addrs: seq<byte>, c: seq<byte>, p: Mfs)
    requires WellFormed(p) && |f| == SETS + 3 * |p.sets| && addrs == EncAddrs(p.route) && |c| == |f| + |addrs|
    requires c[..DESTINATION] == f[..DESTINATION] == p.header
    requires c[DESTINATION..FLOWID] == f[DESTINATION..FLOWID] == EncAddr(p.dest)
    requires c[FLOWID..PATH_LEN] == f[FLOWID..PATH_LEN] == EncFlow(p.flow)
    requires c[PATH_LEN] == f[PATH_LEN] == |p.route| && c[SET_LEN] == f[SET_LEN] == |p.sets|
    requires c[SETS..|f|] == f[SETS..] == EncElems(p.sets) && c[|f|..] == addrs
    ensures Layout(c, p)
  {
  }

  lemma {:induction false} FieldsInFront(f: seq<byte>, behind: seq<byte>, c: seq<byte>)
    requires |f| >= SETS && c == f + behind
    ensures c[..DESTINATION] == f[..DESTINATION] && c[DESTINATION..FLOWID] == f[DESTINATION..FLOWID]
    ensures c[FLOWID..PATH_LEN] == f[FLOWID..PATH_LEN] && c[PATH_LEN] == f[PATH_LEN] && c[SET_LEN] == f[SET_LEN]
    ensures c[SETS..|f|] == f[SETS..] && c[|f|..] == behind
  {
  }

  /** The fields of the fixed part once it is filled in. */
  lemma {:induction false} FilledFields(b: seq<byte>, hops: byte, next: Addr) returns (f: seq<byte>)
    requires |b| >= SETS
    ensures f == Filled(b, PATH_LEN, None, Addr(0, 0), hops, next) && |f| == |b|
    ensures f[..DESTINATION] == b[..DESTINATION] && f[DESTINATION..FLOWID] == EncAddr(next)
    ensures f[FLOWID..PATH_LEN] == b[FLOWID..PATH_LEN] && f[PATH_LEN] == hops && f[SET_LEN] == b[SET_LEN]
    ensures f[SETS..] == b[SETS..]
  {
    var m := Overwrite(b, PATH_LEN, [hops]);
    f := Overwrite(m, DESTINATION, EncAddr(next));
    OverwriteKeeps(b, PATH_LEN, [hops], 0, DESTINATION);
    OverwriteKeeps(b, PATH_LEN, [hops], FLOWID, PATH_LEN);
    OverwriteKeeps(b, PATH_LEN, [hops], SET_LEN, |b|);
    OverwriteKeeps(m, DESTINATION, EncAddr(next), 0, DESTINATION);
    OverwriteKeeps(m, DESTINATION, EncAddr(next), FLOWID, PATH_LEN);
    OverwriteKeeps(m, DESTINATION, EncAddr(next), PATH_LEN, |b|);
    OverwritePuts(m, DESTINATION, EncAddr(next));
    assert f[PATH_LEN..] == m[PATH_LEN..] && m[SET_LEN..] == b[SET_LEN..];
    assert f[SETS..] == f[PATH_LEN..][2..] == b[SET_LEN..][1..];
  }
}
