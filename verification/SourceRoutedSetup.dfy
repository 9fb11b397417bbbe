// A single source-routed data flow setup: built by the controller, relayed
// along the computed route, and turned into an address-routed packet at the
// end of a truncated address list.
module SourceRoutedSetup {
  import opened Common
  import opened PacketBytes
  import opened SourceRoute
  import M = MultiFlowSetup
  import Q = SeqnoTable

  const FLOWID: nat := 8
  const ACTION: nat := 10
  const REAL_DESTINATION: nat := 13
  const PATH_LEN: nat := 15
  const LIST: nat := 16

  /** What the packet sets up, kept unchanged from end to end. */
  datatype Rule = Rule(flow: FlowId, e: Elem)

  /** A source-routed setup; the address list is reversed, as on the air. */
  datatype Setup = Setup(header: seq<byte>, dest: Addr, rule: Rule, realDest: Addr, route: seq<Addr>)

  predicate WellFormed(p: Setup) {
    |p.header| == SDN_HEADER_SIZE && |p.route| < 256
  }

  /** The octets between the destination and the real destination. */
  function EncRule(r: Rule): (b: seq<byte>)
    ensures |b| == 5
  {
    EncFlow(r.flow) + EncElem(r.e)
  }

  function Encode(p: Setup): (b: seq<byte>)
    requires WellFormed(p)
    ensures |b| == LIST + 2 * |p.route|
  {
    p.header + EncAddr(p.dest) + EncRule(p.rule) + EncAddr(p.realDest) + [|p.route|] + EncAddrs(p.route)
  }

  /** The octets of an address-routed setup with the same rule. */
  function EncodeByAddress(header: seq<byte>, dest: Addr, r: Rule): seq<byte>
    requires |header| == SDN_HEADER_SIZE
  {
    header[TYPE := SDN_PACKET_DATA_FLOW_SETUP] + EncAddr(dest) + EncRule(r)
  }

  /** The fields of the packed structure, octet by octet, and the list behind it. */
  lemma {:induction false} EncodedOctets(p: Setup, j: nat)
    requires WellFormed(p) && j <= |p.route|
    ensures
      var b, r := Encode(p), p.rule;
      && |b| == 16 + 2 * |p.route| && b[..6] == p.header && b[6] == p.dest.u0 && b[7] == p.dest.u1
      && b[8] == r.flow.f0 && b[9] == r.flow.f1 && b[10] == r.e.action && b[11] == r.e.param.u0 && b[12] == r.e.param.u1
      && b[13] == p.realDest.u0 && b[14] == p.realDest.u1 && b[15] == |p.route|
      && (j < |p.route| ==> b[16 + 2 * j] == p.route[j].u0 && b[17 + 2 * j] == p.route[j].u1)
  {
    var b := Encode(p);
    if j < |p.route| {
      AddrOctets(p.route, j);
      assert b[16..][2 * j] == EncAddrs(p.route)[2 * j] && b[16..][2 * j + 1] == EncAddrs(p.route)[2 * j + 1];
    }
  }

  /** The setup that goes the rest of the way by address has the type of one, the real destination, and the same rule. */
  lemma {:induction false} ByAddressOctets(header: seq<byte>, dest: Addr, r: Rule)
    requires |header| == SDN_HEADER_SIZE
    ensures EncodeByAddress(header, dest, r) ==
            [SDN_PACKET_DATA_FLOW_SETUP] + header[1..]
            + [dest.u0, dest.u1, r.flow.f0, r.flow.f1, r.e.action, r.e.param.u0, r.e.param.u1]
  {
    assert header[TYPE := SDN_PACKET_DATA_FLOW_SETUP] == [SDN_PACKET_DATA_FLOW_SETUP] + header[1..];
  }

  predicate Layout(b: seq<byte>, p: Setup)
    requires WellFormed(p)
  {
    && |b| == LIST + 2 * |p.route|
    && b[..DESTINATION] == p.header
    && b[DESTINATION..FLOWID] == EncAddr(p.dest)
    && b[FLOWID..REAL_DESTINATION] == EncRule(p.rule)
    && b[REAL_DESTINATION..PATH_LEN] == EncAddr(p.realDest)
    && b[PATH_LEN] == |p.route|
    && b[LIST..] == EncAddrs(p.route)
  }

  lemma {:induction false} LayoutIsEncode(b: seq<byte>, p: Setup)
    requires WellFormed(p)
    ensures Layout(b, p) <==> b == Encode(p)
  {
    if Layout(b, p) {
      assert b == b[..DESTINATION] + b[DESTINATION..FLOWID] + b[FLOWID..REAL_DESTINATION]
                  + b[REAL_DESTINATION..PATH_LEN] + [b[PATH_LEN]] + b[LIST..];
    }
  }

  /** What a node hands to its send queue after treating the packet. */
  datatype Sent = Nothing | BySource(p: Setup) | ByAddress(header: seq<byte>, dest: Addr, rule: Rule)

  function Onward(self: Addr, p: Setup): Sent {
    if p.route != [] then BySource(p.(dest := Last(p.route), route := p.route[..|p.route| - 1]))
    else if p.realDest == self then Nothing
    else ByAddress(p.header, p.realDest, p.rule)
  }

  function RulesAfter(self: Addr, rules: M.FlowRules, p: Setup): M.FlowRules {
    if p.route == [] && p.realDest == self then M.Installed(self, rules, p.rule.flow, p.rule.e) else rules
  }

  predicate Sends(out: Option<seq<byte>>, s: Sent) {
    match s
    case Nothing => out.None?
    case BySource(p) => WellFormed(p) && out == Some(Encode(p))
    case ByAddress(h, d, r) => |h| == SDN_HEADER_SIZE && out == Some(EncodeByAddress(h, d, r))
  }

  /** treat_src_routed_data_flow_setup on the octets of the packet, in place. */
  method Treat(node: M.SdnNode, buf: array<byte>, len: nat, ghost p: Setup) returns (out: Option<seq<byte>>)
    requires WellFormed(p) && len <= buf.Length && buf[..len] == Encode(p)
    modifies node, buf
    ensures node.dataFlows == RulesAfter(node.self, old(node.dataFlows), p)
    ensures Sends(out, Onward(node.self, p))
  {
    ghost var b := buf[..len];
    LayoutIsEncode(b, p);
    FieldsOf(b, p);
    out := None;
    if buf[PATH_LEN] == 0 {
      if Addr(buf[REAL_DESTINATION], buf[REAL_DESTINATION + 1]) == node.self {
        node.DataflowInsert(FlowId(buf[FLOWID], buf[FLOWID + 1]), Addr(buf[ACTION + 1], buf[ACTION + 2]), buf[ACTION]);
      } else {
        out := TurnToAddress(buf, len, p);
      }
    } else {
      out := TakeLastHop(buf, len, p);
    }
  }

  /** At the end of the list: the rest of the way goes by address. */
  method TurnToAddress(buf: array<byte>, len: nat, ghost p: Setup) returns (out: Option<seq<byte>>)
    requires WellFormed(p) && len <= buf.Length && Layout(buf[..len], p)
    modifies buf
    ensures out == Some(EncodeByAddress(p.header, p.realDest, p.rule))
  {
    ghost var b := buf[..len];
    FieldsOf(b, p);
    buf[TYPE] := SDN_PACKET_DATA_FLOW_SETUP;
    buf[DESTINATION], buf[DESTINATION + 1] := buf[REAL_DESTINATION], buf[REAL_DESTINATION + 1];
    out := Some(buf[..REAL_DESTINATION]);
    ByAddressLayout(b, p, out.value);
  }

  method TakeLastHop(buf: array<byte>, len: nat, ghost p: Setup) returns (out: Option<seq<byte>>)
    requires WellFormed(p) && p.route != [] && len <= buf.Length && Layout(buf[..len], p)
    modifies buf
    ensures out == Some(Encode(p.(dest := Last(p.route), route := p.route[..|p.route| - 1])))
  {
    ghost var b := buf[..len];
    var n: nat := buf[PATH_LEN] - 1;
    buf[PATH_LEN] := n;
    var at := LIST + 2 * n;
    LastHopAt(b, p);
    buf[DESTINATION], buf[DESTINATION + 1] := buf[at], buf[at + 1];
    out := Some(buf[..len - 2]);
    HopDropped(b, p, out.value);
  }

  lemma {:induction false} FieldsOf(b: seq<byte>, p: Setup)
    requires WellFormed(p) && Layout(b, p)
    ensures AddrAt(b, REAL_DESTINATION) == p.realDest
    ensures Rule(FlowId(b[FLOWID], b[FLOWID + 1]), Elem(b[ACTION], AddrAt(b, ACTION + 1))) == p.rule
  {
    var r, d := b[FLOWID..REAL_DESTINATION], b[REAL_DESTINATION..PATH_LEN];
    assert b[FLOWID] == r[0] && b[FLOWID + 1] == r[1];
    assert b[ACTION] == r[2] && b[ACTION + 1] == r[3] && b[ACTION + 2] == r[4];
    assert b[REAL_DESTINATION] == d[0] && b[REAL_DESTINATION + 1] == d[1];
  }

  lemma {:induction false} ByAddressLayout(b: seq<byte>, p: Setup, c: seq<byte>)
    requires WellFormed(p) && Layout(b, p) && |c| == REAL_DESTINATION
    requires c[TYPE] == SDN_PACKET_DATA_FLOW_SETUP && AddrAt(c, DESTINATION) == p.realDest
    requires forall k :: 1 <= k < REAL_DESTINATION && !(DESTINATION <= k < FLOWID) ==> c[k] == b[k]
    ensures c == EncodeByAddress(p.header, p.realDest, p.rule)
  {
    assert c[1..DESTINATION] == b[1..DESTINATION] && c[FLOWID..] == b[FLOWID..REAL_DESTINATION];
    assert p.header[1..] == b[1..DESTINATION];
    assert c == [c[TYPE]] + c[1..DESTINATION] + EncAddr(p.realDest) + c[FLOWID..];
  }

  lemma {:induction false} LastHopAt(b: seq<byte>, p: Setup)
    requires WellFormed(p) && Layout(b, p) && p.route != []
    ensures
      var at := LIST + 2 * (|p.route| - 1);
      AddrAt(b, at) == Last(p.route) && b[LIST..at] == EncAddrs(p.route[..|p.route| - 1])
  {
    var n, list := |p.route| - 1, b[LIST..];
    assert list[2 * n..] == EncAddr(Last(p.route)) && list[..2 * n] == EncAddrs(p.route[..n]);
    assert b[LIST..LIST + 2 * n] == list[..2 * n];
    assert b[LIST + 2 * n] == list[2 * n] && b[LIST + 2 * n + 1] == list[2 * n + 1];
  }

  lemma {:induction false} HopDropped(b: seq<byte>, p: Setup, c: seq<byte>)
    requires WellFormed(p) && Layout(b, p) && p.route != [] && |c| == |b| - 2
    requires AddrAt(c, DESTINATION) == Last(p.route) && c[PATH_LEN] as int == b[PATH_LEN] as int - 1
    requires forall k :: 0 <= k < |c| && !(DESTINATION <= k < FLOWID) && k != PATH_LEN ==> c[k] == b[k]
    ensures c == Encode(p.(dest := Last(p.route), route := p.route[..|p.route| - 1]))
  {
    assert c[..DESTINATION] == b[..DESTINATION];
    assert c[FLOWID..PATH_LEN] == b[FLOWID..PATH_LEN] && c[LIST..] == b[LIST..|c|];
    LastHopAt(b, p);
    assert c[FLOWID..REAL_DESTINATION] == c[FLOWID..PATH_LEN][..5] == b[FLOWID..REAL_DESTINATION];
    assert c[REAL_DESTINATION..PATH_LEN] == c[FLOWID..PATH_LEN][5..] == b[REAL_DESTINATION..PATH_LEN];
    LayoutIsEncode(c, p.(dest := Last(p.route), route := p.route[..|p.route| - 1]));
  }

  // ----- Building and delivery -----

  /** The packet for a route from its target back to the controller. */
  function Built(self: Addr, seqNo: byte, target: Addr, rule: Rule, route: seq<Addr>): Setup
    requires |route| >= 2
  {
    var hops := Fits(LIST, |route| - 2);
    Setup(Header(SDN_PACKET_SRC_ROUTED_DATA_FLOW_SETUP, SDN_DEFAULT_TTL, seqNo, self),
          route[|route| - 2], rule, target, route[|route| - 2 - hops..|route| - 2])
  }

  /** The fields the controller fills in; as many addresses nearest to it are listed as fit into a packet. */
  lemma {:induction false} BuiltFields(self: Addr, seqNo: byte, target: Addr, rule: Rule, route: seq<Addr>)
    requires |route| >= 2
    ensures
      var p, n := Built(self, seqNo, target, rule, route), |route|;
      && p.header == [SDN_PACKET_SRC_ROUTED_DATA_FLOW_SETUP, 0, 60, seqNo, self.u0, self.u1]
      && p.dest == route[n - 2] && p.rule == rule && p.realDest == target
      && |p.route| <= n - 2 && p.route == route[n - 2 - |p.route|..n - 2]
      && 16 + 2 * |p.route| <= 116 && (|p.route| < n - 2 ==> 16 + 2 * (|p.route| + 1) > 116)
  {
    var header := Header(SDN_PACKET_SRC_ROUTED_DATA_FLOW_SETUP, SDN_DEFAULT_TTL, seqNo, self);
    assert header == [SDN_PACKET_SRC_ROUTED_DATA_FLOW_SETUP, 0, 60, seqNo, self.u0, self.u1];
  }

  /** send_src_rtd_data_flow_setup for another node; None is SDN_ERROR. */
  method Send(buf: array<byte>, self: Addr, seqNo: byte, target: Addr, rule: Rule, route: Option<seq<Addr>>)
    returns (len: Option<nat>)
    requires buf.Length == SDN_MAX_PACKET_SIZE && target != self
    requires route.Some? ==> 2 <= |route.value|
    modifies buf
    ensures len.Some? <==> route.Some?
    ensures len.Some? ==>
              var p := Built(self, seqNo, target, rule, route.value);
              WellFormed(p) && len.value <= SDN_MAX_PACKET_SIZE && buf[..len.value] == Encode(p)
  {
    var header := Header(SDN_PACKET_SRC_ROUTED_DATA_FLOW_SETUP, SDN_DEFAULT_TTL, seqNo, self);
    Write(buf, 0, header);
    Write(buf, FLOWID, EncRule(rule));
    assert buf[..DESTINATION] == header && buf[FLOWID..REAL_DESTINATION] == EncRule(rule);
    if route.None? {
      return None;
    }
    ghost var b := buf[..LIST];
    assert b[..DESTINATION] == header && b[FLOWID..REAL_DESTINATION] == EncRule(rule);
    var n := AddSrcRtdHeader(buf, LIST, PATH_LEN, Some(REAL_DESTINATION), target, route.value);
    len := Some(n);
    BuiltLayout(b, self, seqNo, target, rule, route.value, buf[..n]);
  }

  lemma {:induction false} BuiltLayout(b: seq<byte>, self: Addr, seqNo: byte, target: Addr, rule: Rule,
                                       route: seq<Addr>, c: seq<byte>)
    requires |b| == LIST && 2 <= |route|
    requires b[..DESTINATION] == Header(SDN_PACKET_SRC_ROUTED_DATA_FLOW_SETUP, SDN_DEFAULT_TTL, seqNo, self)
    requires b[FLOWID..REAL_DESTINATION] == EncRule(rule)
    requires
      var hops := Fits(LIST, |route| - 2);
      c == Filled(b, PATH_LEN, Some(REAL_DESTINATION), target, hops, route[|route| - 2])
           + EncAddrs(route[|route| - 2 - hops..|route| - 2])
    ensures c == Encode(Built(self, seqNo, target, rule, route))
  {
    var p, next, dest := Built(self, seqNo, target, rule, route), EncAddr(route[|route| - 2]), EncAddr(target);
    var f := Filled(b, PATH_LEN, Some(REAL_DESTINATION), target, Fits(LIST, |route| - 2), route[|route| - 2]);
    assert f == b[..DESTINATION] + next + b[FLOWID..REAL_DESTINATION] + dest + [Fits(LIST, |route| - 2)];
    assert c == Encode(p);
  }

  datatype Net = Net(rules: map<Addr, M.FlowRules>, seen: map<Addr, Q.Seen>, sent: Sent)

  /** Sender and sequence number. */
  function Stamp(p: Setup): Q.Seqno
    requires |p.header| == SDN_HEADER_SIZE
  {
    Q.Seqno(AddrAt(p.header, SOURCE), p.header[SEQ_NO])
  }

  /** Reception of a source-routed packet at its destination: seen before or out of hops it is dropped. */
  function Handle(n: Net): Net {
    if !n.sent.BySource? || |n.sent.p.header| != SDN_HEADER_SIZE then n
    else
      var p, u := n.sent.p, n.sent.p.dest;
      if u !in n.rules || u !in n.seen || Q.Duplicate(n.seen[u], u, Stamp(p)) || p.header[THL] == 0 then n.(sent := Nothing)
      else
        var q := p.(header := p.header[THL := p.header[THL] - 1]);
        Net(n.rules[u := RulesAfter(u, n.rules[u], q)], n.seen[u := Q.Shifted(n.seen[u], Stamp(p))], Onward(u, q))
  }

  function Run(n: Net, k: nat): Net
    decreases k, n
  {
    if k == 0 then n else Run(Handle(n), k - 1)
  }

  /** These nodes exist, differ, and have not seen the packet. */
  predicate Fresh(n: Net, hops: seq<Addr>)
    requires n.sent.BySource? && WellFormed(n.sent.p)
  {
    && (forall i, j :: 0 <= i < j < |hops| ==> hops[i] != hops[j])
    && forall h :: h in hops ==> h in n.rules && h in n.seen && !Q.Duplicate(n.seen[h], h, Stamp(n.sent.p))
  }

  predicate OnRoute(p: Setup, hops: seq<Addr>) {
    WellFormed(p) && hops != [] && p.dest == hops[0] && p.route == Reversed(hops[1..]) && |hops| <= p.header[THL]
  }

  /**
   * What the k-th and last node of a list leaves behind: it is the target and installs the rule, or it
   * sends the rule on by address.
   */
  predicate Left(p: Setup, rules: map<Addr, M.FlowRules>, last: Addr, k: nat, end: Net)
    requires WellFormed(p) && k <= p.header[THL]
  {
    && last in rules
    && (last == p.realDest ==>
          end.rules == rules[last := M.Installed(last, rules[last], p.rule.flow, p.rule.e)] && end.sent == Nothing)
    && (last != p.realDest ==>
          end.rules == rules && end.sent == ByAddress(p.header[THL := p.header[THL] - k], p.realDest, p.rule))
  }

  lemma {:induction false} RunAlongHops(n: Net, hops: seq<Addr>)
    requires n.sent.BySource? && OnRoute(n.sent.p, hops) && Fresh(n, hops)
    ensures Left(n.sent.p, n.rules, Last(hops), |hops|, Run(n, |hops|))
    decreases |hops|
  {
    if |hops| == 1 {
      assert Run(Handle(n), 0) == Handle(n);
      assert hops == [hops[0]];
      LastHandles(n, hops[0]);
    } else {
      var rest, k := hops[1..], |hops| - 1;
      var n' := HandleRelays(n, hops);
      assert Last(rest) == Last(hops) && Run(n, |hops|) == Run(n', k);
      RunAlongHops(n', rest);
      LeftEarlier(n.sent.p, n'.sent.p, n.rules, Last(hops), k, Run(n', k));
    }
  }

  lemma {:induction false} LeftEarlier(p: Setup, p': Setup, rules: map<Addr, M.FlowRules>, last: Addr, k: nat, end: Net)
    requires WellFormed(p) && WellFormed(p') && k < p.header[THL]
    requires p'.header == p.header[THL := p.header[THL] - 1] && p'.realDest == p.realDest && p'.rule == p.rule
    requires Left(p', rules, last, k, end)
    ensures Left(p, rules, last, k + 1, end)
  {
    var t: nat := p.header[THL];
    assert p.header[THL := t - 1][THL := t - 1 - k] == p.header[THL := t - (k + 1)];
  }

  lemma {:induction false} LastHandles(n: Net, u: Addr)
    requires n.sent.BySource? && OnRoute(n.sent.p, [u]) && Fresh(n, [u])
    ensures Left(n.sent.p, n.rules, u, 1, Handle(n))
  {
    assert u in [u];
    assert n.rules[u := n.rules[u]] == n.rules;
  }

  lemma {:induction false} HandleRelays(n: Net, hops: seq<Addr>) returns (n': Net)
    requires n.sent.BySource? && OnRoute(n.sent.p, hops) && Fresh(n, hops) && |hops| >= 2
    ensures n' == Handle(n) && n'.rules == n.rules && n'.sent.BySource?
    ensures
      var p := n.sent.p;
      n'.sent.p == p.(header := p.header[THL := p.header[THL] - 1], dest := hops[1], route := Reversed(hops[1..][1..]))
    ensures OnRoute(n'.sent.p, hops[1..]) && Fresh(n', hops[1..])
  {
    n' := Handle(n);
    assert hops[0] in hops;
    assert n.sent.p.route == Reversed(hops[1..][1..]) + [hops[1]];
    assert n.rules[hops[0] := n.rules[hops[0]]] == n.rules;
    forall h | h in hops[1..]
      ensures h in hops && h != hops[0]
    {
    }
  }

  /** The packet built for these hops, whose list holds the first of them. */
  lemma {:induction false} BuiltFor(self: Addr, seqNo: byte, target: Addr, rule: Rule, hops: seq<Addr>,
                                    fits: nat) returns (p: Setup)
    requires hops != [] && fits == Fits(LIST, |hops| - 1)
    ensures p == Built(self, seqNo, target, rule, Reversed([self] + hops)) && fits < |hops|
    ensures p.header == Header(SDN_PACKET_SRC_ROUTED_DATA_FLOW_SETUP, SDN_DEFAULT_TTL, seqNo, self) && |p.route| == fits <= 50
    ensures p.dest == hops[0] && p.route == Reversed(hops[..fits + 1][1..]) && p.realDest == target && p.rule == rule
  {
    p := Built(self, seqNo, target, rule, Reversed([self] + hops));
    ListedHops(self, hops, fits);
  }

  lemma {:induction false} FirstAreFresh(n: Net, hops: seq<Addr>, k: nat)
    requires n.sent.BySource? && WellFormed(n.sent.p) && Fresh(n, hops) && k <= |hops|
    ensures Fresh(n, hops[..k])
  {
    forall h | h in hops[..k]
      ensures h in hops
    {
    }
  }

  /** A packet whose list holds all the hops, or the first of them, up to the end of that list. */
  lemma {:induction false} ListedRun(n: Net, hops: seq<Addr>, fits: nat, e: Q.Seqno)
    requires n.sent.BySource? && WellFormed(n.sent.p) && Stamp(n.sent.p) == e && fits < |hops|
    requires n.sent.p.dest == hops[0] && n.sent.p.route == Reversed(hops[..fits + 1][1..])
    requires fits + 1 <= n.sent.p.header[THL] && Fresh(n, hops) && n.sent.p.realDest == Last(hops)
    ensures
      var p, target, end := n.sent.p, Last(hops), Run(n, fits + 1);
      && target in n.rules
      && (fits == |hops| - 1 ==>
            end.rules == n.rules[target := M.Installed(target, n.rules[target], p.rule.flow, p.rule.e)] && end.sent == Nothing)
      && (fits < |hops| - 1 ==>
            end.rules == n.rules && end.sent == ByAddress(p.header[THL := p.header[THL] - (fits + 1)], target, p.rule))
  {
    var v := hops[..fits + 1];
    FirstAreFresh(n, hops, fits + 1);
    assert Last(hops) in hops && v[fits] == hops[fits];
    RunAlongHops(n, v);
  }

  /**
   * A setup that nobody has seen visits the hops of the computed route in order.
   * If the whole route fits, the target installs exactly the rule; if it had to
   * be truncated, nobody installs anything and the last listed node sends the
   * same rule on to the target by address.
   */
  lemma {:induction false} SetupReachesTarget(self: Addr, seqNo: byte, rule: Rule, hops: seq<Addr>,
                                              rules: map<Addr, M.FlowRules>, seen: map<Addr, Q.Seen>)
    requires hops != []
    requires forall i, j :: 0 <= i < j < |hops| ==> hops[i] != hops[j]
    requires forall h :: h in hops ==> h in rules && h in seen && !Q.Duplicate(seen[h], h, Q.Seqno(self, seqNo))
    ensures
      var target, fits := Last(hops), Fits(LIST, |hops| - 1);
      var p := Built(self, seqNo, target, rule, Reversed([self] + hops));
      var end := Run(Net(rules, seen, BySource(p)), fits + 1);
      && target in rules
      && (fits == |hops| - 1 ==>
            && end.sent == Nothing && target in end.rules && rule.flow in end.rules[target] && end.rules == rules[target := end.rules[target]]
            && end.rules[target] == rules[target][rule.flow := end.rules[target][rule.flow]]
            && end.rules[target][rule.flow].nextHop == rule.e.param
            && end.rules[target][rule.flow].action ==
               if rule.e.param == target && rule.e.action in {SDN_ACTION_FORWARD, SDN_ACTION_FORWARD_UNIDIR}
               then SDN_ACTION_RECEIVE else rule.e.action)
      && (fits < |hops| - 1 ==>
            end.rules == rules && end.sent == ByAddress(p.header[THL := SDN_DEFAULT_TTL - (fits + 1)], target, rule))
  {
    var fits := Fits(LIST, |hops| - 1);
    var p := BuiltFor(self, seqNo, Last(hops), rule, hops, fits);
    var n := Net(rules, seen, BySource(p));
    StampIs(p, self, seqNo);
    ListedRun(n, hops, fits, Q.Seqno(self, seqNo));
  }

  lemma {:induction false} StampIs(p: Setup, self: Addr, seqNo: byte)
    requires p.header == Header(SDN_PACKET_SRC_ROUTED_DATA_FLOW_SETUP, SDN_DEFAULT_TTL, seqNo, self)
    ensures Stamp(p) == Q.Seqno(self, seqNo) && p.header[THL] == SDN_DEFAULT_TTL
  {
  }
}
