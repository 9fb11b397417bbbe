// Delivery of multiple flow setup packets, from the controller's route to the
// last rule: what one packet installs, exactly, whatever its route and path,
// and when the packets of a plan install every changed rule.
module MultiFlowDelivery {
  import opened Common
  import opened PacketBytes
  import opened SourceRoute
  import opened MultiFlowSetup
  import opened RuleGraph
  import opened PathConflicts
  import Q = SeqnoTable

  type NetRules = map<Addr, FlowRules>

  type NetSeen = map<Addr, Q.Seen>

  /** The data flow rules and the sequence table of every node, and the packet on its way to its destination. */
  datatype Net = Net(rules: NetRules, seen: NetSeen, packet: Option<Mfs>)

  predicate Present<T>(m: map<Addr, T>, nodes: seq<Addr>) {
    forall u :: u in nodes ==> u in m
  }

  predicate Sound(p: Mfs) {
    WellFormed(p) && p.sets != []
  }

  predicate InFlight(n: Net) {
    n.packet.Some? && Sound(n.packet.value)
  }

  /** Sender and sequence number, which no relay changes. */
  function Stamp(p: Mfs): Q.Seqno
    requires Sound(p)
  {
    Q.Seqno(AddrAt(p.header, SOURCE), p.header[SEQ_NO])
  }

  function Lowered(p: Mfs): Mfs
    requires Sound(p) && p.header[THL] > 0
  {
    p.(header := p.header[THL := p.header[THL] - 1])
  }

  /** Reception at the destination: packets seen before or out of hops are dropped, others registered and treated. */
  function Handle(n: Net): Net
    requires InFlight(n)
  {
    var p, u := n.packet.value, n.packet.value.dest;
    if u !in n.rules || u !in n.seen || Q.Duplicate(n.seen[u], u, Stamp(p)) || p.header[THL] == 0 then n.(packet := None)
    else
      var q := Lowered(p);
      Net(n.rules[u := RulesAfter(u, n.rules[u], q)], n.seen[u := Q.Shifted(n.seen[u], Stamp(p))], Onward(q))
  }

  lemma {:induction false} HandleKeepsFlight(n: Net)
    requires InFlight(n)
    ensures Handle(n).packet.Some? ==> InFlight(Handle(n)) && Handle(n).packet.value.header[THL] < n.packet.value.header[THL]
  {
  }

  /** A node has seen a packet after handling it exactly if it had before, or the hop limit was not used up. */
  lemma {:induction false} SeenIff(n: Net, u: Addr)
    requires InFlight(n) && u == n.packet.value.dest && u in n.rules && u in n.seen
    ensures
      var e := Stamp(n.packet.value);
      u in Handle(n).seen
      && (Q.Duplicate(Handle(n).seen[u], u, e) <==> Q.Duplicate(n.seen[u], u, e) || n.packet.value.header[THL] > 0)
  {
    var p := n.packet.value;
    if p.header[THL] > 0 && !Q.Duplicate(n.seen[u], u, Stamp(p)) {
      Q.RegisteredIsDuplicate(n.seen[u], u, Stamp(p));
    }
  }

  /** The network after at most k handlings. */
  function Run(n: Net, k: nat): Net
    requires n.packet.Some? ==> InFlight(n)
    decreases k, n
  {
    if k == 0 || n.packet.None? then n else
      HandleKeepsFlight(n);
      Run(Handle(n), k - 1)
  }

  lemma {:induction false} RunJoin(n: Net, j: nat, k: nat)
    requires n.packet.Some? ==> InFlight(n)
    ensures Run(n, j).packet.Some? ==> InFlight(Run(n, j))
    ensures Run(n, j + k) == Run(Run(n, j), k)
    decreases j
  {
    if j > 0 && n.packet.Some? {
      HandleKeepsFlight(n);
      RunJoin(Handle(n), j - 1, k);
    }
  }

  /** The hop limit ends every run. */
  lemma {:induction false} HopLimitEnds(n: Net, k: nat)
    requires n.packet.Some? ==> InFlight(n) && n.packet.value.header[THL] < k
    ensures Run(n, k).packet.None?
    decreases k
  {
    if n.packet.Some? {
      HandleKeepsFlight(n);
      HopLimitEnds(Handle(n), k - 1);
    }
  }

  // ---- Separate installations.

  /** A separate installation of the rule u -> v at node u. */
  function InstallOne(rules: NetRules, flow: FlowId, u: Addr, v: Addr): NetRules
    requires u in rules
  {
    rules[u := Installed(u, rules[u], flow, Elem(SDN_ACTION_FORWARD, v))]
  }

  /** Separate installations of every edge of the path, in order. */
  function InstallAll(rules: NetRules, flow: FlowId, path: seq<Addr>): (r: NetRules)
    requires Present(rules, path)
    ensures r.Keys == rules.Keys
  {
    if |path| <= 1 then rules
    else InstallOne(InstallAll(rules, flow, path[..|path| - 1]), flow, path[|path| - 2], Last(path))
  }

  /** The rules at u after the installations, if its rule is the path's. */
  predicate Gets(was: FlowRules, now: FlowRules, flow: FlowId, path: seq<Addr>, u: Addr) {
    && (forall i :: 0 <= i < |path| - 1 && path[i] == u ==> now == was[flow := DataFlow(path[i + 1], SDN_ACTION_FORWARD)])
    && ((forall i :: 0 <= i < |path| - 1 ==> path[i] != u) ==> now == was)
  }

  /** Pointwise, for a path without repetition: its nodes get its edges, nobody else is touched. */
  lemma {:induction false} InstallAllIs(rules: NetRules, flow: FlowId, path: seq<Addr>, u: Addr)
    requires Distinct(path) && u in rules
    requires Present(rules, path)
    ensures Gets(rules[u], InstallAll(rules, flow, path)[u], flow, path, u)
  {
    if |path| > 1 {
      var front := path[..|path| - 1];
      InstallAllIs(rules, flow, front, u);
      GetsMore(rules[u], InstallAll(rules, flow, front)[u], flow, path, u);
    }
  }

  lemma {:induction false} GetsMore(was: FlowRules, now: FlowRules, flow: FlowId, path: seq<Addr>, u: Addr)
    requires |path| > 1 && Distinct(path) && Gets(was, now, flow, path[..|path| - 1], u)
    ensures
      var last, e := path[|path| - 2], Elem(SDN_ACTION_FORWARD, Last(path));
      Gets(was, if u == last then Installed(u, now, flow, e) else now, flow, path, u)
  {
    assert path[|path| - 2] != Last(path);
    if u == path[|path| - 2] {
      assert forall i :: 0 <= i < |path| - 2 ==> path[i] != u;
    }
  }

  // ---- What the nodes have seen.

  /** The sequence tables after each of these nodes in turn has registered e. */
  function Marked(seen: NetSeen, e: Q.Seqno, nodes: seq<Addr>): (r: NetSeen)
    requires Present(seen, nodes)
    ensures r.Keys == seen.Keys
  {
    if nodes == [] then seen
    else
      var was := Marked(seen, e, nodes[..|nodes| - 1]);
      was[Last(nodes) := Q.Shifted(was[Last(nodes)], e)]
  }

  /** A packet is a duplicate at the nodes that took it for one at first, and at those that have registered it since. */
  lemma {:induction false} DuplicateAfter(seen: NetSeen, e: Q.Seqno, nodes: seq<Addr>, u: Addr)
    requires Present(seen, nodes) && u in seen
    ensures Q.Duplicate(Marked(seen, e, nodes)[u], u, e) <==> u in nodes || Q.Duplicate(seen[u], u, e)
  {
    if nodes != [] {
      var front := nodes[..|nodes| - 1];
      DuplicateAfter(seen, e, front, u);
      Q.RegisteredIsDuplicate(Marked(seen, e, front)[Last(nodes)], Last(nodes), e);
      assert nodes == front + [Last(nodes)];
    }
  }

  /** Registering another number of the sender makes no packet a duplicate. */
  lemma {:induction false} OtherNumberStaysNew(seen: NetSeen, e: Q.Seqno, nodes: seq<Addr>, u: Addr, n: byte)
    requires Present(seen, nodes) && u in seen && n != e.seqno
    requires !Q.Duplicate(seen[u], u, Q.Seqno(e.sender, n))
    ensures !Q.Duplicate(Marked(seen, e, nodes)[u], u, Q.Seqno(e.sender, n))
  {
    if nodes != [] {
      var front := nodes[..|nodes| - 1];
      OtherNumberStaysNew(seen, e, front, u, n);
      Q.RegisteredIsDuplicate(Marked(seen, e, front)[Last(nodes)], Last(nodes), e);
    }
  }

  /** The packet is dropped at u, after the nodes in front have taken it. */
  predicate Blocked(seen: NetSeen, e: Q.Seqno, front: seq<Addr>, u: Addr)
    requires u in seen
  {
    u in front || Q.Duplicate(seen[u], u, e)
  }

  /** How many of the nodes take the packet, one after the other. */
  function Reach(seen: NetSeen, e: Q.Seqno, nodes: seq<Addr>): (r: nat)
    requires Present(seen, nodes)
    ensures r <= |nodes|
  {
    if nodes == [] then 0
    else
      var front := nodes[..|nodes| - 1];
      var r := Reach(seen, e, front);
      if r == |front| && !Blocked(seen, e, front, Last(nodes)) then |nodes| else r
  }

  lemma {:induction false} ReachIs(seen: NetSeen, e: Q.Seqno, nodes: seq<Addr>)
    requires Present(seen, nodes)
    ensures
      var r := Reach(seen, e, nodes);
      && (forall i :: 0 <= i < r ==> nodes[i] in seen && !Blocked(seen, e, nodes[..i], nodes[i]))
      && (r < |nodes| ==> nodes[r] in seen && Blocked(seen, e, nodes[..r], nodes[r]))
  {
    if nodes != [] {
      var front := nodes[..|nodes| - 1];
      ReachIs(seen, e, front);
      assert forall i :: 0 <= i < |front| ==> front[..i] == nodes[..i];
    }
  }

  /** No node has seen a packet with this sender and number, and none is the sender. */
  predicate New(seen: NetSeen, e: Q.Seqno, nodes: seq<Addr>) {
    forall u :: u in nodes ==> u in seen && !Q.Duplicate(seen[u], u, e)
  }

  /** A new packet gets through exactly if no node is to take it twice. */
  lemma {:induction false} ReachesAllIff(seen: NetSeen, e: Q.Seqno, nodes: seq<Addr>)
    requires Present(seen, nodes)
    ensures Reach(seen, e, nodes) == |nodes| <==> Distinct(nodes) && New(seen, e, nodes)
  {
    ReachIs(seen, e, nodes);
    var r := Reach(seen, e, nodes);
    if r == |nodes| {
      forall i, j | 0 <= i < j < |nodes|
        ensures nodes[i] != nodes[j]
      {
        assert nodes[i] == nodes[..j][i] && !Blocked(seen, e, nodes[..j], nodes[j]);
      }
    } else if nodes[r] in nodes[..r] {
      var i :| 0 <= i < r && nodes[..r][i] == nodes[r];
      assert nodes[i] == nodes[r];
    }
  }

  // ---- One packet on its way.

  /** The nodes that are to handle the packet: its hops, then the nodes of the path but for the last. */
  function Stops(hops: seq<Addr>, path: seq<Addr>): (s: seq<Addr>)
    requires hops != [] && path != []
    ensures |s| == |hops| - 1 + |path| - 1
  {
    hops[..|hops| - 1] + path[..|path| - 1]
  }

  /** A packet for the path that is about to travel along the hops. */
  predicate Departs(p: Mfs, hops: seq<Addr>, path: seq<Addr>) {
    && hops != [] && |path| >= 2 && Last(hops) == path[0] && Sound(p)
    && p.dest == hops[0] && p.route == Reversed(hops[1..]) && p.sets == SetList(path)
    && |hops| - 1 + |path| - 1 <= p.header[THL]
  }

  /** The packet after m handlings. */
  function PacketAt(p: Mfs, hops: seq<Addr>, path: seq<Addr>, m: nat): Option<Mfs>
    requires Departs(p, hops, path) && m <= |hops| - 1 + |path| - 1
  {
    var r, header := |hops| - 1, p.header[THL := p.header[THL] - m];
    if m < r then Some(p.(header := header, dest := hops[m], route := Reversed(hops[m + 1..])))
    else if m - r < |path| - 1 then Some(p.(header := header, dest := path[m - r], sets := SetList(path[m - r..]), route := []))
    else None
  }

  lemma {:induction false} StopIs(hops: seq<Addr>, path: seq<Addr>, m: nat)
    requires hops != [] && path != [] && m < |hops| - 1 + |path| - 1
    ensures Stops(hops, path)[m] == if m < |hops| - 1 then hops[m] else path[m - (|hops| - 1)]
  {
  }

  lemma {:induction false} Departed(p: Mfs, hops: seq<Addr>, path: seq<Addr>)
    requires Departs(p, hops, path)
    ensures PacketAt(p, hops, path, 0) == Some(p)
  {
    var q, t := PacketAt(p, hops, path, 0).value, p.header[THL];
    assert p.header[THL := t] == p.header;
    assert path[0..] == path;
    if |hops| == 1 {
      assert hops[1..] == [];
    }
    assert q.sets == p.sets && q.route == p.route && q.dest == p.dest;
  }

  lemma {:induction false} PacketAtIs(p: Mfs, hops: seq<Addr>, path: seq<Addr>, m: nat)
    requires Departs(p, hops, path) && m < |hops| - 1 + |path| - 1
    ensures
      var q := PacketAt(p, hops, path, m);
      && q.Some? && Sound(q.value) && q.value.header[THL] > 0 && Stamp(q.value) == Stamp(p)
      && q.value.dest == Stops(hops, path)[m] && q.value.flow == p.flow
      && (q.value.route != [] <==> m < |hops| - 1)
  {
    StopIs(hops, path, m);
  }

  /** Treating the packet makes it the next one. */
  lemma {:induction false} TreatedIsNext(p: Mfs, hops: seq<Addr>, path: seq<Addr>, m: nat)
    requires Departs(p, hops, path) && m < |hops| - 1 + |path| - 1
    ensures
      var q := PacketAt(p, hops, path, m);
      q.Some? && Sound(q.value) && q.value.header[THL] > 0 && Onward(Lowered(q.value)) == PacketAt(p, hops, path, m + 1)
  {
    PacketAtIs(p, hops, path, m);
    if m < |hops| - 1 {
      RelayedIsNext(p, hops, path, m);
    } else {
      InstalledIsNext(p, hops, path, m, m - (|hops| - 1));
    }
  }

  lemma {:induction false} RelayedIsNext(p: Mfs, hops: seq<Addr>, path: seq<Addr>, m: nat)
    requires Departs(p, hops, path) && m < |hops| - 1
    requires PacketAt(p, hops, path, m).Some? && Sound(PacketAt(p, hops, path, m).value)
    ensures Onward(Lowered(PacketAt(p, hops, path, m).value)) == PacketAt(p, hops, path, m + 1)
  {
    var t := p.header[THL];
    assert p.header[THL := t - m][THL := t - m - 1] == p.header[THL := t - (m + 1)];
    var rest := hops[m + 1..];
    assert rest[0] == hops[m + 1] && rest[1..] == hops[m + 2..];
    assert Reversed(rest) == Reversed(rest[1..]) + [rest[0]];
    assert path[0..] == path;
  }

  lemma {:induction false} InstalledIsNext(p: Mfs, hops: seq<Addr>, path: seq<Addr>, m: nat, k: nat)
    requires Departs(p, hops, path) && m == |hops| - 1 + k && k < |path| - 1
    requires PacketAt(p, hops, path, m).Some? && Sound(PacketAt(p, hops, path, m).value)
    ensures Onward(Lowered(PacketAt(p, hops, path, m).value)) == PacketAt(p, hops, path, m + 1)
  {
    var t := p.header[THL];
    assert p.header[THL := t - m][THL := t - m - 1] == p.header[THL := t - (m + 1)];
    var rest := path[k..];
    assert rest[1] == path[k + 1] && rest[1..] == path[k + 1..];
  }

  /** How many rules have been installed after m handlings. */
  function Installs(hops: seq<Addr>, m: nat): nat
    requires hops != []
  {
    if m < |hops| then 0 else m - (|hops| - 1)
  }

  predicate Ready(n: Net, p: Mfs, hops: seq<Addr>, path: seq<Addr>) {
    && Departs(p, hops, path) && n.packet == Some(p)
    && Present(n.rules, path) && Present(n.rules, hops) && Present(n.seen, path) && Present(n.seen, hops)
  }

  lemma {:induction false} StopsPresent<T>(m: map<Addr, T>, hops: seq<Addr>, path: seq<Addr>, k: nat)
    requires hops != [] && path != [] && Present(m, hops) && Present(m, path) && k <= |hops| - 1 + |path| - 1
    ensures Present(m, Stops(hops, path)[..k])
  {
    forall u | u in Stops(hops, path)[..k]
      ensures u in m
    {
      assert u in hops || u in path;
    }
  }

  /** The network after m handlings, if nothing has stopped the packet. */
  function StateAt(n: Net, p: Mfs, hops: seq<Addr>, path: seq<Addr>, m: nat): Net
    requires Ready(n, p, hops, path) && m <= |hops| - 1 + |path| - 1
  {
    StopsPresent(n.seen, hops, path, m);
    Net(InstallAll(n.rules, p.flow, path[..Installs(hops, m) + 1]),
        Marked(n.seen, Stamp(p), Stops(hops, path)[..m]),
        PacketAt(p, hops, path, m))
  }

  /** What a handling does to the rules of the node: nothing on the way, a rule of the path behind it. */
  lemma {:induction false} RuleOfStop(p: Mfs, hops: seq<Addr>, path: seq<Addr>, m: nat, rules: FlowRules)
    requires Departs(p, hops, path) && m < |hops| - 1 + |path| - 1
    ensures
      var q, u := PacketAt(p, hops, path, m), Stops(hops, path)[m];
      && q.Some? && Sound(q.value) && q.value.header[THL] > 0 && q.value.dest == u
      && RulesAfter(u, rules, Lowered(q.value)) ==
         if m < |hops| - 1 then rules
         else Installed(u, rules, p.flow, Elem(SDN_ACTION_FORWARD, path[m - (|hops| - 1) + 1]))
  {
    PacketAtIs(p, hops, path, m);
    if m >= |hops| - 1 {
      var rest := path[m - (|hops| - 1)..];
      assert SetList(rest) == SetList(rest[1..]) + [Elem(SDN_ACTION_FORWARD, rest[1])];
    }
  }

  lemma {:induction false} RulesNext(rules: NetRules, p: Mfs, hops: seq<Addr>, path: seq<Addr>, m: nat)
    requires Departs(p, hops, path) && m < |hops| - 1 + |path| - 1 && Present(rules, path) && Present(rules, hops)
    ensures
      var was, q := InstallAll(rules, p.flow, path[..Installs(hops, m) + 1]), PacketAt(p, hops, path, m);
      && q.Some? && Sound(q.value) && q.value.header[THL] > 0 && q.value.dest in was
      && was[q.value.dest := RulesAfter(q.value.dest, was[q.value.dest], Lowered(q.value))] ==
         InstallAll(rules, p.flow, path[..Installs(hops, m + 1) + 1])
  {
    var was, u := InstallAll(rules, p.flow, path[..Installs(hops, m) + 1]), Stops(hops, path)[m];
    assert u in hops || u in path;
    RuleOfStop(p, hops, path, m, was[u]);
    if m < |hops| - 1 {
      assert was[u := was[u]] == was;
    } else {
      var k: nat := m - (|hops| - 1);
      assert Installs(hops, m) == k && Installs(hops, m + 1) == k + 1 && u == path[k];
      EdgeAdded(rules, p.flow, path, k);
    }
  }

  lemma {:induction false} EdgeAdded(rules: NetRules, flow: FlowId, path: seq<Addr>, k: nat)
    requires k + 1 < |path| && Present(rules, path)
    ensures Present(rules, path[..k + 1]) && Present(rules, path[..k + 2])
    ensures
      var was, u := InstallAll(rules, flow, path[..k + 1]), path[k];
      u in was && InstallAll(rules, flow, path[..k + 2]) == InstallOne(was, flow, u, path[k + 1])
  {
    assert path[k] in path;
    var part := path[..k + 2];
    assert part[..k + 1] == path[..k + 1];
    assert part[k] == path[k] && part[k + 1] == path[k + 1];
  }

  lemma {:induction false} SeenNext(seen: NetSeen, e: Q.Seqno, nodes: seq<Addr>, m: nat)
    requires m < |nodes| && Present(seen, nodes[..m + 1])
    ensures Present(seen, nodes[..m]) && nodes[m] in seen
    ensures
      var was := Marked(seen, e, nodes[..m]);
      Marked(seen, e, nodes[..m + 1]) == was[nodes[m] := Q.Shifted(was[nodes[m]], e)]
  {
    assert nodes[..m + 1][..m] == nodes[..m] && nodes[..m + 1][m] == nodes[m];
    forall u | u in nodes[..m]
      ensures u in seen
    {
      assert u in nodes[..m + 1];
    }
    assert nodes[m] in nodes[..m + 1];
  }

  /** One handling: the packet is dropped, or everything is one step further. */
  lemma {:induction false} OneHandling(n: Net, p: Mfs, hops: seq<Addr>, path: seq<Addr>, m: nat)
    requires Ready(n, p, hops, path) && m < |hops| - 1 + |path| - 1
    ensures InFlight(StateAt(n, p, hops, path, m))
    ensures Stops(hops, path)[m] in n.seen
    ensures Handle(StateAt(n, p, hops, path, m)) ==
            if Blocked(n.seen, Stamp(p), Stops(hops, path)[..m], Stops(hops, path)[m])
            then StateAt(n, p, hops, path, m).(packet := None)
            else StateAt(n, p, hops, path, m + 1)
  {
    var u := Stops(hops, path)[m];
    StopsPresent(n.seen, hops, path, m + 1);
    PacketAtIs(p, hops, path, m);
    SeenNext(n.seen, Stamp(p), Stops(hops, path), m);
    DuplicateAfter(n.seen, Stamp(p), Stops(hops, path)[..m], u);
    RulesNext(n.rules, p, hops, path, m);
    TreatedIsNext(p, hops, path, m);
  }

  // ---- The whole run.

  lemma {:induction false} RunIs(n: Net, p: Mfs, hops: seq<Addr>, path: seq<Addr>, k: nat)
    requires Ready(n, p, hops, path) && Present(n.seen, Stops(hops, path))
    requires k <= Reach(n.seen, Stamp(p), Stops(hops, path))
    ensures Run(n, k) == StateAt(n, p, hops, path, k)
  {
    if k == 0 {
      Departed(p, hops, path);
      assert path[..1] == [path[0]] && Stops(hops, path)[..0] == [];
    } else {
      RunIs(n, p, hops, path, k - 1);
      ReachIs(n.seen, Stamp(p), Stops(hops, path));
      OneHandling(n, p, hops, path, k - 1);
      OneMoreRun(n, k - 1);
    }
  }

  lemma {:induction false} OneMoreRun(n: Net, k: nat)
    requires n.packet.Some? ==> InFlight(n)
    ensures Run(n, k).packet.Some? ==> InFlight(Run(n, k)) && Run(n, k + 1) == Handle(Run(n, k))
    ensures Run(n, k).packet.None? ==> Run(n, k + 1) == Run(n, k)
  {
    RunJoin(n, k, 1);
    var at := Run(n, k);
    if at.packet.Some? {
      assert Run(Handle(at), 0) == Handle(at);
    }
  }

  /** A packet that has gone changes nothing any more. */
  lemma {:induction false} RunEnds(n: Net, j: nat, k: nat)
    requires (n.packet.Some? ==> InFlight(n)) && j <= k && Run(n, j).packet.None?
    ensures Run(n, k) == Run(n, j)
  {
    RunJoin(n, j, k - j);
  }

  /** Where a packet leaves the network: every node it visits takes it, up to the first that has seen it. */
  function Final(n: Net): Net
    requires n.packet.Some? ==> InFlight(n)
  {
    Run(n, SDN_DEFAULT_TTL + 1)
  }

  /** All these nodes exist. */
  predicate Exist(rules: NetRules, seen: NetSeen, nodes: seq<Addr>) {
    Present(rules, nodes) && Present(seen, nodes)
  }

  lemma {:induction false} PartPresent<T>(m: map<Addr, T>, path: seq<Addr>, k: nat)
    requires Present(m, path) && k <= |path|
    ensures Present(m, path[..k])
  {
    forall u | u in path[..k]
      ensures u in m
    {
      assert u in path;
    }
  }

  /** The stops in front of the first that does not take the packet have it registered, and have the path's edges installed. */
  function Outcome(rules: NetRules, seen: NetSeen, e: Q.Seqno, flow: FlowId, hops: seq<Addr>, path: seq<Addr>): Net
    requires hops != [] && |path| >= 2 && Exist(rules, seen, hops) && Exist(rules, seen, path)
  {
    var r := Taken(seen, e, hops, path);
    StopsPresent(seen, hops, path, r);
    PartPresent(rules, path, Installs(hops, r) + 1);
    Net(InstallAll(rules, flow, path[..Installs(hops, r) + 1]), Marked(seen, e, Stops(hops, path)[..r]), None)
  }

  /** How many stops take the packet. */
  function Taken(seen: NetSeen, e: Q.Seqno, hops: seq<Addr>, path: seq<Addr>): (r: nat)
    requires hops != [] && |path| >= 2 && Present(seen, hops) && Present(seen, path)
    ensures r <= |hops| - 1 + |path| - 1
  {
    StopsPresent(seen, hops, path, |hops| - 1 + |path| - 1);
    assert Stops(hops, path)[..|hops| - 1 + |path| - 1] == Stops(hops, path);
    Reach(seen, e, Stops(hops, path))
  }

  lemma {:induction false} ReadyIsPresent(n: Net, p: Mfs, hops: seq<Addr>, path: seq<Addr>)
    requires Ready(n, p, hops, path)
    ensures InFlight(n) && Present(n.rules, Stops(hops, path)) && Present(n.seen, Stops(hops, path))
  {
    StopsPresent(n.rules, hops, path, |hops| - 1 + |path| - 1);
    StopsPresent(n.seen, hops, path, |hops| - 1 + |path| - 1);
    assert Stops(hops, path)[..|hops| - 1 + |path| - 1] == Stops(hops, path);
  }

  lemma {:induction false} FinalIs(n: Net, p: Mfs, hops: seq<Addr>, path: seq<Addr>)
    requires Ready(n, p, hops, path) && p.header[THL] <= SDN_DEFAULT_TTL
    ensures InFlight(n) && Final(n) == Outcome(n.rules, n.seen, Stamp(p), p.flow, hops, path)
  {
    ReadyIsPresent(n, p, hops, path);
    var nodes := Stops(hops, path);
    var r := Reach(n.seen, Stamp(p), nodes);
    RunIs(n, p, hops, path, r);
    if r == |nodes| {
      RunEnds(n, r, SDN_DEFAULT_TTL + 1);
    } else {
      ReachIs(n.seen, Stamp(p), nodes);
      OneHandling(n, p, hops, path, r);
      OneMoreRun(n, r);
      RunEnds(n, r + 1, SDN_DEFAULT_TTL + 1);
    }
  }

  lemma {:induction false} NotBefore(nodes: seq<Addr>, k: nat, i: nat)
    requires i < k <= |nodes| && Distinct(nodes[..k])
    ensures nodes[i] in nodes[..k] && nodes[i] !in nodes[..i]
  {
    assert nodes[..k][i] == nodes[i];
    assert forall j :: 0 <= j < i ==> nodes[..k][j] == nodes[..i][j];
  }

  lemma {:induction false} ReachAtLeast(seen: NetSeen, e: Q.Seqno, nodes: seq<Addr>, k: nat)
    requires Present(seen, nodes) && k <= |nodes| && Distinct(nodes[..k]) && New(seen, e, nodes[..k])
    ensures Reach(seen, e, nodes) >= k
  {
    ReachIs(seen, e, nodes);
    var r := Reach(seen, e, nodes);
    if r < k {
      NotBefore(nodes, k, r);
      assert false;
    }
  }

  lemma {:induction false} OnRoute(p: Mfs, hops: seq<Addr>, path: seq<Addr>, j: nat)
    requires Departs(p, hops, path) && j < |hops|
    ensures
      var header := p.header[THL := p.header[THL] - j];
      PacketAt(p, hops, path, j) == Some(p.(header := header, dest := hops[j], route := Reversed(hops[j + 1..])))
  {
    if j == |hops| - 1 {
      assert hops[j + 1..] == [] && path[0..] == path;
    }
  }

  /** Relays that differ and have not seen the packet pass it along the hops in order and install nothing. */
  lemma {:induction false} RelaysVisitHops(n: Net, p: Mfs, hops: seq<Addr>, path: seq<Addr>, j: nat)
    requires Ready(n, p, hops, path) && j < |hops|
    requires Distinct(hops[..j]) && New(n.seen, Stamp(p), hops[..j])
    ensures InFlight(n) && Present(n.seen, hops[..j])
    ensures
      var header := p.header[THL := p.header[THL] - j];
      Run(n, j) == Net(n.rules, Marked(n.seen, Stamp(p), hops[..j]),
                       Some(p.(header := header, dest := hops[j], route := Reversed(hops[j + 1..]))))
  {
    ReadyIsPresent(n, p, hops, path);
    var nodes := Stops(hops, path);
    assert nodes[..j] == hops[..j];
    ReachAtLeast(n.seen, Stamp(p), nodes, j);
    RunIs(n, p, hops, path, j);
    OnRoute(p, hops, path, j);
    assert path[..1] == [path[0]];
  }

  lemma {:induction false} StopsOfPath(u: Addr, path: seq<Addr>)
    requires path != []
    ensures Stops([u], path) == path[..|path| - 1]
  {
  }

  /** At the end of its source route a new packet installs a path without repetition edge by edge, then stops. */
  lemma {:induction false} PathIsInstalled(n: Net, p: Mfs, path: seq<Addr>)
    requires Ready(n, p, [p.dest], path) && Distinct(path) && New(n.seen, Stamp(p), path[..|path| - 1])
    ensures InFlight(n) && Present(n.seen, path[..|path| - 1])
    ensures Run(n, |path| - 1) ==
            Net(InstallAll(n.rules, p.flow, path), Marked(n.seen, Stamp(p), path[..|path| - 1]), None)
  {
    StopsOfPath(p.dest, path);
    EveryStopHandles(n, p, [p.dest], path);
  }

  // ---- The packets the controller builds.

  /** The hops a packet built for the route visits: all of them, or as many as fit the address list. */
  function Visited(sets: seq<Elem>, hops: seq<Addr>): (v: seq<Addr>)
    requires |sets| <= MAX_MFS_ELEM && hops != []
    ensures 1 <= |v| <= |hops|
  {
    hops[..1 + Fits(SETS + 3 * |sets|, |hops| - 1)]
  }

  lemma {:induction false} BuiltForHops(self: Addr, seqNo: byte, flow: FlowId, sets: seq<Elem>, hops: seq<Addr>)
    requires |sets| <= MAX_MFS_ELEM && 1 <= |hops|
    ensures
      var p := Built(self, seqNo, flow, sets, Reversed([self] + hops));
      var v := Visited(sets, hops);
      && WellFormed(p) && p.dest == v[0] && p.route == Reversed(v[1..]) && p.sets == sets && p.flow == flow
      && p.header == Header(SDN_PACKET_MULTIPLE_DATA_FLOW_SETUP, SDN_DEFAULT_TTL, seqNo, self)
      && |v| - 1 + |p.sets| < SDN_DEFAULT_TTL
  {
    var listed := Fits(SETS + 3 * |sets|, |hops| - 1);
    var route := Reversed([self] + hops);
    ListedHops(self, hops, listed);
    assert |route| - 2 == |hops| - 1;
    assert hops[..listed + 1] == Visited(sets, hops);
  }

  /** The path a packet serves: its first rule goes to the last hop on its list, whichever node that is. */
  function Served(hops: seq<Addr>, path: seq<Addr>): (s: seq<Addr>)
    requires hops != [] && |path| >= 2
    ensures |s| == |path| && s[0] == Last(hops)
  {
    [Last(hops)] + path[1..]
  }

  /** What the controller sends for a path. */
  function PacketFor(self: Addr, seqNo: byte, flow: FlowId, path: seq<Addr>, hops: seq<Addr>): Mfs
    requires 2 <= |path| <= MAX_MFS_ELEM + 1 && hops != []
  {
    Built(self, seqNo, flow, SetList(path), Reversed([self] + hops))
  }

  lemma {:induction false} ServedSets(hops: seq<Addr>, path: seq<Addr>)
    requires hops != [] && |path| >= 2
    ensures SetList(Served(hops, path)) == SetList(path)
  {
    assert Served(hops, path)[1..] == path[1..];
  }

  lemma {:induction false} AsDeparted(p: Mfs, v: seq<Addr>, path: seq<Addr>, header: seq<byte>, seqNo: byte, self: Addr)
    requires WellFormed(p) && v != [] && |path| >= 2
    requires header == Header(SDN_PACKET_MULTIPLE_DATA_FLOW_SETUP, SDN_DEFAULT_TTL, seqNo, self) && p.header == header
    requires p.dest == v[0] && p.route == Reversed(v[1..]) && |v| - 1 + |p.sets| < SDN_DEFAULT_TTL
    requires p.sets == SetList(Served(v, path))
    ensures Departs(p, v, Served(v, path)) && Stamp(p) == Q.Seqno(self, seqNo) && p.header[THL] == SDN_DEFAULT_TTL
  {
  }

  lemma {:induction false} BuiltDeparts(self: Addr, seqNo: byte, flow: FlowId, path: seq<Addr>, hops: seq<Addr>)
    requires 2 <= |path| <= MAX_MFS_ELEM + 1 && hops != []
    ensures
      var p, v := PacketFor(self, seqNo, flow, path, hops), Visited(SetList(path), hops);
      && Departs(p, v, Served(v, path)) && p.flow == flow && Stamp(p) == Q.Seqno(self, seqNo)
      && p.header[THL] == SDN_DEFAULT_TTL
  {
    var sets := SetList(path);
    var v := Visited(sets, hops);
    BuiltForHops(self, seqNo, flow, sets, hops);
    ServedSets(v, path);
    var p, header := PacketFor(self, seqNo, flow, path, hops), Header(SDN_PACKET_MULTIPLE_DATA_FLOW_SETUP, SDN_DEFAULT_TTL, seqNo, self);
    AsDeparted(p, v, path, header, seqNo, self);
  }

  lemma {:induction false} ServedExist(rules: NetRules, seen: NetSeen, sets: seq<Elem>, path: seq<Addr>, hops: seq<Addr>)
    requires |sets| <= MAX_MFS_ELEM && hops != [] && |path| >= 2 && Exist(rules, seen, path) && Exist(rules, seen, hops)
    ensures Exist(rules, seen, Visited(sets, hops)) && Exist(rules, seen, Served(Visited(sets, hops), path))
  {
    var v := Visited(sets, hops);
    forall u | u in v
      ensures u in rules && u in seen
    {
      assert u in hops;
    }
    forall u | u in Served(v, path)
      ensures u in rules && u in seen
    {
      assert u in v || u in path;
    }
  }

  /**
   * What a packet does, exactly, for any path, any route and anything the
   * nodes hold or have seen: each stop takes it until one has seen it before,
   * and the edges of the served path up to there are installed separately.
   */
  lemma {:induction false} PacketOutcome(self: Addr, seqNo: byte, flow: FlowId, path: seq<Addr>, hops: seq<Addr>,
                                         rules: NetRules, seen: NetSeen)
    requires 2 <= |path| <= MAX_MFS_ELEM + 1 && hops != []
    requires Exist(rules, seen, path) && Exist(rules, seen, hops)
    ensures
      var p, v := PacketFor(self, seqNo, flow, path, hops), Visited(SetList(path), hops);
      && Sound(p) && Exist(rules, seen, v) && Exist(rules, seen, Served(v, path))
      && Final(Net(rules, seen, Some(p))) == Outcome(rules, seen, Q.Seqno(self, seqNo), flow, v, Served(v, path))
  {
    var p, v := PacketFor(self, seqNo, flow, path, hops), Visited(SetList(path), hops);
    var n, served := Net(rules, seen, Some(p)), Served(v, path);
    BuiltDeparts(self, seqNo, flow, path, hops);
    ServedExist(rules, seen, SetList(path), path, hops);
    FinalIs(n, p, v, served);
  }

  /** From edge number `from` on, the nodes of the path hold its rules already. */
  predicate InForce(rules: NetRules, flow: FlowId, path: seq<Addr>, from: nat)
    requires Present(rules, path)
  {
    forall i :: from <= i < |path| - 1 ==> path[i] in path && HasRule(rules[path[i]], flow, path[i + 1])
  }

  predicate HasRule(rules: FlowRules, flow: FlowId, next: Addr) {
    flow in rules && rules[flow] == DataFlow(next, SDN_ACTION_FORWARD)
  }

  /** Installing a first part of the path is enough exactly if the rest is in force. */
  lemma {:induction false} PartIsWholeIff(rules: NetRules, flow: FlowId, path: seq<Addr>, k: nat)
    requires Present(rules, path) && Distinct(path) && k < |path|
    ensures Present(rules, path[..k + 1])
    ensures InstallAll(rules, flow, path[..k + 1]) == InstallAll(rules, flow, path) <==> InForce(rules, flow, path, k)
    decreases |path| - k
  {
    PartPresent(rules, path, k + 1);
    if k == |path| - 1 {
      assert path[..k + 1] == path;
    } else {
      PartIsWholeIff(rules, flow, path, k + 1);
      OneEdgeMore(rules, flow, path, k);
      InForceFrom(rules, flow, path, k);
      if InstallAll(rules, flow, path[..k + 1]) == InstallAll(rules, flow, path) {
        WholeHasEdge(rules, flow, path, k);
      }
    }
  }

  lemma {:induction false} InForceFrom(rules: NetRules, flow: FlowId, path: seq<Addr>, k: nat)
    requires Present(rules, path) && k < |path| - 1
    ensures path[k] in path
    ensures InForce(rules, flow, path, k) <==> HasRule(rules[path[k]], flow, path[k + 1]) && InForce(rules, flow, path, k + 1)
  {
    assert path[k] in path;
  }

  lemma {:induction false} StillOld(rules: NetRules, flow: FlowId, path: seq<Addr>, k: nat)
    requires Present(rules, path) && Distinct(path) && k < |path| && Present(rules, path[..k + 1])
    ensures path[k] in path && InstallAll(rules, flow, path[..k + 1])[path[k]] == rules[path[k]]
  {
    assert path[k] in path;
    InstallAllIs(rules, flow, path[..k + 1], path[k]);
  }

  lemma {:induction false} OneEdgeIff(was: NetRules, flow: FlowId, u: Addr, v: Addr)
    requires u in was && u != v
    ensures InstallOne(was, flow, u, v) == was <==> HasRule(was[u], flow, v)
  {
    var e := DataFlow(v, SDN_ACTION_FORWARD);
    assert InstallOne(was, flow, u, v)[u] == was[u][flow := e];
    if HasRule(was[u], flow, v) {
      assert was[u][flow := e] == was[u];
      assert was[u := was[u]] == was;
    }
  }

  lemma {:induction false} OneEdgeMore(rules: NetRules, flow: FlowId, path: seq<Addr>, k: nat)
    requires Present(rules, path) && Distinct(path) && k < |path| - 1
    requires Present(rules, path[..k + 1]) && Present(rules, path[..k + 2])
    ensures path[k] in path
    ensures HasRule(rules[path[k]], flow, path[k + 1]) <==>
            InstallAll(rules, flow, path[..k + 1]) == InstallAll(rules, flow, path[..k + 2])
  {
    assert path[..k + 2][..k + 1] == path[..k + 1];
    StillOld(rules, flow, path, k);
    OneEdgeIff(InstallAll(rules, flow, path[..k + 1]), flow, path[k], path[k + 1]);
  }

  lemma {:induction false} WholeHasEdge(rules: NetRules, flow: FlowId, path: seq<Addr>, k: nat)
    requires Present(rules, path) && Distinct(path) && k < |path| - 1 && Present(rules, path[..k + 1])
    requires InstallAll(rules, flow, path[..k + 1]) == InstallAll(rules, flow, path)
    ensures path[k] in path && HasRule(rules[path[k]], flow, path[k + 1])
  {
    assert path[k] in path;
    InstallAllIs(rules, flow, path[..k + 1], path[k]);
    InstallAllIs(rules, flow, path, path[k]);
  }

  /** A packet as it leaves the controller, for the path it serves. */
  lemma {:induction false} ReadyAtStart(self: Addr, seqNo: byte, flow: FlowId, path: seq<Addr>,
                                        hops: seq<Addr>, rules: NetRules, seen: NetSeen)
    returns (p: Mfs, v: seq<Addr>)
    requires 2 <= |path| <= MAX_MFS_ELEM + 1 && hops != [] && Exist(rules, seen, path) && Exist(rules, seen, hops)
    ensures p == PacketFor(self, seqNo, flow, path, hops) && v == Visited(SetList(path), hops)
    ensures Ready(Net(rules, seen, Some(p)), p, v, Served(v, path)) && p.header[THL] == SDN_DEFAULT_TTL
    ensures p.flow == flow && Stamp(p) == Q.Seqno(self, seqNo)
    ensures v == hops && Last(hops) == path[0] ==> Served(v, path) == path
  {
    p, v := PacketFor(self, seqNo, flow, path, hops), Visited(SetList(path), hops);
    BuiltDeparts(self, seqNo, flow, path, hops);
    ServedExist(rules, seen, SetList(path), path, hops);
  }

  /** On a route that is not truncated the packet serves the path itself. */
  lemma {:induction false} UntruncatedOutcome(self: Addr, seqNo: byte, flow: FlowId, path: seq<Addr>,
                                              hops: seq<Addr>, rules: NetRules, seen: NetSeen)
    requires 2 <= |path| <= MAX_MFS_ELEM + 1 && hops != [] && Last(hops) == path[0] && Visited(SetList(path), hops) == hops
    requires Exist(rules, seen, path) && Exist(rules, seen, hops)
    ensures
      var p := PacketFor(self, seqNo, flow, path, hops);
      Sound(p) && Final(Net(rules, seen, Some(p))) == Outcome(rules, seen, Q.Seqno(self, seqNo), flow, hops, path)
  {
    var p, v := ReadyAtStart(self, seqNo, flow, path, hops, rules, seen);
    FinalIs(Net(rules, seen, Some(p)), p, hops, path);
  }

  lemma {:induction false} AllTakenIff(seen: NetSeen, e: Q.Seqno, hops: seq<Addr>, path: seq<Addr>)
    requires hops != [] && |path| >= 2 && Present(seen, hops) && Present(seen, path)
    ensures Taken(seen, e, hops, path) == |hops| - 1 + |path| - 1 <==>
            Distinct(Stops(hops, path)) && New(seen, e, Stops(hops, path))
  {
    var _ := Taken(seen, e, hops, path);
    StopsPresent(seen, hops, path, |hops| - 1 + |path| - 1);
    assert Stops(hops, path)[..|hops| - 1 + |path| - 1] == Stops(hops, path);
    ReachesAllIff(seen, e, Stops(hops, path));
  }

  /**
   * The execution theorem: behind a route that is not truncated one packet does
   * what the separate installations of the path's edges do, if and only if no
   * node has to take it twice and none has seen it before, or else the rules
   * from the first such node on are in force already.
   */
  lemma {:induction false} OnePacketInstallsPath(self: Addr, seqNo: byte, flow: FlowId, path: seq<Addr>, hops: seq<Addr>,
                                                 rules: NetRules, seen: NetSeen)
    requires 2 <= |path| <= MAX_MFS_ELEM + 1 && Distinct(path)
    requires hops != [] && Last(hops) == path[0] && Visited(SetList(path), hops) == hops
    requires Exist(rules, seen, path) && Exist(rules, seen, hops)
    ensures
      var p, e, stops := PacketFor(self, seqNo, flow, path, hops), Q.Seqno(self, seqNo), Stops(hops, path);
      && Sound(p)
      && (Final(Net(rules, seen, Some(p))).rules == InstallAll(rules, flow, path) <==>
          || (Distinct(stops) && New(seen, e, stops))
          || InForce(rules, flow, path, Installs(hops, Taken(seen, e, hops, path))))
  {
    var e := Q.Seqno(self, seqNo);
    var r := Taken(seen, e, hops, path);
    UntruncatedOutcome(self, seqNo, flow, path, hops, rules, seen);
    AllTakenIff(seen, e, hops, path);
    PartIsWholeIff(rules, flow, path, Installs(hops, r));
  }

  /** Where no stop is blocked, all is done after one handling each. */
  lemma {:induction false} EveryStopHandles(n: Net, p: Mfs, hops: seq<Addr>, path: seq<Addr>)
    requires Ready(n, p, hops, path) && Distinct(Stops(hops, path)) && New(n.seen, Stamp(p), Stops(hops, path))
    ensures InFlight(n) && Present(n.seen, Stops(hops, path))
    ensures Run(n, |Stops(hops, path)|) ==
            Net(InstallAll(n.rules, p.flow, path), Marked(n.seen, Stamp(p), Stops(hops, path)), None)
  {
    var stops := Stops(hops, path);
    ReadyIsPresent(n, p, hops, path);
    ReachesAllIff(n.seen, Stamp(p), stops);
    RunIs(n, p, hops, path, |stops|);
    assert path[..Installs(hops, |stops|) + 1] == path && stops[..|stops|] == stops;
  }

  /** And the packet is on its way before that. */
  lemma {:induction false} StillFlying(n: Net, p: Mfs, hops: seq<Addr>, path: seq<Addr>, m: nat)
    requires Ready(n, p, hops, path) && Distinct(Stops(hops, path)) && New(n.seen, Stamp(p), Stops(hops, path))
    requires m < |Stops(hops, path)|
    ensures InFlight(n) && Run(n, m).packet.Some?
  {
    ReadyIsPresent(n, p, hops, path);
    ReachesAllIff(n.seen, Stamp(p), Stops(hops, path));
    RunIs(n, p, hops, path, m);
    PacketAtIs(p, hops, path, m);
  }

  /** The run of n takes one handling a stop and no fewer. */
  predicate OneHandlingEach(n: Net, e: Q.Seqno, stops: seq<Addr>, rules: NetRules) {
    && n.packet.Some? && InFlight(n) && Present(n.seen, stops)
    && Run(n, |stops|) == Net(rules, Marked(n.seen, e, stops), None)
    && forall m: nat :: m < |stops| ==> Run(n, m).packet.Some?
  }

  lemma {:induction false} EachHandled(n: Net, p: Mfs, hops: seq<Addr>, path: seq<Addr>)
    requires Ready(n, p, hops, path) && Distinct(Stops(hops, path)) && New(n.seen, Stamp(p), Stops(hops, path))
    ensures Present(n.rules, path) && OneHandlingEach(n, Stamp(p), Stops(hops, path), InstallAll(n.rules, p.flow, path))
  {
    EveryStopHandles(n, p, hops, path);
    forall m: nat | m < |Stops(hops, path)|
      ensures Run(n, m).packet.Some?
    {
      StillFlying(n, p, hops, path, m);
    }
  }

  /** Then it takes one handling a stop and no fewer. */
  lemma {:induction false} HandlingsNeeded(self: Addr, seqNo: byte, flow: FlowId, path: seq<Addr>, hops: seq<Addr>,
                                           rules: NetRules, seen: NetSeen)
    requires 2 <= |path| <= MAX_MFS_ELEM + 1
    requires hops != [] && Last(hops) == path[0] && Visited(SetList(path), hops) == hops
    requires Exist(rules, seen, path) && Exist(rules, seen, hops)
    requires Distinct(Stops(hops, path)) && New(seen, Q.Seqno(self, seqNo), Stops(hops, path))
    ensures OneHandlingEach(Net(rules, seen, Some(PacketFor(self, seqNo, flow, path, hops))), Q.Seqno(self, seqNo),
                            Stops(hops, path), InstallAll(rules, flow, path))
  {
    var p, v := ReadyAtStart(self, seqNo, flow, path, hops, rules, seen);
    EachHandled(Net(rules, seen, Some(p)), p, hops, path);
  }

  /** A packet that is dropped on its way has not installed the path's last rule. */
  lemma {:induction false} LastRuleIsLost(self: Addr, seqNo: byte, flow: FlowId, path: seq<Addr>, hops: seq<Addr>,
                                          rules: NetRules, seen: NetSeen)
    requires 2 <= |path| <= MAX_MFS_ELEM + 1 && Distinct(path)
    requires hops != [] && Last(hops) == path[0] && Visited(SetList(path), hops) == hops
    requires Exist(rules, seen, path) && Exist(rules, seen, hops)
    requires !(Distinct(Stops(hops, path)) && New(seen, Q.Seqno(self, seqNo), Stops(hops, path)))
    ensures
      var p, u := PacketFor(self, seqNo, flow, path, hops), path[|path| - 2];
      Sound(p) && u in rules && u in Final(Net(rules, seen, Some(p))).rules
      && Final(Net(rules, seen, Some(p))).rules[u] == rules[u]
  {
    var e, k := Q.Seqno(self, seqNo), |path| - 2;
    UntruncatedOutcome(self, seqNo, flow, path, hops, rules, seen);
    AllTakenIff(seen, e, hops, path);
    var part := path[..Installs(hops, Taken(seen, e, hops, path)) + 1];
    assert path[k] in path;
    PartPresent(rules, path, |part|);
    InstallAllIs(rules, flow, part, path[k]);
  }

  lemma {:induction false} FirstEdge(rules: NetRules, flow: FlowId, path: seq<Addr>)
    requires Present(rules, path) && |path| >= 2
    ensures Present(rules, path[..2]) && path[0] in rules
    ensures InstallAll(rules, flow, path[..2]) == InstallOne(rules, flow, path[0], path[1])
  {
    var part := path[..2];
    assert part[..1] == [path[0]] && part[1] == path[1] && path[0] in path;
    PartPresent(rules, path, 2);
    assert InstallAll(rules, flow, part[..1]) == rules;
  }

  lemma {:induction false} ShortRouteFits(sets: seq<Elem>, hops: seq<Addr>)
    requires |sets| <= MAX_MFS_ELEM && hops != [] && SETS + 3 * |sets| + 2 * (|hops| - 1) <= SDN_MAX_PACKET_SIZE
    ensures Visited(sets, hops) == hops
  {
  }

  /**
   * The usual tree shows it: the route goes down the branch that the path
   * climbs.  The relay drops the packet when its own rule's turn comes.
   */
  lemma {:induction false} RelayOnThePathIsSkipped(self: Addr, seqNo: byte, flow: FlowId, path: seq<Addr>, hops: seq<Addr>,
                                                   rules: NetRules, seen: NetSeen)
    requires |path| == 3 && Distinct(path) && hops == [path[1], path[0]]
    requires Exist(rules, seen, path) && Exist(rules, seen, hops) && New(seen, Q.Seqno(self, seqNo), hops)
    ensures
      var p := PacketFor(self, seqNo, flow, path, hops);
      Sound(p) && Final(Net(rules, seen, Some(p))).rules == InstallOne(rules, flow, path[0], path[1])
  {
    ShortRouteFits(SetList(path), hops);
    UntruncatedOutcome(self, seqNo, flow, path, hops, rules, seen);
    TakenTwice(rules, seen, Q.Seqno(self, seqNo), flow, path, hops);
  }

  lemma {:induction false} TakenTwice(rules: NetRules, seen: NetSeen, e: Q.Seqno, flow: FlowId,
                                      path: seq<Addr>, hops: seq<Addr>)
    requires |path| == 3 && Distinct(path) && hops == [path[1], path[0]]
    requires Exist(rules, seen, path) && Exist(rules, seen, hops) && New(seen, e, hops)
    ensures Outcome(rules, seen, e, flow, hops, path).rules == InstallOne(rules, flow, path[0], path[1])
  {
    TwoTaken(seen, e, path, hops);
    FirstEdge(rules, flow, path);
  }

  /** The third stop is the first again. */
  lemma {:induction false} TwoTaken(seen: NetSeen, e: Q.Seqno, path: seq<Addr>, hops: seq<Addr>)
    requires |path| == 3 && hops == [path[1], path[0]] && path[0] != path[1]
    requires Present(seen, path) && Present(seen, hops) && New(seen, e, hops)
    ensures Taken(seen, e, hops, path) == 2
  {
    var stops := Stops(hops, path);
    assert stops == hops + [path[1]];
    StopsPresent(seen, hops, path, 3);
    assert stops[..3] == stops && stops[..2] == hops;
    ReachAtLeast(seen, e, stops, 2);
    assert stops[0] == stops[2];
    AllTakenIff(seen, e, hops, path);
  }

  /**
   * If the address list had to be truncated, the packet stops being relayed
   * too early: the rule of the path's first node is installed at another node.
   */
  lemma {:induction false} TruncatedPacketMisinstalls(self: Addr, seqNo: byte, flow: FlowId, path: seq<Addr>, hops: seq<Addr>,
                                                      rules: NetRules, seen: NetSeen)
    requires 2 <= |path| <= MAX_MFS_ELEM + 1 && hops != [] && Last(hops) == path[0] && Distinct(hops)
    requires Visited(SetList(path), hops) != hops
    requires Exist(rules, seen, path) && Exist(rules, seen, hops) && New(seen, Q.Seqno(self, seqNo), hops)
    ensures
      var p, v := PacketFor(self, seqNo, flow, path, hops), Visited(SetList(path), hops);
      && Sound(p) && Last(v) != path[0] && Last(v) in rules
      && Run(Net(rules, seen, Some(p)), |v|).rules == InstallOne(rules, flow, Last(v), path[1])
  {
    var p, v := ReadyAtStart(self, seqNo, flow, path, hops, rules, seen);
    assert v == hops[..|v|] && v[|v| - 1] == hops[|v| - 1];
    assert forall u :: u in v ==> u in hops;
    FirstRule(Net(rules, seen, Some(p)), p, v, Served(v, path));
  }

  /** The first rule goes to the last of the hops. */
  lemma {:induction false} FirstRule(n: Net, p: Mfs, hops: seq<Addr>, path: seq<Addr>)
    requires Ready(n, p, hops, path) && Distinct(hops) && New(n.seen, Stamp(p), hops)
    ensures InFlight(n) && Last(hops) in n.rules
    ensures Run(n, |hops|).rules == InstallOne(n.rules, p.flow, Last(hops), path[1])
  {
    var stops := Stops(hops, path);
    ReadyIsPresent(n, p, hops, path);
    assert stops[..|hops|] == hops;
    ReachAtLeast(n.seen, Stamp(p), stops, |hops|);
    RunIs(n, p, hops, path, |hops|);
    FirstEdge(n.rules, p.flow, path);
    assert Last(hops) in hops;
  }
}
