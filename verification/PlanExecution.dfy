// The packets of a plan, one after the other: which of the controller's
// changed rules they bring into force, and which they do not.
module PlanExecution {
  import opened Common
  import opened MultiFlowSetup
  import opened RuleGraph
  import opened PathConflicts
  import opened MultiFlowDelivery
  import Q = SeqnoTable

  // ---- Separate installations of several paths.

  /** Separate installations of the first n paths' edges. */
  function InstallPlan(rules: NetRules, flow: FlowId, S: PathList, n: nat): (r: NetRules)
    requires n <= |S|
    requires PathsPresent(rules, S)
    ensures r.Keys == rules.Keys
  {
    if n == 0 then rules else
      var was := InstallPlan(rules, flow, S, n - 1);
      assert S[n - 1] in S && Present(rules, S[n - 1]);
      InstallAll(was, flow, S[n - 1])
  }

  predicate PathsPresent(rules: NetRules, S: PathList) {
    forall p :: p in S ==> Present(rules, p)
  }

  lemma {:induction false} OnePathInstallsItsEdges(g: Graph, rules: NetRules, flow: FlowId, p: seq<Addr>, u: Addr)
    requires Contig(g, p) && Distinct(p) && Present(rules, p) && u in rules
    ensures HasEdge(p, u) ==> u in g
    ensures InstallAll(rules, flow, p)[u] ==
            if HasEdge(p, u) then rules[u][flow := DataFlow(g[u].next, SDN_ACTION_FORWARD)] else rules[u]
  {
    InstallAllIs(rules, flow, p, u);
    if HasEdge(p, u) {
      var i :| 0 <= i < |p| - 1 && p[i] == u;
      assert StepAt(g, p, i);
    }
  }

  /** One of the first n paths has an edge at u. */
  predicate Planned(S: PathList, n: nat, u: Addr)
    requires n <= |S|
  {
    exists a :: 0 <= a < n && HasEdge(S[a], u)
  }

  ghost predicate Runs(g: Graph, S: PathList) {
    forall p :: p in S ==> Contig(g, p) && Distinct(p)
  }

  /** Whatever these installations put anywhere is the controller's rule, and every edge of the paths is put. */
  lemma {:induction false} PlanInstallsItsEdges(g: Graph, rules: NetRules, flow: FlowId, S: PathList, n: nat, u: Addr)
    requires n <= |S| && u in rules && PathsPresent(rules, S) && Runs(g, S)
    ensures Planned(S, n, u) ==> u in g
    ensures InstallPlan(rules, flow, S, n)[u] ==
            if Planned(S, n, u) then rules[u][flow := DataFlow(g[u].next, SDN_ACTION_FORWARD)] else rules[u]
    decreases n
  {
    if n > 0 {
      PlanInstallsItsEdges(g, rules, flow, S, n - 1, u);
      assert S[n - 1] in S;
      OneMorePath(g, rules, InstallPlan(rules, flow, S, n - 1), flow, S[n - 1], u, Planned(S, n - 1, u));
      PlannedMore(S, n, u);
    }
  }

  lemma {:induction false} PlannedMore(S: PathList, n: nat, u: Addr)
    requires 0 < n <= |S|
    ensures Planned(S, n, u) <==> Planned(S, n - 1, u) || HasEdge(S[n - 1], u)
  {
  }

  lemma {:induction false} OneMorePath(g: Graph, rules: NetRules, was: NetRules, flow: FlowId, p: seq<Addr>,
                                       u: Addr, planned: bool)
    requires Contig(g, p) && Distinct(p) && Present(was, p) && u in rules && u in was && (planned ==> u in g)
    requires was[u] == if planned then rules[u][flow := DataFlow(g[u].next, SDN_ACTION_FORWARD)] else rules[u]
    ensures planned || HasEdge(p, u) ==> u in g
    ensures InstallAll(was, flow, p)[u] ==
            if planned || HasEdge(p, u) then rules[u][flow := DataFlow(g[u].next, SDN_ACTION_FORWARD)] else rules[u]
  {
    OnePathInstallsItsEdges(g, was, flow, p, u);
    if u in g {
      var e := DataFlow(g[u].next, SDN_ACTION_FORWARD);
      assert rules[u][flow := e][flow := e] == rules[u][flow := e];
    }
  }

  // ---- The packets.

  /** Path a of S is sent behind route H[a]; set lists and routes have room. */
  predicate Sendable(S: PathList, H: PathList) {
    |H| == |S| && forall a :: 0 <= a < |S| ==> FitsPacket(S[a], H[a])
  }

  predicate FitsPacket(path: seq<Addr>, hops: seq<Addr>) {
    && 2 <= |path| <= MAX_MFS_ELEM + 1 && hops != [] && Last(hops) == path[0]
    && Visited(SetList(path), hops) == hops
  }

  predicate AllExist(rules: NetRules, seen: NetSeen, S: PathList) {
    forall a :: 0 <= a < |S| ==> Exist(rules, seen, S[a])
  }

  /** The controller numbers its packets with one octet. */
  function Number(seqNo: byte, a: nat): byte {
    (seqNo + a) % 256
  }

  lemma {:induction false} NumbersCountUp(seqNo: byte, a: nat)
    ensures Number(seqNo, 0) == seqNo
    ensures Number(seqNo, a + 1) == if Number(seqNo, a) == 255 then 0 else Number(seqNo, a) + 1
  {
  }

  lemma {:induction false} PacketIsSound(self: Addr, seqNo: byte, flow: FlowId, path: seq<Addr>, hops: seq<Addr>)
    requires 2 <= |path| <= MAX_MFS_ELEM + 1 && hops != []
    ensures Sound(PacketFor(self, seqNo, flow, path, hops))
  {
    BuiltDeparts(self, seqNo, flow, path, hops);
  }

  /** The network after one packet of the controller has run to its end. */
  function SendOne(was: Net, self: Addr, number: byte, flow: FlowId, path: seq<Addr>, hops: seq<Addr>): Net
    requires 2 <= |path| <= MAX_MFS_ELEM + 1 && hops != []
  {
    PacketIsSound(self, number, flow, path, hops);
    Final(was.(packet := Some(PacketFor(self, number, flow, path, hops))))
  }

  /** The network after the first k packets, each of which has run to its end. */
  function AfterPlan(rules: NetRules, seen: NetSeen, self: Addr, seqNo: byte, flow: FlowId, S: PathList, H: PathList, k: nat): Net
    requires Sendable(S, H) && k <= |S|
  {
    if k == 0 then Net(rules, seen, None)
    else
      var was := AfterPlan(rules, seen, self, seqNo, flow, S, H, k - 1);
      SendOne(was, self, Number(seqNo, k - 1), flow, S[k - 1], H[k - 1])
  }

  /** How many of the nodes differ from the controller and from those in front. */
  function FreshStops(self: Addr, nodes: seq<Addr>): (r: nat)
    ensures r <= |nodes|
  {
    if nodes == [] then 0
    else
      var front := nodes[..|nodes| - 1];
      var r := FreshStops(self, front);
      if r == |front| && Last(nodes) !in front && Last(nodes) != self then |nodes| else r
  }

  lemma {:induction false} AllFreshIff(self: Addr, nodes: seq<Addr>)
    ensures FreshStops(self, nodes) == |nodes| <==> Distinct(nodes) && self !in nodes
  {
    if nodes != [] {
      var front := nodes[..|nodes| - 1];
      AllFreshIff(self, front);
      assert nodes == front + [Last(nodes)];
    }
  }

  /** No node but the controller itself has seen numbers `from` to `until` of the controller. */
  predicate NewNumbers(seen: NetSeen, self: Addr, seqNo: byte, from: nat, until: nat) {
    forall u, a: nat :: u in seen && u != self && from <= a < until ==> NewAt(seen[u], u, self, Number(seqNo, a))
  }

  predicate NewAt(t: Q.Seen, u: Addr, self: Addr, number: byte) {
    !Q.Duplicate(t, u, Q.Seqno(self, number))
  }

  lemma {:induction false} ReachIsFresh(seen: NetSeen, e: Q.Seqno, nodes: seq<Addr>)
    requires Present(seen, nodes) && forall u :: u in seen && u != e.sender ==> NewAt(seen[u], u, e.sender, e.seqno)
    ensures Reach(seen, e, nodes) == FreshStops(e.sender, nodes)
  {
    if nodes != [] {
      var front, u := nodes[..|nodes| - 1], Last(nodes);
      ReachIsFresh(seen, e, front);
      assert u in seen && (Blocked(seen, e, front, u) <==> u in front || u == e.sender);
    }
  }

  /** The part of a path that its packet installs: up to the first stop that has to take the packet again. */
  function Part(self: Addr, path: seq<Addr>, hops: seq<Addr>): (part: seq<Addr>)
    requires hops != [] && |path| >= 2
    ensures part <= path
  {
    path[..Installs(hops, FreshStops(self, Stops(hops, path))) + 1]
  }

  function Parts(self: Addr, S: PathList, H: PathList): (parts: PathList)
    requires Sendable(S, H)
    ensures |parts| == |S| && forall a :: 0 <= a < |S| ==> parts[a] == Part(self, S[a], H[a])
  {
    seq(|S|, a requires 0 <= a < |S| => Part(self, S[a], H[a]))
  }

  lemma {:induction false} PartsPresent(self: Addr, S: PathList, H: PathList, rules: NetRules, seen: NetSeen)
    requires Sendable(S, H) && AllExist(rules, seen, S)
    ensures PathsPresent(rules, Parts(self, S, H))
  {
    forall p | p in Parts(self, S, H)
      ensures Present(rules, p)
    {
      var a :| 0 <= a < |S| && Parts(self, S, H)[a] == p;
      assert Exist(rules, seen, S[a]);
      PartPresent(rules, S[a], |p|);
    }
  }

  /** One packet with a number nobody has seen. */
  lemma {:induction false} NewPacket(rules: NetRules, seen: NetSeen, self: Addr, number: byte, flow: FlowId,
                                     path: seq<Addr>, hops: seq<Addr>)
    requires FitsPacket(path, hops) && Exist(rules, seen, path) && Exist(rules, seen, hops)
    requires forall u :: u in seen && u != self ==> NewAt(seen[u], u, self, number)
    ensures
      var p, r := PacketFor(self, number, flow, path, hops), FreshStops(self, Stops(hops, path));
      && Sound(p) && Present(rules, Part(self, path, hops)) && Present(seen, Stops(hops, path)[..r])
      && Final(Net(rules, seen, Some(p))) ==
         Net(InstallAll(rules, flow, Part(self, path, hops)), Marked(seen, Q.Seqno(self, number), Stops(hops, path)[..r]), None)
  {
    UntruncatedOutcome(self, number, flow, path, hops, rules, seen);
    var e, r := Q.Seqno(self, number), Taken(seen, Q.Seqno(self, number), hops, path);
    StopsPresent(seen, hops, path, |hops| - 1 + |path| - 1);
    assert Stops(hops, path)[..|hops| - 1 + |path| - 1] == Stops(hops, path);
    ReachIsFresh(seen, e, Stops(hops, path));
    PartPresent(rules, path, |Part(self, path, hops)|);
    StopsPresent(seen, hops, path, r);
  }

  lemma {:induction false} NumbersStayNew(seen: NetSeen, self: Addr, seqNo: byte, k: nat, until: nat, nodes: seq<Addr>)
    requires NewNumbers(seen, self, seqNo, k, until) && until <= 256 && Present(seen, nodes)
    ensures NewNumbers(Marked(seen, Q.Seqno(self, Number(seqNo, k)), nodes), self, seqNo, k + 1, until)
  {
    var e := Q.Seqno(self, Number(seqNo, k));
    var now := Marked(seen, e, nodes);
    forall u, a: nat | u in now && u != self && k + 1 <= a < until
      ensures NewAt(now[u], u, self, Number(seqNo, a))
    {
      assert NewAt(seen[u], u, self, Number(seqNo, a));
      OtherNumberStaysNew(seen, e, nodes, u, Number(seqNo, a));
    }
  }

  lemma {:induction false} ExistStill(rules: NetRules, seen: NetSeen, now: Net, nodes: seq<Addr>)
    requires Exist(rules, seen, nodes) && now.rules.Keys == rules.Keys && now.seen.Keys == seen.Keys
    ensures Exist(now.rules, now.seen, nodes)
  {
    forall u | u in nodes
      ensures u in now.rules && u in now.seen
    {
      assert u in rules.Keys && u in seen.Keys;
    }
  }

  /** A network at rest with these rules, where the numbers from k on are still new. */
  predicate AtRest(n: Net, rules: NetRules, seen: NetSeen, self: Addr, seqNo: byte, k: nat, until: nat) {
    n.rules == rules && n.packet.None? && n.seen.Keys == seen.Keys && NewNumbers(n.seen, self, seqNo, k, until)
  }

  lemma {:induction false} OnePacketMore(was: Net, rules: NetRules, seen: NetSeen, self: Addr, seqNo: byte, flow: FlowId,
                                         path: seq<Addr>, hops: seq<Addr>, a: nat, until: nat)
    requires AtRest(was, rules, seen, self, seqNo, a, until) && a < until <= 256
    requires FitsPacket(path, hops) && Exist(rules, seen, path) && Exist(rules, seen, hops)
    ensures
      var part := Part(self, path, hops);
      && Present(rules, part)
      && AtRest(SendOne(was, self, Number(seqNo, a), flow, path, hops), InstallAll(rules, flow, part), seen, self, seqNo, a + 1, until)
  {
    ExistStill(rules, seen, was, path);
    ExistStill(rules, seen, was, hops);
    NewPacket(rules, was.seen, self, Number(seqNo, a), flow, path, hops);
    NumbersStayNew(was.seen, self, seqNo, a, until, Stops(hops, path)[..FreshStops(self, Stops(hops, path))]);
  }

  /** The packets of a plan do what the separate installations of their parts do. */
  lemma {:induction false} AfterPlanIs(rules: NetRules, seen: NetSeen, self: Addr, seqNo: byte, flow: FlowId,
                                       S: PathList, H: PathList, parts: PathList, k: nat)
    requires Sendable(S, H) && k <= |S| <= 256 && AllExist(rules, seen, S) && AllExist(rules, seen, H)
    requires NewNumbers(seen, self, seqNo, 0, |S|) && parts == Parts(self, S, H) && PathsPresent(rules, parts)
    ensures AtRest(AfterPlan(rules, seen, self, seqNo, flow, S, H, k), InstallPlan(rules, flow, parts, k), seen, self, seqNo, k, |S|)
    decreases k
  {
    if k > 0 {
      var a := k - 1;
      AfterPlanIs(rules, seen, self, seqNo, flow, S, H, parts, a);
      var was, installed := AfterPlan(rules, seen, self, seqNo, flow, S, H, a), InstallPlan(rules, flow, parts, a);
      ExistAfter(rules, seen, installed, S, H, a);
      OnePacketMore(was, installed, seen, self, seqNo, flow, S[a], H[a], a, |S|);
      InstallOneMore(rules, flow, parts, a);
    }
  }

  lemma {:induction false} InstallOneMore(rules: NetRules, flow: FlowId, S: PathList, a: nat)
    requires a < |S| && PathsPresent(rules, S)
    ensures Present(rules, S[a]) && InstallPlan(rules, flow, S, a + 1) == InstallAll(InstallPlan(rules, flow, S, a), flow, S[a])
  {
    assert S[a] in S;
  }

  lemma {:induction false} ExistAfter(rules: NetRules, seen: NetSeen, installed: NetRules, S: PathList, H: PathList, a: nat)
    requires Sendable(S, H) && a < |S| && AllExist(rules, seen, S) && AllExist(rules, seen, H) && installed.Keys == rules.Keys
    ensures FitsPacket(S[a], H[a]) && Exist(installed, seen, S[a]) && Exist(installed, seen, H[a])
  {
    assert Exist(rules, seen, S[a]) && Exist(rules, seen, H[a]);
    ExistStill(rules, seen, Net(installed, seen, None), S[a]);
    ExistStill(rules, seen, Net(installed, seen, None), H[a]);
  }

  // ---- Planning and execution together.

  lemma {:induction false} SurvivorRuns(g: Graph, starts: seq<Addr>, P: PathList)
    requires EdgesRecorded(g, starts, P)
    ensures Runs(g, Survivors(g, P, |P|))
  {
    var S := Survivors(g, P, |P|);
    forall p | p in S
      ensures Contig(g, p) && Distinct(p)
    {
      var a :| 0 <= a < |S| && S[a] == p;
      SurvivorsAreRuns(g, starts, P, a);
    }
  }

  lemma {:induction false} PartRuns(g: Graph, self: Addr, S: PathList, H: PathList)
    requires Sendable(S, H) && Runs(g, S)
    ensures Runs(g, Parts(self, S, H))
  {
    forall p | p in Parts(self, S, H)
      ensures Contig(g, p) && Distinct(p)
    {
      var a :| 0 <= a < |S| && Parts(self, S, H)[a] == p;
      assert S[a] in S;
      ContigPart(g, S[a], 0, |p|);
      assert S[a][0..|p|] == p;
    }
  }

  /**
   * The packets of the surviving paths put the controller's rule at exactly
   * the nodes with an edge in the part of a survivor that its packet installs,
   * and leave all other nodes alone.
   */
  lemma {:induction false} PlanOutcome(g: Graph, starts: seq<Addr>, P: PathList, H: PathList, rules: NetRules, seen: NetSeen,
                                       self: Addr, seqNo: byte, flow: FlowId, u: Addr)
    requires EdgesRecorded(g, starts, P) && u in rules && |Survivors(g, P, |P|)| <= 256
    requires Sendable(Survivors(g, P, |P|), H)
    requires AllExist(rules, seen, Survivors(g, P, |P|)) && AllExist(rules, seen, H)
    requires NewNumbers(seen, self, seqNo, 0, |Survivors(g, P, |P|)|)
    ensures
      var S := Survivors(g, P, |P|);
      var r, planned := AfterPlan(rules, seen, self, seqNo, flow, S, H, |S|).rules, Planned(Parts(self, S, H), |S|, u);
      && u in r && (planned ==> u in g)
      && r[u] == if planned then rules[u][flow := DataFlow(g[u].next, SDN_ACTION_FORWARD)] else rules[u]
  {
    var S := Survivors(g, P, |P|);
    var parts := Parts(self, S, H);
    PartsPresent(self, S, H, rules, seen);
    AfterPlanIs(rules, seen, self, seqNo, flow, S, H, parts, |S|);
    SurvivorRuns(g, starts, P);
    PartRuns(g, self, S, H);
    PlanInstallsItsEdges(g, rules, flow, parts, |S|, u);
  }

  /** No node, nor the controller, has to take the packet of this path twice. */
  predicate Deliverable(self: Addr, path: seq<Addr>, hops: seq<Addr>)
    requires hops != [] && path != []
  {
    Distinct(Stops(hops, path)) && self !in Stops(hops, path)
  }

  lemma {:induction false} WholeIffDeliverable(self: Addr, path: seq<Addr>, hops: seq<Addr>)
    requires hops != [] && |path| >= 2
    ensures Part(self, path, hops) == path <==> Deliverable(self, path, hops)
  {
    AllFreshIff(self, Stops(hops, path));
    assert path[..|path|] == path;
  }

  /** The part holds the edge number i exactly if the packet gets past it. */
  lemma {:induction false} PartHasEdge(self: Addr, path: seq<Addr>, hops: seq<Addr>, i: nat)
    requires hops != [] && |path| >= 2 && Distinct(path) && i < |path| - 1
    ensures HasEdge(Part(self, path, hops), path[i]) <==> |hops| + i <= FreshStops(self, Stops(hops, path))
  {
    var part := Part(self, path, hops);
    if |hops| + i <= FreshStops(self, Stops(hops, path)) {
      assert part[i] == path[i];
    }
    if HasEdge(part, path[i]) {
      var j :| 0 <= j < |part| - 1 && part[j] == path[i];
      assert path[j] == path[i];
    }
  }

  /**
   * Planning and execution together: after the packets of the surviving paths
   * a changed rule is in force at its node if and only if the packet of the
   * one survivor that has its edge gets past that node, or it was in force before.
   */
  lemma {:induction false} ChangeInForceIff(g: Graph, starts: seq<Addr>, P: PathList, H: PathList,
                                            rules: NetRules, seen: NetSeen,
                                            self: Addr, seqNo: byte, flow: FlowId, a: nat, i: nat)
    requires EdgesRecorded(g, starts, P) && |Survivors(g, P, |P|)| <= 256
    requires Sendable(Survivors(g, P, |P|), H)
    requires AllExist(rules, seen, Survivors(g, P, |P|)) && AllExist(rules, seen, H)
    requires NewNumbers(seen, self, seqNo, 0, |Survivors(g, P, |P|)|)
    requires a < |H| && i < |Survivors(g, P, |P|)[a]| - 1 && Changed(g, Survivors(g, P, |P|)[a][i])
    ensures
      var S := Survivors(g, P, |P|);
      var r, c := AfterPlan(rules, seen, self, seqNo, flow, S, H, |S|).rules, S[a][i];
      && c in r && c in rules
      && (HasRule(r[c], flow, g[c].next) <==>
          |H[a]| + i <= FreshStops(self, Stops(H[a], S[a])) || HasRule(rules[c], flow, g[c].next))
  {
    var S := Survivors(g, P, |P|);
    var c := S[a][i];
    assert Exist(rules, seen, S[a]) && c in S[a];
    PlanOutcome(g, starts, P, H, rules, seen, self, seqNo, flow, c);
    PlannedIff(g, starts, P, H, S, self, a, i);
    var r := AfterPlan(rules, seen, self, seqNo, flow, S, H, |S|).rules;
    RuleIff(rules[c], r[c], flow, g[c].next, Planned(Parts(self, S, H), |S|, c));
  }

  lemma {:induction false} RuleIff(was: FlowRules, now: FlowRules, flow: FlowId, next: Addr, planned: bool)
    requires now == if planned then was[flow := DataFlow(next, SDN_ACTION_FORWARD)] else was
    ensures HasRule(now, flow, next) <==> planned || HasRule(was, flow, next)
  {
  }

  lemma {:induction false} PlannedIff(g: Graph, starts: seq<Addr>, P: PathList, H: PathList, S: PathList,
                                      self: Addr, a: nat, i: nat)
    requires EdgesRecorded(g, starts, P) && S == Survivors(g, P, |P|) && Sendable(S, H)
    requires a < |H| && i < |S[a]| - 1 && Changed(g, S[a][i])
    ensures Planned(Parts(self, S, H), |S|, S[a][i]) <==> |H[a]| + i <= FreshStops(self, Stops(H[a], S[a]))
  {
    var c, parts := S[a][i], Parts(self, S, H);
    SurvivorsAreRuns(g, starts, P, a);
    PartHasEdge(self, S[a], H[a], i);
    assert parts[a] == Part(self, S[a], H[a]);
    if Planned(parts, |S|, c) {
      var b :| 0 <= b < |S| && HasEdge(parts[b], c);
      PartEdgeIsEdge(self, S[b], H[b], c);
      assert HasEdge(S[a], c);
      EveryChangeIsPlannedOnce(g, starts, P, c);
      assert a == b;
    }
  }

  lemma {:induction false} PartEdgeIsEdge(self: Addr, path: seq<Addr>, hops: seq<Addr>, c: Addr)
    requires hops != [] && |path| >= 2 && HasEdge(Part(self, path, hops), c)
    ensures HasEdge(path, c)
  {
    var part := Part(self, path, hops);
    var j :| 0 <= j < |part| - 1 && part[j] == c;
    assert path[j] == c;
  }

  /** So if every survivor is deliverable, every changed rule is in force, and nothing else has changed. */
  lemma {:induction false} PlanInForce(g: Graph, starts: seq<Addr>, P: PathList, H: PathList, rules: NetRules, seen: NetSeen,
                                       self: Addr, seqNo: byte, flow: FlowId, u: Addr)
    requires EdgesRecorded(g, starts, P) && u in rules && |Survivors(g, P, |P|)| <= 256
    requires Sendable(Survivors(g, P, |P|), H)
    requires AllExist(rules, seen, Survivors(g, P, |P|)) && AllExist(rules, seen, H)
    requires NewNumbers(seen, self, seqNo, 0, |Survivors(g, P, |P|)|)
    requires forall a :: 0 <= a < |H| ==> Deliverable(self, Survivors(g, P, |P|)[a], H[a])
    ensures
      var S := Survivors(g, P, |P|);
      var r := AfterPlan(rules, seen, self, seqNo, flow, S, H, |S|).rules;
      && u in r
      && (Changed(g, u) ==> r[u] == rules[u][flow := DataFlow(g[u].next, SDN_ACTION_FORWARD)])
      && (r[u] != rules[u] ==> u in g && r[u] == rules[u][flow := DataFlow(g[u].next, SDN_ACTION_FORWARD)])
  {
    var S := Survivors(g, P, |P|);
    PlanOutcome(g, starts, P, H, rules, seen, self, seqNo, flow, u);
    if Changed(g, u) {
      EveryChangeIsPlannedOnce(g, starts, P, u);
      var a :| 0 <= a < |S| && HasEdge(S[a], u);
      WholeIffDeliverable(self, S[a], H[a]);
      assert HasEdge(Parts(self, S, H)[a], u);
    }
  }

  // ---- Survivors that do not fit a packet.

  /** The rules of a route that has just been set up: one chain, every rule of it changed. */
  ghost predicate NewRoute(g: Graph, t: seq<Addr>) {
    && ShortChains(g) && |t| >= 2 && Contig(g, t) && Last(t) !in g
    && forall u :: u in g ==> u in t && g[u].changed
  }

  lemma {:induction false} RouteWalk(g: Graph, t: seq<Addr>, i: nat, lives: int, n: nat)
    requires NewRoute(g, t) && |t| <= MAX_PATH_LEN && Distinct(t)
    requires i < |t| && Ends(g, t[i], n) && (i > 0 ==> lives == MAX_CHANGED_LIFES - 1)
    ensures Walk(g, t[i], t[..i], lives, i > 0, n) == [t]
    decreases |t| - i
  {
    assert t[..i] + [t[i]] == t[..i + 1];
    if i == |t| - 1 {
      assert t[..i + 1] == t;
    } else {
      assert StepAt(g, t, i);
      assert t[i + 1] !in t[..i + 1];
      RouteWalk(g, t, i + 1, MAX_CHANGED_LIFES - 1, n - 1);
    }
  }

  lemma {:induction false} OnlyPathIsKept(t: seq<Addr>, i: nat)
    requires Distinct(t)
    ensures CutFrom([t], 0, i) == |t|
    decreases |t| - i
  {
    if i < |t| - 1 {
      assert Wins([t], 0, i);
      OnlyPathIsKept(t, i + 1);
    }
  }

  /**
   * A new route survives as one path, whatever its length: with 22 to 30 nodes
   * it has more rules than the set list of a packet has places.
   */
  lemma {:induction false} NewRouteIsOneSurvivor(g: Graph, t: seq<Addr>)
    requires NewRoute(g, t)
    ensures RecordedList(g, [t[0]], [t]) && Survivors(g, [t], 1) == [t] && |t| <= MAX_PATH_LEN
  {
    ContigDistinct(g, t);
    RouteStart(g, t);
    assert t[..0] == [];
    RouteWalk(g, t, 0, 0, MAX_PATH_LEN);
    var starts := [t[0]];
    assert starts[..0] == [] && AllWalks(g, starts) == [t];
    OnlyPathIsKept(t, 0);
    assert Kept([t], 0) == t;
    assert Survivors(g, [t], 0) == [];
  }

  lemma {:induction false} RouteStart(g: Graph, t: seq<Addr>)
    requires NewRoute(g, t) && Distinct(t)
    ensures t[0] in g && forall r :: r in g && IsRoot(g, r) ==> r == t[0]
  {
    assert StepAt(g, t, 0);
    forall r | r in g && r != t[0]
      ensures !IsRoot(g, r)
    {
      var i :| 0 <= i < |t| && t[i] == r;
      assert StepAt(g, t, i - 1);
    }
  }

  /** The place of a node on the route. */
  function IndexOf(t: seq<Addr>, u: Addr): (i: nat)
    requires u in t
    ensures i < |t| && t[i] == u
  {
    if t[0] == u then 0 else 1 + IndexOf(t[1..], u)
  }

  function RouteRules(t: seq<Addr>): Graph
    requires |t| >= 2
  {
    var front := t[..|t| - 1];
    map u | u in front :: Rule(t[IndexOf(front, u) + 1], true)
  }

  lemma {:induction false} RouteEnds(t: seq<Addr>, i: nat, n: nat)
    requires |t| >= 2 && Distinct(t) && i < |t| && n >= |t| - i
    ensures Ends(RouteRules(t), t[i], n)
    decreases |t| - i
  {
    if i < |t| - 1 {
      RouteRuleAt(t, i);
      RouteEnds(t, i + 1, n - 1);
    } else {
      assert t[i] !in t[..|t| - 1];
    }
  }

  lemma {:induction false} RouteRuleAt(t: seq<Addr>, i: nat)
    requires |t| >= 2 && Distinct(t) && i < |t| - 1
    ensures t[i] in RouteRules(t) && RouteRules(t)[t[i]] == Rule(t[i + 1], true)
  {
    var front := t[..|t| - 1];
    assert front[i] == t[i];
    var j := IndexOf(front, t[i]);
    assert t[j] == t[i];
  }

  /** Every route of 2 to 30 different nodes is such a route, so survivors of more than 21 nodes do arise. */
  lemma {:induction false} EveryRouteIsNewOnce(t: seq<Addr>)
    requires 2 <= |t| <= MAX_PATH_LEN && Distinct(t)
    ensures NewRoute(RouteRules(t), t)
  {
    var g := RouteRules(t);
    forall u | u in g
      ensures u in t && Ends(g, u, MAX_PATH_LEN)
    {
      var i := IndexOf(t[..|t| - 1], u);
      RouteEnds(t, i, MAX_PATH_LEN);
      assert t[i] == u;
    }
    forall i: nat | i < |t| - 1
      ensures StepAt(g, t, i)
    {
      RouteRuleAt(t, i);
    }
    assert Last(t) !in t[..|t| - 1];
  }
}
