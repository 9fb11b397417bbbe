// The packets of a plan on their way at the same time: whatever the order in
// which the nodes get to handle them, they do what they do one after the other.
module PlanInterleaving {
  import opened Common
  import opened PacketBytes
  import opened MultiFlowSetup
  import opened RuleGraph
  import opened PathConflicts
  import opened MultiFlowDelivery
  import opened PlanExecution
  import Q = SeqnoTable

  /** The rules and the sequence tables of all nodes, and every packet of the plan, if it is still on its way. */
  datatype Sky = Sky(rules: NetRules, seen: NetSeen, packets: seq<Option<Mfs>>)

  predicate AllSound(s: Sky) {
    forall i :: 0 <= i < |s.packets| && s.packets[i].Some? ==> Sound(s.packets[i].value)
  }

  /** Packet i is handled by the node it has got to. */
  function Turn(s: Sky, i: nat): (s': Sky)
    requires AllSound(s)
    ensures AllSound(s')
  {
    if i >= |s.packets| || s.packets[i].None? then s
    else
      var n := Handle(Net(s.rules, s.seen, s.packets[i]));
      HandleKeepsFlight(Net(s.rules, s.seen, s.packets[i]));
      Sky(n.rules, n.seen, s.packets[i := n.packet])
  }

  /** A schedule says whose turn it is. */
  function Play(s: Sky, turns: seq<nat>): (s': Sky)
    requires AllSound(s)
    ensures AllSound(s')
  {
    if turns == [] then s else Turn(Play(s, turns[..|turns| - 1]), Last(turns))
  }

  function Turns(turns: seq<nat>, a: nat): nat {
    if turns == [] then 0 else Turns(turns[..|turns| - 1], a) + if Last(turns) == a then 1 else 0
  }

  // ---- Plans.

  /** Path S[a] is to be sent behind route H[a], with the a-th number from seqNo on. */
  datatype Plan = Plan(self: Addr, seqNo: byte, flow: FlowId, S: PathList, H: PathList)

  /** The paths run along the rules, fit their packets, and no packet has to be taken twice or by the controller. */
  ghost predicate Fine(g: Graph, pl: Plan) {
    && Sendable(pl.S, pl.H) && |pl.S| <= 256 && Runs(g, pl.S)
    && forall a :: 0 <= a < |pl.S| ==> Deliverable(pl.self, pl.S[a], pl.H[a])
  }

  function PacketOf(pl: Plan, a: nat): Mfs
    requires Sendable(pl.S, pl.H) && a < |pl.S|
  {
    assert FitsPacket(pl.S[a], pl.H[a]);
    PacketFor(pl.self, Number(pl.seqNo, a), pl.flow, pl.S[a], pl.H[a])
  }

  function StopsOf(pl: Plan, a: nat): seq<Addr>
    requires Sendable(pl.S, pl.H) && a < |pl.S|
  {
    assert FitsPacket(pl.S[a], pl.H[a]);
    Stops(pl.H[a], pl.S[a])
  }

  lemma {:induction false} PacketDeparts(pl: Plan, a: nat)
    requires Sendable(pl.S, pl.H) && a < |pl.S|
    ensures pl.H[a] != [] && |pl.S[a]| >= 2 && Departs(PacketOf(pl, a), pl.H[a], pl.S[a])
    ensures Stamp(PacketOf(pl, a)) == Q.Seqno(pl.self, Number(pl.seqNo, a)) && PacketOf(pl, a).flow == pl.flow
  {
    assert FitsPacket(pl.S[a], pl.H[a]);
    BuiltDeparts(pl.self, Number(pl.seqNo, a), pl.flow, pl.S[a], pl.H[a]);
  }

  // ---- What holds after any number of turns, when packet a has been handled m[a] times.

  /** Packet a after k handlings. */
  function Flown(pl: Plan, a: nat, k: nat): Option<Mfs>
    requires Sendable(pl.S, pl.H) && a < |pl.S| && k <= |StopsOf(pl, a)|
  {
    PacketDeparts(pl, a);
    PacketAt(PacketOf(pl, a), pl.H[a], pl.S[a], k)
  }

  /** The nodes that have their rule from packet a by then. */
  function Given(pl: Plan, a: nat, k: nat): seq<Addr>
    requires Sendable(pl.S, pl.H) && a < |pl.S| && k <= |StopsOf(pl, a)|
  {
    assert FitsPacket(pl.S[a], pl.H[a]);
    pl.S[a][..Installs(pl.H[a], k)]
  }

  predicate Marks(pl: Plan, m: seq<nat>) {
    Sendable(pl.S, pl.H) && |m| == |pl.S| && forall a :: 0 <= a < |m| ==> m[a] <= |StopsOf(pl, a)|
  }

  predicate Placed(pl: Plan, m: seq<nat>, u: Addr)
    requires Marks(pl, m)
  {
    exists a :: 0 <= a < |m| && u in Given(pl, a, m[a])
  }

  ghost predicate RightRule(g: Graph, flow: FlowId, was: FlowRules, now: FlowRules, u: Addr, placed: bool) {
    if placed then u in g && now == was[flow := DataFlow(g[u].next, SDN_ACTION_FORWARD)] else now == was
  }

  /** Nodes that have been served have the controller's rule, all others what they had. */
  ghost predicate RulesAre(g: Graph, pl: Plan, m: seq<nat>, rules: NetRules, now: NetRules)
    requires Marks(pl, m)
  {
    now.Keys == rules.Keys && forall u :: u in rules ==> RightRule(g, pl.flow, rules[u], now[u], u, Placed(pl, m, u))
  }

  /** No packet is known where it has still to come to. */
  predicate AheadIsNew(pl: Plan, m: seq<nat>, seen: NetSeen)
    requires Marks(pl, m)
  {
    forall a, j :: 0 <= a < |m| && m[a] <= j < |StopsOf(pl, a)| ==> NewFor(pl, seen, a, StopsOf(pl, a)[j])
  }

  predicate NewFor(pl: Plan, seen: NetSeen, a: nat, u: Addr) {
    u in seen && NewAt(seen[u], u, pl.self, Number(pl.seqNo, a))
  }

  predicate InTheAir(pl: Plan, m: seq<nat>, packets: seq<Option<Mfs>>)
    requires Marks(pl, m)
  {
    |packets| == |m| && forall a :: 0 <= a < |m| ==> packets[a] == Flown(pl, a, m[a])
  }

  ghost predicate Stands(g: Graph, pl: Plan, m: seq<nat>, rules: NetRules, s: Sky) {
    && Marks(pl, m) && AllSound(s)
    && RulesAre(g, pl, m, rules, s.rules) && AheadIsNew(pl, m, s.seen) && InTheAir(pl, m, s.packets)
  }

  // ---- One turn.

  /** What the k-th handling of packet a does to the rules: nothing on the way, one rule of the path behind it. */
  function RulesThen(pl: Plan, a: nat, k: nat, rules: NetRules): NetRules
    requires Sendable(pl.S, pl.H) && a < |pl.S| && k < |StopsOf(pl, a)| && StopsOf(pl, a)[k] in rules
  {
    assert FitsPacket(pl.S[a], pl.H[a]);
    var u, r := StopsOf(pl, a)[k], |pl.H[a]| - 1;
    rules[u := if k < r then rules[u] else Installed(u, rules[u], pl.flow, Elem(SDN_ACTION_FORWARD, pl.S[a][k - r + 1]))]
  }

  /** And to the sequence tables. */
  function SeenThen(pl: Plan, a: nat, k: nat, seen: NetSeen): NetSeen
    requires Sendable(pl.S, pl.H) && a < |pl.S| && k < |StopsOf(pl, a)| && StopsOf(pl, a)[k] in seen
  {
    var u := StopsOf(pl, a)[k];
    seen[u := Q.Shifted(seen[u], Q.Seqno(pl.self, Number(pl.seqNo, a)))]
  }

  /** A packet that is still on its way is taken where it has got to. */
  lemma {:induction false} Takes(pl: Plan, a: nat, k: nat, rules: NetRules, seen: NetSeen)
    requires Sendable(pl.S, pl.H) && a < |pl.S| && k < |StopsOf(pl, a)| && StopsOf(pl, a)[k] in rules
    requires NewFor(pl, seen, a, StopsOf(pl, a)[k])
    ensures
      var q := Flown(pl, a, k);
      && q.Some? && Sound(q.value)
      && Handle(Net(rules, seen, q)) == Net(RulesThen(pl, a, k, rules), SeenThen(pl, a, k, seen), Flown(pl, a, k + 1))
  {
    PacketDeparts(pl, a);
    var p, u := PacketOf(pl, a), StopsOf(pl, a)[k];
    PacketAtIs(p, pl.H[a], pl.S[a], k);
    RuleOfStop(p, pl.H[a], pl.S[a], k, rules[u]);
    TreatedIsNext(p, pl.H[a], pl.S[a], k);
  }

  lemma {:induction false} GivenNext(pl: Plan, a: nat, k: nat)
    requires Sendable(pl.S, pl.H) && a < |pl.S| && k < |StopsOf(pl, a)|
    ensures Given(pl, a, k + 1) == Given(pl, a, k) + if k < |pl.H[a]| - 1 then [] else [StopsOf(pl, a)[k]]
  {
    assert FitsPacket(pl.S[a], pl.H[a]);
    if k >= |pl.H[a]| - 1 {
      var i := k - (|pl.H[a]| - 1);
      assert pl.S[a][..i + 1] == pl.S[a][..i] + [pl.S[a][i]];
    }
  }

  lemma {:induction false} PlacedNext(pl: Plan, m: seq<nat>, a: nat, u: Addr)
    requires Marks(pl, m) && a < |m| && m[a] < |StopsOf(pl, a)|
    ensures Marks(pl, m[a := m[a] + 1])
    ensures Placed(pl, m[a := m[a] + 1], u) <==> Placed(pl, m, u) || (m[a] >= |pl.H[a]| - 1 && u == StopsOf(pl, a)[m[a]])
  {
    var m' := m[a := m[a] + 1];
    GivenNext(pl, a, m[a]);
    if b :| 0 <= b < |m| && u in Given(pl, b, m[b]) {
      assert u in Given(pl, b, m'[b]);
    }
    if m[a] >= |pl.H[a]| - 1 && u == StopsOf(pl, a)[m[a]] {
      assert u in Given(pl, a, m'[a]);
    }
    if b :| 0 <= b < |m| && u in Given(pl, b, m'[b]) {
      assert b == a || u in Given(pl, b, m[b]);
    }
  }

  lemma {:induction false} RuleInstalled(g: Graph, path: seq<Addr>, i: nat, flow: FlowId, was: FlowRules,
                                         now: FlowRules, placed: bool)
    requires Contig(g, path) && Distinct(path) && i < |path| - 1 && RightRule(g, flow, was, now, path[i], placed)
    ensures RightRule(g, flow, was, Installed(path[i], now, flow, Elem(SDN_ACTION_FORWARD, path[i + 1])), path[i], true)
  {
    assert StepAt(g, path, i);
    var e := DataFlow(g[path[i]].next, SDN_ACTION_FORWARD);
    assert was[flow := e][flow := e] == was[flow := e];
  }

  /** The rules after packet a has been taken once more. */
  lemma {:induction false} RulesNext(g: Graph, pl: Plan, m: seq<nat>, rules: NetRules, now: NetRules, a: nat)
    requires Fine(g, pl) && Marks(pl, m) && RulesAre(g, pl, m, rules, now) && a < |m| && m[a] < |StopsOf(pl, a)|
    requires StopsOf(pl, a)[m[a]] in now
    ensures Marks(pl, m[a := m[a] + 1]) && RulesAre(g, pl, m[a := m[a] + 1], rules, RulesThen(pl, a, m[a], now))
  {
    var k, u, m', next := m[a], StopsOf(pl, a)[m[a]], m[a := m[a] + 1], RulesThen(pl, a, m[a], now);
    PlacedNext(pl, m, a, u);
    forall w | w in rules
      ensures RightRule(g, pl.flow, rules[w], next[w], w, Placed(pl, m', w))
    {
      PlacedNext(pl, m, a, w);
      if w == u && k >= |pl.H[a]| - 1 {
        assert pl.S[a] in pl.S;
        RuleInstalled(g, pl.S[a], k - (|pl.H[a]| - 1), pl.flow, rules[u], now[u], Placed(pl, m, u));
      }
    }
  }

  /** A node that has just taken one packet of the controller knows no other. */
  lemma {:induction false} OnlyTheLastIsKnown(pl: Plan, a: nat, k: nat, seen: NetSeen, b: nat)
    requires Sendable(pl.S, pl.H) && a < |pl.S| && k < |StopsOf(pl, a)| && StopsOf(pl, a)[k] in seen
    requires a != b && a < 256 && b < 256 && StopsOf(pl, a)[k] != pl.self
    ensures NewFor(pl, SeenThen(pl, a, k, seen), b, StopsOf(pl, a)[k])
  {
    var u := StopsOf(pl, a)[k];
    assert Number(pl.seqNo, b) != Number(pl.seqNo, a);
    Q.RegisteredIsDuplicate(seen[u], u, Q.Seqno(pl.self, Number(pl.seqNo, a)));
  }

  /** A packet that comes to w later is as new there as it was, or newer. */
  lemma {:induction false} StillNew(pl: Plan, a: nat, k: nat, seen: NetSeen, b: nat, w: Addr)
    requires Sendable(pl.S, pl.H) && a < |pl.S| && k < |StopsOf(pl, a)| && StopsOf(pl, a)[k] in seen && NewFor(pl, seen, b, w)
    requires w == StopsOf(pl, a)[k] ==> a != b && a < 256 && b < 256 && w != pl.self
    ensures NewFor(pl, SeenThen(pl, a, k, seen), b, w)
  {
    if w == StopsOf(pl, a)[k] {
      OnlyTheLastIsKnown(pl, a, k, seen, b);
    }
  }

  /** No stop comes twice, and the controller is none. */
  lemma {:induction false} StopsDiffer(g: Graph, pl: Plan, a: nat, k: nat, j: nat)
    requires Fine(g, pl) && a < |pl.S| && k < j < |StopsOf(pl, a)|
    ensures StopsOf(pl, a)[k] != StopsOf(pl, a)[j]
  {
    assert Deliverable(pl.self, pl.S[a], pl.H[a]);
  }

  lemma {:induction false} StopIsNotSelf(g: Graph, pl: Plan, a: nat, k: nat)
    requires Fine(g, pl) && a < |pl.S| && k < |StopsOf(pl, a)|
    ensures StopsOf(pl, a)[k] != pl.self
  {
    assert Deliverable(pl.self, pl.S[a], pl.H[a]);
    assert StopsOf(pl, a)[k] in StopsOf(pl, a);
  }

  /** Nobody that has still to take another packet knows it now. */
  lemma {:induction false} NewNext(g: Graph, pl: Plan, m: seq<nat>, seen: NetSeen, a: nat)
    requires Fine(g, pl) && Marks(pl, m) && AheadIsNew(pl, m, seen) && a < |m| && m[a] < |StopsOf(pl, a)|
    requires StopsOf(pl, a)[m[a]] in seen && Marks(pl, m[a := m[a] + 1])
    ensures AheadIsNew(pl, m[a := m[a] + 1], SeenThen(pl, a, m[a], seen))
  {
    var k, m', now := m[a], m[a := m[a] + 1], SeenThen(pl, a, m[a], seen);
    StopIsNotSelf(g, pl, a, k);
    forall b, j | 0 <= b < |m'| && m'[b] <= j < |StopsOf(pl, b)|
      ensures NewFor(pl, now, b, StopsOf(pl, b)[j])
    {
      assert m[b] <= j && NewFor(pl, seen, b, StopsOf(pl, b)[j]);
      if b == a {
        StopsDiffer(g, pl, a, k, j);
      }
      StillNew(pl, a, k, seen, b, StopsOf(pl, b)[j]);
    }
  }

  /** A turn of a packet that is still on its way. */
  lemma {:induction false} TurnTakes(pl: Plan, m: seq<nat>, s: Sky, a: nat)
    requires Marks(pl, m) && AllSound(s) && InTheAir(pl, m, s.packets)
    requires a < |m| && m[a] < |StopsOf(pl, a)| && StopsOf(pl, a)[m[a]] in s.rules && NewFor(pl, s.seen, a, StopsOf(pl, a)[m[a]])
    ensures Turn(s, a) ==
            Sky(RulesThen(pl, a, m[a], s.rules), SeenThen(pl, a, m[a], s.seen), s.packets[a := Flown(pl, a, m[a] + 1)])
  {
    assert s.packets[a] == Flown(pl, a, m[a]);
    Takes(pl, a, m[a], s.rules, s.seen);
  }

  /** A packet that has gone has no turn. */
  lemma {:induction false} TurnIsOver(pl: Plan, m: seq<nat>, s: Sky, a: nat)
    requires Marks(pl, m) && AllSound(s) && InTheAir(pl, m, s.packets) && (a < |m| ==> m[a] == |StopsOf(pl, a)|)
    ensures Turn(s, a) == s
  {
    if a < |m| {
      PacketDeparts(pl, a);
      assert s.packets[a] == Flown(pl, a, m[a]);
    }
  }

  /** How far the packets have got after a turn of packet a. */
  function Moved(pl: Plan, m: seq<nat>, a: nat): seq<nat>
    requires Marks(pl, m)
  {
    if a < |m| && m[a] < |StopsOf(pl, a)| then m[a := m[a] + 1] else m
  }

  /** One turn: the packet goes on by one stop, if it is still on its way; everything else stays as it should be. */
  lemma {:induction false} TurnStands(g: Graph, pl: Plan, m: seq<nat>, rules: NetRules, s: Sky, a: nat)
    requires Fine(g, pl) && Stands(g, pl, m, rules, s) && AllExist(rules, s.seen, pl.S) && AllExist(rules, s.seen, pl.H)
    ensures Stands(g, pl, Moved(pl, m, a), rules, Turn(s, a)) && Turn(s, a).seen.Keys == s.seen.Keys
  {
    if a < |m| && m[a] < |StopsOf(pl, a)| {
      StopExists(pl, rules, s.seen, a, m[a]);
      assert NewFor(pl, s.seen, a, StopsOf(pl, a)[m[a]]);
      TurnTakes(pl, m, s, a);
      RulesNext(g, pl, m, rules, s.rules, a);
      NewNext(g, pl, m, s.seen, a);
      AirNext(pl, m, s.packets, a);
    } else {
      TurnIsOver(pl, m, s, a);
    }
  }

  lemma {:induction false} StopExists(pl: Plan, rules: NetRules, seen: NetSeen, a: nat, k: nat)
    requires Sendable(pl.S, pl.H) && a < |pl.S| && k < |StopsOf(pl, a)|
    requires AllExist(rules, seen, pl.S) && AllExist(rules, seen, pl.H)
    ensures StopsOf(pl, a)[k] in rules && StopsOf(pl, a)[k] in seen
  {
    assert FitsPacket(pl.S[a], pl.H[a]) && Exist(rules, seen, pl.S[a]) && Exist(rules, seen, pl.H[a]);
    assert StopsOf(pl, a)[k] in pl.H[a] || StopsOf(pl, a)[k] in pl.S[a];
  }

  lemma {:induction false} AirNext(pl: Plan, m: seq<nat>, packets: seq<Option<Mfs>>, a: nat)
    requires Marks(pl, m) && InTheAir(pl, m, packets) && a < |m| && m[a] < |StopsOf(pl, a)|
    ensures Marks(pl, m[a := m[a] + 1]) && InTheAir(pl, m[a := m[a] + 1], packets[a := Flown(pl, a, m[a] + 1)])
  {
    var m', now := m[a := m[a] + 1], packets[a := Flown(pl, a, m[a] + 1)];
    forall b | 0 <= b < |m'|
      ensures now[b] == Flown(pl, b, m'[b])
    {
      assert packets[b] == Flown(pl, b, m[b]);
    }
  }

  // ---- Whole schedules.

  /** All packets have been sent, and none has been handled. */
  function Start(pl: Plan, rules: NetRules, seen: NetSeen): (s: Sky)
    requires Sendable(pl.S, pl.H)
    ensures AllSound(s)
  {
    Sky(rules, seen, seq(|pl.S|, a requires 0 <= a < |pl.S| => PacketDeparts(pl, a); Some(PacketOf(pl, a))))
  }

  /** How far the packets have got after a schedule. */
  function Got(pl: Plan, turns: seq<nat>): (m: seq<nat>)
    requires Sendable(pl.S, pl.H)
    ensures Marks(pl, m)
  {
    if turns == [] then seq(|pl.S|, a => 0) else Moved(pl, Got(pl, turns[..|turns| - 1]), Last(turns))
  }

  /** One stop a turn, up to the last. */
  lemma {:induction false} GotIs(pl: Plan, turns: seq<nat>, a: nat)
    requires Sendable(pl.S, pl.H) && a < |pl.S|
    ensures Got(pl, turns)[a] == if Turns(turns, a) <= |StopsOf(pl, a)| then Turns(turns, a) else |StopsOf(pl, a)|
  {
    if turns != [] {
      GotIs(pl, turns[..|turns| - 1], a);
    }
  }

  predicate Fresh(pl: Plan, rules: NetRules, seen: NetSeen) {
    AllExist(rules, seen, pl.S) && AllExist(rules, seen, pl.H) && NewNumbers(seen, pl.self, pl.seqNo, 0, |pl.S|)
  }

  lemma {:induction false} StartStands(g: Graph, pl: Plan, rules: NetRules, seen: NetSeen)
    requires Fine(g, pl) && Fresh(pl, rules, seen)
    ensures Stands(g, pl, Got(pl, []), rules, Start(pl, rules, seen))
  {
    var m, s := Got(pl, []), Start(pl, rules, seen);
    forall a, j | 0 <= a < |m| && m[a] <= j < |StopsOf(pl, a)|
      ensures NewFor(pl, seen, a, StopsOf(pl, a)[j])
    {
      StopExists(pl, rules, seen, a, j);
      assert Deliverable(pl.self, pl.S[a], pl.H[a]) && StopsOf(pl, a)[j] in StopsOf(pl, a);
    }
    forall a | 0 <= a < |m|
      ensures s.packets[a] == Flown(pl, a, m[a]) && Given(pl, a, m[a]) == []
    {
      PacketDeparts(pl, a);
      Departed(PacketOf(pl, a), pl.H[a], pl.S[a]);
    }
  }

  /** After any schedule every node that has been served has the controller's rule, and all others what they had. */
  lemma {:induction false} PlayStands(g: Graph, pl: Plan, rules: NetRules, seen: NetSeen, turns: seq<nat>)
    requires Fine(g, pl) && Fresh(pl, rules, seen)
    ensures Stands(g, pl, Got(pl, turns), rules, Play(Start(pl, rules, seen), turns))
    ensures Play(Start(pl, rules, seen), turns).seen.Keys == seen.Keys
  {
    if turns == [] {
      StartStands(g, pl, rules, seen);
    } else {
      var front := turns[..|turns| - 1];
      var s := Play(Start(pl, rules, seen), front);
      PlayStands(g, pl, rules, seen, front);
      AllExistStill(rules, seen, s.seen, pl.S);
      AllExistStill(rules, seen, s.seen, pl.H);
      TurnStands(g, pl, Got(pl, front), rules, s, Last(turns));
    }
  }

  lemma {:induction false} AllExistStill(rules: NetRules, seen: NetSeen, now: NetSeen, S: PathList)
    requires AllExist(rules, seen, S) && now.Keys == seen.Keys
    ensures AllExist(rules, now, S)
  {
    forall a | 0 <= a < |S|
      ensures Exist(rules, now, S[a])
    {
      assert Exist(rules, seen, S[a]);
      ExistStill(rules, seen, Net(rules, now, None), S[a]);
    }
  }

  /** Every packet has had a turn for each of its stops. */
  predicate EachHasItsTurns(pl: Plan, turns: seq<nat>)
    requires Sendable(pl.S, pl.H)
  {
    forall a :: 0 <= a < |pl.S| ==> |StopsOf(pl, a)| <= Turns(turns, a)
  }

  lemma {:induction false} AllPlaced(pl: Plan, turns: seq<nat>, u: Addr)
    requires Sendable(pl.S, pl.H) && EachHasItsTurns(pl, turns)
    ensures Placed(pl, Got(pl, turns), u) <==> Planned(pl.S, |pl.S|, u)
    ensures forall a :: 0 <= a < |pl.S| ==> Flown(pl, a, Got(pl, turns)[a]) == None
  {
    var m := Got(pl, turns);
    forall a | 0 <= a < |pl.S|
      ensures m[a] == |StopsOf(pl, a)| && Flown(pl, a, m[a]) == None
      ensures u in Given(pl, a, m[a]) <==> HasEdge(pl.S[a], u)
    {
      GotIs(pl, turns, a);
      PacketDeparts(pl, a);
      GivenAll(pl, a, u);
    }
  }

  lemma {:induction false} GivenAll(pl: Plan, a: nat, u: Addr)
    requires Sendable(pl.S, pl.H) && a < |pl.S|
    ensures u in Given(pl, a, |StopsOf(pl, a)|) <==> HasEdge(pl.S[a], u)
  {
    assert FitsPacket(pl.S[a], pl.H[a]);
    var front := pl.S[a][..|pl.S[a]| - 1];
    assert Given(pl, a, |StopsOf(pl, a)|) == front;
    if i :| 0 <= i < |pl.S[a]| - 1 && pl.S[a][i] == u {
      assert front[i] == u;
    }
  }

  // ---- The plan of the surviving paths.

  /** What PlanExecution asks of a plan: its paths survived, fit their packets, can be delivered, and are new to everybody. */
  ghost predicate Ready(g: Graph, starts: seq<Addr>, P: PathList, pl: Plan, rules: NetRules, seen: NetSeen) {
    && EdgesRecorded(g, starts, P) && pl.S == Survivors(g, P, |P|) && |pl.S| <= 256 && Sendable(pl.S, pl.H)
    && (forall a :: 0 <= a < |pl.H| ==> Deliverable(pl.self, pl.S[a], pl.H[a]))
    && Fresh(pl, rules, seen)
  }

  lemma {:induction false} ReadyIsFine(g: Graph, starts: seq<Addr>, P: PathList, pl: Plan, rules: NetRules, seen: NetSeen)
    requires Ready(g, starts, P, pl, rules, seen)
    ensures Fine(g, pl) && Parts(pl.self, pl.S, pl.H) == pl.S
  {
    SurvivorRuns(g, starts, P);
    PartsAreWhole(pl);
  }

  lemma {:induction false} PartsAreWhole(pl: Plan)
    requires Sendable(pl.S, pl.H) && forall a :: 0 <= a < |pl.H| ==> Deliverable(pl.self, pl.S[a], pl.H[a])
    ensures Parts(pl.self, pl.S, pl.H) == pl.S
  {
    forall a | 0 <= a < |pl.S|
      ensures Parts(pl.self, pl.S, pl.H)[a] == pl.S[a]
    {
      assert FitsPacket(pl.S[a], pl.H[a]) && Deliverable(pl.self, pl.S[a], pl.H[a]);
      WholeIffDeliverable(pl.self, pl.S[a], pl.H[a]);
    }
  }

  /** The rules when the packets run to their end one after the other. */
  function InTurn(pl: Plan, rules: NetRules, seen: NetSeen): NetRules
    requires Sendable(pl.S, pl.H)
  {
    AfterPlan(rules, seen, pl.self, pl.seqNo, pl.flow, pl.S, pl.H, |pl.S|).rules
  }

  /** Every node with an edge on a path of the plan has the controller's rule, all others what they had. */
  ghost predicate PlannedRules(g: Graph, pl: Plan, rules: NetRules, now: NetRules) {
    now.Keys == rules.Keys
    && forall u :: u in rules ==> RightRule(g, pl.flow, rules[u], now[u], u, Planned(pl.S, |pl.S|, u))
  }

  lemma {:induction false} SameRules(g: Graph, pl: Plan, rules: NetRules, r: NetRules, t: NetRules)
    requires PlannedRules(g, pl, rules, r) && PlannedRules(g, pl, rules, t)
    ensures r == t
  {
    forall u | u in r
      ensures u in t && r[u] == t[u]
    {
      assert u in rules.Keys && u in t.Keys;
    }
  }

  lemma {:induction false} InTurnIsPlanned(g: Graph, starts: seq<Addr>, P: PathList, pl: Plan, rules: NetRules, seen: NetSeen)
    requires Ready(g, starts, P, pl, rules, seen)
    ensures PlannedRules(g, pl, rules, InTurn(pl, rules, seen))
  {
    var r := InTurn(pl, rules, seen);
    PartsAreWhole(pl);
    PartsPresent(pl.self, pl.S, pl.H, rules, seen);
    AfterPlanIs(rules, seen, pl.self, pl.seqNo, pl.flow, pl.S, pl.H, pl.S, |pl.S|);
    forall u | u in rules
      ensures RightRule(g, pl.flow, rules[u], r[u], u, Planned(pl.S, |pl.S|, u))
    {
      PlanOutcome(g, starts, P, pl.H, rules, seen, pl.self, pl.seqNo, pl.flow, u);
    }
  }

  lemma {:induction false} EndIsPlanned(g: Graph, pl: Plan, rules: NetRules, end: NetRules, turns: seq<nat>)
    requires Sendable(pl.S, pl.H) && EachHasItsTurns(pl, turns) && RulesAre(g, pl, Got(pl, turns), rules, end)
    ensures PlannedRules(g, pl, rules, end)
  {
    forall u | u in rules
      ensures RightRule(g, pl.flow, rules[u], end[u], u, Planned(pl.S, |pl.S|, u))
    {
      AllPlaced(pl, turns, u);
    }
  }

  /**
   * Main theorem: however the nodes' turns are interleaved, once each packet has had its turns all packets
   * are gone, and every node has the rules it has when the packets are sent one after the other.
   */
  lemma {:induction false} AnyOrderIsInTurn(g: Graph, starts: seq<Addr>, P: PathList, pl: Plan,
                                            rules: NetRules, seen: NetSeen,
                                            turns: seq<nat>)
    requires Ready(g, starts, P, pl, rules, seen) && EachHasItsTurns(pl, turns)
    ensures
      var end := Play(Start(pl, rules, seen), turns);
      && end.rules == InTurn(pl, rules, seen)
      && |end.packets| == |pl.S| && forall a :: 0 <= a < |pl.S| ==> end.packets[a] == None
  {
    ReadyIsFine(g, starts, P, pl, rules, seen);
    PlayStands(g, pl, rules, seen, turns);
    InTurnIsPlanned(g, starts, P, pl, rules, seen);
    var end := Play(Start(pl, rules, seen), turns);
    EndIsPlanned(g, pl, rules, end.rules, turns);
    SameRules(g, pl, rules, end.rules, InTurn(pl, rules, seen));
    AllGone(pl, turns, end.packets);
  }

  lemma {:induction false} AllGone(pl: Plan, turns: seq<nat>, packets: seq<Option<Mfs>>)
    requires Sendable(pl.S, pl.H) && EachHasItsTurns(pl, turns) && InTheAir(pl, Got(pl, turns), packets)
    ensures |packets| == |pl.S| && forall a :: 0 <= a < |pl.S| ==> packets[a] == None
  {
    AllPlaced(pl, turns, pl.self);
  }

  /** And at no time, whatever has had its turn, does a node hold anything but its old rule or the controller's. */
  lemma {:induction false} NothingElseOnTheWay(g: Graph, starts: seq<Addr>, P: PathList, pl: Plan,
                                               rules: NetRules, seen: NetSeen,
                                               turns: seq<nat>, u: Addr)
    requires Ready(g, starts, P, pl, rules, seen) && u in rules
    ensures
      var now := Play(Start(pl, rules, seen), turns).rules;
      && u in now
      && (now[u] == rules[u] || (u in g && now[u] == rules[u][pl.flow := DataFlow(g[u].next, SDN_ACTION_FORWARD)]))
  {
    ReadyIsFine(g, starts, P, pl, rules, seen);
    PlayStands(g, pl, rules, seen, turns);
    assert u in Play(Start(pl, rules, seen), turns).rules.Keys;
  }

  /** So every changed rule is in force in the end, whatever the order. */
  lemma {:induction false} ChangesInForceInAnyOrder(g: Graph, starts: seq<Addr>, P: PathList, pl: Plan,
                                                    rules: NetRules, seen: NetSeen,
                                                    turns: seq<nat>, u: Addr)
    requires Ready(g, starts, P, pl, rules, seen) && EachHasItsTurns(pl, turns) && u in rules && Changed(g, u)
    ensures
      var end := Play(Start(pl, rules, seen), turns).rules;
      u in end && end[u] == rules[u][pl.flow := DataFlow(g[u].next, SDN_ACTION_FORWARD)]
  {
    AnyOrderIsInTurn(g, starts, P, pl, rules, seen, turns);
    PlanInForce(g, starts, P, pl.H, rules, seen, pl.self, pl.seqNo, pl.flow, u);
  }

  // ---- If a packet has to be taken twice, the order matters.

  /** A packet that is known where it comes to is dropped there. */
  lemma {:induction false} KnownIsDropped(pl: Plan, m: seq<nat>, s: Sky, a: nat)
    requires Marks(pl, m) && AllSound(s) && InTheAir(pl, m, s.packets) && a < |m| && m[a] < |StopsOf(pl, a)|
    requires StopsOf(pl, a)[m[a]] in s.seen && !NewFor(pl, s.seen, a, StopsOf(pl, a)[m[a]])
    ensures Turn(s, a) == s.(packets := s.packets[a := None])
  {
    PacketDeparts(pl, a);
    assert s.packets[a] == Flown(pl, a, m[a]);
    PacketAtIs(PacketOf(pl, a), pl.H[a], pl.S[a], m[a]);
  }

  /** A node that has taken a packet knows it, so without others in between it drops it the next time. */
  lemma {:induction false} TakenIsKnown(pl: Plan, a: nat, k: nat, seen: NetSeen)
    requires Sendable(pl.S, pl.H) && a < |pl.S| && k < |StopsOf(pl, a)| && StopsOf(pl, a)[k] in seen
    ensures !NewFor(pl, SeenThen(pl, a, k, seen), a, StopsOf(pl, a)[k])
  {
    var u := StopsOf(pl, a)[k];
    Q.RegisteredIsDuplicate(seen[u], u, Q.Seqno(pl.self, Number(pl.seqNo, a)));
  }

  /** Packet a takes its next step. */
  lemma {:induction false} OneStep(pl: Plan, m: seq<nat>, s: Sky, a: nat) returns (m': seq<nat>, s': Sky)
    requires Marks(pl, m) && AllSound(s) && InTheAir(pl, m, s.packets)
    requires a < |m| && m[a] < |StopsOf(pl, a)| && StopsOf(pl, a)[m[a]] in s.rules && NewFor(pl, s.seen, a, StopsOf(pl, a)[m[a]])
    ensures m' == m[a := m[a] + 1] && s' == Turn(s, a) && Marks(pl, m') && AllSound(s') && InTheAir(pl, m', s'.packets)
    ensures s'.rules == RulesThen(pl, a, m[a], s.rules) && s'.seen == SeenThen(pl, a, m[a], s.seen)
  {
    TurnTakes(pl, m, s, a);
    AirNext(pl, m, s.packets, a);
    m', s' := m[a := m[a] + 1], Turn(s, a);
  }

  /**
   * So if another packet of the plan overtakes it there, the node takes a packet that it has had before: it
   * goes on, and if the node's own rule has its turn, the node gets it, which it would not otherwise.
   */
  lemma {:induction false} OvertakenIsTakenAgain(pl: Plan, m: seq<nat>, s: Sky, a: nat, b: nat,
                                                 u: Addr) returns (m': seq<nat>, t: Sky)
    requires Marks(pl, m) && AllSound(s) && InTheAir(pl, m, s.packets) && |m| <= 256
    requires a < |m| && b < |m| && a != b && m[a] < |StopsOf(pl, a)| && m[b] < |StopsOf(pl, b)|
    requires u == StopsOf(pl, a)[m[a]] == StopsOf(pl, b)[m[b]] && u != pl.self && u in s.rules && NewFor(pl, s.seen, b, u)
    ensures m' == m[b := m[b] + 1][a := m[a] + 1] && t == Turn(Turn(s, b), a)
    ensures Marks(pl, m') && AllSound(t) && InTheAir(pl, m', t.packets) && u in RulesThen(pl, b, m[b], s.rules)
    ensures t.rules == RulesThen(pl, a, m[a], RulesThen(pl, b, m[b], s.rules))
  {
    OnlyTheLastIsKnown(pl, b, m[b], s.seen, a);
    var m1, s1 := OneStep(pl, m, s, b);
    m', t := OneStep(pl, m1, s1, a);
  }
}
