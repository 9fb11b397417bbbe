// Controller discovery with link symmetry check: every node floods beacons with
// its distance to a controller and the neighbors it hears, and picks as next hop
// a neighbor that hears it and is nearer.
module Discovery {
  import opened Common

  const METRIC_INC: nat := 1
  const MAX_METRIC: uint16 := 0xFFFF
  const DEFAULT_BEACON_INTERVAL: nat := 10
  const MAX_BEACON_INTERVAL: nat := 600
  const SDN_NEIGHBOR_TABLE_SIZE: nat := 10

  datatype Beacon = Beacon(source: Addr, metric: uint16, neighbors: seq<Addr>)

  /** SDN_AWAITING_CONTROLLER_ROUTE, SDN_STEADY_STATE_CD and SDN_STEADY_STATE_CONTROLLER. */
  datatype Phase = Awaiting | SteadyCd | SteadyController

  /** What discovery knows at a node; route is the next hop of the controller flow. */
  datatype Cd = Cd(isC: bool, metric: uint16, nextHop: Addr, phase: Phase, route: Addr)

  function Fresh(isC: bool): Cd {
    Cd(isC, if isC then 0 else MAX_METRIC, Addr(0, 0), Awaiting, Addr(0, 0))
  }

  /** A node after a beacon: it moves to the sender if the sender hears it and is nearer by more than one. */
  function Informed(s: Cd, self: Addr, b: Beacon): Cd {
    if self in b.neighbors && b.metric + METRIC_INC < s.metric then
      var t := s.(metric := b.metric + METRIC_INC, nextHop := b.source);
      if t.phase == SteadyController then t else t.(phase := SteadyCd, route := b.source)
    else s
  }

  /** The code keeps a computed metric apart from MAX_METRIC. */
  function Clamped(m: uint16): uint16 {
    if m >= MAX_METRIC then MAX_METRIC - 1 else m
  }

  datatype LocalEvent = RightAway | ResetInterval

  class CdNode {
    const self: Addr
    var isC: bool
    var lastNeighborNum: nat
    var nextHopLocal: Addr
    var toCMetric: uint16
    var beaconInterval: uint16
    var posted: seq<LocalEvent>
    var sdnState: Phase
    var controllerFlow: Addr

    ghost function State(): Cd
      reads this
    {
      Cd(isC, toCMetric, nextHopLocal, sdnState, controllerFlow)
    }

    /** The interval between beacons, in seconds, which is always within its bounds. */
    ghost predicate Valid()
      reads this
    {
      DEFAULT_BEACON_INTERVAL <= beaconInterval <= MAX_BEACON_INTERVAL
    }

    /** symmcheck_cd_init */
    constructor (addr: Addr, isController: bool)
      ensures Valid() && self == addr && State() == Fresh(isController) && posted == []
      ensures beaconInterval == 10 + addr.u0 % 10 && toCMetric == (if isController then 0 else 0xFFFF)
    {
      self, isC, lastNeighborNum := addr, isController, 0;
      toCMetric := if isController then 0 else MAX_METRIC;
      beaconInterval := addr.u0 % 10 + DEFAULT_BEACON_INTERVAL;
      nextHopLocal, sdnState, controllerFlow, posted := Addr(0, 0), Awaiting, Addr(0, 0), [];
    }

    /**
     * symmcheck_cd_input.  The comparison is made in the platform's int, which may be
     * 16 bits wide; the second half of the guard is there for the wrap-around.
     */
    method Input(b: Beacon, narrowInt: bool)
      modifies this`toCMetric, this`nextHopLocal, this`posted, this`lastNeighborNum, this`sdnState, this`controllerFlow
      ensures State() == Informed(old(State()), self, b)
      ensures
        if self in b.neighbors && b.metric + 1 < old(toCMetric) then
          && toCMetric == b.metric + 1 && nextHopLocal == b.source
          && if old(sdnState) == SteadyController then sdnState == SteadyController && controllerFlow == old(controllerFlow)
             else sdnState == SteadyCd && controllerFlow == b.source
        else
          toCMetric == old(toCMetric) && nextHopLocal == old(nextHopLocal)
          && sdnState == old(sdnState) && controllerFlow == old(controllerFlow)
      ensures posted == old(posted)
                        + (if State() == old(State()) then [] else [RightAway])
                        + (if self in b.neighbors && b.metric == MAX_METRIC && toCMetric != MAX_METRIC then [ResetInterval] else [])
      ensures lastNeighborNum == if self in b.neighbors && b.metric == MAX_METRIC && toCMetric != MAX_METRIC
                                 then SDN_NEIGHBOR_TABLE_SIZE + 1 else old(lastNeighborNum)
    {
      var found := false;
      for i := 0 to |b.neighbors|
        invariant !found && self !in b.neighbors[..i]
      {
        if self == b.neighbors[i] {
          found := true;
          break;
        }
      }
      if found {
        var sum := if narrowInt then (b.metric + METRIC_INC) % 0x1_0000 else b.metric + METRIC_INC;
        if sum < toCMetric && sum > b.metric {
          nextHopLocal := b.source;
          toCMetric := Clamped(sum);
          posted := posted + [RightAway];
          ControllerDiscovered();
        }
        if b.metric == MAX_METRIC && toCMetric != MAX_METRIC {
          lastNeighborNum := SDN_NEIGHBOR_TABLE_SIZE + 1;
          posted := posted + [ResetInterval];
        }
      }
    }

    /** cd_event of the core: the controller flow follows discovery until the controller itself sets it. */
    method ControllerDiscovered()
      modifies this`sdnState, this`controllerFlow
      ensures if old(sdnState) == SteadyController then State() == old(State())
              else sdnState == SteadyCd && controllerFlow == nextHopLocal
    {
      if sdnState == SteadyController {
        return;
      }
      sdnState := SteadyCd;
      controllerFlow := nextHopLocal;
    }

    /** send_cd_beacon */
    method SendBeacon(neighborTable: seq<Addr>) returns (b: Beacon)
      ensures b == Beacon(self, State().metric, neighborTable)
    {
      b := Beacon(self, toCMetric, neighborTable);
    }

    /** The beacon timer: it sends if the neighbor table changed or there is no route, and then waits twice as long. */
    method Timer(neighborTable: seq<Addr>) returns (sent: Option<Beacon>)
      requires Valid()
      modifies this`lastNeighborNum, this`beaconInterval
      ensures Valid()
      ensures sent == if old(lastNeighborNum) != |neighborTable| || toCMetric == MAX_METRIC
                      then Some(Beacon(self, toCMetric, neighborTable)) else None
      ensures lastNeighborNum == if sent.Some? then |neighborTable| else old(lastNeighborNum)
      ensures beaconInterval == if 2 * old(beaconInterval) > MAX_BEACON_INTERVAL then MAX_BEACON_INTERVAL else 2 * old(beaconInterval)
    {
      sent := None;
      if lastNeighborNum != |neighborTable| || toCMetric == MAX_METRIC {
        lastNeighborNum := |neighborTable|;
        var b := SendBeacon(neighborTable);
        sent := Some(b);
      }
      var doubled := beaconInterval * 2;
      beaconInterval := if doubled > MAX_BEACON_INTERVAL then MAX_BEACON_INTERVAL else doubled;
    }

    /** A posted event: only the low octet of the interval is reloaded from the address. */
    method TakeLocalEvent(neighborTable: seq<Addr>) returns (sent: Option<Beacon>)
      requires Valid() && posted != []
      modifies this`posted, this`beaconInterval
      ensures Valid() && posted == old(posted)[1..]
      ensures sent == if old(posted)[0] == RightAway then Some(Beacon(self, toCMetric, neighborTable)) else None
      ensures if old(posted)[0] == ResetInterval
              then beaconInterval == DEFAULT_BEACON_INTERVAL + (old(beaconInterval) / 256 * 256 + self.u0) % 10
              else beaconInterval == old(beaconInterval)
    {
      sent := None;
      if posted[0] == RightAway {
        var b := SendBeacon(neighborTable);
        sent := Some(b);
      } else {
        beaconInterval := beaconInterval / 256 * 256 + self.u0;
        beaconInterval := beaconInterval % 10;
        beaconInterval := beaconInterval + DEFAULT_BEACON_INTERVAL;
      }
      posted := posted[1..];
    }
  }

  // ---- The network: nodes, every beacon ever sent, and who heard whom.

  datatype World = World(nodes: map<Addr, Cd>, sent: set<Beacon>, heard: set<(Addr, Addr)>)

  /** Beacons stay in the network, so they may be lost, repeated and overtaken. */
  datatype Step =
    | Hear(listener: Addr, talker: Addr)
    | Send(sender: Addr, neighbors: seq<Addr>)
    | Deliver(node: Addr, beacon: Beacon)
    | SetByController(node: Addr, route: Addr)

  function Apply(w: World, s: Step): (w': World)
    ensures w'.nodes.Keys == w.nodes.Keys
  {
    match s
    case Hear(n, m) =>
      w.(heard := w.heard + {(n, m)})
    case Send(n, neighbors) =>
      if n in w.nodes && (forall m :: m in neighbors ==> (n, m) in w.heard)
      then w.(sent := w.sent + {Beacon(n, w.nodes[n].metric, neighbors)}) else w
    case Deliver(n, b) =>
      if n in w.nodes && b in w.sent
      then w.(nodes := w.nodes[n := Informed(w.nodes[n], n, b)], heard := w.heard + {(n, b.source)}) else w
    case SetByController(n, route) =>
      if n in w.nodes then w.(nodes := w.nodes[n := w.nodes[n].(phase := SteadyController, route := route)]) else w
  }

  function Initial(roles: map<Addr, bool>): (w: World)
    ensures w.nodes.Keys == roles.Keys
  {
    World(map n | n in roles :: Fresh(roles[n]), {}, {})
  }

  function Run(w: World, steps: seq<Step>): (w': World)
    ensures w'.nodes.Keys == w.nodes.Keys
  {
    if steps == [] then w else Apply(Run(w, steps[..|steps| - 1]), steps[|steps| - 1])
  }

  /** A node's view fits the rest: its next hop is nearer now, and each has heard the other. */
  predicate NodeFits(w: World, n: Addr, s: Cd) {
    && s.isC == (s.metric == 0)
    && (0 < s.metric < MAX_METRIC ==>
          && s.nextHop in w.nodes && w.nodes[s.nextHop].metric < s.metric
          && (s.nextHop, n) in w.heard && (n, s.nextHop) in w.heard)
    && (s.phase == SteadyCd ==> 0 < s.metric < MAX_METRIC && s.route == s.nextHop)
    && (s.phase == Awaiting ==> s.metric == 0 || s.metric == MAX_METRIC)
  }

  /** A beacon's metric is never below its sender's, and its sender has heard those it lists. */
  predicate BeaconFits(w: World, b: Beacon) {
    && b.source in w.nodes && w.nodes[b.source].metric <= b.metric
    && forall m :: m in b.neighbors ==> (b.source, m) in w.heard
  }

  predicate Inv(w: World) {
    && (forall n {:trigger NodeFits(w, n, w.nodes[n])} :: n in w.nodes ==> NodeFits(w, n, w.nodes[n]))
    && (forall b {:trigger BeaconFits(w, b)} :: b in w.sent ==> BeaconFits(w, b))
  }

  /** Metrics only fall, and what was heard stays heard. */
  predicate Later(w: World, w': World) {
    && w.nodes.Keys == w'.nodes.Keys && w.heard <= w'.heard
    && forall n :: n in w.nodes ==> w'.nodes[n].metric <= w.nodes[n].metric && w'.nodes[n].isC == w.nodes[n].isC
  }

  lemma {:induction false} BeaconStillFits(w: World, w': World, b: Beacon)
    requires Later(w, w') && BeaconFits(w, b)
    ensures BeaconFits(w', b)
  {
  }

  lemma {:induction false} NodeStillFits(w: World, w': World, n: Addr, s: Cd)
    requires Later(w, w') && NodeFits(w, n, s)
    ensures NodeFits(w', n, s)
  {
  }

  /** Taking a beacon in keeps the node fitting. */
  lemma {:induction false} InformedFits(w: World, n: Addr, b: Beacon)
    requires n in w.nodes && NodeFits(w, n, w.nodes[n]) && BeaconFits(w, b) && (n, b.source) in w.heard
    ensures NodeFits(w, n, Informed(w.nodes[n], n, b)) && Informed(w.nodes[n], n, b).metric <= w.nodes[n].metric
  {
  }

  /** One node changes, everything else stays: the invariant needs to be checked at that node only. */
  lemma {:induction false} OneNodeChanges(w: World, w': World, n: Addr)
    requires Inv(w) && Later(w, w') && w'.sent == w.sent
    requires forall m :: m in w.nodes && m != n ==> w'.nodes[m] == w.nodes[m]
    requires n in w.nodes ==> NodeFits(w', n, w'.nodes[n])
    ensures Inv(w')
  {
    forall m | m in w'.nodes
      ensures NodeFits(w', m, w'.nodes[m])
    {
      if m != n {
        assert NodeFits(w, m, w.nodes[m]);
        NodeStillFits(w, w', m, w.nodes[m]);
      }
    }
    forall b | b in w'.sent
      ensures BeaconFits(w', b)
    {
      BeaconStillFits(w, w', b);
    }
  }

  lemma {:induction false} StepKeepsInv(w: World, s: Step)
    requires Inv(w)
    ensures Inv(Apply(w, s)) && Later(w, Apply(w, s))
  {
    var w' := Apply(w, s);
    match s
    case Hear(n, m) =>
      if n in w.nodes {
        assert NodeFits(w, n, w.nodes[n]);
        NodeStillFits(w, w', n, w.nodes[n]);
      }
      OneNodeChanges(w, w', n);
    case Send(n, neighbors) =>
      SendKeepsInv(w, n, neighbors);
    case Deliver(n, b) =>
      if n in w.nodes && b in w.sent {
        var v := w.(heard := w.heard + {(n, b.source)});
        assert NodeFits(w, n, w.nodes[n]) && BeaconFits(w, b);
        NodeStillFits(w, v, n, w.nodes[n]);
        BeaconStillFits(w, v, b);
        InformedFits(v, n, b);
        NodeStillFits(v, w', n, w'.nodes[n]);
        OneNodeChanges(w, w', n);
      }
    case SetByController(n, route) =>
      if n in w.nodes {
        assert NodeFits(w, n, w.nodes[n]);
        OneNodeChanges(w, w', n);
      }
  }

  lemma {:induction false} SendKeepsInv(w: World, n: Addr, neighbors: seq<Addr>)
    requires Inv(w)
    ensures Inv(Apply(w, Send(n, neighbors)))
  {
    var w' := Apply(w, Send(n, neighbors));
    forall m | m in w'.nodes
      ensures NodeFits(w', m, w'.nodes[m])
    {
      assert NodeFits(w, m, w.nodes[m]);
    }
    forall b | b in w'.sent
      ensures BeaconFits(w', b)
    {
      if b in w.sent {
        assert BeaconFits(w, b);
      }
    }
  }

  lemma {:induction false} RunKeepsInv(roles: map<Addr, bool>, steps: seq<Step>)
    ensures
      var w := Run(Initial(roles), steps);
      && Inv(w) && w.nodes.Keys == roles.Keys
      && forall n :: n in roles ==> w.nodes[n].isC == roles[n]
    decreases |steps|
  {
    if steps != [] {
      RunKeepsInv(roles, steps[..|steps| - 1]);
      StepKeepsInv(Run(Initial(roles), steps[..|steps| - 1]), steps[|steps| - 1]);
    }
  }

  /** The node k next hops away from n. */
  function Hop(w: World, n: Addr, k: nat): Addr
    decreases k, n
  {
    if k == 0 then n
    else
      var m := Hop(w, n, k - 1);
      if m in w.nodes then w.nodes[m].nextHop else m
  }

  /** Hop j exists and is not a controller. */
  predicate OnWay(w: World, n: Addr, j: nat) {
    var m := Hop(w, n, j);
    m in w.nodes && !w.nodes[m].isC
  }

  /** Following next hops comes nearer at every hop. */
  lemma {:induction false} HopsDescend(w: World, n: Addr, k: nat)
    requires Inv(w) && n in w.nodes && w.nodes[n].metric < MAX_METRIC
    requires forall j :: 0 <= j < k ==> OnWay(w, n, j)
    ensures Hop(w, n, k) in w.nodes && w.nodes[Hop(w, n, k)].metric + k <= w.nodes[n].metric
    decreases k
  {
    if k > 0 {
      HopsDescend(w, n, k - 1);
      var m := Hop(w, n, k - 1);
      assert OnWay(w, n, k - 1);
      assert NodeFits(w, m, w.nodes[m]);
    }
  }

  lemma {:induction false} ControllerFrom(w: World, n: Addr, k: nat) returns (j: nat)
    requires Inv(w) && n in w.nodes && k <= w.nodes[n].metric < MAX_METRIC
    requires forall i :: 0 <= i < k ==> OnWay(w, n, i)
    ensures k <= j <= w.nodes[n].metric && Hop(w, n, j) in w.nodes && w.nodes[Hop(w, n, j)].isC
    ensures forall i :: 0 <= i < j ==> OnWay(w, n, i)
    decreases w.nodes[n].metric - k
  {
    HopsDescend(w, n, k);
    var m := Hop(w, n, k);
    assert NodeFits(w, m, w.nodes[m]);
    if w.nodes[m].isC {
      j := k;
    } else {
      assert OnWay(w, n, k);
      j := ControllerFrom(w, n, k + 1);
    }
  }

  lemma {:induction false} HopsDiffer(w: World, n: Addr, i: nat, j: nat)
    requires Inv(w) && n in w.nodes && w.nodes[n].metric < MAX_METRIC && i < j
    requires forall k :: 0 <= k < j ==> OnWay(w, n, k)
    ensures Hop(w, n, i) in w.nodes && Hop(w, n, j) in w.nodes
    ensures w.nodes[Hop(w, n, j)].metric < w.nodes[Hop(w, n, i)].metric < MAX_METRIC
    decreases j
  {
    HopsDescend(w, n, i);
    HopsDescend(w, n, j);
    var m := Hop(w, n, j - 1);
    assert OnWay(w, n, j - 1);
    assert NodeFits(w, m, w.nodes[m]);
    if i < j - 1 {
      HopsDiffer(w, n, i, j - 1);
    }
  }

  /**
   * Main theorem.  In every run, with beacons lost, repeated or overtaken, following next hops
   * from a node that has a metric visits distinct nodes and ends at a controller within metric hops.
   */
  lemma {:induction false} RoutesReachController(roles: map<Addr, bool>, steps: seq<Step>, n: Addr) returns (j: nat)
    requires n in roles
    requires Run(Initial(roles), steps).nodes[n].metric < MAX_METRIC
    ensures
      var w := Run(Initial(roles), steps);
      && j <= w.nodes[n].metric && Hop(w, n, j) in roles && roles[Hop(w, n, j)]
      && (forall i :: 0 <= i < j ==> Hop(w, n, i) in roles && !roles[Hop(w, n, i)])
      && (forall i, k :: 0 <= i < k <= j ==> Hop(w, n, i) != Hop(w, n, k))
  {
    RunKeepsInv(roles, steps);
    var w := Run(Initial(roles), steps);
    j := ControllerFrom(w, n, 0);
    forall i | 0 <= i < j
      ensures Hop(w, n, i) in roles && !roles[Hop(w, n, i)]
    {
      assert OnWay(w, n, i);
    }
    forall i, k | 0 <= i < k <= j
      ensures Hop(w, n, i) != Hop(w, n, k)
    {
      HopsDiffer(w, n, i, k);
    }
  }

  /** Every link a node routes over is heard both ways, and the controller flow uses it until the controller decides. */
  lemma {:induction false} NextHopIsSymmetric(roles: map<Addr, bool>, steps: seq<Step>, n: Addr)
    requires n in roles
    ensures
      var w := Run(Initial(roles), steps);
      var s := w.nodes[n];
      && (0 < s.metric < MAX_METRIC ==> (s.nextHop, n) in w.heard && (n, s.nextHop) in w.heard && s.nextHop != n)
      && (s.phase == SteadyCd ==> 0 < s.metric < MAX_METRIC && s.route == s.nextHop)
      && (roles[n] <==> s.metric == 0)
  {
    RunKeepsInv(roles, steps);
    var w := Run(Initial(roles), steps);
    assert NodeFits(w, n, w.nodes[n]);
  }

  // ---- When nothing changes any more, the metrics are the distances.

  /** No beacon that was ever sent would change anything. */
  predicate Quiet(w: World) {
    forall b, n :: b in w.sent && n in w.nodes ==> Informed(w.nodes[n], n, b) == w.nodes[n]
  }

  /** Node m has announced its present metric to n, which it hears. */
  predicate Announced(w: World, m: Addr, n: Addr) {
    m in w.nodes && exists b :: b in w.sent && b.source == m && b.metric == w.nodes[m].metric && n in b.neighbors
  }

  /** A chain of announcements from a controller, at its end, to its first node. */
  predicate AnnouncedPath(w: World, p: seq<Addr>) {
    && |p| > 0 && Last(p) in w.nodes && w.nodes[Last(p)].metric == 0
    && (forall i :: 0 <= i < |p| ==> p[i] in w.nodes)
    && forall i :: 0 < i < |p| ==> Announced(w, p[i], p[i - 1])
  }

  /** In a quiet network a metric is at most the length of any announced path. */
  lemma {:induction false} QuietIsShortest(w: World, p: seq<Addr>)
    requires Quiet(w) && AnnouncedPath(w, p)
    ensures w.nodes[p[0]].metric <= |p| - 1
    decreases |p|
  {
    if |p| > 1 {
      assert forall i :: 0 < i < |p[1..]| ==> Announced(w, p[1..][i], p[1..][i - 1]) by {
        assert forall i :: 0 < i < |p[1..]| ==> Announced(w, p[i + 1], p[i]);
      }
      QuietIsShortest(w, p[1..]);
      assert Announced(w, p[1], p[0]);
      var b :| b in w.sent && b.source == p[1] && b.metric == w.nodes[p[1]].metric && p[0] in b.neighbors;
      assert Informed(w.nodes[p[0]], p[0], b) == w.nodes[p[0]];
    }
  }

  /** So the route that was found is no longer than any announced path: discovery ends with shortest routes. */
  lemma {:induction false} QuietRoutesAreShortest(roles: map<Addr, bool>, steps: seq<Step>, p: seq<Addr>) returns (j: nat)
    requires
      var w := Run(Initial(roles), steps);
      Quiet(w) && AnnouncedPath(w, p) && |p| <= MAX_METRIC
    ensures
      var w := Run(Initial(roles), steps);
      j <= |p| - 1 && Hop(w, p[0], j) in roles && roles[Hop(w, p[0], j)]
  {
    RunKeepsInv(roles, steps);
    QuietIsShortest(Run(Initial(roles), steps), p);
    j := RoutesReachController(roles, steps, p[0]);
  }
}
