// The controller's flow table cache: one rule per source and flow, and the
// reconstruction of the route the cached rules currently describe.
module FlowTable {
  import opened Common
  import opened RuleGraph

  datatype FlowEntry = FlowEntry(source: Addr, flowid: FlowId, nextHop: Addr, action: byte,
                                 weight: int, hops: int, changed: bool)

  type Entries = seq<FlowEntry>

  predicate Matches(e: FlowEntry, source: Addr, flowid: FlowId) {
    e.source == source && e.flowid == flowid
  }

  /** At most one rule per source and flow. */
  ghost predicate Unique(es: Entries) {
    forall i, j :: 0 <= i < j < |es| ==> !Matches(es[j], es[i].source, es[i].flowid)
  }

  /** Position of the rule for a source and flow. */
  function Position(es: Entries, source: Addr, flowid: FlowId): (r: Option<nat>)
    ensures r.Some? ==> r.value < |es| && Matches(es[r.value], source, flowid)
    ensures r.None? ==> forall i :: 0 <= i < |es| ==> !Matches(es[i], source, flowid)
  {
    if es == [] then None
    else
      var r := Position(es[..|es| - 1], source, flowid);
      if r.Some? then r
      else if Matches(Last(es), source, flowid) then Some(|es| - 1) else None
  }

  lemma {:induction false} PositionIs(es: Entries, i: nat)
    requires Unique(es) && i < |es|
    ensures Position(es, es[i].source, es[i].flowid) == Some(i)
  {
    var r := Position(es, es[i].source, es[i].flowid);
    assert r.Some?;
  }

  /** The next-hop graph of one flow. */
  function RulesOf(es: Entries, flowid: FlowId): Graph {
    if es == [] then map[]
    else
      var g := RulesOf(es[..|es| - 1], flowid);
      var e := Last(es);
      if e.flowid == flowid then g[e.source := Rule(e.nextHop, e.changed)] else g
  }

  /** The graph's rules are exactly the flow's entries. */
  lemma {:induction false} RulesAreEntries(es: Entries, flowid: FlowId, u: Addr)
    requires Unique(es)
    ensures
      var r := Position(es, u, flowid);
      && (r.None? ==> u !in RulesOf(es, flowid))
      && (r.Some? ==> u in RulesOf(es, flowid)
                      && RulesOf(es, flowid)[u] == Rule(es[r.value].nextHop, es[r.value].changed))
  {
    if es != [] {
      RulesAreEntries(es[..|es| - 1], flowid, u);
      var r := Position(es[..|es| - 1], u, flowid);
      assert r.Some? ==> es[r.value] == es[..|es| - 1][r.value];
    }
  }

  predicate Forwards(e: FlowEntry) {
    e.action == SDN_ACTION_FORWARD || e.action == SDN_ACTION_FORWARD_UNIDIR
  }

  datatype RouteNode = RouteNode(id: Addr, weight: int, hops: int)

  /** Consecutive forwarding entries, each the rule of its predecessor's next hop, nearer by the hop count. */
  ghost predicate Trail(es: Entries, start: nat, t: seq<nat>) {
    && |t| > 0 && t[0] == start
    && (forall k :: 0 <= k < |t| ==> t[k] < |es| && Forwards(es[t[k]]))
    && (forall k {:trigger LinkAt(es, t, k)} :: 0 <= k < |t| - 1 ==> LinkAt(es, t, k))
  }

  /** The trail goes from its k-th entry to the rule of the next hop, which is nearer. */
  predicate LinkAt(es: Entries, t: seq<nat>, k: nat)
    requires k + 1 < |t| && t[k] < |es|
  {
    && t[k + 1] < |es|
    && Position(es, es[t[k]].nextHop, es[t[k]].flowid) == Some(t[k + 1])
    && es[t[k + 1]].hops < es[t[k]].hops
  }

  /** Where the entry's next hop has a rule that is not nearer. */
  predicate LoopsAt(es: Entries, i: nat)
    requires i < |es|
  {
    var next := Position(es, es[i].nextHop, es[i].flowid);
    next.Some? && es[next.value].hops >= es[i].hops
  }

  predicate EndsAt(es: Entries, i: nat)
    requires i < |es|
  {
    var next := Position(es, es[i].nextHop, es[i].flowid);
    next.Some? ==> !Forwards(es[next.value])
  }

  function RouteOf(es: Entries, t: seq<nat>): (route: seq<RouteNode>)
    requires forall k :: 0 <= k < |t| ==> t[k] < |es|
    ensures |route| == |t|
    ensures forall k :: 0 <= k < |t| ==>
              route[k] == RouteNode(es[t[k]].source, es[t[k]].weight, es[t[k]].hops)
  {
    if t == [] then []
    else RouteOf(es, t[..|t| - 1]) + [RouteNode(es[Last(t)].source, es[Last(t)].weight, es[Last(t)].hops)]
  }

  lemma {:induction false} TrailHops(es: Entries, start: nat, t: seq<nat>, i: nat, j: nat)
    requires Trail(es, start, t) && i < j < |t|
    ensures es[t[j]].hops < es[t[i]].hops && es[t[j]].flowid == es[t[i]].flowid
  {
    assert LinkAt(es, t, j - 1);
    if i < j - 1 {
      TrailHops(es, start, t, i, j - 1);
    }
  }

  /** A trail never visits a source twice. */
  lemma {:induction false} TrailSourcesDiffer(es: Entries, start: nat, t: seq<nat>, i: nat, j: nat)
    requires Unique(es) && Trail(es, start, t) && i < j < |t|
    ensures es[t[i]].source != es[t[j]].source
  {
    TrailHops(es, start, t, i, j);
    PositionIs(es, t[i]);
    PositionIs(es, t[j]);
  }

  /** No rule of the flow leads on from where e leads, with an action that forwards. */
  predicate StopsBehind(es: Entries, e: FlowEntry) {
    forall i :: 0 <= i < |es| && es[i].source == e.nextHop && es[i].flowid == e.flowid ==>
      es[i].action != SDN_ACTION_FORWARD && es[i].action != SDN_ACTION_FORWARD_UNIDIR
  }

  /** The flow has a rule where e leads, and it is no nearer. */
  predicate NoNearerBehind(es: Entries, e: FlowEntry) {
    exists i :: 0 <= i < |es| && es[i].source == e.nextHop && es[i].flowid == e.flowid && es[i].hops >= e.hops
  }

  /**
   * What CurrentRoute reads off the table: the nodes whose rules lead from one to the next, all of the
   * flow and forwarding, and the node behind the last rule, where no rule forwards; nothing, if the last rule
   * leads to one that is no nearer.
   */
  lemma {:induction false} RouteIsRead(es: Entries, start: nat, t: seq<nat>, route: seq<RouteNode>)
    requires Unique(es) && Trail(es, start, t) && (LoopsAt(es, Last(t)) || EndsAt(es, Last(t)))
    requires LoopsAt(es, Last(t)) ==> route == []
    requires !LoopsAt(es, Last(t)) ==> route == RouteOf(es, t) + [RouteNode(es[Last(t)].nextHop, 0, 0)]
    ensures t[0] == start && (forall k :: 0 <= k < |t| ==> t[k] < |es|)
    ensures forall k :: 0 <= k < |t| ==> es[t[k]].action == SDN_ACTION_FORWARD || es[t[k]].action == SDN_ACTION_FORWARD_UNIDIR
    ensures forall k {:trigger t[k + 1]} :: 0 <= k < |t| - 1 ==>
              var e, f := es[t[k]], es[t[k + 1]];
              f.source == e.nextHop && f.flowid == e.flowid && f.hops < e.hops
    ensures NoNearerBehind(es, es[Last(t)]) ==> route == []
    ensures !NoNearerBehind(es, es[Last(t)]) ==>
              && StopsBehind(es, es[Last(t)]) && |route| == |t| + 1
              && Last(route) == RouteNode(es[Last(t)].nextHop, 0, 0)
              && forall k :: 0 <= k < |t| ==> route[k] == RouteNode(es[t[k]].source, es[t[k]].weight, es[t[k]].hops)
  {
    forall k {:trigger t[k + 1]} | 0 <= k < |t| - 1
      ensures es[t[k + 1]].source == es[t[k]].nextHop && es[t[k + 1]].flowid == es[t[k]].flowid && es[t[k + 1]].hops < es[t[k]].hops
    {
      assert LinkAt(es, t, k);
    }
    var e := es[Last(t)];
    forall i | 0 <= i < |es| && es[i].source == e.nextHop && es[i].flowid == e.flowid
      ensures Position(es, e.nextHop, e.flowid) == Some(i)
    {
      PositionIs(es, i);
    }
  }

  class FlowTable {
    var entries: Entries

    ghost predicate Valid()
      reads this
    {
      Unique(entries)
    }

    constructor ()
      ensures Valid() && entries == []
    {
      entries := [];
    }

    method Find(source: Addr, flowid: FlowId) returns (r: Option<nat>)
      ensures r == Position(entries, source, flowid)
    {
      for i := 0 to |entries|
        invariant Position(entries[..i], source, flowid) == None
      {
        assert entries[..i + 1][..i] == entries[..i];
        if Matches(entries[i], source, flowid) {
          PositionOfPrefix(entries, i + 1, source, flowid);
          return Some(i);
        }
      }
      assert entries[..|entries|] == entries;
      return None;
    }

    /** A new rule joins at the tail; a known one is updated in place and marked if it differs. */
    method Add(source: Addr, flowid: FlowId, nextHop: Addr, action: byte, weight: int, hops: int)
      requires Valid()
      modifies this
      ensures Valid()
      ensures
        var r := old(Position(entries, source, flowid));
        if r.None? then
          entries == old(entries) + [FlowEntry(source, flowid, nextHop, action, weight, hops, true)]
        else
          var e := old(entries)[r.value];
          var differs := nextHop != e.nextHop || action != e.action;
          entries == old(entries)[r.value :=
            FlowEntry(source, flowid, nextHop, action, weight, hops, differs || e.changed)]
    {
      var r := Find(source, flowid);
      match r {
        case None =>
          entries := entries + [FlowEntry(source, flowid, nextHop, action, weight, hops, true)];
        case Some(i) =>
          var e := entries[i];
          if nextHop != e.nextHop || action != e.action {
            e := e.(nextHop := nextHop, action := action, changed := true);
          }
          entries := entries[i := e.(weight := weight, hops := hops)];
      }
    }

    /**
     * Rebuilds the route from the rule at `start`.  It follows a trail of real
     * entries and either ends where the next hop has no forwarding rule, or
     * finds the hop count not falling and discards everything.
     */
    method CurrentRoute(start: nat) returns (route: seq<RouteNode>, ghost t: seq<nat>)
      requires start < |entries|
      ensures
        if entries[start].action != SDN_ACTION_FORWARD && entries[start].action != SDN_ACTION_FORWARD_UNIDIR then route == []
        else
          && Trail(entries, start, t)
          && (LoopsAt(entries, Last(t)) || EndsAt(entries, Last(t)))
          && (LoopsAt(entries, Last(t)) ==> route == [])
          && (!LoopsAt(entries, Last(t)) ==>
                route == RouteOf(entries, t) + [RouteNode(entries[Last(t)].nextHop, 0, 0)])
    {
      route, t := [], [];
      if !Forwards(entries[start]) {
        return;
      }
      var cur, target := Some(start), entries[start].source;
      while cur.Some? && Forwards(entries[cur.value])
        invariant cur.Some? ==> cur.value < |entries|
        invariant t == [] ==> cur == Some(start) && route == []
        invariant t != [] ==>
                    && Trail(entries, start, t)
                    && target == entries[Last(t)].nextHop
                    && (LoopsAt(entries, Last(t)) ==> route == [] && cur.None?)
                    && (!LoopsAt(entries, Last(t)) ==>
                          route == RouteOf(entries, t) && cur == Position(entries, target, entries[Last(t)].flowid))
        decreases if cur.Some? then Below(entries, entries[cur.value].hops + 1) else {}
      {
        var e := entries[cur.value];
        TrailExtends(entries, start, t, cur.value);
        t := t + [cur.value];
        route := route + [RouteNode(e.source, e.weight, e.hops)];
        target := e.nextHop;
        var next := Find(e.nextHop, e.flowid);
        assert cur.value in Below(entries, e.hops + 1);
        if next.Some? && e.hops <= entries[next.value].hops {
          // route loop detected: the route is discarded
          next := None;
          route := [];
        }
        cur := next;
      }
      if route != [] {
        route := route + [RouteNode(target, 0, 0)];
      }
    }
  }

  ghost function Below(es: Entries, h: int): set<nat> {
    set i: nat | i < |es| && es[i].hops < h
  }

  lemma {:induction false} TrailExtends(es: Entries, start: nat, t: seq<nat>, c: nat)
    requires c < |es| && Forwards(es[c])
    requires if t == [] then c == start else
               && Trail(es, start, t) && !LoopsAt(es, Last(t))
               && Position(es, es[Last(t)].nextHop, es[Last(t)].flowid) == Some(c)
    ensures Trail(es, start, t + [c])
    ensures RouteOf(es, t + [c]) ==
            (if t == [] then [] else RouteOf(es, t)) + [RouteNode(es[c].source, es[c].weight, es[c].hops)]
  {
    var t' := t + [c];
    assert t'[..|t|] == t;
    forall k | 0 <= k < |t|
      ensures LinkAt(es, t', k)
    {
      assert k < |t| - 1 ==> LinkAt(es, t, k);
    }
  }

  lemma {:induction false} PositionOfPrefix(es: Entries, n: nat, source: Addr, flowid: FlowId)
    requires n <= |es| && Position(es[..n], source, flowid).Some?
    ensures Position(es, source, flowid) == Position(es[..n], source, flowid)
    decreases |es| - n
  {
    if n < |es| {
      assert es[..n + 1][..n] == es[..n];
      PositionOfPrefix(es, n + 1, source, flowid);
    } else {
      assert es[..n] == es;
    }
  }
}
