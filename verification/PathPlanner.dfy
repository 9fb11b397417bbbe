// The Multiple Flow Setup planner: it mirrors one flow of the cache in a graph,
// walks the graph from its roots, gives every edge to one path, and clears the
// changed flag of the rules the surviving paths will install.
module PathPlanner {
  import opened Common
  import opened RuleGraph
  import opened PathConflicts
  import opened Recording
  import opened FlowTable
  import D = DropRules
  import H = HashTable

  const HASH_TABLE_SIZE: nat := 101
  const SEGMENT_HASH_TABLE_SIZE: nat := 101
  const NO_COST: nat := 99999

  /** A graph node; `entry` is the position of its rule in the cache. */
  datatype GraphNode = GraphNode(inDegree: nat, entry: Option<nat>, neighbors: seq<Addr>)

  /** A cell of the path list; `id` stands for its place in memory. */
  datatype Cell = Cell(id: nat, nodes: seq<Addr>)

  type Edge = (Addr, Addr)

  datatype Segment = Segment(bestCost: nat, winner: Option<nat>)

  function Djb2(hash: nat, b: byte): nat {
    (hash * 33 + b) % 0x1_0000_0000
  }

  function HashAddress(a: Addr): nat {
    Djb2(Djb2(5381, a.u0), a.u1)
  }

  function HashSegment(e: Edge): nat {
    Djb2(Djb2(Djb2(Djb2(5381, e.0.u0), e.1.u0), e.0.u1), e.1.u1)
  }

  function NodesOf(cells: seq<Cell>): (P: PathList)
    ensures |P| == |cells|
    ensures forall k :: 0 <= k < |cells| ==> P[k] == cells[k].nodes
  {
    seq(|cells|, k requires 0 <= k < |cells| => cells[k].nodes)
  }

  lemma {:induction false} NodesOfOneMore(cells: seq<Cell>, c: Cell)
    ensures NodesOf(cells + [c]) == NodesOf(cells) + [c.nodes]
  {
  }

  lemma {:induction false} ReverseJoin<T>(s: seq<T>, t: seq<T>)
    ensures Reversed(s + t) == Reversed(t) + Reversed(s)
  {
    if s == [] {
      assert s + t == t;
    } else {
      assert (s + t)[1..] == s[1..] + t;
      ReverseJoin(s[1..], t);
    }
  }

  lemma {:induction false} InTwoParts<T>(first: seq<T>, second: seq<T>, done: seq<T>)
    ensures Reversed(first + second) + done == Reversed(second) + (Reversed(first) + done)
  {
    ReverseJoin(first, second);
  }

  lemma {:induction false} ReverseHas<T>(s: seq<T>, x: T)
    ensures x in Reversed(s) <==> x in s
  {
    if s != [] {
      ReverseHas(s[1..], x);
      assert s == [s[0]] + s[1..];
    }
  }

  /** Node u of the table agrees with the graph: its rule, and where the rule leads. */
  ghost predicate NodeMirrors(view: map<Addr, GraphNode>, g: Graph, es: Entries, flowid: FlowId, u: Addr)
    requires u in view
  {
    var n := view[u];
    && n.neighbors == (if u in g then [g[u].next] else [])
    && (u in g ==> g[u].next in view)
    && (n.entry.Some? <==> u in g)
    && (n.entry.Some? ==> n.entry.value < |es| && Matches(es[n.entry.value], u, flowid))
    && (n.inDegree == 0 <==> IsRoot(g, u))
    && (IsRoot(g, u) ==> u in g)
  }

  /** The node table mirrors the graph g of one flow among the entries es. */
  ghost predicate Mirrors(view: map<Addr, GraphNode>, g: Graph, es: Entries, flowid: FlowId) {
    && g.Keys <= view.Keys
    && forall u {:trigger NodeMirrors(view, g, es, flowid, u)} :: u in view ==> NodeMirrors(view, g, es, flowid, u)
  }

  function NodeOr(view: map<Addr, GraphNode>, a: Addr): GraphNode {
    if a in view then view[a] else GraphNode(0, None, [])
  }

  /** The node table after the i-th entry e has been added to it. */
  function WithRule(m: map<Addr, GraphNode>, e: FlowEntry, i: nat): map<Addr, GraphNode> {
    var m2 := WithNode(WithNode(m, e.source), e.nextHop);
    WithNeighbor(WithPredecessor(WithEntry(m2, e.source, i), e.nextHop), e.source, e.nextHop)
  }

  function WithNode(m: map<Addr, GraphNode>, a: Addr): (m': map<Addr, GraphNode>)
    ensures m'.Keys == m.Keys + {a}
  {
    m[a := NodeOr(m, a)]
  }

  function WithEntry(m: map<Addr, GraphNode>, a: Addr, i: nat): (m': map<Addr, GraphNode>)
    requires a in m
    ensures m'.Keys == m.Keys
  {
    m[a := m[a].(entry := Some(i))]
  }

  function WithPredecessor(m: map<Addr, GraphNode>, a: Addr): (m': map<Addr, GraphNode>)
    requires a in m
    ensures m'.Keys == m.Keys
  {
    m[a := m[a].(inDegree := m[a].inDegree + 1)]
  }

  function WithNeighbor(m: map<Addr, GraphNode>, a: Addr, n: Addr): (m': map<Addr, GraphNode>)
    requires a in m
    ensures m'.Keys == m.Keys
  {
    m[a := m[a].(neighbors := [n] + m[a].neighbors)]
  }

  lemma {:induction false} WithRuleAt(m: map<Addr, GraphNode>, e: FlowEntry, i: nat)
    ensures
      var m' := WithRule(m, e, i);
      && m'.Keys == m.Keys + {e.source, e.nextHop}
      && forall u :: u in m' ==>
           m'[u] == GraphNode(NodeOr(m, u).inDegree + (if u == e.nextHop then 1 else 0),
                              if u == e.source then Some(i) else NodeOr(m, u).entry,
                              (if u == e.source then [e.nextHop] else []) + NodeOr(m, u).neighbors)
  {
  }

  /** No two paths of the list share a cell. */
  ghost predicate DistinctIds(cells: seq<Cell>) {
    forall i, j :: 0 <= i < j < |cells| ==> cells[i].id != cells[j].id
  }

  ghost predicate AllDistinct(cells: seq<Cell>) {
    forall c {:trigger Distinct(c.nodes)} :: c in cells ==> Distinct(c.nodes)
  }

  /** The paths a walk adds once it has visited u, if it returns within n calls. */
  function Onward(g: Graph, u: Addr, path: seq<Addr>, lives: int, active: bool, n: nat): Option<PathList> {
    if u !in g then Some([])
    else if active && g[u].next in path then Some([path])
    else if n == 0 then None
    else Record(g, g[u].next, path, lives, active, n - 1)
  }

  function Joined(first: PathList, rest: Option<PathList>): Option<PathList> {
    if rest.Some? then Some(first + rest.value) else None
  }

  class PathPlanner {
    const cache: FlowTable
    var nodes: H.HashTable<Addr, GraphNode>
    var segments: H.HashTable<Edge, Segment>
    var paths: seq<Cell>
    var nextId: nat

    ghost predicate GraphBuilt(flowid: FlowId)
      reads cache, this`nodes, nodes
    {
      Unique(cache.entries) && Mirrors(nodes.records, RulesOf(cache.entries, flowid), cache.entries, flowid)
    }

    ghost predicate CellsOk()
      reads this`paths, this`nextId
    {
      && DistinctIds(paths)
      && forall k :: 0 <= k < |paths| ==> paths[k].id < nextId && |paths[k].nodes| <= MAX_PATH_LEN
    }

    constructor (cache: FlowTable)
      ensures this.cache == cache && paths == []
    {
      this.cache := cache;
      nodes := new H.HashTable(HASH_TABLE_SIZE, HashAddress);
      segments := new H.HashTable(SEGMENT_HASH_TABLE_SIZE, HashSegment);
      paths := [];
      nextId := 0;
    }

    /** sdn_add_node: finds the node or adds an empty one. */
    method AddNode(a: Addr)
      requires nodes.Valid()
      modifies nodes, nodes.chains
      ensures nodes.Valid() && nodes.records == WithNode(old(nodes.records), a)
    {
      nodes.FindOrAdd(a, GraphNode(0, None, []));
    }

    /** One iteration of build_graph for an entry of the flow. */
    method AddRule(i: nat)
      requires nodes.Valid() && i < |cache.entries|
      modifies nodes, nodes.chains
      ensures nodes.Valid() && nodes.records == WithRule(old(nodes.records), cache.entries[i], i)
    {
      var s, n := cache.entries[i].source, cache.entries[i].nextHop;
      AddNode(s);
      AddNode(n);
      SetEntry(s, i);
      AddPredecessor(n);
      AddNeighbor(s, n);
    }

    method SetEntry(a: Addr, i: nat)
      requires nodes.Valid() && a in nodes.records
      modifies nodes`records
      ensures nodes.Valid() && nodes.records == WithEntry(old(nodes.records), a, i)
    {
      nodes.Write(a, nodes.records[a].(entry := Some(i)));
    }

    method AddPredecessor(a: Addr)
      requires nodes.Valid() && a in nodes.records
      modifies nodes`records
      ensures nodes.Valid() && nodes.records == WithPredecessor(old(nodes.records), a)
    {
      nodes.Write(a, nodes.records[a].(inDegree := nodes.records[a].inDegree + 1));
    }

    method AddNeighbor(a: Addr, n: Addr)
      requires nodes.Valid() && a in nodes.records
      modifies nodes`records
      ensures nodes.Valid() && nodes.records == WithNeighbor(old(nodes.records), a, n)
    {
      nodes.Write(a, nodes.records[a].(neighbors := [n] + nodes.records[a].neighbors));
    }

    /** One iteration of build_graph. */
    method AddEntry(i: nat, flowid: FlowId)
      requires nodes.Valid() && i < |cache.entries| && Unique(cache.entries)
      requires Mirrors(nodes.records, RulesOf(cache.entries[..i], flowid), cache.entries, flowid)
      requires EntriesBelow(nodes.records, i)
      modifies nodes, nodes.chains
      ensures nodes.Valid() && EntriesBelow(nodes.records, i + 1)
      ensures Mirrors(nodes.records, RulesOf(cache.entries[..i + 1], flowid), cache.entries, flowid)
    {
      ghost var was, es := nodes.records, cache.entries;
      ghost var g := RulesOf(es[..i], flowid);
      RulesOneMore(es, i, flowid);
      if cache.entries[i].flowid == flowid {
        AddRule(i);
        MirrorsOneMore(was, g, es, flowid, i);
        EntriesOneMore(was, es[i], i);
      }
    }

    method BuildGraph(flowid: FlowId)
      requires cache.Valid()
      modifies this`nodes
      ensures GraphBuilt(flowid)
      ensures nodes.Valid() && fresh(nodes) && fresh(nodes.chains)
    {
      nodes := new H.HashTable(HASH_TABLE_SIZE, HashAddress);
      ghost var es := cache.entries;
      for i := 0 to |cache.entries|
        invariant fresh(nodes) && fresh(nodes.chains) && nodes.Valid()
        invariant Mirrors(nodes.records, RulesOf(es[..i], flowid), es, flowid)
        invariant EntriesBelow(nodes.records, i)
      {
        AddEntry(i, flowid);
      }
      assert es[..|es|] == es;
    }

    /** Follows the node's pointers: its neighbors, and whether its rule is marked changed. */
    method ReadNode(u: Addr, ghost flowid: FlowId) returns (neighbors: seq<Addr>, wasChanged: bool)
      requires GraphBuilt(flowid) && u in nodes.records
      ensures
        var g := RulesOf(cache.entries, flowid);
        && neighbors == (if u in g then [g[u].next] else [])
        && (u in g ==> g[u].next in nodes.records)
        && wasChanged == Changed(g, u)
    {
      assert NodeMirrors(nodes.records, RulesOf(cache.entries, flowid), cache.entries, flowid, u);
      RulesAreEntries(cache.entries, flowid, u);
      var node := nodes.records[u];
      neighbors, wasChanged := node.neighbors, false;
      if node.entry.Some? {
        PositionIs(cache.entries, node.entry.value);
        wasChanged := cache.entries[node.entry.value].changed;
      }
    }

    method AddPathToList(path: seq<Addr>)
      requires CellsOk() && |path| <= MAX_PATH_LEN
      modifies this`paths, this`nextId
      ensures CellsOk() && NodesOf(paths) == [path] + NodesOf(old(paths))
    {
      paths := [Cell(nextId, path)] + paths;
      nextId := nextId + 1;
    }

    /**
     * The first half of get_node_path: takes u into the run under way, and
     * records the run if its idle allowance is spent or there is no rule to
     * follow (in which case the walk stops).
     */
    method Visit(u: Addr, wasChanged: bool, noRule: bool, path: seq<Addr>, lives: int, active: bool,
                 ghost g: Graph, ghost n: nat)
      returns (path': seq<Addr>, lives': int, active': bool, stop: bool, ghost recorded: PathList)
      requires CellsOk() && |path| <= MAX_PATH_LEN
      requires n > 0 && wasChanged == Changed(g, u) && noRule == (u !in g)
      modifies this`paths, this`nextId
      ensures CellsOk() && |path'| <= MAX_PATH_LEN
      ensures NodesOf(paths) == Reversed(recorded) + NodesOf(old(paths))
      ensures Record(g, u, path, lives, active, n) ==
              Joined(recorded, if stop then Some([]) else Onward(g, u, path', lives', active', n))
    {
      path', lives', active', stop, recorded := path, lives, active, false, [];
      if wasChanged {
        active', lives' := true, MAX_CHANGED_LIFES;
      }
      if active' {
        if |path'| < MAX_PATH_LEN {
          path' := path' + [u];
        }
        lives' := lives' - 1;
        if lives' < 0 {
          AddPathToList(path');
          recorded := [path'];
          path', lives', active' := [], MAX_CHANGED_LIFES, false;
        }
        if noRule {
          AddPathToList(path');
          ReverseJoin(recorded, [path']);
          recorded := recorded + [path'];
          stop := true;
        }
      }
      VisitIs(g, u, path, lives, active, n, recorded, if stop then Some([]) else Onward(g, u, path', lives', active', n));
    }

    /** On any table on which the walk returns, it adds exactly the specified paths, the last one first. */
    method GetNodePath(u: Addr, path: seq<Addr>, lives: int, active: bool, ghost flowid: FlowId, ghost g: Graph, ghost n: nat)
      returns (active': bool)
      requires GraphBuilt(flowid) && g == RulesOf(cache.entries, flowid) && u in nodes.records
      requires CellsOk() && |path| <= MAX_PATH_LEN && Record(g, u, path, lives, active, n).Some?
      modifies this`paths, this`nextId
      ensures CellsOk()
      ensures NodesOf(paths) == Reversed(Record(g, u, path, lives, active, n).value) + NodesOf(old(paths))
      decreases n, 1
    {
      var neighbors, wasChanged := ReadNode(u, flowid);
      var path', lives', stop;
      ghost var recorded, was := [], NodesOf(paths);
      path', lives', active', stop, recorded :=
        Visit(u, wasChanged, neighbors == [], path, lives, active, g, n);
      ghost var rest := if stop then Some([]) else Onward(g, u, path', lives', active', n);
      JoinedIs(recorded, rest);
      if stop {
        return;
      }
      active' := FollowNeighbors(u, neighbors, path', lives', active', flowid, g, n);
      InTwoParts(recorded, rest.value, was);
    }

    /** The loop of get_node_path over a node's neighbors, of which there is at most one. */
    method FollowNeighbors(u: Addr, neighbors: seq<Addr>, path: seq<Addr>, lives: int, active: bool,
                           ghost flowid: FlowId, ghost g: Graph, ghost n: nat)
      returns (active': bool)
      requires GraphBuilt(flowid) && g == RulesOf(cache.entries, flowid)
      requires neighbors == (if u in g then [g[u].next] else []) && (u in g ==> g[u].next in nodes.records)
      requires CellsOk() && |path| <= MAX_PATH_LEN && Onward(g, u, path, lives, active, n).Some?
      modifies this`paths, this`nextId
      ensures CellsOk()
      ensures NodesOf(paths) == Reversed(Onward(g, u, path, lives, active, n).value) + NodesOf(old(paths))
      decreases n, 0
    {
      active' := active;
      var k := 0;
      while k < |neighbors|
        invariant k <= |neighbors| && CellsOk()
        invariant k == 0 ==> active' == active && NodesOf(paths) == NodesOf(old(paths))
        invariant k == 1 ==> NodesOf(paths) == Reversed(Onward(g, u, path, lives, active, n).value) + NodesOf(old(paths))
      {
        var v := neighbors[k];
        if active' && v in path {
          AddPathToList(path);
          assert Reversed([path]) == [path];
        } else {
          active' := GetNodePath(v, path, lives, active', flowid, g, n - 1);
        }
        k := k + 1;
      }
    }

    method IsNodeInAnyPath(a: Addr) returns (b: bool)
      ensures b <==> exists k :: 0 <= k < |paths| && a in paths[k].nodes
    {
      for i := 0 to |paths|
        invariant forall k :: 0 <= k < i ==> a !in paths[k].nodes
      {
        if a in paths[i].nodes {
          return true;
        }
      }
      return false;
    }

    /** What the list holds after walks from the given starts. */
    ghost predicate Listed(flowid: FlowId, starts: seq<Addr>)
      reads this`paths, this`nextId, this`nodes, cache, nodes
    {
      && GraphBuilt(flowid) && CellsOk()
      && AllFinish(RulesOf(cache.entries, flowid), starts)
      && NodesOf(paths) == Reversed(AllFound(RulesOf(cache.entries, flowid), starts))
    }

    method WalkFrom(u: Addr, ghost flowid: FlowId, ghost starts: seq<Addr>)
      requires Listed(flowid, starts) && u in nodes.records && Finishes(RulesOf(cache.entries, flowid), u)
      modifies this`paths, this`nextId
      ensures Listed(flowid, starts + [u])
    {
      ghost var g := RulesOf(cache.entries, flowid);
      ghost var calls: nat :| Record(g, u, [], 0, false, calls).Some?;
      FoundIs(g, u, calls);
      var _ := GetNodePath(u, [], 0, false, flowid, g, calls);
      AllFoundMore(g, starts, u);
      ReverseJoin(AllFound(g, starts), Found(g, u));
    }

    /** The starts are the nodes without predecessors among those seen. */
    ghost predicate AreRoots(starts: seq<Addr>, seen: set<Addr>)
      reads this`nodes, nodes
    {
      seen <= nodes.records.Keys && forall r :: r in starts <==> r in seen && nodes.records[r].inDegree == 0
    }

    /** All nodes in the chains before chain b have been seen, and the first i of chain b. */
    ghost predicate SeenBefore(seen: set<Addr>, b: int, i: int)
      requires nodes.Valid()
      reads this`nodes, nodes, nodes.chains
    {
      && (forall u :: u in nodes.records && nodes.Slot(u) < b ==> u in seen)
      && (0 <= b < nodes.chains.Length ==> forall j :: 0 <= j < i && j < |nodes.chains[b]| ==> nodes.chains[b][j] in seen)
    }

    lemma {:induction false} ChainSeen(seen: set<Addr>, b: nat, i: nat)
      requires nodes.Valid() && b < nodes.chains.Length && i == |nodes.chains[b]| && SeenBefore(seen, b, i)
      ensures SeenBefore(seen, b + 1, 0)
    {
      forall u | u in nodes.records && nodes.Slot(u) < b + 1
        ensures u in seen
      {
        assert u in nodes.chains[nodes.Slot(u)];
      }
    }

    /** Walks from a node without predecessors. */
    method VisitRoot(a: Addr, ghost flowid: FlowId, ghost starts: seq<Addr>, ghost seen: set<Addr>)
      returns (ghost starts': seq<Addr>)
      requires Listed(flowid, starts) && a in nodes.records && SweepsReturn(RulesOf(cache.entries, flowid))
      requires AreRoots(starts, seen)
      modifies this`paths, this`nextId
      ensures Listed(flowid, starts') && AreRoots(starts', seen + {a})
    {
      starts' := starts;
      if nodes.records[a].inDegree == 0 {
        RootFinishes(a, flowid);
        WalkFrom(a, flowid, starts);
        starts' := starts + [a];
      }
    }

    /** The first sweep on one chain of the table. */
    method SweepRootsOf(b: nat, ghost flowid: FlowId, ghost roots: seq<Addr>, ghost before: set<Addr>)
      returns (ghost starts: seq<Addr>, ghost seen: set<Addr>)
      requires Listed(flowid, roots) && nodes.Valid() && SweepsReturn(RulesOf(cache.entries, flowid))
      requires b < nodes.chains.Length && AreRoots(roots, before) && SeenBefore(before, b, 0)
      modifies this`paths, this`nextId
      ensures Listed(flowid, starts) && AreRoots(starts, seen) && SeenBefore(seen, b + 1, 0)
    {
      starts, seen := roots, before;
      var chain := nodes.chains[b];
      for i := 0 to |chain|
        invariant Listed(flowid, starts) && AreRoots(starts, seen) && SeenBefore(seen, b, i)
      {
        starts := VisitRoot(chain[i], flowid, starts, seen);
        seen := seen + {chain[i]};
      }
      ChainSeen(seen, b, |chain|);
    }

    /** First sweep: walks from every node without predecessors. */
    method SweepRoots(ghost flowid: FlowId) returns (ghost starts: seq<Addr>, ghost seen: set<Addr>)
      requires Listed(flowid, []) && nodes.Valid() && SweepsReturn(RulesOf(cache.entries, flowid))
      modifies this`paths, this`nextId
      ensures Listed(flowid, starts) && AreRoots(starts, seen) && SeenBefore(seen, nodes.chains.Length, 0)
    {
      starts, seen := [], {};
      for b := 0 to nodes.chains.Length
        invariant Listed(flowid, starts) && AreRoots(starts, seen) && SeenBefore(seen, b, 0)
      {
        starts, seen := SweepRootsOf(b, flowid, starts, seen);
      }
    }

    lemma {:induction false} RootFinishes(a: Addr, flowid: FlowId)
      requires GraphBuilt(flowid) && a in nodes.records
      requires nodes.records[a].inDegree == 0 && SweepsReturn(RulesOf(cache.entries, flowid))
      ensures Finishes(RulesOf(cache.entries, flowid), a)
    {
      assert NodeMirrors(nodes.records, RulesOf(cache.entries, flowid), cache.entries, flowid, a);
    }

    /** Walks from a changed node that no path holds yet. */
    method VisitChanged(u: Addr, ghost flowid: FlowId, ghost g: Graph, ghost starts: seq<Addr>, ghost n: nat,
                        ghost seen: set<Addr>)
      returns (ghost starts': seq<Addr>)
      requires Listed(flowid, starts) && u in nodes.records && g == RulesOf(cache.entries, flowid)
      requires SweepsReturn(g) && LaterStarts(g, starts, n) && NoneLeftOut(g, starts, seen)
      modifies this`paths, this`nextId
      ensures Listed(flowid, starts') && starts <= starts' && LaterStarts(g, starts', n) && NoneLeftOut(g, starts', seen + {u})
    {
      starts' := starts;
      var _, wasChanged := ReadNode(u, flowid);
      var listed := IsNodeInAnyPath(u);
      ListedIsFound(g, starts, paths, u);
      if wasChanged && !listed {
        WalkFrom(u, flowid, starts);
        starts' := starts + [u];
        LaterStartsMore(g, starts, n, u);
        NoneLeftOutStays(g, starts, u, seen);
      }
    }

    /** The second sweep on one chain of the table. */
    method SweepChangedOf(b: nat, ghost flowid: FlowId, ghost g: Graph, ghost was: seq<Addr>, ghost n: nat,
                          ghost before: set<Addr>)
      returns (ghost starts: seq<Addr>, ghost seen: set<Addr>)
      requires Listed(flowid, was) && nodes.Valid() && g == RulesOf(cache.entries, flowid) && SweepsReturn(g)
      requires b < nodes.chains.Length && LaterStarts(g, was, n) && NoneLeftOut(g, was, before) && SeenBefore(before, b, 0)
      modifies this`paths, this`nextId
      ensures Listed(flowid, starts) && was <= starts && LaterStarts(g, starts, n)
      ensures NoneLeftOut(g, starts, seen) && SeenBefore(seen, b + 1, 0)
    {
      starts, seen := was, before;
      var chain := nodes.chains[b];
      for i := 0 to |chain|
        invariant Listed(flowid, starts) && was <= starts && LaterStarts(g, starts, n)
        invariant NoneLeftOut(g, starts, seen) && SeenBefore(seen, b, i)
      {
        starts := VisitChanged(chain[i], flowid, g, starts, n, seen);
        seen := seen + {chain[i]};
      }
      ChainSeen(seen, b, |chain|);
    }

    /** Second sweep: walks from changed nodes that no path holds yet. */
    method SweepChanged(ghost flowid: FlowId, ghost g: Graph, ghost roots: seq<Addr>)
      returns (ghost starts: seq<Addr>, ghost seen: set<Addr>)
      requires Listed(flowid, roots) && nodes.Valid() && g == RulesOf(cache.entries, flowid) && SweepsReturn(g)
      modifies this`paths, this`nextId
      ensures Listed(flowid, starts) && roots <= starts && LaterStarts(g, starts, |roots|)
      ensures NoneLeftOut(g, starts, seen) && SeenBefore(seen, nodes.chains.Length, 0)
    {
      starts, seen := roots, {};
      for b := 0 to nodes.chains.Length
        invariant Listed(flowid, starts) && roots <= starts && LaterStarts(g, starts, |roots|)
        invariant NoneLeftOut(g, starts, seen) && SeenBefore(seen, b, 0)
      {
        starts, seen := SweepChangedOf(b, flowid, g, starts, |roots|, seen);
      }
    }

    /**
     * The two sweeps: walks from the nodes no rule leads to, then from the changed nodes that no path
     * has come to.  They record what walks from these starts record.
     */
    method GetAllPaths(ghost flowid: FlowId) returns (ghost starts: seq<Addr>, ghost n: nat)
      requires GraphBuilt(flowid) && nodes.Valid() && SweepsReturn(RulesOf(cache.entries, flowid))
      modifies this`paths, this`nextId
      ensures CellsOk() && SweptFrom(RulesOf(cache.entries, flowid), starts, n)
      ensures FoundBy(RulesOf(cache.entries, flowid), starts, NodesOf(paths))
    {
      ghost var g := RulesOf(cache.entries, flowid);
      paths := [];
      ghost var roots, seen;
      roots, seen := SweepRoots(flowid);
      RootsAreStarts(flowid, g, roots, seen);
      starts, seen := SweepChanged(flowid, g, roots);
      n := |roots|;
      assert starts[..n] == roots;
      ChangedInTable(flowid, g, starts, seen);
      ListIsFoundBy(g, starts, n, NodesOf(paths));
    }

    lemma {:induction false} RootsAreStarts(flowid: FlowId, g: Graph, roots: seq<Addr>, seen: set<Addr>)
      requires GraphBuilt(flowid) && g == RulesOf(cache.entries, flowid)
      requires nodes.Valid() && AreRoots(roots, seen) && SeenBefore(seen, nodes.chains.Length, 0)
      ensures forall r :: r in roots <==> r in g && IsRoot(g, r)
    {
      forall r
        ensures r in roots <==> r in g && IsRoot(g, r)
      {
        if r in nodes.records {
          assert NodeMirrors(nodes.records, g, cache.entries, flowid, r);
        }
      }
    }

    lemma {:induction false} ChangedInTable(flowid: FlowId, g: Graph, starts: seq<Addr>, seen: set<Addr>)
      requires GraphBuilt(flowid) && g == RulesOf(cache.entries, flowid)
      requires nodes.Valid() && NoneLeftOut(g, starts, seen) && SeenBefore(seen, nodes.chains.Length, 0)
      ensures forall u :: Changed(g, u) ==> u in starts || OnFound(g, starts, u)
    {
      forall u | Changed(g, u)
        ensures u in starts || OnFound(g, starts, u)
      {
        assert u in nodes.records;
        assert u in seen;
      }
    }

    /** Edge i of path k bids its position; a lower bid than any before takes the segment. */
    method Bid(k: nat, i: nat, ghost win: map<Edge, (nat, nat)>) returns (ghost win': map<Edge, (nat, nat)>)
      requires k < |paths| && i < |paths[k].nodes| - 1 <= MAX_PATH_LEN
      requires segments.Valid() && Scored(paths, segments.records, win, k, i)
      modifies segments, segments.chains
      ensures segments.Valid() && Scored(paths, segments.records, win', k, i + 1)
    {
      var e := (paths[k].nodes[i], paths[k].nodes[i + 1]);
      ghost var was := segments.records;
      segments.FindOrAdd(e, Segment(NO_COST, None));
      if i + 1 < segments.records[e].bestCost {
        segments.Write(e, Segment(i + 1, Some(paths[k].id)));
        win' := win[e := (k, i)];
        ScoredTaken(paths, was, win, k, i);
        assert segments.records == was[e := Segment(i + 1, Some(paths[k].id))];
      } else {
        win' := win;
        ScoredKept(paths, was, win, k, i);
      }
    }

    method ScorePath(k: nat, ghost win: map<Edge, (nat, nat)>) returns (ghost win': map<Edge, (nat, nat)>)
      requires CellsOk() && k < |paths|
      requires segments.Valid() && Scored(paths, segments.records, win, k, 0)
      modifies segments, segments.chains
      ensures segments.Valid() && Scored(paths, segments.records, win', k + 1, 0)
    {
      win' := win;
      var i := 0;
      while i < |paths[k].nodes| - 1
        invariant segments.Valid() && Scored(paths, segments.records, win', k, i)
      {
        win' := Bid(k, i, win');
        i := i + 1;
      }
      ScoredRow(paths, segments.records, win', k, i);
    }

    /** First pass: every edge of every path bids; the first lowest bid wins. */
    method ScoreSegments() returns (ghost win: map<Edge, (nat, nat)>)
      requires CellsOk()
      modifies this`segments
      ensures Scored(paths, segments.records, win, |paths|, 0)
    {
      segments := new H.HashTable(SEGMENT_HASH_TABLE_SIZE, HashSegment);
      win := map[];
      for k := 0 to |paths|
        invariant fresh(segments) && fresh(segments.chains) && segments.Valid()
        invariant Scored(paths, segments.records, win, k, 0)
      {
        win := ScorePath(k, win);
      }
    }

    /** How much of path k is kept: up to and including the node before its first lost edge. */
    method KeptLength(cell: Cell, table: map<Edge, Segment>, ghost cells: seq<Cell>, ghost k: nat) returns (n: nat)
      requires Decides(cells, table) && k < |cells| && cell == cells[k]
      ensures n == CutFrom(NodesOf(cells), k, 0)
    {
      n := |cell.nodes|;
      var i := 0;
      while i < |cell.nodes| - 1
        invariant forall j :: 0 <= j < i && j < |cell.nodes| - 1 ==> Wins(NodesOf(cells), k, j)
      {
        assert RightWinner(cells, table, k, i);
        if table[(cell.nodes[i], cell.nodes[i + 1])].winner != Some(cell.id) {
          n := i + 1;
          break;
        }
        i := i + 1;
      }
      CutFromIs(NodesOf(cells), k, n);
    }

    /** Whether the node's rule points back at the node itself. */
    method IsDropRule(a: Addr, ghost flowid: FlowId) returns (b: bool)
      requires GraphBuilt(flowid)
      ensures b <==> var g := RulesOf(cache.entries, flowid); a in g && g[a].next == a
    {
      b := false;
      ghost var g := RulesOf(cache.entries, flowid);
      RulesAreEntries(cache.entries, flowid, a);
      if a in nodes.records {
        assert NodeMirrors(nodes.records, g, cache.entries, flowid, a);
        var entry := nodes.records[a].entry;
        if entry.Some? {
          PositionIs(cache.entries, entry.value);
          b := cache.entries[entry.value].source == cache.entries[entry.value].nextHop;
        }
      }
    }

    /** One path of the second pass. */
    method CutPath(cell: Cell, table: map<Edge, Segment>, kept: seq<Cell>, ghost flowid: FlowId, ghost g: Graph,
                   ghost cells: seq<Cell>, ghost k: nat)
      returns (kept': seq<Cell>)
      requires GraphBuilt(flowid) && g == RulesOf(cache.entries, flowid)
      requires Decides(cells, table) && k < |cells| && cell == cells[k]
      requires NodesOf(kept) == Survivors(g, NodesOf(cells), k)
      ensures NodesOf(kept') == Survivors(g, NodesOf(cells), k + 1)
    {
      var n := KeptLength(cell, table, cells, k);
      var cut := cell.(nodes := cell.nodes[..n]);
      var stays := |cut.nodes| > 1;
      if |cut.nodes| == 1 {
        stays := IsDropRule(cut.nodes[0], flowid);
      }
      kept' := kept;
      if stays {
        NodesOfOneMore(kept, cut);
        kept' := kept + [cut];
      }
    }

    /** Second pass: each path is cut at the first edge another path won, and dropped if nothing is left. */
    method CutLosers(ghost flowid: FlowId, ghost win: map<Edge, (nat, nat)>)
      requires GraphBuilt(flowid) && CellsOk()
      requires Scored(paths, segments.records, win, |paths|, 0) && AllDistinct(paths)
      modifies this`paths
      ensures NodesOf(paths) == Survivors(RulesOf(cache.entries, flowid), NodesOf(old(paths)), |old(paths)|)
    {
      ghost var g, all := RulesOf(cache.entries, flowid), paths;
      var kept: seq<Cell>, table := [], segments.records;
      AllDecided(all, table, win);
      for k := 0 to |paths|
        invariant paths == all && NodesOf(kept) == Survivors(g, NodesOf(all), k)
      {
        kept := CutPath(paths[k], table, kept, flowid, g, all, k);
      }
      paths := kept;
    }

    /** Clears the changed flag of the rule of every node on a path. */
    method UpdateChanges(ghost flowid: FlowId)
      requires GraphBuilt(flowid)
      modifies cache
      ensures cache.entries == Cleared(old(cache.entries), flowid, NodesOn(paths, |paths|))
      ensures |cache.entries| == |old(cache.entries)|
      ensures forall i :: 0 <= i < |cache.entries| ==>
                var e := old(cache.entries)[i];
                cache.entries[i] == if e.flowid == flowid && OnAPath(paths, e.source) then e.(changed := false) else e
    {
      ghost var es := cache.entries;
      assert Cleared(es, flowid, {}) == es;
      for k := 0 to |paths|
        invariant cache.entries == Cleared(es, flowid, NodesOn(paths, k))
      {
        for i := 0 to |paths[k].nodes|
          invariant cache.entries == Cleared(es, flowid, NodesOn(paths, k) + Elements(paths[k].nodes, i))
        {
          ClearRule(paths[k].nodes[i], flowid, es, NodesOn(paths, k) + Elements(paths[k].nodes, i));
          assert NodesOn(paths, k) + Elements(paths[k].nodes, i + 1)
              == NodesOn(paths, k) + Elements(paths[k].nodes, i) + {paths[k].nodes[i]};
        }
      }
      NodesOnPaths(paths, |paths|);
      assert paths[..|paths|] == paths;
    }

    method ClearRule(a: Addr, ghost flowid: FlowId, ghost es: Entries, ghost done: set<Addr>)
      requires Unique(es) && Mirrors(nodes.records, RulesOf(es, flowid), es, flowid)
      requires cache.entries == Cleared(es, flowid, done)
      modifies cache
      ensures cache.entries == Cleared(es, flowid, done + {a})
    {
      RulesAreEntries(es, flowid, a);
      if a in nodes.records {
        assert NodeMirrors(nodes.records, RulesOf(es, flowid), es, flowid, a);
        var entry := nodes.records[a].entry;
        if entry.Some? {
          PositionIs(es, entry.value);
          cache.entries := cache.entries[entry.value := cache.entries[entry.value].(changed := false)];
        }
      }
    }

    /**
     * Plans one flow, on any table on which the sweeps' walks return: the list that results holds the
     * survivors of what they record, and the rules of all nodes on it are unmarked.
     */
    method ProcessTableGraph(flowid: FlowId) returns (ghost starts: seq<Addr>, ghost n: nat, ghost recorded: PathList)
      requires cache.Valid() && SweepsReturn(RulesOf(cache.entries, flowid))
      modifies this, cache
      ensures SweptFrom(old(RulesOf(cache.entries, flowid)), starts, n)
      ensures FoundBy(old(RulesOf(cache.entries, flowid)), starts, recorded)
      ensures NodesOf(paths) == Survivors(old(RulesOf(cache.entries, flowid)), recorded, |recorded|)
      ensures cache.entries == Cleared(old(cache.entries), flowid, NodesOn(paths, |paths|)) && cache.Valid()
    {
      ghost var es, g := cache.entries, RulesOf(cache.entries, flowid);
      paths, nextId := [], 0;
      BuildGraph(flowid);
      starts, n := GetAllPaths(flowid);
      recorded := NodesOf(paths);
      FoundCellsAreDistinct(g, starts, paths);
      ghost var win := ScoreSegments();
      CutLosers(flowid, win);
      assert Cleared(es, flowid, {}) == es;
      if paths != [] {
        UpdateChanges(flowid);
      }
      ClearedIsUnique(es, flowid, NodesOn(paths, |paths|));
    }
  }

  lemma {:induction false} JoinedIs(first: PathList, rest: Option<PathList>)
    ensures Joined(first, rest).Some? <==> rest.Some?
    ensures rest.Some? ==> Joined(first, rest).value == first + rest.value
    ensures rest == Some([]) ==> Joined(first, rest) == Some(first)
  {
    assert first + [] == first;
  }

  lemma {:induction false} NothingBefore(rest: Option<PathList>)
    ensures Joined([], rest) == rest
  {
    assert rest.Some? ==> [] + rest.value == rest.value;
  }

  lemma {:induction false} NothingBehind(recorded: PathList)
    ensures Joined(recorded, Some([])) == Some(recorded)
  {
    assert recorded + [] == recorded;
  }

  /** What a visit records, and what is left to record, are the walk. */
  lemma {:induction false} VisitIs(g: Graph, u: Addr, path: seq<Addr>, lives: int, active: bool, n: nat,
                                   recorded: PathList, rest: Option<PathList>)
    requires n > 0
    requires
      var path' := if |path| < MAX_PATH_LEN then path + [u] else path;
      var lives' := (if Changed(g, u) then MAX_CHANGED_LIFES else lives) - 1;
      if !active && !Changed(g, u) then recorded == [] && rest == Onward(g, u, path, lives, false, n)
      else if lives' < 0 then
        if u in g then recorded == [path'] && rest == Onward(g, u, [], MAX_CHANGED_LIFES, false, n)
        else recorded == [path', []] && rest == Some([])
      else if u in g then recorded == [] && rest == Onward(g, u, path', lives', true, n)
      else recorded == [path'] && rest == Some([])
    ensures Record(g, u, path, lives, active, n) == Joined(recorded, rest)
  {
    var path' := if |path| < MAX_PATH_LEN then path + [u] else path;
    NothingBefore(rest);
    NothingBehind(recorded);
    assert [path'] + [[]] == [path', []];
  }

  // ---- The starts of the second sweep.

  /** From the n-th on the starts are changed nodes that no path recorded before them passes. */
  ghost predicate LaterStarts(g: Graph, starts: seq<Addr>, n: nat) {
    forall k :: n <= k < |starts| ==> Changed(g, starts[k]) && !OnFound(g, starts[..k], starts[k])
  }

  /** Every changed node among those seen is a start, or a walk has recorded a path through it. */
  ghost predicate NoneLeftOut(g: Graph, starts: seq<Addr>, seen: set<Addr>) {
    forall u :: u in seen && Changed(g, u) ==> u in starts || OnFound(g, starts, u)
  }

  lemma {:induction false} LaterStartsMore(g: Graph, starts: seq<Addr>, n: nat, u: Addr)
    requires LaterStarts(g, starts, n) && Changed(g, u) && !OnFound(g, starts, u)
    ensures LaterStarts(g, starts + [u], n)
  {
    var more := starts + [u];
    forall k | n <= k < |more|
      ensures Changed(g, more[k]) && !OnFound(g, more[..k], more[k])
    {
      assert more[..k] == starts[..k];
      assert starts[..|starts|] == starts;
    }
  }

  lemma {:induction false} NoneLeftOutStays(g: Graph, starts: seq<Addr>, u: Addr, seen: set<Addr>)
    requires NoneLeftOut(g, starts, seen)
    ensures NoneLeftOut(g, starts + [u], seen + {u})
  {
    var more := starts + [u];
    forall v | v in seen + {u} && Changed(g, v)
      ensures v in more || OnFound(g, more, v)
    {
      if v != u && v !in starts {
        OnFoundStays(g, starts, more, v);
      }
    }
  }

  /** A node is on a path of the list exactly if a walk has recorded one through it. */
  lemma {:induction false} ListedIsFound(g: Graph, starts: seq<Addr>, cells: seq<Cell>, u: Addr)
    requires AllFinish(g, starts) && NodesOf(cells) == Reversed(AllFound(g, starts))
    ensures (exists k :: 0 <= k < |cells| && u in cells[k].nodes) <==> OnFound(g, starts, u)
  {
    var P := NodesOf(cells);
    OnFoundIs(g, starts, u);
    if k :| 0 <= k < |cells| && u in cells[k].nodes {
      ReverseHas(AllFound(g, starts), P[k]);
    }
    if p :| p in AllFound(g, starts) && u in p {
      ReverseHas(AllFound(g, starts), p);
      var k :| 0 <= k < |P| && P[k] == p;
      assert u in cells[k].nodes;
    }
  }

  lemma {:induction false} ListIsFoundBy(g: Graph, starts: seq<Addr>, n: nat, P: PathList)
    requires AllFinish(g, starts) && P == Reversed(AllFound(g, starts)) && SweptFrom(g, starts, n)
    ensures FoundBy(g, starts, P)
  {
    forall p
      ensures p in P <==> exists r :: r in starts && FoundFrom(g, r, p)
    {
      ReverseHas(AllFound(g, starts), p);
      AllFoundHas(g, starts, p);
    }
    forall r | r in g && IsRoot(g, r)
      ensures r in starts
    {
      assert r in starts[..n];
    }
  }

  function Elements(p: seq<Addr>, n: nat): set<Addr>
    requires n <= |p|
  {
    set i | 0 <= i < n :: p[i]
  }

  /** The nodes on the first n paths. */
  function NodesOn(cells: seq<Cell>, n: nat): set<Addr>
    requires n <= |cells|
  {
    if n == 0 then {} else NodesOn(cells, n - 1) + Elements(cells[n - 1].nodes, |cells[n - 1].nodes|)
  }

  predicate OnAPath(cells: seq<Cell>, a: Addr) {
    exists k :: 0 <= k < |cells| && a in cells[k].nodes
  }

  lemma {:induction false} NodesOnPaths(cells: seq<Cell>, n: nat)
    requires n <= |cells|
    ensures forall a :: a in NodesOn(cells, n) <==> OnAPath(cells[..n], a)
  {
    if n > 0 {
      NodesOnPaths(cells, n - 1);
      assert cells[..n] == cells[..n - 1] + [cells[n - 1]];
      forall a
        ensures OnAPath(cells[..n], a) <==> OnAPath(cells[..n - 1], a) || a in cells[n - 1].nodes
      {
        OnOneMore(cells[..n - 1], cells[n - 1], a);
      }
    }
  }

  lemma {:induction false} OnOneMore(cells: seq<Cell>, c: Cell, a: Addr)
    ensures OnAPath(cells + [c], a) <==> OnAPath(cells, a) || a in c.nodes
  {
    var more := cells + [c];
    assert more[|cells|] == c && forall k :: 0 <= k < |cells| ==> more[k] == cells[k];
  }

  /** The entries with the flow's rules of the given sources unmarked. */
  function Cleared(es: Entries, flowid: FlowId, sources: set<Addr>): (r: Entries)
    ensures |r| == |es|
  {
    seq(|es|, i requires 0 <= i < |es| =>
      if es[i].flowid == flowid && es[i].source in sources then es[i].(changed := false) else es[i])
  }

  /** The entries with all the flow's rules unmarked. */
  function Unmarked(es: Entries, flowid: FlowId): (r: Entries)
    ensures |r| == |es|
  {
    seq(|es|, i requires 0 <= i < |es| => if es[i].flowid == flowid then es[i].(changed := false) else es[i])
  }

  lemma {:induction false} FoundCellsAreDistinct(g: Graph, starts: seq<Addr>, cells: seq<Cell>)
    requires FoundBy(g, starts, NodesOf(cells))
    ensures AllDistinct(cells)
  {
    FoundAreDistinct(g, starts, NodesOf(cells));
    forall c | c in cells
      ensures Distinct(c.nodes)
    {
      var k :| 0 <= k < |cells| && cells[k] == c;
      assert NodesOf(cells)[k] in NodesOf(cells);
    }
  }

  lemma {:induction false} ClearedIsUnique(es: Entries, flowid: FlowId, sources: set<Addr>)
    requires Unique(es)
    ensures Unique(Cleared(es, flowid, sources))
  {
  }

  lemma {:induction false} OnSomePath(cells: seq<Cell>, n: nat, k: nat, a: Addr)
    requires k < n <= |cells| && a in cells[k].nodes
    ensures a in NodesOn(cells, n)
  {
    if k < n - 1 {
      OnSomePath(cells, n - 1, k, a);
    }
  }

  /** Every changed entry's source is on a surviving path. */
  lemma {:induction false} ChangedIsOnPath(es: Entries, flowid: FlowId, starts: seq<Addr>, n: nat,
                                           recorded: PathList, cells: seq<Cell>, i: nat)
    requires Unique(es) && D.FoundList(RulesOf(es, flowid), starts, recorded) && SweptFrom(RulesOf(es, flowid), starts, n)
    requires NodesOf(cells) == Survivors(RulesOf(es, flowid), recorded, |recorded|)
    requires i < |es| && es[i].flowid == flowid && es[i].changed
    ensures es[i].source in NodesOn(cells, |cells|)
  {
    var u, g := es[i].source, RulesOf(es, flowid);
    PositionIs(es, i);
    RulesAreEntries(es, flowid, u);
    var a: nat;
    if D.Drops(g, u) {
      D.DropRuleOnTable(g, starts, recorded, n, u);
      a :| 0 <= a < |cells| && u in NodesOf(cells)[a];
    } else {
      D.RulesThatLeadOnArePlannedOnce(g, starts, recorded, u);
      a :| 0 <= a < |cells| && HasEdge(NodesOf(cells)[a], u);
    }
    OnSomePath(cells, |cells|, a, u);
  }

  /** Where drop rules are the only loops, the flags cleared along the surviving paths are all the flags of the flow. */
  lemma {:induction false} ClearedIsUnmarked(es: Entries, flowid: FlowId, starts: seq<Addr>, n: nat,
                                             recorded: PathList, cells: seq<Cell>)
    requires Unique(es) && D.FoundList(RulesOf(es, flowid), starts, recorded) && SweptFrom(RulesOf(es, flowid), starts, n)
    requires NodesOf(cells) == Survivors(RulesOf(es, flowid), recorded, |recorded|)
    ensures Cleared(es, flowid, NodesOn(cells, |cells|)) == Unmarked(es, flowid)
  {
    forall i | 0 <= i < |es| && es[i].flowid == flowid && es[i].changed
      ensures es[i].source in NodesOn(cells, |cells|)
    {
      ChangedIsOnPath(es, flowid, starts, n, recorded, cells, i);
    }
  }

  /** Edge i' of path k' comes before edge i of path k in the order of the passes. */
  predicate Before(k': int, i': int, k: int, i: int) {
    k' < k || (k' == k && i' < i)
  }

  /**
   * The segment table after the bids of all edges before edge i of path k:
   * `win` names the winner of every edge bid on so far.
   */
  ghost predicate Scored(cells: seq<Cell>, table: map<Edge, Segment>, win: map<Edge, (nat, nat)>, k: nat, i: nat) {
    && win.Keys == table.Keys
    && (forall e {:trigger win[e]} :: e in win ==>
          && win[e].0 < |cells|
          && EdgeAt(cells[win[e].0].nodes, win[e].1, e.0, e.1)
          && Before(win[e].0, win[e].1, k, i)
          && table[e] == Segment(win[e].1 + 1, Some(cells[win[e].0].id)))
    && (forall k', i' {:trigger BidCounted(cells, win, k', i')} ::
          0 <= k' < |cells| && 0 <= i' < |cells[k'].nodes| - 1 && Before(k', i', k, i) ==>
            BidCounted(cells, win, k', i'))
  }

  /** The winner of edge i' of path k' bid no higher, and no later at the same price. */
  ghost predicate BidCounted(cells: seq<Cell>, win: map<Edge, (nat, nat)>, k': int, i': int)
    requires 0 <= k' < |cells| && 0 <= i' < |cells[k'].nodes| - 1
  {
    var e := (cells[k'].nodes[i'], cells[k'].nodes[i' + 1]);
    e in win && (win[e].1 < i' || (win[e].1 == i' && win[e].0 <= k'))
  }

  lemma {:induction false} ScoredTaken(cells: seq<Cell>, was: map<Edge, Segment>, win: map<Edge, (nat, nat)>, k: nat, i: nat)
    requires k < |cells| && i < |cells[k].nodes| - 1 <= MAX_PATH_LEN && Scored(cells, was, win, k, i)
    requires var e := (cells[k].nodes[i], cells[k].nodes[i + 1]); e in was ==> i + 1 < was[e].bestCost
    ensures
      var e := (cells[k].nodes[i], cells[k].nodes[i + 1]);
      Scored(cells, was[e := Segment(i + 1, Some(cells[k].id))], win[e := (k, i)], k, i + 1)
  {
    var win' := win[(cells[k].nodes[i], cells[k].nodes[i + 1]) := (k, i)];
    forall k', i' | 0 <= k' < |cells| && 0 <= i' < |cells[k'].nodes| - 1 && Before(k', i', k, i + 1)
      ensures BidCounted(cells, win', k', i')
    {
      assert Before(k', i', k, i) ==> BidCounted(cells, win, k', i');
    }
  }

  lemma {:induction false} ScoredKept(cells: seq<Cell>, was: map<Edge, Segment>, win: map<Edge, (nat, nat)>, k: nat, i: nat)
    requires k < |cells| && i < |cells[k].nodes| - 1 && Scored(cells, was, win, k, i)
    requires var e := (cells[k].nodes[i], cells[k].nodes[i + 1]); e in was && was[e].bestCost <= i + 1
    ensures Scored(cells, was, win, k, i + 1)
  {
    assert (cells[k].nodes[i], cells[k].nodes[i + 1]) in win;
    assert BidCounted(cells, win, k, i);
  }

  lemma {:induction false} ScoredRow(cells: seq<Cell>, table: map<Edge, Segment>, win: map<Edge, (nat, nat)>, k: nat, i: nat)
    requires k < |cells| && i >= |cells[k].nodes| - 1 && Scored(cells, table, win, k, i)
    ensures Scored(cells, table, win, k + 1, 0)
  {
  }

  /** A path is named winner of its own edge exactly if it wins it. */
  ghost predicate RightWinner(cells: seq<Cell>, table: map<Edge, Segment>, k: nat, j: nat)
    requires k < |cells| && j < |cells[k].nodes| - 1
  {
    var e := (cells[k].nodes[j], cells[k].nodes[j + 1]);
    e in table && (table[e].winner == Some(cells[k].id) <==> Wins(NodesOf(cells), k, j))
  }

  ghost predicate Decides(cells: seq<Cell>, table: map<Edge, Segment>) {
    forall k: nat, j: nat {:trigger RightWinner(cells, table, k, j)} ::
      k < |cells| && j < |cells[k].nodes| - 1 ==> RightWinner(cells, table, k, j)
  }

  /** So it is for all of them after the first pass. */
  lemma {:induction false} AllDecided(cells: seq<Cell>, table: map<Edge, Segment>, win: map<Edge, (nat, nat)>)
    requires Scored(cells, table, win, |cells|, 0) && DistinctIds(cells) && AllDistinct(cells)
    ensures Decides(cells, table)
  {
    forall k: nat, j: nat | k < |cells| && j < |cells[k].nodes| - 1
      ensures RightWinner(cells, table, k, j)
    {
      assert cells[k] in cells;
      ScoredDecides(cells, table, win, k, j);
    }
  }

  lemma {:induction false} ScoredDecides(cells: seq<Cell>, table: map<Edge, Segment>, win: map<Edge, (nat,
                                         nat)>, k: nat, j: nat)
    requires Scored(cells, table, win, |cells|, 0) && DistinctIds(cells)
    requires k < |cells| && Distinct(cells[k].nodes) && j < |cells[k].nodes| - 1
    ensures RightWinner(cells, table, k, j)
  {
    var P, u, v := NodesOf(cells), cells[k].nodes[j], cells[k].nodes[j + 1];
    assert BidCounted(cells, win, k, j);
    var (w, x) := win[(u, v)];
    assert EdgeAt(P[w], x, u, v);
    assert Soonest(P, w, x, u, v) by {
      forall k', i' | 0 <= k' < |P| && EdgeAt(P[k'], i', u, v)
        ensures x < i' || (x == i' && w <= k')
      {
        assert BidCounted(cells, win, k', i');
      }
    }
    assert EdgeAt(P[k], j, u, v);
  }

  lemma {:induction false} CutFromIs(P: PathList, k: nat, n: nat)
    requires k < |P| && n <= |P[k]| && forall j :: 0 <= j < n - 1 ==> Wins(P, k, j)
    requires n < |P[k]| ==> n > 0 && !Wins(P, k, n - 1)
    ensures CutFrom(P, k, 0) == n
  {
    CutFromMeans(P, k, 0);
    if CutFrom(P, k, 0) < n {
      assert false;
    }
  }

  lemma {:induction false} RulesOneMore(es: Entries, i: nat, flowid: FlowId)
    requires i < |es|
    ensures
      var g := RulesOf(es[..i], flowid);
      RulesOf(es[..i + 1], flowid) ==
      if es[i].flowid == flowid then g[es[i].source := Rule(es[i].nextHop, es[i].changed)] else g
  {
    assert es[..i + 1][..i] == es[..i];
  }

  /** The nodes point to entries in front of entry i. */
  predicate EntriesBelow(view: map<Addr, GraphNode>, i: nat) {
    forall u :: u in view && view[u].entry.Some? ==> view[u].entry.value < i
  }

  lemma {:induction false} EntriesOneMore(was: map<Addr, GraphNode>, e: FlowEntry, i: nat)
    requires EntriesBelow(was, i)
    ensures EntriesBelow(WithRule(was, e, i), i + 1)
  {
    WithRuleAt(was, e, i);
  }

  lemma {:induction false} RuleHasEntry(was: map<Addr, GraphNode>, g: Graph, es: Entries, flowid: FlowId, i: nat, u: Addr)
    requires i <= |es| && Mirrors(was, g, es, flowid) && EntriesBelow(was, i)
    ensures u in g ==> exists k :: 0 <= k < i && Matches(es[k], u, flowid)
  {
    if u in g {
      assert NodeMirrors(was, g, es, flowid, u);
      assert was[u].entry.value < i;
    }
  }

  lemma {:induction false} SourceIsNew(was: map<Addr, GraphNode>, g: Graph, es: Entries, flowid: FlowId, i: nat)
    requires Unique(es) && i < |es| && es[i].flowid == flowid && Mirrors(was, g, es, flowid) && EntriesBelow(was, i)
    ensures es[i].source !in g
  {
    RuleHasEntry(was, g, es, flowid, i, es[i].source);
    forall k | 0 <= k < i
      ensures !Matches(es[k], es[i].source, flowid)
    {
      assert !Matches(es[i], es[k].source, es[k].flowid);
    }
  }

  /** Recording one more rule keeps the mirror. */
  lemma {:induction false} MirrorsOneMore(was: map<Addr, GraphNode>, g: Graph, es: Entries, flowid: FlowId, i: nat)
    requires Unique(es) && i < |es| && es[i].flowid == flowid && Mirrors(was, g, es, flowid)
    requires EntriesBelow(was, i)
    ensures Mirrors(WithRule(was, es[i], i), g[es[i].source := Rule(es[i].nextHop, es[i].changed)], es, flowid)
  {
    var e, view := es[i], WithRule(was, es[i], i);
    WithRuleAt(was, e, i);
    SourceIsNew(was, g, es, flowid, i);
    forall u | u in view
      ensures NodeMirrors(view, g[e.source := Rule(e.nextHop, e.changed)], es, flowid, u)
    {
      OneMoreMirrors(was, g, es, flowid, i, u);
    }
  }

  lemma {:induction false} OneMoreMirrors(was: map<Addr, GraphNode>, g: Graph, es: Entries, flowid: FlowId, i: nat, u: Addr)
    requires i < |es| && es[i].flowid == flowid && Mirrors(was, g, es, flowid) && es[i].source !in g
    requires u in WithRule(was, es[i], i)
    ensures NodeMirrors(WithRule(was, es[i], i), g[es[i].source := Rule(es[i].nextHop, es[i].changed)], es, flowid, u)
  {
    WithRuleAt(was, es[i], i);
    RootAfter(g, es[i].source, Rule(es[i].nextHop, es[i].changed), u);
    if u in was {
      assert NodeMirrors(was, g, es, flowid, u);
    } else {
      NoRuleLeadsOutside(was, g, es, flowid, u);
    }
  }

  lemma {:induction false} NoRuleLeadsOutside(view: map<Addr, GraphNode>, g: Graph, es: Entries, flowid: FlowId, u: Addr)
    requires Mirrors(view, g, es, flowid) && u !in view
    ensures u !in g && IsRoot(g, u)
  {
    forall w | w in g
      ensures g[w].next != u
    {
      assert NodeMirrors(view, g, es, flowid, w);
    }
  }

  lemma {:induction false} RootAfter(g: Graph, s: Addr, r: Rule, u: Addr)
    requires s !in g
    ensures IsRoot(g[s := r], u) <==> IsRoot(g, u) && u != r.next
  {
    var g' := g[s := r];
    if IsRoot(g', u) {
      assert g'[s].next != u;
      forall w | w in g
        ensures g[w].next != u
      {
        assert g'[w].next != u;
      }
    }
  }
}
