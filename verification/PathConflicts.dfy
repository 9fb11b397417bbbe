// Overlap resolution: every edge goes to the path that reaches it soonest, and
// a path is cut at the first edge it does not win.  For a list recorded by
// walks from all starts of a loop-free graph this never loses a changed rule.
module PathConflicts {
  import opened Common
  import opened RuleGraph

  type PathList = seq<seq<Addr>>

  predicate EdgeAt(p: seq<Addr>, i: int, u: Addr, v: Addr) {
    0 <= i < |p| - 1 && p[i] == u && p[i + 1] == v
  }

  /** No path reaches edge (u, v) before index i, nor at i earlier in the list than path k. */
  ghost predicate Soonest(P: PathList, k: int, i: int, u: Addr, v: Addr) {
    forall k', i' | 0 <= k' < |P| && EdgeAt(P[k'], i', u, v) :: i < i' || (i == i' && k <= k')
  }

  /** Path k wins its i-th edge: it reaches it soonest, the first path in the list on ties. */
  ghost predicate Wins(P: PathList, k: int, i: int)
    requires 0 <= k < |P| && 0 <= i < |P[k]| - 1
  {
    Soonest(P, k, i, P[k][i], P[k][i + 1])
  }

  /** A rival that keeps path k from winning edge (u, v) at index i. */
  lemma {:induction false} Rival(P: PathList, k: int, i: int, u: Addr, v: Addr) returns (k': int, i': int)
    requires !Soonest(P, k, i, u, v)
    ensures 0 <= k' < |P| && EdgeAt(P[k'], i', u, v)
    ensures i' < i || (i' == i && k' < k)
  {
    k', i' :| 0 <= k' < |P| && EdgeAt(P[k'], i', u, v) && !(i < i' || (i == i' && k <= k'));
  }

  /** Number of nodes path k keeps: it is cut at its first lost edge at or after i. */
  ghost function CutFrom(P: PathList, k: int, i: nat): (n: nat)
    requires 0 <= k < |P|
    ensures n <= |P[k]|
    decreases |P[k]| - i
  {
    if i >= |P[k]| - 1 then |P[k]|
    else if Wins(P, k, i) then CutFrom(P, k, i + 1)
    else i + 1
  }

  /** The cut keeps a run of won edges, and is made only at a lost one. */
  lemma {:induction false} CutFromMeans(P: PathList, k: int, i: nat)
    requires 0 <= k < |P|
    ensures
      var n := CutFrom(P, k, i);
      && (forall j :: i <= j < n - 1 ==> Wins(P, k, j))
      && (n < |P[k]| ==> i < n && !Wins(P, k, n - 1))
    decreases |P[k]| - i
  {
    if i < |P[k]| - 1 && Wins(P, k, i) {
      CutFromMeans(P, k, i + 1);
    }
  }

  ghost function Kept(P: PathList, k: int): (p: seq<Addr>)
    requires 0 <= k < |P|
  {
    P[k][..CutFrom(P, k, 0)]
  }

  /** Another path has this edge nearer to its start, or as near and is earlier in the list. */
  ghost predicate Beaten(P: PathList, k: int, i: int, u: Addr, v: Addr) {
    exists k', i' :: 0 <= k' < |P| && EdgeAt(P[k'], i', u, v) && (i' < i || (i' == i && k' < k))
  }

  /** A path keeps its edge i exactly if in none of its edges up to that one it is beaten. */
  lemma {:induction false} KeepsEdgeIff(P: PathList, k: int, i: int)
    requires 0 <= k < |P| && 0 <= i < |P[k]| - 1
    ensures Kept(P, k) == P[k][..|Kept(P, k)|]
    ensures i + 1 < |Kept(P, k)| <==> forall j :: 0 <= j <= i ==> !Beaten(P, k, j, P[k][j], P[k][j + 1])
  {
    CutFromMeans(P, k, 0);
    var n := |Kept(P, k)|;
    forall j | 0 <= j < |P[k]| - 1
      ensures Wins(P, k, j) <==> !Beaten(P, k, j, P[k][j], P[k][j + 1])
    {
      if !Wins(P, k, j) {
        var k', i' := Rival(P, k, j, P[k][j], P[k][j + 1]);
      }
    }
    if n <= i + 1 {
      assert n > 0 && Beaten(P, k, n - 1, P[k][n - 1], P[k][n]);
    }
  }

  /** A cut path stays if it still holds an edge, or is a single node with a drop rule. */
  predicate Stays(g: Graph, p: seq<Addr>) {
    |p| > 1 || (|p| == 1 && p[0] in g && g[p[0]].next == p[0])
  }

  /** What conflict resolution leaves of the first n paths. */
  ghost function Survivors(g: Graph, P: PathList, n: nat): PathList
    requires n <= |P|
  {
    if n == 0 then []
    else Survivors(g, P, n - 1) + (if Stays(g, Kept(P, n - 1)) then [Kept(P, n - 1)] else [])
  }

  /** Survivors are cut paths of the list, in list order. */
  lemma {:induction false} SurvivorFrom(g: Graph, P: PathList, n: nat, a: nat) returns (k: nat)
    requires n <= |P| && a < |Survivors(g, P, n)|
    ensures k < n && Survivors(g, P, n)[a] == Kept(P, k) && Stays(g, Kept(P, k))
  {
    if a < |Survivors(g, P, n - 1)| {
      k := SurvivorFrom(g, P, n - 1, a);
    } else {
      k := n - 1;
    }
  }

  lemma {:induction false} SurvivorsInOrder(g: Graph, P: PathList, n: nat, a: nat, b: nat) returns (k: nat, k': nat)
    requires n <= |P| && a < b < |Survivors(g, P, n)|
    ensures k < k' < n && Survivors(g, P, n)[a] == Kept(P, k) && Survivors(g, P, n)[b] == Kept(P, k')
  {
    if b < |Survivors(g, P, n - 1)| {
      k, k' := SurvivorsInOrder(g, P, n - 1, a, b);
    } else {
      k := SurvivorFrom(g, P, n - 1, a);
      k' := n - 1;
    }
  }

  lemma {:induction false} KeptSurvives(g: Graph, P: PathList, n: nat, k: nat)
    requires k < n <= |P| && Stays(g, Kept(P, k))
    ensures Kept(P, k) in Survivors(g, P, n)
  {
    if k < n - 1 {
      KeptSurvives(g, P, n - 1, k);
    }
  }

  /** For any list of paths: no edge lies in two of the cut paths. */
  lemma {:induction false} CutPathsAreEdgeDisjoint(P: PathList, k: int, k': int, i: int, i': int, u: Addr, v: Addr)
    requires 0 <= k < |P| && 0 <= k' < |P|
    requires EdgeAt(Kept(P, k), i, u, v) && EdgeAt(Kept(P, k'), i', u, v)
    ensures k == k' && i == i'
  {
    CutFromMeans(P, k, 0);
    CutFromMeans(P, k', 0);
    assert EdgeAt(P[k], i, u, v) && EdgeAt(P[k'], i', u, v);
    assert Wins(P, k, i) && Wins(P, k', i');
  }

  /** Every edge of the list is won by some path. */
  lemma {:induction false} EveryEdgeHasAWinner(P: PathList, k: int, i: int) returns (w: int, j: int)
    requires 0 <= k < |P| && 0 <= i < |P[k]| - 1
    ensures 0 <= w < |P| && EdgeAt(P[w], j, P[k][i], P[k][i + 1]) && Wins(P, w, j)
    decreases i, k
  {
    if Wins(P, k, i) {
      w, j := k, i;
    } else {
      var k', i' := Rival(P, k, i, P[k][i], P[k][i + 1]);
      w, j := EveryEdgeHasAWinner(P, k', i');
    }
  }

  function RootWalk(g: Graph, r: Addr): PathList
    requires ShortChains(g)
  {
    Walk(g, r, [], 0, false, MAX_PATH_LEN)
  }

  /** The walks from a list of starts, one after the other. */
  function AllWalks(g: Graph, starts: seq<Addr>): PathList
    requires ShortChains(g)
  {
    if starts == [] then []
    else
      var r := Last(starts);
      AllWalks(g, starts[..|starts| - 1]) + RootWalk(g, r)
  }

  lemma {:induction false} AllWalksAre(g: Graph, starts: seq<Addr>, p: seq<Addr>)
    requires ShortChains(g)
    ensures p in AllWalks(g, starts) <==> exists r :: r in starts && p in RootWalk(g, r)
  {
    if starts != [] {
      var front, r := starts[..|starts| - 1], Last(starts);
      AllWalksAre(g, front, p);
      assert starts == front + [r];
      assert forall x :: x in starts <==> x in front || x == r;
      AllWalksAre(g, front, p);
    }
  }

  predicate IsRoot(g: Graph, r: Addr) {
    forall w :: w in g ==> g[w].next != r
  }

  /** P lists what the walks from the starts recorded, in any order. */
  ghost predicate RecordedList(g: Graph, starts: seq<Addr>, P: PathList) {
    && ShortChains(g)
    && (forall r :: r in g && IsRoot(g, r) ==> r in starts)
    && (forall p :: p in P <==> p in AllWalks(g, starts))
  }

  /** The same as far as paths with an edge go, which is all that matters below. */
  ghost predicate EdgesRecorded(g: Graph, starts: seq<Addr>, P: PathList) {
    && ShortChains(g)
    && (forall r :: r in g && IsRoot(g, r) ==> r in starts)
    && (forall p :: |p| >= 2 ==> (p in P <==> p in AllWalks(g, starts)))
  }

  /** Above every node there is a root. */
  lemma {:induction false} RootAbove(g: Graph, t: seq<Addr>) returns (t': seq<Addr>)
    requires ShortChains(g) && Contig(g, t) && |t| > 0
    ensures Contig(g, t') && |t'| > 0 && Last(t') == Last(t) && IsRoot(g, t'[0])
    decreases MAX_PATH_LEN - Len(g, t[0])
  {
    if IsRoot(g, t[0]) {
      t' := t;
    } else {
      var w :| w in g && g[w].next == t[0];
      LenStep(g, w);
      ContigJoin(g, [w], t);
      t' := RootAbove(g, [w] + t);
    }
  }

  /** Each changed rule's edge is recorded. */
  lemma {:induction false} ChangedEdgesAreRecorded(g: Graph, starts: seq<Addr>, P: PathList, c: Addr) returns (k: int)
    requires EdgesRecorded(g, starts, P) && Changed(g, c)
    ensures 0 <= k < |P| && HasEdge(P[k], c)
  {
    var t := RootAbove(g, [c]);
    assert |t| > 1 ==> StepAt(g, t, 0);
    var p := Covered(g, t[0], [], 0, false, MAX_PATH_LEN, t);
    AllWalksAre(g, starts, p);
    assert p in P;
    k :| 0 <= k < |P| && P[k] == p;
  }

  lemma {:induction false} RecordedPath(g: Graph, starts: seq<Addr>, P: PathList, k: int) returns (r: Addr)
    requires EdgesRecorded(g, starts, P) && 0 <= k < |P|
    requires |P[k]| >= 2
    ensures Recorded(g, P[k]) && r in starts && P[k] in RootWalk(g, r)
    ensures forall p :: p in RootWalk(g, r) && |p| >= 2 ==> p in P
  {
    AllWalksAre(g, starts, P[k]);
    assert P[k] in P;
    r :| r in starts && P[k] in RootWalk(g, r);
    WalkRecords(g, r, [], 0, false, MAX_PATH_LEN);
    forall p | p in RootWalk(g, r) && |p| >= 2
      ensures p in P
    {
      AllWalksAre(g, starts, p);
    }
  }

  /** Of two recorded paths through c, the one with the longer way to go from its start has c later. */
  lemma {:induction false} StartDecidesIndex(g: Graph, p: seq<Addr>, x: int, q: seq<Addr>, i: int)
    requires ShortChains(g) && Recorded(g, p) && Recorded(g, q)
    requires 0 <= x < |p| - 1 && 0 <= i < |q| - 1 && p[x] == q[i]
    ensures x - i == Len(g, p[0]) - Len(g, q[0])
    ensures EdgeAt(p, x, q[i], q[i + 1])
  {
    LenAlong(g, p, x);
    LenAlong(g, q, i);
    RunsAgree(g, p, x, q, i, 1);
  }

  /** Path V shares edge j of p but ends at or above p[i]: the run from V's end down to p[i]. */
  lemma {:induction false} RunBelow(g: Graph, p: seq<Addr>, i: int, j: int, V: seq<Addr>, j': int) returns (t: seq<Addr>)
    requires ShortChains(g) && Recorded(g, p) && Recorded(g, V)
    requires 0 <= j < i < |p| - 1 && Changed(g, p[i]) && EdgeAt(V, j', p[j], p[j + 1])
    requires |V| - 1 <= j' + (i - j)
    ensures |t| >= 2 && t[0] == Last(V) && Last(t) == p[i] && Contig(g, t)
    ensures Len(g, t[0]) < Len(g, p[0])
  {
    var d := |V| - 1 - j';
    var from := j + d;
    RunsAgree(g, p, j, V, j', d);
    t := p[from..i + 1];
    assert t[0] == p[from] == Last(V) && t[|t| - 1] == p[i] && from > 0;
    ContigPart(g, p, from, i + 1);
    LenAlong(g, p, from);
  }

  /**
   * The core of the argument.  Path k holds changed node c at index i and
   * another path reaches an earlier edge j of it no later.  Then some path
   * reaches c's own edge sooner than path k, or as soon and earlier in the list.
   */
  lemma {:induction false} RivalReachesFurther(g: Graph, starts: seq<Addr>, P: PathList, k: int, i: int,
                                               j: int, k': int, j': int)
    returns (w: int, x: int)
    requires EdgesRecorded(g, starts, P) && 0 <= k < |P| && 0 <= k' < |P|
    requires 0 <= j < i < |P[k]| - 1 && Changed(g, P[k][i])
    requires EdgeAt(P[k'], j', P[k][j], P[k][j + 1])
    requires j' < j || (j' == j && k' < k)
    ensures 0 <= w < |P| && EdgeAt(P[w], x, P[k][i], P[k][i + 1])
    ensures x < i || (x == i && w < k)
  {
    var p, V, q := P[k], P[k'], j' + (i - j);
    var _ := RecordedPath(g, starts, P, k);
    var r := RecordedPath(g, starts, P, k');
    if q < |V| - 1 {
      RunsAgree(g, p, j, V, j', i - j);
      RunsAgree(g, p, i, V, q, 1);
      w, x := k', q;
    } else {
      // V ends at or above c: its walk goes on and restarts below V's end.
      var t := RunBelow(g, p, i, j, V, j');
      var p' := CoveredLater(g, r, [], 0, false, MAX_PATH_LEN, V, t);
      assert p' in RootWalk(g, r);
      w :| 0 <= w < |P| && P[w] == p';
      x :| 0 <= x < |p'| - 1 && p'[x] == p[i];
      var _ := RecordedPath(g, starts, P, w);
      StartDecidesIndex(g, p', x, p, i);
    }
  }

  /** Cutting losing paths never drops a changed rule: its edge stays in the path that won it. */
  lemma {:induction false} NoChangedEdgeIsCut(g: Graph, starts: seq<Addr>, P: PathList, c: Addr) returns (k: int, i: int)
    requires EdgesRecorded(g, starts, P) && Changed(g, c)
    ensures 0 <= k < |P| && EdgeAt(Kept(P, k), i, c, g[c].next)
  {
    var k0 := ChangedEdgesAreRecorded(g, starts, P, c);
    var _ := RecordedPath(g, starts, P, k0);
    var i0 :| 0 <= i0 < |P[k0]| - 1 && P[k0][i0] == c;
    assert StepAt(g, P[k0], i0);
    k, i := EveryEdgeHasAWinner(P, k0, i0);
    var n := CutFrom(P, k, 0);
    CutFromMeans(P, k, 0);
    if n - 1 <= i {
      CutAboveIsImpossible(g, starts, P, k, i, n);
    }
  }

  lemma {:induction false} CutAboveIsImpossible(g: Graph, starts: seq<Addr>, P: PathList, k: int, i: int, n: int)
    requires EdgesRecorded(g, starts, P) && 0 <= k < |P|
    requires 0 <= i < |P[k]| - 1 && Changed(g, P[k][i]) && Wins(P, k, i)
    requires 1 <= n <= i + 1
    ensures Wins(P, k, n - 1)
  {
    if n <= i && !Soonest(P, k, n - 1, P[k][n - 1], P[k][n]) {
      var k', j' := Rival(P, k, n - 1, P[k][n - 1], P[k][n]);
      var w, x := RivalReachesFurther(g, starts, P, k, i, n - 1, k', j');
      assert false;
    }
  }

  lemma {:induction false} KeptEdge(g: Graph, starts: seq<Addr>, P: PathList, k: nat, i: nat)
    requires EdgesRecorded(g, starts, P) && k < |P| && i < |Kept(P, k)| - 1
    ensures Kept(P, k)[i] in g && EdgeAt(Kept(P, k), i, Kept(P, k)[i], g[Kept(P, k)[i]].next)
  {
    var _ := RecordedPath(g, starts, P, k);
    assert StepAt(g, P[k], i);
  }

  /** The same, where `full` may have drop rules besides the rules of g, whose single nodes survive too. */
  lemma {:induction false} PlannedOnceIn(g: Graph, full: Graph, starts: seq<Addr>, P: PathList, c: Addr)
    requires EdgesRecorded(g, starts, P) && Changed(g, c)
    ensures
      var S := Survivors(full, P, |P|);
      && (exists a :: 0 <= a < |S| && HasEdge(S[a], c))
      && (forall a, b :: 0 <= a < b < |S| && HasEdge(S[a], c) ==> !HasEdge(S[b], c))
  {
    var S := Survivors(full, P, |P|);
    var k, i := NoChangedEdgeIsCut(g, starts, P, c);
    KeptSurvives(full, P, |P|, k);
    var a :| 0 <= a < |S| && S[a] == Kept(P, k);
    assert HasEdge(S[a], c);
    forall a, b | 0 <= a < b < |S| && HasEdge(S[a], c) && HasEdge(S[b], c)
      ensures false
    {
      var k, k' := SurvivorsInOrder(full, P, |P|, a, b);
      var i :| 0 <= i < |S[a]| - 1 && S[a][i] == c;
      var j :| 0 <= j < |S[b]| - 1 && S[b][j] == c;
      KeptEdge(g, starts, P, k, i);
      KeptEdge(g, starts, P, k', j);
      CutPathsAreEdgeDisjoint(P, k, k', i, j, c, g[c].next);
    }
  }

  /**
   * The planning theorem: after conflict resolution the edge of every changed
   * node lies in exactly one surviving path, at one place.
   */
  lemma {:induction false} EveryChangeIsPlannedOnce(g: Graph, starts: seq<Addr>, P: PathList, c: Addr)
    requires EdgesRecorded(g, starts, P) && Changed(g, c)
    ensures
      var S := Survivors(g, P, |P|);
      && (exists a :: 0 <= a < |S| && HasEdge(S[a], c))
      && (forall a, b :: 0 <= a < b < |S| && HasEdge(S[a], c) ==> !HasEdge(S[b], c))
  {
    PlannedOnceIn(g, g, starts, P, c);
  }

  /** In a loop-free graph every survivor is a run of at least one rule, without repetition. */
  lemma {:induction false} SurvivorsAreRuns(g: Graph, starts: seq<Addr>, P: PathList, a: nat)
    requires EdgesRecorded(g, starts, P) && a < |Survivors(g, P, |P|)|
    ensures
      var p := Survivors(g, P, |P|)[a];
      |p| >= 2 && Contig(g, p) && Distinct(p) && Changed(g, p[0])
  {
    var k := SurvivorFrom(g, P, |P|, a);
    var p := Kept(P, k);
    if p[0] in g {
      LenStep(g, p[0]);
    }
    assert |p| > 1;
    var _ := RecordedPath(g, starts, P, k);
    ContigPart(g, P[k], 0, |p|);
    assert P[k][0..|p|] == p;
    ContigDistinct(g, p);
  }
}
