// Planning in the presence of drop rules, the loops the controller makes
// itself.  Their walks plan every other changed rule as before; a changed drop
// rule is unmarked like them, but not always planned.
module DropRules {
  import opened Common
  import opened RuleGraph
  import opened PathConflicts
  import opened LoopWalks
  import opened Recording

  predicate Drops(g: Graph, u: Addr) {
    u in g && g[u].next == u
  }

  /** The rules that lead on. */
  function Bare(g: Graph): Graph {
    map u | u in g && g[u].next != u :: g[u]
  }

  /** Two lists agree in the paths that have an edge. */
  ghost predicate SameEdges(a: PathList, b: PathList) {
    forall p :: |p| >= 2 ==> (p in a <==> p in b)
  }

  lemma {:induction false} SameEdgesBehind(p: seq<Addr>, a: PathList, b: PathList)
    requires SameEdges(a, b)
    ensures SameEdges([p] + a, [p] + b)
  {
  }

  lemma {:induction false} IdleDropForEver(g: Graph, u: Addr, path: seq<Addr>, lives: int, calls: nat)
    requires Drops(g, u) && !Changed(g, u)
    ensures Record(g, u, path, lives, false, calls).None?
  {
    RecordReturns(g, u, path, lives, false, calls);
    IdleLoopNeverReturns(g, {u}, u, path, lives, calls);
  }

  /**
   * A walk that returns records the same edges as the walk on the rules that lead on, and
   * in addition at most a drop rule by itself.
   */
  lemma {:induction false} RecordIsWalk(g: Graph, u: Addr, path: seq<Addr>, lives: int, active: bool, calls: nat, n: nat)
    requires Ends(Bare(g), u, n) && (!active ==> path == []) && (active ==> path != []) && |path| + n <= MAX_PATH_LEN
    requires Record(g, u, path, lives, active, calls).Some?
    ensures SameEdges(Record(g, u, path, lives, active, calls).value, Walk(Bare(g), u, path, lives, active, n))
    decreases n
  {
    var g0 := Bare(g);
    if u in g0 {
      var path' := if |path| < MAX_PATH_LEN then path + [u] else path;
      var lives' := (if Changed(g, u) then MAX_CHANGED_LIFES else lives) - 1;
      assert Changed(g0, u) == Changed(g, u) && g0[u] == g[u];
      if !active && !Changed(g, u) {
        RecordIsWalk(g, g[u].next, path, lives, false, calls - 1, n - 1);
      } else if lives' < 0 {
        RecordIsWalk(g, g[u].next, [], MAX_CHANGED_LIFES, false, calls - 1, n - 1);
        SameEdgesBehind(path', Record(g, g[u].next, [], MAX_CHANGED_LIFES, false, calls - 1).value,
                        Walk(g0, g[u].next, [], MAX_CHANGED_LIFES, false, n - 1));
      } else if g[u].next !in path' {
        RecordIsWalk(g, g[u].next, path', lives', true, calls - 1, n - 1);
      }
    } else if u in g {
      RecordAtDrop(g, u, path, lives, active, calls, n);
    }
  }

  lemma {:induction false} RecordAtDrop(g: Graph, u: Addr, path: seq<Addr>, lives: int, active: bool, calls: nat, n: nat)
    requires Drops(g, u) && Ends(Bare(g), u, n) && (!active ==> path == []) && (active ==> path != []) && |path| + n <= MAX_PATH_LEN
    requires Record(g, u, path, lives, active, calls).Some?
    ensures SameEdges(Record(g, u, path, lives, active, calls).value, Walk(Bare(g), u, path, lives, active, n))
  {
    if !Changed(g, u) {
      IdleDropForEver(g, u, path, lives, calls - 1);
      IdleDropForEver(g, u, [], MAX_CHANGED_LIFES, calls - 1);
    }
  }

  // ---- The plan.

  /** The only loops are drop rules, and P lists what the walks from the starts record. */
  ghost predicate FoundList(g: Graph, starts: seq<Addr>, P: PathList) {
    ShortChains(Bare(g)) && FoundBy(g, starts, P)
  }

  /** A table without loops is one of these. */
  lemma {:induction false} LoopFreeIsBare(g: Graph)
    requires ShortChains(g)
    ensures Bare(g) == g
  {
    forall u | u in g
      ensures g[u].next != u
    {
      LenStep(g, u);
    }
  }

  lemma {:induction false} FoundIsRootWalk(g: Graph, r: Addr, p: seq<Addr>)
    requires ShortChains(Bare(g)) && Finishes(g, r) && |p| >= 2
    ensures FoundFrom(g, r, p) <==> p in RootWalk(Bare(g), r)
  {
    var calls: nat :| Record(g, r, [], 0, false, calls).Some?;
    RecordIsWalk(g, r, [], 0, false, calls, MAX_PATH_LEN);
    if p in RootWalk(Bare(g), r) {
      assert InRecord(g, r, calls, p);
    }
    if other: nat :| InRecord(g, r, other, p) {
      RecordIsWalk(g, r, [], 0, false, other, MAX_PATH_LEN);
    }
  }

  /** As far as edges go the list is the one of the rules that lead on. */
  lemma {:induction false} FoundEdges(g: Graph, starts: seq<Addr>, P: PathList)
    requires FoundList(g, starts, P)
    ensures EdgesRecorded(Bare(g), starts, P)
  {
    var g0 := Bare(g);
    forall r | r in g0 && IsRoot(g0, r)
      ensures r in starts
    {
      forall w | w in g
        ensures g[w].next != r
      {
        assert w in g0 || g[w].next == w;
      }
    }
    forall p | |p| >= 2
      ensures p in P <==> p in AllWalks(g0, starts)
    {
      AllWalksAre(g0, starts, p);
      forall r | r in starts
        ensures FoundFrom(g, r, p) <==> p in RootWalk(g0, r)
      {
        FoundIsRootWalk(g, r, p);
      }
    }
  }

  /** The planning theorem with drop rules: the edge of every changed rule that leads on lies in exactly one surviving path. */
  lemma {:induction false} RulesThatLeadOnArePlannedOnce(g: Graph, starts: seq<Addr>, P: PathList, c: Addr)
    requires FoundList(g, starts, P) && Changed(g, c) && !Drops(g, c)
    ensures
      var S := Survivors(g, P, |P|);
      && (exists a :: 0 <= a < |S| && HasEdge(S[a], c))
      && (forall a, b :: 0 <= a < b < |S| && HasEdge(S[a], c) ==> !HasEdge(S[b], c))
  {
    FoundEdges(g, starts, P);
    assert Changed(Bare(g), c);
    PlannedOnceIn(Bare(g), g, starts, P, c);
  }

  /** A drop rule is planned, as a path of its own, exactly if it is recorded as one. */
  lemma {:induction false} DropSurvivesIff(g: Graph, starts: seq<Addr>, P: PathList, x: Addr)
    requires FoundList(g, starts, P) && Drops(g, x)
    ensures [x] in Survivors(g, P, |P|) <==> [x] in P
  {
    FoundEdges(g, starts, P);
    var S := Survivors(g, P, |P|);
    if [x] in P {
      var k :| 0 <= k < |P| && P[k] == [x];
      assert Kept(P, k) == [x];
      KeptSurvives(g, P, |P|, k);
    }
    if [x] in S {
      var a :| 0 <= a < |S| && S[a] == [x];
      var k := SurvivorFrom(g, P, |P|, a);
      assert P[k][0] == [x][0];
      if |P[k]| >= 2 {
        var _ := RecordedPath(Bare(g), starts, P, k);
        assert false;
      }
      assert P[k] == [x];
    }
  }

  // ---- Which drop rules are recorded.

  /** The chain from u, by the rules that lead on. */
  function Chain(g0: Graph, u: Addr, n: nat): (s: seq<Addr>)
    requires Ends(g0, u, n)
    ensures |s| >= 1 && s[0] == u && Last(s) !in g0 && |s| <= n
    decreases n, u
  {
    if u in g0 then [u] + Chain(g0, g0[u].next, n - 1) else [u]
  }

  /** On arrival at the end of the chain: the allowance that is left, or -1. */
  function LivesAtEnd(g0: Graph, u: Addr, lives: int, n: nat): int
    requires Ends(g0, u, n)
    decreases n, u
  {
    if u in g0 then LivesAtEnd(g0, g0[u].next, Allowance(g0, u, lives), n - 1) else lives
  }

  lemma {:induction false} AnyLives(g: Graph, u: Addr, path: seq<Addr>, x: int, y: int, calls: nat)
    ensures Record(g, u, path, x, false, calls) == Record(g, u, path, y, false, calls)
    decreases calls
  {
    if calls > 0 && u in g && !Changed(g, u) {
      AnyLives(g, g[u].next, path, x, y, calls - 1);
    }
  }

  /** The walk is at u, with this run behind it, on a chain that ends within n nodes. */
  ghost predicate OnChain(g: Graph, u: Addr, path: seq<Addr>, lives: int, n: nat) {
    && ShortChains(Bare(g)) && Contig(Bare(g), path + [u])
    && Ends(Bare(g), u, n) && (lives < 0 <==> path == []) && |path| + n <= MAX_PATH_LEN
  }

  lemma {:induction false} OnChainNext(g: Graph, u: Addr, path: seq<Addr>, lives: int, n: nat)
    requires OnChain(g, u, path, lives, n) && u in Bare(g)
    ensures n > 0 && g[u].next !in path + [u]
    ensures
      var l := Allowance(g, u, lives);
      OnChain(g, g[u].next, if l >= 0 then path + [u] else [], if l >= 0 then l else -1, n - 1)
  {
    ChainStep(g, u, lives, n);
    NextIsNewOnChain(Bare(g), path, u);
    assert [] + [g[u].next] == [g[u].next];
  }

  lemma {:induction false} NextIsNewOnChain(g0: Graph, path: seq<Addr>, u: Addr)
    requires ShortChains(g0) && Contig(g0, path + [u]) && u in g0
    ensures g0[u].next !in path + [u] && Contig(g0, path + [u] + [g0[u].next])
  {
    var run := path + [u] + [g0[u].next];
    ContigJoin(g0, path + [u], [g0[u].next]);
    ContigDistinct(g0, run);
    forall x | x in path + [u]
      ensures x != g0[u].next
    {
      var i :| 0 <= i < |path + [u]| && (path + [u])[i] == x;
      assert run[i] == x && run[|path| + 1] == g0[u].next;
    }
  }

  /** One call of the walk at a rule that leads on. */
  lemma {:induction false} RecordStep(g: Graph, u: Addr, path: seq<Addr>, lives: int, calls: nat)
    requires u in Bare(g) && (lives < 0 <==> path == []) && |path| < MAX_PATH_LEN && g[u].next !in path + [u]
    requires Record(g, u, path, lives, lives >= 0, calls).Some?
    ensures
      var l, next, found := Allowance(g, u, lives), g[u].next, Record(g, u, path, lives, lives >= 0, calls).value;
      && calls > 0
      && if l >= 0 then Some(found) == Record(g, next, path + [u], l, true, calls - 1)
         else if lives < 0 then Some(found) == Record(g, next, [], -1, false, calls - 1)
         else Some(found) == Behind(path + [u], Record(g, next, [], -1, false, calls - 1))
  {
    AnyLives(g, g[u].next, [], lives, -1, calls - 1);
    AnyLives(g, g[u].next, [], MAX_CHANGED_LIFES, -1, calls - 1);
  }

  ghost predicate EndsARun(found: PathList, x: Addr) {
    exists p :: p in found && |p| >= 2 && Last(p) == x
  }

  /** With this allowance on arrival, x is recorded by itself or else at the end of a run. */
  ghost predicate DropFound(found: PathList, x: Addr, lives: int) {
    ([x] in found <==> lives < 0) && (lives >= 0 ==> EndsARun(found, x))
  }

  /** A walk whose chain ends in a changed drop rule records it by itself if it arrives without a run, and else at the end of one. */
  lemma {:induction false} DropAtEnd(g: Graph, u: Addr, path: seq<Addr>, lives: int, calls: nat, n: nat, x: Addr)
    requires OnChain(g, u, path, lives, n)
    requires x == Last(Chain(Bare(g), u, n)) && Drops(g, x) && Changed(g, x)
    requires Record(g, u, path, lives, lives >= 0, calls).Some?
    ensures DropFound(Record(g, u, path, lives, lives >= 0, calls).value, x, LivesAtEnd(Bare(g), u, lives, n))
    decreases n
  {
    if u in Bare(g) {
      var l, next, c, m, run := Allowance(g, u, lives), g[u].next, calls - 1, n - 1, path + [u];
      ChainStep(g, u, lives, n);
      OnChainNext(g, u, path, lives, n);
      RecordStep(g, u, path, lives, calls);
      if l >= 0 {
        DropAtEnd(g, next, run, l, c, m, x);
      } else {
        DropAtEnd(g, next, [], -1, c, m, x);
        FoundBehind(run, Record(g, next, [], -1, false, c).value, x, LivesAtEnd(Bare(g), next, -1, m));
      }
    } else {
      DropHere(g, x, path, lives, calls);
    }
  }

  lemma {:induction false} FoundBehind(run: seq<Addr>, below: PathList, x: Addr, lives: int)
    requires run != [] && Last(run) != x && DropFound(below, x, lives)
    ensures DropFound([run] + below, x, lives)
  {
    MoreFound(run, below, x);
  }

  lemma {:induction false} ChainStep(g: Graph, u: Addr, lives: int, n: nat)
    requires u in Bare(g) && Ends(Bare(g), u, n)
    ensures Bare(g)[u] == g[u] && n > 0 && Ends(Bare(g), g[u].next, n - 1)
    ensures Last(Chain(Bare(g), u, n)) == Last(Chain(Bare(g), g[u].next, n - 1)) != u
    ensures LivesAtEnd(Bare(g), u, lives, n) == LivesAtEnd(Bare(g), g[u].next, Allowance(g, u, lives), n - 1)
  {
    assert Changed(Bare(g), u) == Changed(g, u);
  }

  lemma {:induction false} DropHere(g: Graph, x: Addr, path: seq<Addr>, lives: int, calls: nat)
    requires Drops(g, x) && Changed(g, x) && (lives < 0 <==> path == []) && |path| < MAX_PATH_LEN
    requires Record(g, x, path, lives, lives >= 0, calls).Some?
    ensures DropFound(Record(g, x, path, lives, lives >= 0, calls).value, x, lives)
  {
    var run := path + [x];
    assert Record(g, x, path, lives, lives >= 0, calls).value == [run];
    assert run[|run| - 1] == x && run in [run];
    if path == [] {
      assert run == [x];
    }
  }

  lemma {:induction false} MoreFound(p: seq<Addr>, rest: PathList, x: Addr)
    requires p != [] && Last(p) != x
    ensures [x] in [p] + rest <==> [x] in rest
    ensures EndsARun(rest, x) ==> EndsARun([p] + rest, x)
  {
    if EndsARun(rest, x) {
      var q :| q in rest && |q| >= 2 && Last(q) == x;
      assert q in [p] + rest;
    }
  }

  predicate HasSingle(found: Option<PathList>, x: Addr) {
    found.Some? && [x] in found.value
  }

  /** A drop rule is recorded by itself further down: the state of the next call. */
  lemma {:induction false} SingleBelow(g: Graph, u: Addr, path: seq<Addr>, lives: int, calls: nat, n: nat, x: Addr)
    returns (path': seq<Addr>, lives': int)
    requires u in Bare(g) && OnChain(g, u, path, lives, n) && Drops(g, x)
    requires HasSingle(Record(g, u, path, lives, lives >= 0, calls), x)
    ensures n > 0 && calls > 0 && OnChain(g, g[u].next, path', lives', n - 1)
    ensures HasSingle(Record(g, g[u].next, path', lives', lives' >= 0, calls - 1), x)
  {
    OnChainNext(g, u, path, lives, n);
    RecordStep(g, u, path, lives, calls);
    var l, rest := Allowance(g, u, lives), Record(g, g[u].next, [], -1, false, calls - 1);
    path', lives' := if l >= 0 then path + [u] else [], if l >= 0 then l else -1;
    if l < 0 && lives >= 0 {
      assert Last(path + [u]) == u != x;
      MoreFound(path + [u], rest.value, x);
    }
  }

  /** Nothing is recorded that the chain does not pass. */
  lemma {:induction false} OnlyTheChain(g: Graph, u: Addr, path: seq<Addr>, lives: int, calls: nat, n: nat, x: Addr)
    requires OnChain(g, u, path, lives, n)
    requires HasSingle(Record(g, u, path, lives, lives >= 0, calls), x) && Drops(g, x)
    ensures x == Last(Chain(Bare(g), u, n))
    decreases n
  {
    if u in Bare(g) {
      var path', lives' := SingleBelow(g, u, path, lives, calls, n, x);
      ChainStep(g, u, lives, n);
      OnlyTheChain(g, g[u].next, path', lives', calls - 1, n - 1, x);
    } else {
      OnlyHere(g, u, path, lives, calls, x);
    }
  }

  lemma {:induction false} OnlyHere(g: Graph, u: Addr, path: seq<Addr>, lives: int, calls: nat, x: Addr)
    requires u !in Bare(g) && (lives < 0 <==> path == []) && |path| < MAX_PATH_LEN
    requires Record(g, u, path, lives, lives >= 0, calls).Some?
    requires [x] in Record(g, u, path, lives, lives >= 0, calls).value
    ensures x == u
  {
    if u in g && !Changed(g, u) {
      IdleDropForEver(g, u, path, lives, calls - 1);
      IdleDropForEver(g, u, [], MAX_CHANGED_LIFES, calls - 1);
    }
    assert Last(path + [u]) == u;
  }

  /** Some start's chain leads to x, and none of the three nodes in front of x on it has a changed rule. */
  ghost predicate ReachedCold(g: Graph, starts: seq<Addr>, x: Addr)
    requires ShortChains(Bare(g))
  {
    exists r :: r in starts && ColdChain(Bare(g), r, x)
  }

  predicate ColdChain(g0: Graph, r: Addr, x: Addr)
    requires Ends(g0, r, MAX_PATH_LEN)
  {
    var s := Chain(g0, r, MAX_PATH_LEN);
    Last(s) == x && (|s| == 1 || !Warm(g0, s, |s| - 2))
  }

  lemma {:induction false} LivesAlongChain(g0: Graph, u: Addr, lives: int, n: nat)
    requires Ends(g0, u, n)
    ensures
      var s := Chain(g0, u, n);
      LivesAtEnd(g0, u, lives, n) == LivesAfter(g0, s[..|s| - 1], lives)
    decreases n
  {
    if u in g0 {
      var s, rest := Chain(g0, u, n), Chain(g0, g0[u].next, n - 1);
      LivesAlongChain(g0, g0[u].next, Allowance(g0, u, lives), n - 1);
      assert s[..|s| - 1] == [u] + rest[..|rest| - 1];
      LivesAfterOne(g0, u, rest[..|rest| - 1], lives);
    }
  }

  /** The allowance behind all these nodes. */
  function LivesAfter(g0: Graph, s: seq<Addr>, lives: int): int {
    if s == [] then lives else Allowance(g0, Last(s), LivesAfter(g0, s[..|s| - 1], lives))
  }

  lemma {:induction false} LivesAfterOne(g0: Graph, u: Addr, s: seq<Addr>, lives: int)
    ensures LivesAfter(g0, [u] + s, lives) == LivesAfter(g0, s, Allowance(g0, u, lives))
  {
    if s == [] {
      assert [u] + s == [u] && [u][..0] == [];
    } else {
      var front := s[..|s| - 1];
      assert ([u] + s)[..|s|] == [u] + front && Last([u] + s) == Last(s);
      LivesAfterOne(g0, u, front, lives);
    }
  }

  lemma {:induction false} LivesAfterIs(g0: Graph, s: seq<Addr>, i: nat)
    requires i <= |s|
    ensures LivesAfter(g0, s[..i], -1) == LivesAt(g0, s, i)
  {
    if i > 0 {
      assert s[..i][..i - 1] == s[..i - 1];
      LivesAfterIs(g0, s, i - 1);
    }
  }

  lemma {:induction false} ColdIff(g0: Graph, u: Addr, n: nat)
    requires Ends(g0, u, n)
    ensures
      var s := Chain(g0, u, n);
      LivesAtEnd(g0, u, -1, n) < 0 <==> |s| == 1 || !Warm(g0, s, |s| - 2)
  {
    var s := Chain(g0, u, n);
    LivesAlongChain(g0, u, -1, n);
    LivesAfterIs(g0, s, |s| - 1);
    if |s| >= 2 {
      LivesAre(g0, s, |s| - 2);
    }
  }

  /**
   * The exact condition for a changed drop rule to be planned: some walk arrives at it without a
   * run.  Otherwise every path that runs into it ends with it, as the next hop of the node in front.
   */
  lemma {:induction false} DropRuleIsPlannedIff(g: Graph, starts: seq<Addr>, P: PathList, x: Addr)
    requires FoundList(g, starts, P) && Drops(g, x) && Changed(g, x)
    ensures [x] in Survivors(g, P, |P|) <==> ReachedCold(g, starts, x)
  {
    DropSurvivesIff(g, starts, P, x);
    forall r | r in starts
      ensures FoundFrom(g, r, [x]) <==> ColdChain(Bare(g), r, x)
    {
      DropFoundIff(g, r, x);
    }
  }

  lemma {:induction false} DropFoundIff(g: Graph, r: Addr, x: Addr)
    requires ShortChains(Bare(g)) && Finishes(g, r) && Drops(g, x) && Changed(g, x)
    ensures FoundFrom(g, r, [x]) <==> ColdChain(Bare(g), r, x)
  {
    var g0 := Bare(g);
    ColdIff(g0, r, MAX_PATH_LEN);
    assert [] + [r] == [r] && OnChain(g, r, [], -1, MAX_PATH_LEN);
    if ColdChain(g0, r, x) {
      var calls: nat :| Record(g, r, [], 0, false, calls).Some?;
      AnyLives(g, r, [], 0, -1, calls);
      DropAtEnd(g, r, [], -1, calls, MAX_PATH_LEN, x);
      assert InRecord(g, r, calls, [x]);
    }
    if calls: nat :| InRecord(g, r, calls, [x]) {
      AnyLives(g, r, [], 0, -1, calls);
      OnlyTheChain(g, r, [], -1, calls, MAX_PATH_LEN, x);
      DropAtEnd(g, r, [], -1, calls, MAX_PATH_LEN, x);
    }
  }

  /**
   * The smallest case: a changed rule that leads to a node with a changed drop rule.  One path is
   * planned, it holds both nodes, so both flags are cleared, but only the first node gets a rule.
   */
  lemma {:induction false} DropRuleIsForgotten(v: Addr, x: Addr)
    requires v != x
    ensures
      var g, P := map[v := Rule(x, true), x := Rule(x, true)], [[v, x]];
      FoundList(g, [v], P) && Survivors(g, P, 1) == [[v, x]] && !HasEdge([v, x], x)
  {
    var g, starts, p := map[v := Rule(x, true), x := Rule(x, true)], [v], [v, x];
    var P := [p];
    assert Bare(g) == map[v := Rule(x, true)];
    assert Ends(Bare(g), x, MAX_PATH_LEN - 1);
    TwoNodeWalk(g, v, x);
    assert v in starts;
    assert EdgeAt(p, 0, v, x) && Wins(P, 0, 0);
    assert CutFrom(P, 0, 1) == 2;
    assert p[..2] == p && Kept(P, 0) == p;
    assert Survivors(g, P, 0) == [];
  }

  lemma {:induction false} TwoNodeWalk(g: Graph, v: Addr, x: Addr)
    requires v != x && g == map[v := Rule(x, true), x := Rule(x, true)]
    ensures Finishes(g, v) && IsRoot(g, v) && !IsRoot(g, x)
    ensures forall p :: FoundFrom(g, v, p) <==> p == [v, x]
  {
    assert [] + [v] == [v] && [v] + [x] == [v, x];
    assert g[v].next == x;
    forall calls: nat | Record(g, v, [], 0, false, calls).Some?
      ensures Record(g, v, [], 0, false, calls) == Some([[v, x]])
    {
    }
    assert Record(g, v, [], 0, false, 2) == Some([[v, x]]);
    assert InRecord(g, v, 2, [v, x]);
  }

  // ---- A drop rule that is not planned is on a surviving path all the same.

  function End(g0: Graph, u: Addr): Addr
    requires ShortChains(g0)
  {
    Last(Chain(g0, u, MAX_PATH_LEN))
  }

  lemma {:induction false} EndAnyBound(g0: Graph, u: Addr, m: nat, n: nat)
    requires Ends(g0, u, m) && Ends(g0, u, n)
    ensures Last(Chain(g0, u, m)) == Last(Chain(g0, u, n))
    decreases m
  {
    if u in g0 {
      EndAnyBound(g0, g0[u].next, m - 1, n - 1);
    }
  }

  lemma {:induction false} EndStep(g0: Graph, u: Addr)
    requires ShortChains(g0)
    ensures End(g0, u) == if u in g0 then End(g0, g0[u].next) else u
  {
    if u in g0 {
      EndAnyBound(g0, g0[u].next, MAX_PATH_LEN - 1, MAX_PATH_LEN);
    }
  }

  lemma {:induction false} EndAlong(g0: Graph, p: seq<Addr>, i: nat)
    requires ShortChains(g0) && Contig(g0, p) && i < |p|
    ensures End(g0, p[i]) == End(g0, p[0])
  {
    if i > 0 {
      EndAlong(g0, p, i - 1);
      assert StepAt(g0, p, i - 1);
      EndStep(g0, p[i - 1]);
    }
  }

  /** Whatever a walk records lies on a chain with the same end. */
  lemma {:induction false} RecordedEnd(g0: Graph, u: Addr, path: seq<Addr>, lives: int, active: bool, n: nat, p: seq<Addr>)
    requires WalkState(g0, u, path, lives, active, n) && p != [] && p in Walk(g0, u, path, lives, active, n)
    ensures End(g0, p[0]) == End(g0, u)
    decreases n
  {
    var run := path + [u];
    var lives' := (if Changed(g0, u) then MAX_CHANGED_LIFES else lives) - 1;
    if active || Changed(g0, u) {
      if active {
        EndAlong(g0, run, |path|);
      }
      assert End(g0, run[0]) == End(g0, u);
    }
    if u in g0 {
      WalkStateNext(g0, u, path, lives, active, n);
      EndStep(g0, u);
      var v := g0[u].next;
      if !active && !Changed(g0, u) {
        RecordedEnd(g0, v, path, lives, false, n - 1, p);
      } else if lives' >= 0 {
        RecordedEnd(g0, v, run, lives', true, n - 1, p);
      } else if p in Walk(g0, v, [], MAX_CHANGED_LIFES, false, n - 1) {
        RecordedEnd(g0, v, [], MAX_CHANGED_LIFES, false, n - 1, p);
      }
    }
  }

  /** t leads from u to a node whose rule leads to the end of the chain, where the walk arrives with a run. */
  ghost predicate WarmDown(g0: Graph, u: Addr, lives: int, active: bool, n: nat, t: seq<Addr>) {
    && Ends(g0, u, n) && |t| > 0 && t[0] == u && Contig(g0, t)
    && Last(t) in g0 && g0[Last(t)].next !in g0
    && LivesAtEnd(g0, u, if active then lives else -1, n) >= 0
  }

  /** A walk that arrives with a run has recorded it: the edge that leads to the end is in it. */
  lemma {:induction false} WarmCovered(g0: Graph, u: Addr, path: seq<Addr>, lives: int, active: bool, n: nat, t: seq<Addr>)
    returns (p: seq<Addr>)
    requires WalkState(g0, u, path, lives, active, n) && WarmDown(g0, u, lives, active, n, t)
    ensures p in Walk(g0, u, path, lives, active, n) && HasEdge(p, Last(t))
    ensures (active && p[0] == path[0]) || Len(g0, p[0]) <= Len(g0, u)
    decreases n
  {
    var path' := path + [u];
    var v := WarmNext(g0, u, path, lives, active, n, t);
    var lives' := (if Changed(g0, u) then MAX_CHANGED_LIFES else lives) - 1;
    LenStep(g0, u);
    WalkStateNext(g0, u, path, lives, active, n);
    if |t| == 1 {
      p := path' + [v];
      assert p[|path|] == u;
      assert Walk(g0, v, path', lives', true, n - 1)[0] == p;
    } else if !active && !Changed(g0, u) {
      p := WarmCovered(g0, v, path, lives, false, n - 1, t[1..]);
    } else if lives' < 0 {
      p := WarmCovered(g0, v, [], MAX_CHANGED_LIFES, false, n - 1, t[1..]);
    } else {
      p := WarmCovered(g0, v, path', lives', true, n - 1, t[1..]);
    }
  }

  lemma {:induction false} WarmNext(g0: Graph, u: Addr, path: seq<Addr>, lives: int, active: bool, n: nat,
                                    t: seq<Addr>) returns (v: Addr)
    requires WalkState(g0, u, path, lives, active, n) && WarmDown(g0, u, lives, active, n, t)
    ensures u in g0 && v == g0[u].next && n > 0
    ensures
      var lives' := (if Changed(g0, u) then MAX_CHANGED_LIFES else lives) - 1;
      && (|t| == 1 ==> v !in g0 && (active || Changed(g0, u)) && lives' >= 0)
      && (|t| > 1 ==>
            && Last(t[1..]) == Last(t)
            && (!active && !Changed(g0, u) ==> WarmDown(g0, v, lives, false, n - 1, t[1..]))
            && ((active || Changed(g0, u)) && lives' < 0 ==> WarmDown(g0, v, MAX_CHANGED_LIFES, false, n - 1, t[1..]))
            && ((active || Changed(g0, u)) && lives' >= 0 ==> WarmDown(g0, v, lives', true, n - 1, t[1..])))
  {
    if |t| > 1 {
      ContigTail(g0, t);
    }
    v := g0[u].next;
    var l := if active then lives else -1;
    assert LivesAtEnd(g0, u, l, n) == LivesAtEnd(g0, v, Allowance(g0, u, l), n - 1);
    assert |t| == 1 ==> LivesAtEnd(g0, v, Allowance(g0, u, l), n - 1) == Allowance(g0, u, l);
  }

  /** After a recorded path V has ended on the way down, the edge that leads to the end is recorded in a later one. */
  lemma {:induction false} WarmCoveredLater(g0: Graph, u: Addr, path: seq<Addr>, lives: int, active: bool, n: nat,
                                            V: seq<Addr>, t: seq<Addr>)
    returns (p: seq<Addr>)
    requires WalkState(g0, u, path, lives, active, n) && Ends(g0, u, n)
    requires LivesAtEnd(g0, u, if active then lives else -1, n) >= 0
    requires V in Walk(g0, u, path, lives, active, n) && V != []
    requires |t| > 0 && t[0] == Last(V) && Contig(g0, t) && Last(t) in g0 && g0[Last(t)].next !in g0
    ensures p in Walk(g0, u, path, lives, active, n) && HasEdge(p, Last(t))
    ensures Len(g0, p[0]) < Len(g0, Last(V))
    decreases n
  {
    if |t| > 1 {
      ContigTail(g0, t);
    }
    LastRecordedHasRule(g0, u, path, lives, active, n, V);
    WalkStateNext(g0, u, path, lives, active, n);
    WalkOnward(g0, u, path, lives, active, n);
    LivesBelow(g0, u, lives, active, n);
    var v, path', m := g0[u].next, path + [u], n - 1;
    var lives' := (if Changed(g0, u) then MAX_CHANGED_LIFES else lives) - 1;
    if !active && !Changed(g0, u) {
      p := WarmCoveredLater(g0, v, path, lives, false, m, V, t);
    } else if lives' >= 0 {
      p := WarmCoveredLater(g0, v, path', lives', true, m, V, t);
    } else if V in Walk(g0, v, [], MAX_CHANGED_LIFES, false, m) {
      p := WarmCoveredLater(g0, v, [], MAX_CHANGED_LIFES, false, m, V, t);
    } else {
      p := WarmCoveredBelow(g0, u, m, t);
    }
  }

  /** How the walk goes on below a node with a rule. */
  lemma {:induction false} WalkOnward(g0: Graph, u: Addr, path: seq<Addr>, lives: int, active: bool, n: nat)
    requires WalkState(g0, u, path, lives, active, n) && u in g0
    ensures
      var v, path', m := g0[u].next, path + [u], n - 1;
      var lives' := (if Changed(g0, u) then MAX_CHANGED_LIFES else lives) - 1;
      && n > 0 && Ends(g0, v, m)
      && Walk(g0, u, path, lives, active, n) ==
         if !active && !Changed(g0, u) then Walk(g0, v, path, lives, false, m)
         else if lives' >= 0 then Walk(g0, v, path', lives', true, m)
         else [path'] + Walk(g0, v, [], MAX_CHANGED_LIFES, false, m)
  {
    WalkStateNext(g0, u, path, lives, active, n);
    LenStep(g0, u);
  }

  /** A run has ended at u: the edge at the end is recorded by the walk below. */
  lemma {:induction false} WarmCoveredBelow(g0: Graph, u: Addr, m: nat, t: seq<Addr>) returns (p: seq<Addr>)
    requires u in g0 && g0[u].next in g0 && WalkState(g0, g0[u].next, [], MAX_CHANGED_LIFES, false, m)
    requires LivesAtEnd(g0, g0[u].next, -1, m) >= 0
    requires |t| > 0 && t[0] == u && Contig(g0, t) && Last(t) in g0 && g0[Last(t)].next !in g0
    ensures p in Walk(g0, g0[u].next, [], MAX_CHANGED_LIFES, false, m) && HasEdge(p, Last(t))
    ensures Len(g0, p[0]) < Len(g0, u)
  {
    LenStep(g0, u);
    assert |t| > 1;
    ContigTail(g0, t);
    p := WarmCovered(g0, g0[u].next, [], MAX_CHANGED_LIFES, false, m, t[1..]);
  }

  lemma {:induction false} LivesBelow(g0: Graph, u: Addr, lives: int, active: bool, n: nat)
    requires u in g0 && Ends(g0, u, n) && LivesAtEnd(g0, u, if active then lives else -1, n) >= 0 && (active ==> lives >= 0)
    ensures n > 0
    ensures
      var v := g0[u].next;
      var lives' := (if Changed(g0, u) then MAX_CHANGED_LIFES else lives) - 1;
      && (!active && !Changed(g0, u) ==> LivesAtEnd(g0, v, -1, n - 1) >= 0)
      && ((active || Changed(g0, u)) && lives' < 0 ==> LivesAtEnd(g0, v, -1, n - 1) >= 0 && v in g0)
      && ((active || Changed(g0, u)) && lives' >= 0 ==> LivesAtEnd(g0, v, lives', n - 1) >= 0)
  {
    var l, v := if active then lives else -1, g0[u].next;
    assert LivesAtEnd(g0, u, l, n) == LivesAtEnd(g0, v, Allowance(g0, u, l), n - 1);
  }

  /** Every walk from the starts that comes to x arrives there with a run. */
  ghost predicate AllWarm(g0: Graph, starts: seq<Addr>, x: Addr)
    requires ShortChains(g0)
  {
    forall r :: r in starts && End(g0, r) == x ==> LivesAtEnd(g0, r, -1, MAX_PATH_LEN) >= 0
  }

  /** A recorded path that comes to x ends there, over the edge in front of it. */
  lemma {:induction false} ComesToX(g0: Graph, p: seq<Addr>, i: nat, x: Addr)
    requires ShortChains(g0) && Recorded(g0, p) && x !in g0 && i < |p| - 1 && p[i + 1] == x
    ensures i == |p| - 2 && p[i] in g0 && g0[p[i]].next == x && End(g0, p[0]) == x
  {
    assert StepAt(g0, p, i);
    assert i < |p| - 2 ==> StepAt(g0, p, i + 1);
    EndAlong(g0, p, i + 1);
    EndStep(g0, x);
  }

  /** The part of p from the end of V, which shares edge j of p, down to p[i]. */
  lemma {:induction false} RunDown(g0: Graph, p: seq<Addr>, i: nat, j: nat, V: seq<Addr>, j': nat) returns (t: seq<Addr>)
    requires ShortChains(g0) && Recorded(g0, p) && Recorded(g0, V)
    requires j < i < |p| - 1 && EdgeAt(V, j', p[j], p[j + 1]) && |V| - 1 <= j' + (i - j)
    ensures |t| > 0 && t[0] == Last(V) && Last(t) == p[i] && Contig(g0, t) && Len(g0, Last(V)) < Len(g0, p[0])
  {
    var d := |V| - 1 - j';
    var from := j + d;
    RunsAgree(g0, p, j, V, j', d);
    t := p[from..i + 1];
    assert t[0] == p[from] == Last(V) && t[|t| - 1] == p[i] && from > 0;
    ContigPart(g0, p, from, i + 1);
    LenAlong(g0, p, from);
  }

  /**
   * Path k comes to x over its last edge i, and another path reaches an earlier edge j of it no
   * later.  Then some path reaches the last edge sooner, or as soon and earlier in the list.
   */
  lemma {:induction false} RivalComesToX(g0: Graph, starts: seq<Addr>, P: PathList, k: nat, i: nat, j: nat,
                                         k': nat, j': nat, x: Addr)
    returns (w: int, y: int)
    requires EdgesRecorded(g0, starts, P) && x !in g0 && AllWarm(g0, starts, x) && k < |P| && k' < |P|
    requires j < i < |P[k]| - 1 && P[k][i + 1] == x && EdgeAt(P[k'], j', P[k][j], P[k][j + 1])
    requires j' < j || (j' == j && k' < k)
    ensures 0 <= w < |P| && EdgeAt(P[w], y, P[k][i], x) && (y < i || (y == i && w < k))
  {
    var p, V, q := P[k], P[k'], j' + (i - j);
    var _ := RecordedPath(g0, starts, P, k);
    var r := RecordedPath(g0, starts, P, k');
    if q < |V| - 1 {
      PassesToo(g0, p, i, j, V, j', q);
      w, y := k', q;
    } else {
      var p' := RunFurtherDown(g0, starts, p, i, j, V, j', r, x);
      w, y := SoonerBelow(g0, starts, P, p, i, p');
    }
  }

  /** A path that shares edge j and goes on long enough has the later edge too. */
  lemma {:induction false} PassesToo(g0: Graph, p: seq<Addr>, i: nat, j: nat, V: seq<Addr>, j': nat, q: nat)
    requires Contig(g0, p) && Contig(g0, V) && j < i < |p| - 1 && EdgeAt(V, j', p[j], p[j + 1])
    requires q == j' + (i - j) < |V| - 1
    ensures EdgeAt(V, q, p[i], p[i + 1])
  {
    var d := i - j;
    RunsAgree(g0, p, j, V, j', d);
    RunsAgree(g0, p, i, V, q, 1);
  }

  lemma {:induction false} SoonerBelow(g0: Graph, starts: seq<Addr>, P: PathList, p: seq<Addr>, i: nat,
                                       p': seq<Addr>) returns (w: int, y: int)
    requires EdgesRecorded(g0, starts, P) && Recorded(g0, p) && i < |p| - 1 && p' in P
    requires HasEdge(p', p[i]) && Len(g0, p'[0]) < Len(g0, p[0])
    ensures 0 <= w < |P| && P[w] == p' && EdgeAt(p', y, p[i], p[i + 1]) && y < i
  {
    w :| 0 <= w < |P| && P[w] == p';
    y :| 0 <= y < |p'| - 1 && p'[y] == p[i];
    var _ := RecordedPath(g0, starts, P, w);
    StartDecidesIndex(g0, p', y, p, i);
  }

  /** V has ended in front of x: its walk goes on and records a run below V's end that comes to x. */
  lemma {:induction false} RunFurtherDown(g0: Graph, starts: seq<Addr>, p: seq<Addr>, i: nat, j: nat,
                                          V: seq<Addr>, j': nat, r: Addr, x: Addr)
    returns (p': seq<Addr>)
    requires ShortChains(g0) && x !in g0 && AllWarm(g0, starts, x) && Recorded(g0, p) && Recorded(g0, V)
    requires j < i < |p| - 1 && p[i + 1] == x && EdgeAt(V, j', p[j], p[j + 1]) && |V| - 1 <= j' + (i - j)
    requires r in starts && V in RootWalk(g0, r)
    ensures p' in RootWalk(g0, r) && HasEdge(p', p[i]) && Len(g0, p'[0]) < Len(g0, p[0])
  {
    ComesToX(g0, p, i, x);
    var t := RunDown(g0, p, i, j, V, j');
    assert [] + [r] == [r];
    RecordedEnd(g0, r, [], 0, false, MAX_PATH_LEN, V);
    EndAlong(g0, V, j');
    EndAlong(g0, p, j);
    p' := WarmCoveredLater(g0, r, [], 0, false, MAX_PATH_LEN, V, t);
  }

  /** If one recorded path comes to x, one comes to it that is not cut. */
  lemma {:induction false} UncutComesToX(g0: Graph, starts: seq<Addr>, P: PathList, x: Addr, k0: nat) returns (k: nat)
    requires EdgesRecorded(g0, starts, P) && x !in g0 && AllWarm(g0, starts, x)
    requires k0 < |P| && |P[k0]| >= 2 && Last(P[k0]) == x
    ensures k < |P| && Kept(P, k) == P[k] && |P[k]| >= 2 && Last(P[k]) == x
  {
    var i0 := |P[k0]| - 2;
    var w, i := EveryEdgeHasAWinner(P, k0, i0);
    k := w;
    var _ := RecordedPath(g0, starts, P, k);
    ComesToX(g0, P[k], i, x);
    WinnerIsUncut(g0, starts, P, k, i, x);
  }

  lemma {:induction false} WinnerIsUncut(g0: Graph, starts: seq<Addr>, P: PathList, k: nat, i: nat, x: Addr)
    requires EdgesRecorded(g0, starts, P) && x !in g0 && AllWarm(g0, starts, x) && k < |P|
    requires i == |P[k]| - 2 && P[k][i + 1] == x && Wins(P, k, i)
    ensures Kept(P, k) == P[k]
  {
    var n := CutFrom(P, k, 0);
    CutFromMeans(P, k, 0);
    if n < |P[k]| {
      NoCutInFrontOfX(g0, starts, P, k, i, n, x);
      assert false;
    }
  }

  lemma {:induction false} NoCutInFrontOfX(g0: Graph, starts: seq<Addr>, P: PathList, k: nat, i: nat, n: nat, x: Addr)
    requires EdgesRecorded(g0, starts, P) && x !in g0 && AllWarm(g0, starts, x) && k < |P|
    requires i < |P[k]| - 1 && P[k][i + 1] == x && Wins(P, k, i) && 1 <= n <= i + 1
    ensures Wins(P, k, n - 1)
  {
    if n <= i && !Soonest(P, k, n - 1, P[k][n - 1], P[k][n]) {
      var k', j' := Rival(P, k, n - 1, P[k][n - 1], P[k][n]);
      var w, y := RivalComesToX(g0, starts, P, k, i, n - 1, k', j', x);
      assert false;
    }
  }

  /** Some walk comes to x. */
  lemma {:induction false} UnplannedDropIsOnSurvivor(g: Graph, starts: seq<Addr>, P: PathList, x: Addr,
                                                     r: Addr) returns (a: nat)
    requires FoundList(g, starts, P) && Drops(g, x) && Changed(g, x) && !ReachedCold(g, starts, x)
    requires r in starts && End(Bare(g), r) == x
    ensures a < |Survivors(g, P, |P|)|
    ensures
      var p := Survivors(g, P, |P|)[a];
      |p| >= 2 && Last(p) == x
  {
    FoundEdges(g, starts, P);
    NotColdIsWarm(g, starts, x);
    var p := WarmRunFound(g, r, x);
    assert p in P;
    var k0 :| 0 <= k0 < |P| && P[k0] == p;
    var k := UncutComesToX(Bare(g), starts, P, x, k0);
    a := SurvivesWhole(g, P, k);
  }

  lemma {:induction false} NotColdIsWarm(g: Graph, starts: seq<Addr>, x: Addr)
    requires ShortChains(Bare(g)) && !ReachedCold(g, starts, x)
    ensures AllWarm(Bare(g), starts, x)
  {
    var g0 := Bare(g);
    forall q | q in starts && End(g0, q) == x
      ensures LivesAtEnd(g0, q, -1, MAX_PATH_LEN) >= 0
    {
      assert !ColdChain(g0, q, x);
      ColdIff(g0, q, MAX_PATH_LEN);
    }
  }

  lemma {:induction false} SurvivesWhole(g: Graph, P: PathList, k: nat) returns (a: nat)
    requires k < |P| && |P[k]| >= 2 && Kept(P, k) == P[k]
    ensures a < |Survivors(g, P, |P|)| && Survivors(g, P, |P|)[a] == P[k]
  {
    KeptSurvives(g, P, |P|, k);
    a :| 0 <= a < |Survivors(g, P, |P|)| && Survivors(g, P, |P|)[a] == P[k];
  }

  lemma {:induction false} WarmRunFound(g: Graph, r: Addr, x: Addr) returns (p: seq<Addr>)
    requires ShortChains(Bare(g)) && Finishes(g, r) && Drops(g, x) && Changed(g, x) && End(Bare(g), r) == x
    requires LivesAtEnd(Bare(g), r, -1, MAX_PATH_LEN) >= 0
    ensures FoundFrom(g, r, p) && |p| >= 2 && Last(p) == x
  {
    var calls: nat :| Record(g, r, [], 0, false, calls).Some?;
    AnyLives(g, r, [], 0, -1, calls);
    assert [] + [r] == [r] && OnChain(g, r, [], -1, MAX_PATH_LEN);
    DropAtEnd(g, r, [], -1, calls, MAX_PATH_LEN, x);
    p :| p in Record(g, r, [], 0, false, calls).value && |p| >= 2 && Last(p) == x;
    assert InRecord(g, r, calls, p);
  }

  // ---- The starts are those of the two sweeps.

  lemma {:induction false} OnFoundMore(g: Graph, r: Addr, p: seq<Addr>, u: Addr, starts: seq<Addr>)
    requires r in starts && FoundFrom(g, r, p) && u in p
    ensures OnFound(g, starts, u)
  {
  }

  /** Above every rule that leads on there is a node no rule leads to. */
  lemma {:induction false} RootOver(g: Graph, w: Addr) returns (t: seq<Addr>)
    requires ShortChains(Bare(g)) && w in Bare(g)
    ensures Contig(Bare(g), t) && |t| > 0 && Last(t) == w && t[0] in Bare(g) && IsRoot(g, t[0])
    ensures End(Bare(g), t[0]) == End(Bare(g), w)
  {
    var g0 := Bare(g);
    t := RootAbove(g0, [w]);
    assert |t| > 1 ==> StepAt(g0, t, 0);
    forall v | v in g
      ensures g[v].next != t[0]
    {
      assert v in g0 || g[v].next == v;
    }
    EndAlong(g0, t, |t| - 1);
  }

  /** What a walk records lies on its chain. */
  lemma {:induction false} FoundEnd(g: Graph, r: Addr, p: seq<Addr>, x: Addr)
    requires ShortChains(Bare(g)) && Finishes(g, r) && Drops(g, x) && FoundFrom(g, r, p) && x in p
    ensures End(Bare(g), r) == x
  {
    var g0 := Bare(g);
    assert [] + [r] == [r] && OnChain(g, r, [], -1, MAX_PATH_LEN);
    if |p| == 1 {
      assert p == [x];
      var calls: nat :| InRecord(g, r, calls, p);
      AnyLives(g, r, [], 0, -1, calls);
      OnlyTheChain(g, r, [], -1, calls, MAX_PATH_LEN, x);
    } else {
      FoundIsRootWalk(g, r, p);
      WalkRecords(g0, r, [], 0, false, MAX_PATH_LEN);
      RecordedEnd(g0, r, [], 0, false, MAX_PATH_LEN, p);
      var i :| 0 <= i < |p| && p[i] == x;
      EndAlong(g0, p, i);
      EndStep(g0, x);
    }
  }

  /** A walk whose chain ends in a changed drop rule records a path through it. */
  lemma {:induction false} EndIsFound(g: Graph, r: Addr, x: Addr) returns (p: seq<Addr>)
    requires ShortChains(Bare(g)) && Finishes(g, r) && Drops(g, x) && Changed(g, x) && End(Bare(g), r) == x
    ensures FoundFrom(g, r, p) && x in p
  {
    if LivesAtEnd(Bare(g), r, -1, MAX_PATH_LEN) >= 0 {
      p := WarmRunFound(g, r, x);
    } else {
      p := [x];
      ColdIff(Bare(g), r, MAX_PATH_LEN);
      DropFoundIff(g, r, x);
    }
  }

  /** A walk from above a changed rule that leads on records a path through its node. */
  lemma {:induction false} ChangedIsFound(g: Graph, t: seq<Addr>) returns (p: seq<Addr>)
    requires ShortChains(Bare(g)) && |t| > 0 && Contig(Bare(g), t) && Changed(Bare(g), Last(t)) && Finishes(g, t[0])
    ensures FoundFrom(g, t[0], p) && Last(t) in p
  {
    assert [] + [t[0]] == [t[0]];
    p := Covered(Bare(g), t[0], [], 0, false, MAX_PATH_LEN, t);
    FoundIsRootWalk(g, t[0], p);
  }

  /** The second sweep starts only at drop rules that no other rule leads to. */
  lemma {:induction false} SecondSweep(g: Graph, starts: seq<Addr>, n: nat, k: nat)
    requires ShortChains(Bare(g)) && SweptFrom(g, starts, n) && n <= k < |starts| && forall r :: r in starts ==> Finishes(g, r)
    ensures Drops(g, starts[k]) && Isolated(g, starts[k])
  {
    var g0, r := Bare(g), starts[k];
    if r in g0 {
      var t := RootOver(g, r);
      RootIsStart(g, starts, n, k, t[0]);
      var p := ChangedIsFound(g, t);
      OnFoundMore(g, t[0], p, r, starts[..k]);
      assert false;
    }
    forall w | w in g && g[w].next == r
      ensures w == r
    {
      if w != r {
        var t := RootOver(g, w);
        RootIsStart(g, starts, n, k, t[0]);
        EndStep(g0, w);
        EndStep(g0, r);
        var p := EndIsFound(g, t[0], r);
        OnFoundMore(g, t[0], p, r, starts[..k]);
        assert false;
      }
    }
  }

  lemma {:induction false} RootIsStart(g: Graph, starts: seq<Addr>, n: nat, k: nat, r: Addr)
    requires SweptFrom(g, starts, n) && n <= k <= |starts| && r in g && IsRoot(g, r)
    ensures r in starts[..k] && r in starts
  {
    assert r in starts[..n];
    var i :| 0 <= i < n && starts[..n][i] == r;
    assert starts[..k][i] == r;
  }

  /** No other node's rule leads to x. */
  predicate Isolated(g: Graph, x: Addr) {
    forall w :: w in g && g[w].next == x ==> w == x
  }

  /** A chain that comes to an isolated node starts there. */
  lemma {:induction false} IsolatedEnd(g: Graph, r: Addr, n: nat, x: Addr)
    requires Ends(Bare(g), r, n) && Isolated(g, x) && x == Last(Chain(Bare(g), r, n)) && Drops(g, x)
    ensures r == x
    decreases n
  {
    if r in Bare(g) {
      IsolatedEnd(g, g[r].next, n - 1, x);
      assert false;
    }
  }

  /** Some node that no rule leads to has a chain that comes to x without a run. */
  ghost predicate RootComesCold(g: Graph, x: Addr)
    requires ShortChains(Bare(g))
  {
    exists r :: r in g && IsRoot(g, r) && ColdChain(Bare(g), r, x)
  }

  lemma {:induction false} ColdOnTable(g: Graph, starts: seq<Addr>, P: PathList, n: nat, x: Addr)
    requires FoundList(g, starts, P) && SweptFrom(g, starts, n) && Drops(g, x) && Changed(g, x)
    ensures ReachedCold(g, starts, x) <==> Isolated(g, x) || RootComesCold(g, x)
  {
    if ReachedCold(g, starts, x) {
      var r :| r in starts && ColdChain(Bare(g), r, x);
      var k :| 0 <= k < |starts| && starts[k] == r;
      if k < n {
        assert r == starts[..n][k];
      } else {
        SecondSweep(g, starts, n, k);
        EndStep(Bare(g), r);
      }
    }
    if RootComesCold(g, x) {
      var r :| r in g && IsRoot(g, r) && ColdChain(Bare(g), r, x);
      RootIsStart(g, starts, n, n, r);
    }
    if Isolated(g, x) {
      IsolatedIsStart(g, starts, P, n, x);
    }
  }

  lemma {:induction false} IsolatedIsStart(g: Graph, starts: seq<Addr>, P: PathList, n: nat, x: Addr)
    requires FoundList(g, starts, P) && SweptFrom(g, starts, n) && Drops(g, x) && Changed(g, x) && Isolated(g, x)
    ensures x in starts && ReachedCold(g, starts, x)
  {
    if x !in starts {
      var r, p :| r in starts && FoundFrom(g, r, p) && x in p;
      FoundEnd(g, r, p, x);
      IsolatedEnd(g, r, MAX_PATH_LEN, x);
      assert false;
    }
    assert ColdChain(Bare(g), x, x);
  }

  /**
   * What becomes of a changed drop rule, read off the table: its flag is cleared in any case, since
   * its node is on a surviving path; but it is planned only if no other node's rule leads to it, or
   * some node that no rule leads to has a chain that comes to it with no changed rule on the three
   * nodes in front.
   */
  lemma {:induction false} DropRuleOnTable(g: Graph, starts: seq<Addr>, P: PathList, n: nat, x: Addr)
    requires FoundList(g, starts, P) && SweptFrom(g, starts, n) && Drops(g, x) && Changed(g, x)
    ensures exists a :: 0 <= a < |Survivors(g, P, |P|)| && x in Survivors(g, P, |P|)[a]
    ensures [x] in Survivors(g, P, |P|) <==> Isolated(g, x) || RootComesCold(g, x)
  {
    DropRuleIsPlannedIff(g, starts, P, x);
    ColdOnTable(g, starts, P, n, x);
    if ReachedCold(g, starts, x) {
      var a :| 0 <= a < |Survivors(g, P, |P|)| && Survivors(g, P, |P|)[a] == [x];
      assert x in Survivors(g, P, |P|)[a];
    } else {
      var w := OtherLeadsTo(g, x);
      var t := RootOver(g, w);
      RootIsStart(g, starts, n, n, t[0]);
      EndStep(Bare(g), w);
      EndStep(Bare(g), x);
      var a := UnplannedDropIsOnSurvivor(g, starts, P, x, t[0]);
      assert x in Survivors(g, P, |P|)[a];
    }
  }

  lemma {:induction false} OtherLeadsTo(g: Graph, x: Addr) returns (w: Addr)
    requires !Isolated(g, x)
    ensures w in Bare(g) && Bare(g)[w].next == x
  {
    w :| w in g && g[w].next == x && w != x;
  }

  // ---- Where the planner's sweeps return on such a table.

  lemma {:induction false} ChainIsRun(g: Graph, u: Addr, n: nat)
    requires Ends(Bare(g), u, n)
    ensures Contig(g, Chain(Bare(g), u, n)) && Contig(Bare(g), Chain(Bare(g), u, n))
    decreases n
  {
    if u in Bare(g) {
      var next := g[u].next;
      var rest := Chain(Bare(g), next, n - 1);
      ChainIsRun(g, next, n - 1);
      ConsContig(g, u, rest);
      ConsContig(Bare(g), u, rest);
    }
  }

  lemma {:induction false} ConsContig(g: Graph, u: Addr, rest: seq<Addr>)
    requires Contig(g, rest) && rest != [] && u in g && g[u].next == rest[0]
    ensures Contig(g, [u] + rest)
  {
    var t := [u] + rest;
    forall i: nat | i < |t| - 1
      ensures StepAt(g, t, i)
    {
      assert i > 0 ==> StepAt(g, rest, i - 1);
    }
  }

  lemma {:induction false} ChainEnds(g: Graph, u: Addr, n: nat)
    requires Ends(Bare(g), u, n) && Last(Chain(Bare(g), u, n)) !in g
    ensures Ends(g, u, n)
    decreases n
  {
    if u in Bare(g) {
      ChainEnds(g, g[u].next, n - 1);
    } else {
      assert u !in g;
    }
  }

  /**
   * The walk from r returns exactly if its chain ends at a node without a rule, or at a drop rule with a
   * changed rule among the last three nodes, the drop rule's included.
   */
  lemma {:induction false} FinishesIff(g: Graph, r: Addr)
    requires ShortChains(Bare(g))
    ensures
      var s := Chain(Bare(g), r, MAX_PATH_LEN);
      Finishes(g, r) <==> (Last(s) in g ==> Warm(g, s, |s| - 1))
  {
    var s := Chain(Bare(g), r, MAX_PATH_LEN);
    ChainIsRun(g, r, MAX_PATH_LEN);
    if Last(s) in g {
      ContigDistinct(Bare(g), s);
      assert g[Last(s)].next == Last(s);
      DropRuleReturnsIff(g, s);
      ReturnsIsFinishes(g, r);
    } else {
      ChainEnds(g, r, MAX_PATH_LEN);
      WalkReturns(g, r, [], 0, false, MAX_PATH_LEN);
      RecordReturns(g, r, [], 0, false, MAX_PATH_LEN + 1);
    }
  }

  lemma {:induction false} ReturnsIsFinishes(g: Graph, r: Addr)
    ensures Finishes(g, r) <==> exists calls: nat :: Returns(g, r, [], 0, false, calls)
  {
    if calls: nat :| Record(g, r, [], 0, false, calls).Some? {
      RecordReturns(g, r, [], 0, false, calls);
    }
    if calls: nat :| Returns(g, r, [], 0, false, calls) {
      RecordReturns(g, r, [], 0, false, calls);
    }
  }
}
