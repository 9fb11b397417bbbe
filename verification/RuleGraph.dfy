// The controller's rules for one flow form a next-hop graph.  This module
// states what the planner's walk over that graph records, and why cutting
// overlapping recorded paths never loses a changed rule.
module RuleGraph {
  import opened Common

  const MAX_PATH_LEN: nat := 30
  const MAX_CHANGED_LIFES: int := 3

  datatype Rule = Rule(next: Addr, changed: bool)

  type Graph = map<Addr, Rule>

  predicate Changed(g: Graph, u: Addr) {
    u in g && g[u].changed
  }

  /** The chain of next hops from u stops after at most n nodes. */
  predicate Ends(g: Graph, u: Addr, n: nat)
    decreases n, u
  {
    n > 0 && (u in g ==> Ends(g, g[u].next, n - 1))
  }

  /** Loop-free, and no chain has more than MAX_PATH_LEN nodes. */
  predicate ShortChains(g: Graph) {
    forall u :: u in g ==> Ends(g, u, MAX_PATH_LEN)
  }

  /** Number of nodes on the chain from u. */
  function ChainLen(g: Graph, u: Addr, n: nat): (len: nat)
    requires Ends(g, u, n)
    ensures 1 <= len <= n
    decreases n, u
  {
    if u in g then 1 + ChainLen(g, g[u].next, n - 1) else 1
  }

  function Len(g: Graph, u: Addr): (len: nat)
    requires ShortChains(g)
    ensures 1 <= len <= MAX_PATH_LEN
  {
    ChainLen(g, u, MAX_PATH_LEN)
  }

  lemma {:induction false} ChainLenAnyBound(g: Graph, u: Addr, m: nat, n: nat)
    requires Ends(g, u, m) && Ends(g, u, n)
    ensures ChainLen(g, u, m) == ChainLen(g, u, n)
    decreases n
  {
    if u in g {
      ChainLenAnyBound(g, g[u].next, m - 1, n - 1);
    }
  }

  /** Each hop shortens the remaining chain by exactly one node. */
  lemma {:induction false} LenStep(g: Graph, u: Addr)
    requires ShortChains(g) && u in g
    ensures Len(g, u) == 1 + Len(g, g[u].next)
  {
    ChainLenAnyBound(g, g[u].next, MAX_PATH_LEN - 1, MAX_PATH_LEN);
  }

  /** Consecutive nodes of p are joined by rules. */
  ghost predicate Contig(g: Graph, p: seq<Addr>) {
    forall i: nat :: i < |p| - 1 ==> StepAt(g, p, i)
  }

  predicate StepAt(g: Graph, p: seq<Addr>, i: nat)
    requires i < |p| - 1
  {
    p[i] in g && g[p[i]].next == p[i + 1]
  }

  /** Any part of a run is a run. */
  lemma {:induction false} ContigPart(g: Graph, p: seq<Addr>, i: nat, j: nat)
    requires Contig(g, p) && i <= j <= |p|
    ensures Contig(g, p[i..j])
  {
    forall k: nat | k < j - i - 1
      ensures StepAt(g, p[i..j], k)
    {
      assert StepAt(g, p, i + k);
    }
  }

  /** A run can be extended at either end by a rule. */
  lemma {:induction false} ContigJoin(g: Graph, p: seq<Addr>, q: seq<Addr>)
    requires Contig(g, p) && Contig(g, q)
    requires |p| > 0 && |q| > 0 ==> Last(p) in g && g[Last(p)].next == q[0]
    ensures Contig(g, p + q)
  {
    forall k: nat | k < |p + q| - 1
      ensures StepAt(g, p + q, k)
    {
      if k < |p| - 1 {
        assert StepAt(g, p, k);
      } else if k >= |p| {
        assert StepAt(g, q, k - |p|);
      }
    }
  }

  lemma {:induction false} LenAlong(g: Graph, p: seq<Addr>, i: nat)
    requires ShortChains(g) && Contig(g, p) && i < |p|
    ensures Len(g, p[i]) == Len(g, p[0]) - i
  {
    if i > 0 {
      LenAlong(g, p, i - 1);
      assert StepAt(g, p, i - 1);
      LenStep(g, p[i - 1]);
    }
  }

  predicate Distinct(p: seq<Addr>) {
    forall i, j :: 0 <= i < j < |p| ==> p[i] != p[j]
  }

  lemma {:induction false} ContigDistinct(g: Graph, p: seq<Addr>)
    requires ShortChains(g) && Contig(g, p)
    ensures Distinct(p)
    ensures |p| > 0 ==> |p| <= Len(g, p[0])
  {
    forall i | 0 <= i < |p|
      ensures Len(g, p[i]) == Len(g, p[0]) - i
    {
      LenAlong(g, p, i);
    }
    assert |p| > 0 ==> Len(g, p[|p| - 1]) >= 1;
  }

  /** Two runs of rules through the same node agree from there on. */
  lemma {:induction false} RunsAgree(g: Graph, p: seq<Addr>, i: nat, q: seq<Addr>, j: nat, k: nat)
    requires Contig(g, p) && Contig(g, q)
    requires i + k < |p| && j + k < |q| && p[i] == q[j]
    ensures p[i + k] == q[j + k]
  {
    if k > 0 {
      RunsAgree(g, p, i, q, j, k - 1);
      assert StepAt(g, p, i + k - 1) && StepAt(g, q, j + k - 1);
    }
  }

  /** Unchanged nodes at the end of p. */
  function Quiet(g: Graph, p: seq<Addr>): nat {
    if p == [] || Changed(g, Last(p)) then 0 else 1 + Quiet(g, p[..|p| - 1])
  }

  /** No prefix of p ends in three consecutive unchanged nodes. */
  predicate Lively(g: Graph, p: seq<Addr>) {
    p == [] || (Quiet(g, p) < MAX_CHANGED_LIFES && Lively(g, p[..|p| - 1]))
  }

  /**
   * What a recorded path looks like: a run of rules that starts at a changed
   * node, never leaves three consecutive unchanged nodes behind it, and stops
   * at the third such node or where there is no rule to follow.
   */
  ghost predicate Recorded(g: Graph, p: seq<Addr>) {
    && |p| >= 2
    && Contig(g, p)
    && Changed(g, p[0])
    && Lively(g, p[..|p| - 1])
    && (Quiet(g, p) == MAX_CHANGED_LIFES || Last(p) !in g)
  }

  /**
   * The paths one walk adds, in the order it adds them.  `path` is the run
   * collected so far, `lives` its remaining idle allowance.
   */
  function Walk(g: Graph, u: Addr, path: seq<Addr>, lives: int, active: bool, n: nat): seq<seq<Addr>>
    requires Ends(g, u, n)
    decreases n, u
  {
    if !active && !Changed(g, u) then
      if u in g then Walk(g, g[u].next, path, lives, false, n - 1) else []
    else
      var path' := if |path| < MAX_PATH_LEN then path + [u] else path;
      var lives' := (if Changed(g, u) then MAX_CHANGED_LIFES else lives) - 1;
      if lives' < 0 then
        [path'] + (if u in g then Walk(g, g[u].next, [], MAX_CHANGED_LIFES, false, n - 1) else [[]])
      else if u !in g then
        [path']
      else if g[u].next in path' then
        [path']
      else
        Walk(g, g[u].next, path', lives', true, n - 1)
  }

  /** What holds of the walk's arguments at every call that starts at a root. */
  ghost predicate WalkState(g: Graph, u: Addr, path: seq<Addr>, lives: int, active: bool, n: nat) {
    && ShortChains(g)
    && Ends(g, u, n)
    && |path| + Len(g, u) <= MAX_PATH_LEN
    && (!active ==> path == [])
    && (active ==>
          && |path| > 0
          && Contig(g, path + [u])
          && Changed(g, path[0])
          && Lively(g, path)
          && lives == MAX_CHANGED_LIFES - 1 - Quiet(g, path))
  }

  /** The arguments the walk passes on are again such arguments. */
  lemma {:induction false} WalkStateNext(g: Graph, u: Addr, path: seq<Addr>, lives: int, active: bool, n: nat)
    requires WalkState(g, u, path, lives, active, n) && u in g
    ensures !active && !Changed(g, u) ==> WalkState(g, g[u].next, path, lives, false, n - 1)
    ensures WalkState(g, g[u].next, [], MAX_CHANGED_LIFES, false, n - 1)
    ensures
      var path' := path + [u];
      var lives' := (if Changed(g, u) then MAX_CHANGED_LIFES else lives) - 1;
      (active || Changed(g, u)) && lives' >= 0 ==>
        WalkState(g, g[u].next, path', lives', true, n - 1) && g[u].next !in path'
  {
    LenStep(g, u);
    var path' := path + [u];
    var lives' := (if Changed(g, u) then MAX_CHANGED_LIFES else lives) - 1;
    assert path'[..|path|] == path;
    if (active || Changed(g, u)) && lives' >= 0 {
      var run := path' + [g[u].next];
      ContigJoin(g, path', [g[u].next]);
      ContigDistinct(g, run);
      forall x | x in path'
        ensures x != g[u].next
      {
        var i :| 0 <= i < |path'| && path'[i] == x;
        assert run[i] == x && run[|path'|] == g[u].next;
      }
    }
  }

  /** Every non-empty path a walk records has the recorded shape. */
  lemma {:induction false} WalkRecords(g: Graph, u: Addr, path: seq<Addr>, lives: int, active: bool, n: nat)
    requires WalkState(g, u, path, lives, active, n)
    ensures forall p :: p in Walk(g, u, path, lives, active, n) ==> p == [] || Recorded(g, p)
    decreases n
  {
    var path' := path + [u];
    var lives' := (if Changed(g, u) then MAX_CHANGED_LIFES else lives) - 1;
    if u in g {
      WalkStateNext(g, u, path, lives, active, n);
    }
    if !active && !Changed(g, u) {
      if u in g {
        WalkRecords(g, g[u].next, path, lives, false, n - 1);
      }
    } else {
      assert path'[..|path|] == path;
      if lives' < 0 || u !in g {
        assert active && |path| > 0;
        assert Recorded(g, path');
      }
      if u in g {
        if lives' < 0 {
          WalkRecords(g, g[u].next, [], MAX_CHANGED_LIFES, false, n - 1);
        } else {
          WalkRecords(g, g[u].next, path', lives', true, n - 1);
        }
      }
    }
  }

  /** A run under way is always recorded in the end, whatever it grows into. */
  lemma {:induction false} RunIsRecorded(g: Graph, u: Addr, path: seq<Addr>, lives: int, n: nat)
    returns (p: seq<Addr>)
    requires WalkState(g, u, path, lives, true, n)
    ensures p in Walk(g, u, path, lives, true, n) && path + [u] <= p
    decreases n
  {
    var path' := path + [u];
    var lives' := (if Changed(g, u) then MAX_CHANGED_LIFES else lives) - 1;
    if lives' < 0 || u !in g {
      p := path';
      assert Walk(g, u, path, lives, true, n)[0] == p;
    } else {
      WalkStateNext(g, u, path, lives, true, n);
      p := RunIsRecorded(g, g[u].next, path', lives', n - 1);
    }
  }

  /** Path p contains the edge that leaves c. */
  predicate HasEdge(p: seq<Addr>, c: Addr) {
    exists i :: 0 <= i < |p| - 1 && p[i] == c
  }

  lemma {:induction false} ContigTail(g: Graph, t: seq<Addr>)
    requires |t| >= 2 && Contig(g, t)
    ensures Contig(g, t[1..]) && t[0] in g && t[1] == g[t[0]].next
    ensures Last(t[1..]) == Last(t)
  {
    ContigPart(g, t, 1, |t|);
    assert t[1..|t|] == t[1..];
    assert StepAt(g, t, 0);
  }

  /**
   * A changed node below u (t is the run from u to it) has its edge recorded,
   * in the run under way or in one that starts at u or below.
   */
  lemma {:induction false} Covered(g: Graph, u: Addr, path: seq<Addr>, lives: int, active: bool, n: nat, t: seq<Addr>)
    returns (p: seq<Addr>)
    requires WalkState(g, u, path, lives, active, n)
    requires |t| > 0 && t[0] == u && Contig(g, t) && Changed(g, Last(t))
    ensures p in Walk(g, u, path, lives, active, n) && HasEdge(p, Last(t))
    ensures (active && p[0] == path[0]) || Len(g, p[0]) <= Len(g, u)
    decreases n
  {
    if |t| == 1 {
      p := CoveredHere(g, u, path, lives, active, n);
    } else {
      ContigTail(g, t);
      LenStep(g, u);
      WalkStateNext(g, u, path, lives, active, n);
      var path' := path + [u];
      var lives' := (if Changed(g, u) then MAX_CHANGED_LIFES else lives) - 1;
      var v := g[u].next;
      if !active && !Changed(g, u) {
        p := Covered(g, v, path, lives, false, n - 1, t[1..]);
      } else if lives' < 0 {
        p := Covered(g, v, [], MAX_CHANGED_LIFES, false, n - 1, t[1..]);
      } else {
        p := Covered(g, v, path', lives', true, n - 1, t[1..]);
      }
    }
  }

  lemma {:induction false} CoveredHere(g: Graph, u: Addr, path: seq<Addr>, lives: int, active: bool, n: nat)
    returns (p: seq<Addr>)
    requires WalkState(g, u, path, lives, active, n) && Changed(g, u)
    ensures p in Walk(g, u, path, lives, active, n) && HasEdge(p, u)
    ensures (active && p[0] == path[0]) || Len(g, p[0]) <= Len(g, u)
  {
    var path', v := path + [u], g[u].next;
    WalkStateNext(g, u, path, lives, active, n);
    p := RunIsRecorded(g, v, path', MAX_CHANGED_LIFES - 1, n - 1);
    assert p[|path|] == (path' + [v])[|path|] == u;
  }

  /**
   * After a recorded path V ends, the same walk goes on: the edge of any
   * changed node further down is recorded in a path that starts below V's end.
   */
  lemma {:induction false} CoveredLater(g: Graph, u: Addr, path: seq<Addr>, lives: int, active: bool, n: nat,
                                        V: seq<Addr>, t: seq<Addr>)
    returns (p: seq<Addr>)
    requires WalkState(g, u, path, lives, active, n)
    requires V in Walk(g, u, path, lives, active, n) && V != []
    requires |t| >= 2 && t[0] == Last(V) && Contig(g, t) && Changed(g, Last(t))
    ensures p in Walk(g, u, path, lives, active, n) && HasEdge(p, Last(t))
    ensures Len(g, p[0]) < Len(g, Last(V))
    decreases n
  {
    ContigTail(g, t);
    LastRecordedHasRule(g, u, path, lives, active, n, V);
    WalkStateNext(g, u, path, lives, active, n);
    var v, path' := g[u].next, path + [u];
    var lives' := (if Changed(g, u) then MAX_CHANGED_LIFES else lives) - 1;
    if !active && !Changed(g, u) {
      p := CoveredLater(g, v, path, lives, false, n - 1, V, t);
    } else if lives' >= 0 {
      p := CoveredLater(g, v, path', lives', true, n - 1, V, t);
    } else if V in Walk(g, v, [], MAX_CHANGED_LIFES, false, n - 1) {
      p := CoveredLater(g, v, [], MAX_CHANGED_LIFES, false, n - 1, V, t);
    } else {
      LenStep(g, u);
      assert V == path' && t[1] == v;
      p := Covered(g, v, [], MAX_CHANGED_LIFES, false, n - 1, t[1..]);
    }
  }

  /** A walk that stops at u records nothing that ends in a node with a rule. */
  lemma {:induction false} LastRecordedHasRule(g: Graph, u: Addr, path: seq<Addr>, lives: int, active: bool,
                                               n: nat, V: seq<Addr>)
    requires WalkState(g, u, path, lives, active, n)
    requires V in Walk(g, u, path, lives, active, n) && V != [] && Last(V) in g
    ensures u in g
  {
    assert u !in g ==> V == path + [u];
  }

  // ---- Why the graph has to be free of loops.

  /** Whether the walk returns within a number of recursive calls, on any graph. */
  function Returns(g: Graph, u: Addr, path: seq<Addr>, lives: int, active: bool, calls: nat): bool
    decreases calls, u
  {
    if calls == 0 then false
    else if !active && !Changed(g, u) then
      u !in g || Returns(g, g[u].next, path, lives, false, calls - 1)
    else
      var path' := if |path| < MAX_PATH_LEN then path + [u] else path;
      var lives' := (if Changed(g, u) then MAX_CHANGED_LIFES else lives) - 1;
      if lives' < 0 then u !in g || Returns(g, g[u].next, [], MAX_CHANGED_LIFES, false, calls - 1)
      else u !in g || g[u].next in path' || Returns(g, g[u].next, path', lives', true, calls - 1)
  }

  /** These nodes' rules lead round among themselves, and none of them has changed. */
  predicate IdleLoop(g: Graph, loop: set<Addr>) {
    forall u :: u in loop ==> u in g && !g[u].changed && g[u].next in loop
  }

  /** A walk that comes into such a loop while it is not collecting never returns. */
  lemma {:induction false} IdleLoopNeverReturns(g: Graph, loop: set<Addr>, u: Addr, path: seq<Addr>, lives: int, calls: nat)
    requires IdleLoop(g, loop) && u in loop
    ensures !Returns(g, u, path, lives, false, calls)
    decreases calls
  {
    if calls > 0 {
      IdleLoopNeverReturns(g, loop, g[u].next, path, lives, calls - 1);
    }
  }

  /** On the graphs of this model every walk returns. */
  lemma {:induction false} WalkReturns(g: Graph, u: Addr, path: seq<Addr>, lives: int, active: bool, n: nat)
    requires Ends(g, u, n)
    ensures Returns(g, u, path, lives, active, n + 1)
    decreases n
  {
    if u in g {
      if !active && !Changed(g, u) {
        WalkReturns(g, g[u].next, path, lives, false, n - 1);
      } else {
        var path' := if |path| < MAX_PATH_LEN then path + [u] else path;
        var lives' := (if Changed(g, u) then MAX_CHANGED_LIFES else lives) - 1;
        if lives' < 0 {
          WalkReturns(g, g[u].next, [], MAX_CHANGED_LIFES, false, n - 1);
        } else {
          WalkReturns(g, g[u].next, path', lives', true, n - 1);
        }
      }
    }
  }
}
