// When the planner's walk returns although the rules lead into a loop.  The
// controller makes such loops itself: a drop rule leads from a node to itself.
module LoopWalks {
  import opened Common
  import opened RuleGraph

  /** The chain s, whose last rule leads back to the node at place e. */
  ghost predicate LeadsBack(g: Graph, s: seq<Addr>, e: nat) {
    && e < |s| && Contig(g, s) && Distinct(s)
    && Last(s) in g && g[Last(s)].next == s[e]
  }

  /** The node at place i of the chain, or one of the two in front of it, has a changed rule. */
  predicate Warm(g: Graph, s: seq<Addr>, i: nat)
    requires i < |s|
  {
    Changed(g, s[i]) || (i >= 1 && Changed(g, s[i - 1])) || (i >= 2 && Changed(g, s[i - 2]))
  }

  /** The place before i on the loop that starts at place e. */
  function Before(s: seq<Addr>, e: nat, i: nat): (j: nat)
    requires e <= i < |s|
    ensures e <= j < |s|
  {
    if i == e then |s| - 1 else i - 1
  }

  /** The node at place i, or one of the two before it on the loop, has a changed rule. */
  predicate WarmRound(g: Graph, s: seq<Addr>, e: nat, i: nat)
    requires e <= i < |s|
  {
    var j := Before(s, e, i);
    Changed(g, s[i]) || Changed(g, s[j]) || Changed(g, s[Before(s, e, j)])
  }

  // ---- One call of the walk; a negative allowance stands for a walk that is not collecting.

  /** The idle allowance behind node u. */
  function Allowance(g: Graph, u: Addr, lives: int): int {
    if Changed(g, u) then MAX_CHANGED_LIFES - 1 else if lives < 0 then -1 else lives - 1
  }

  function Comes(g: Graph, u: Addr, path: seq<Addr>, lives: int, calls: nat): bool {
    Returns(g, u, path, lives, lives >= 0, calls)
  }

  lemma {:induction false} AllowanceOnlyWhenCollecting(g: Graph, u: Addr, path: seq<Addr>, x: int, y: int, calls: nat)
    ensures Returns(g, u, path, x, false, calls) == Returns(g, u, path, y, false, calls)
    decreases calls
  {
    if calls > 0 && u in g && !Changed(g, u) {
      AllowanceOnlyWhenCollecting(g, g[u].next, path, x, y, calls - 1);
    }
  }

  /** A run holds its first MAX_PATH_LEN nodes. */
  function Grown(path: seq<Addr>, u: Addr): seq<Addr> {
    if |path| < MAX_PATH_LEN then path + [u] else path
  }

  lemma {:induction false} OneCall(g: Graph, u: Addr, path: seq<Addr>, lives: int, calls: nat)
    requires u in g && (lives < 0 ==> path == [])
    ensures
      var l := Allowance(g, u, lives);
      Comes(g, u, path, lives, calls + 1) ==
      if l < 0 then Comes(g, g[u].next, [], -1, calls)
      else g[u].next in Grown(path, u) || Comes(g, g[u].next, Grown(path, u), l, calls)
  {
    AllowanceOnlyWhenCollecting(g, g[u].next, [], MAX_CHANGED_LIFES, -1, calls);
    AllowanceOnlyWhenCollecting(g, g[u].next, [], lives, -1, calls);
  }

  lemma {:induction false} MoreCalls(g: Graph, u: Addr, path: seq<Addr>, lives: int, active: bool, calls: nat, more: nat)
    requires Returns(g, u, path, lives, active, calls) && calls <= more
    ensures Returns(g, u, path, lives, active, more)
    decreases calls
  {
    if u in g {
      if !active && !Changed(g, u) {
        MoreCalls(g, g[u].next, path, lives, false, calls - 1, more - 1);
      } else {
        var path' := if |path| < MAX_PATH_LEN then path + [u] else path;
        var lives' := (if Changed(g, u) then MAX_CHANGED_LIFES else lives) - 1;
        if lives' < 0 {
          MoreCalls(g, g[u].next, [], MAX_CHANGED_LIFES, false, calls - 1, more - 1);
        } else if g[u].next !in path' {
          MoreCalls(g, g[u].next, path', lives', true, calls - 1, more - 1);
        }
      }
    }
  }

  // ---- The walk along a sequence of nodes, which may go round the loop.

  /** The allowance on arrival at place i. */
  function LivesAt(g: Graph, s: seq<Addr>, i: nat): (l: int)
    requires i <= |s|
    ensures l < MAX_CHANGED_LIFES
  {
    if i == 0 then -1 else Allowance(g, s[i - 1], LivesAt(g, s, i - 1))
  }

  lemma {:induction false} LivesAre(g: Graph, s: seq<Addr>, i: nat)
    requires i < |s|
    ensures LivesAt(g, s, i + 1) ==
            if Changed(g, s[i]) then 2 else if i >= 1 && Changed(g, s[i - 1]) then 1
            else if i >= 2 && Changed(g, s[i - 2]) then 0 else -1
    ensures LivesAt(g, s, i + 1) >= 0 <==> Warm(g, s, i)
  {
    if i > 0 {
      LivesAre(g, s, i - 1);
    }
  }

  /** The run collected on arrival at place i. */
  function RunAt(g: Graph, s: seq<Addr>, i: nat): (p: seq<Addr>)
    requires i <= |s|
  {
    if i == 0 || LivesAt(g, s, i) < 0 then [] else Grown(RunAt(g, s, i - 1), s[i - 1])
  }

  /** Where the run collected on arrival at place i starts. */
  function RunStart(g: Graph, s: seq<Addr>, i: nat): (b: nat)
    requires i <= |s|
    ensures b <= i
  {
    if i == 0 || LivesAt(g, s, i) < 0 then i else RunStart(g, s, i - 1)
  }

  /** A run is the part of the sequence from its start on, as far as it has room. */
  lemma {:induction false} RunIs(g: Graph, s: seq<Addr>, i: nat)
    requires i <= |s|
    ensures
      var b := RunStart(g, s, i);
      RunAt(g, s, i) == s[b..if i < b + MAX_PATH_LEN then i else b + MAX_PATH_LEN]
  {
    if i > 0 && LivesAt(g, s, i) >= 0 {
      RunIs(g, s, i - 1);
      Growing(s, RunStart(g, s, i - 1), i - 1);
    }
  }

  /** It has gone on since its start. */
  lemma {:induction false} RunLasts(g: Graph, s: seq<Addr>, i: nat, j: nat)
    requires i <= |s| && RunStart(g, s, i) < j <= i
    ensures LivesAt(g, s, j) >= 0 && RunStart(g, s, j) == RunStart(g, s, i)
    decreases i
  {
    if j < i {
      RunLasts(g, s, i - 1, j);
    }
  }

  lemma {:induction false} RunStartsCold(g: Graph, s: seq<Addr>, i: nat)
    requires i <= |s|
    ensures LivesAt(g, s, RunStart(g, s, i)) < 0
  {
    if i > 0 && LivesAt(g, s, i) >= 0 {
      RunStartsCold(g, s, i - 1);
    }
  }

  lemma {:induction false} Growing(s: seq<Addr>, b: nat, i: nat)
    requires b <= i < |s|
    ensures
      var end, more := b + MAX_PATH_LEN, i + 1;
      Grown(s[b..if i < end then i else end], s[i]) == s[b..if more < end then more else end]
  {
  }

  /** The walk returns behind place i: the next node is in the run. */
  predicate Closes(g: Graph, s: seq<Addr>, i: nat)
    requires i + 1 < |s|
  {
    LivesAt(g, s, i + 1) >= 0 && s[i + 1] in RunAt(g, s, i + 1)
  }

  /** So long as it does not, it arrives at each place. */
  lemma {:induction false} Along(g: Graph, s: seq<Addr>, i: nat, calls: nat)
    requires Contig(g, s) && i < |s| && forall j :: 0 <= j < i ==> !Closes(g, s, j)
    ensures Comes(g, s[0], [], -1, calls + i) == Comes(g, s[i], RunAt(g, s, i), LivesAt(g, s, i), calls)
    decreases i
  {
    if i > 0 {
      Along(g, s, i - 1, calls + 1);
      assert StepAt(g, s, i - 1) && !Closes(g, s, i - 1);
      OneCall(g, s[i - 1], RunAt(g, s, i - 1), LivesAt(g, s, i - 1), calls);
    }
  }

  lemma {:induction false} ClosingReturns(g: Graph, s: seq<Addr>, i: nat)
    requires Contig(g, s) && i + 1 < |s| && Closes(g, s, i)
    ensures exists calls: nat :: Comes(g, s[0], [], -1, calls)
    decreases i
  {
    if j :| 0 <= j < i && Closes(g, s, j) {
      ClosingReturns(g, s, j);
    } else {
      Along(g, s, i, 1);
      assert StepAt(g, s, i);
      OneCall(g, s[i], RunAt(g, s, i), LivesAt(g, s, i), 0);
      assert Comes(g, s[0], [], -1, 1 + i);
    }
  }

  lemma {:induction false} OpenDoesNotReturn(g: Graph, s: seq<Addr>, calls: nat)
    requires Contig(g, s) && calls + 1 < |s| && forall j :: 0 <= j < |s| - 1 ==> !Closes(g, s, j)
    ensures !Comes(g, s[0], [], -1, calls)
  {
    Along(g, s, calls, 0);
  }

  // ---- Round and round the loop.

  /** The place on the chain of the j-th node of the walk. */
  function Place(s: seq<Addr>, e: nat, j: nat): (i: nat)
    requires e < |s|
    ensures i < |s| && (j >= e ==> e <= i)
  {
    if j < |s| then j else Place(s, e, j - (|s| - e))
  }

  /** The first n nodes of the walk. */
  function Unrolled(s: seq<Addr>, e: nat, n: nat): (u: seq<Addr>)
    requires e < |s|
    ensures |u| == n && forall j {:trigger u[j]} :: 0 <= j < n ==> u[j] == s[Place(s, e, j)]
  {
    seq(n, j requires 0 <= j < n => s[Place(s, e, j)])
  }

  lemma {:induction false} PlaceNext(s: seq<Addr>, e: nat, j: nat)
    requires e < |s|
    ensures Place(s, e, j + 1) == if Place(s, e, j) == |s| - 1 then e else Place(s, e, j) + 1
    decreases j
  {
    if j >= |s| {
      PlaceNext(s, e, j - (|s| - e));
    } else if j == |s| - 1 {
      assert Place(s, e, j + 1) == Place(s, e, e);
    }
  }

  lemma {:induction false} UnrolledContig(g: Graph, s: seq<Addr>, e: nat, n: nat)
    requires LeadsBack(g, s, e)
    ensures Contig(g, Unrolled(s, e, n))
  {
    var u := Unrolled(s, e, n);
    forall j: nat | j < n - 1
      ensures StepAt(g, u, j)
    {
      PlaceNext(s, e, j);
      var i := Place(s, e, j);
      assert i < |s| - 1 ==> StepAt(g, s, i);
    }
  }

  /** Going back one place on the loop. */
  lemma {:induction false} PlaceBefore(s: seq<Addr>, e: nat, j: nat, was: nat)
    requires e < |s| && was >= e && j == was + 1
    ensures Place(s, e, was) == Before(s, e, Place(s, e, j))
  {
    PlaceNext(s, e, was);
  }

  /** The walk is warm where it has been at changed nodes. */
  lemma {:induction false} WarmAt(g: Graph, u: seq<Addr>, j: nat, x: Addr, y: Addr, z: Addr)
    requires 2 <= j < |u| && u[j] == x && u[j - 1] == y && u[j - 2] == z
    ensures Warm(g, u, j) <==> Changed(g, x) || Changed(g, y) || Changed(g, z)
  {
  }

  /** From the third node on the loop on, the walk is warm where the loop is. */
  lemma {:induction false} WarmOnLoop(g: Graph, s: seq<Addr>, e: nat, u: seq<Addr>, j: nat)
    requires e < |s| && e + 2 <= j < |u| && u == Unrolled(s, e, |u|)
    ensures Warm(g, u, j) <==> WarmRound(g, s, e, Place(s, e, j))
  {
    WarmAtPlaces(g, s, e, u, j, j - 1, j - 2);
  }

  lemma {:induction false} WarmAtPlaces(g: Graph, s: seq<Addr>, e: nat, u: seq<Addr>, j: nat, h: nat, k: nat)
    requires e < |s| && e <= k && h == k + 1 && j == h + 1 && j < |u|
    requires u[j] == s[Place(s, e, j)] && u[h] == s[Place(s, e, h)] && u[k] == s[Place(s, e, k)]
    ensures Warm(g, u, j) <==> WarmRound(g, s, e, Place(s, e, j))
  {
    TwoBefore(s, e, j, h, k);
    WarmAt(g, u, j, s[Place(s, e, j)], s[Place(s, e, h)], s[Place(s, e, k)]);
  }

  lemma {:induction false} TwoBefore(s: seq<Addr>, e: nat, j: nat, h: nat, k: nat)
    requires e < |s| && k >= e && h == k + 1 && j == h + 1
    ensures Place(s, e, h) == Before(s, e, Place(s, e, j)) && Place(s, e, k) == Before(s, e, Place(s, e, h))
  {
    PlaceBefore(s, e, j, h);
    PlaceBefore(s, e, h, k);
  }

  lemma {:induction false} PlaceBack(s: seq<Addr>, e: nat, i: nat, j: nat) returns (k: nat)
    requires e <= i < |s| && j >= e
    ensures j <= k < j + (|s| - e) && Place(s, e, k) == i
    decreases j
  {
    if j < |s| {
      k := if i >= j then i else i + (|s| - e);
      assert Place(s, e, k) == i;
    } else {
      k := PlaceBack(s, e, i, j - (|s| - e));
      k := k + (|s| - e);
    }
  }

  /** A node comes again only after a whole round. */
  lemma {:induction false} NoNodeSooner(s: seq<Addr>, e: nat, k: nat, j: nat)
    requires e < |s| && k < j && Place(s, e, k) == Place(s, e, j)
    ensures k >= e && j - k >= |s| - e
    decreases j
  {
    if k >= |s| {
      NoNodeSooner(s, e, k - (|s| - e), j - (|s| - e));
    } else if j - (|s| - e) > k {
      NoNodeSooner(s, e, k, j - (|s| - e));
    }
  }

  // ---- The exact condition.

  /** Every node of the loop is warm on the way in. */
  predicate WarmIn(g: Graph, s: seq<Addr>, e: nat) {
    forall i :: e <= i < |s| ==> Warm(g, s, i)
  }

  /** Every node of the loop is warm round the loop. */
  predicate WarmLoop(g: Graph, s: seq<Addr>, e: nat) {
    forall i :: e <= i < |s| ==> WarmRound(g, s, e, i)
  }

  /** The run that comes into the loop is full of nodes in front of it. */
  predicate Full(g: Graph, s: seq<Addr>, e: nat)
    requires e < |s|
  {
    e >= MAX_PATH_LEN && forall i :: e - MAX_PATH_LEN <= i <= e ==> Warm(g, s, i)
  }

  /** The walk returns if its run, which must have room for a node of the loop, comes round it. */
  predicate ComesRound(g: Graph, s: seq<Addr>, e: nat)
    requires e < |s|
  {
    if Full(g, s, e) then WarmLoop(g, s, e) && !WarmIn(g, s, e) else WarmIn(g, s, e) || WarmLoop(g, s, e)
  }

  lemma {:induction false} WarmAlike(g: Graph, s: seq<Addr>, e: nat, n: nat, i: nat)
    requires e < |s| && i < |s| && i < n
    ensures Warm(g, Unrolled(s, e, n), i) == Warm(g, s, i)
  {
  }

  /** Within a run the walk is warm. */
  lemma {:induction false} WarmInRun(g: Graph, u: seq<Addr>, i: nat, j: nat)
    requires i <= |u| && RunStart(g, u, i) <= j < i
    ensures Warm(g, u, j)
  {
    RunLasts(g, u, i, j + 1);
    LivesAre(g, u, j);
  }

  lemma {:induction false} RunGoesOn(g: Graph, u: seq<Addr>, i: nat, j: nat)
    requires i <= j <= |u| && forall k :: i <= k < j ==> Warm(g, u, k)
    ensures RunStart(g, u, j) == RunStart(g, u, i)
    decreases j - i
  {
    if i < j {
      LivesAre(g, u, j - 1);
      RunGoesOn(g, u, i, j - 1);
    }
  }

  /** A run starts at a changed node, behind one that is not warm. */
  lemma {:induction false} StartIs(g: Graph, u: seq<Addr>, i: nat)
    requires i <= |u| && RunStart(g, u, i) < i
    ensures
      var b := RunStart(g, u, i);
      Changed(g, u[b]) && (b > 0 ==> !Warm(g, u, b - 1))
  {
    var b := RunStart(g, u, i);
    RunLasts(g, u, i, b + 1);
    RunStartsCold(g, u, i);
    LivesAre(g, u, b);
    if b > 0 {
      LivesAre(g, u, b - 1);
    }
  }

  /** If the walk is warm once round from place k, the loop is. */
  lemma {:induction false} WarmOnceRound(g: Graph, s: seq<Addr>, e: nat, u: seq<Addr>, k: nat)
    requires e + 2 <= k && e < |s| && k + (|s| - e) <= |u| && u == Unrolled(s, e, |u|)
    requires forall i :: k <= i < k + (|s| - e) ==> Warm(g, u, i)
    ensures WarmLoop(g, s, e)
  {
    forall i | e <= i < |s|
      ensures WarmRound(g, s, e, i)
    {
      var j := PlaceBack(s, e, i, k);
      WarmOnLoop(g, s, e, u, j);
    }
  }

  /** The same from the second node of the loop on, if that has a changed rule. */
  lemma {:induction false} WarmOnceRoundFromSecond(g: Graph, s: seq<Addr>, e: nat, u: seq<Addr>)
    requires e < |s| && e + 1 + (|s| - e) <= |u| && u == Unrolled(s, e, |u|) && Changed(g, u[e + 1])
    requires forall i :: e + 1 <= i < e + 1 + (|s| - e) ==> Warm(g, u, i)
    ensures WarmLoop(g, s, e)
  {
    forall i | e <= i < |s|
      ensures WarmRound(g, s, e, i)
    {
      var j := PlaceBack(s, e, i, e + 1);
      if j > e + 1 {
        WarmOnLoop(g, s, e, u, j);
      }
    }
  }

  /** A run that starts at or before the loop and holds a node of it has not come in full. */
  lemma {:induction false} NotFull(g: Graph, s: seq<Addr>, e: nat, u: seq<Addr>, j: nat)
    requires e < |s| && e < j <= |u| && u == Unrolled(s, e, |u|)
    requires RunStart(g, u, j) <= e < RunStart(g, u, j) + MAX_PATH_LEN
    ensures !Full(g, s, e)
  {
    var b := RunStart(g, u, j);
    StartIs(g, u, j);
    if Full(g, s, e) {
      WarmAlike(g, s, e, |u|, b - 1);
      assert false;
    }
  }

  /** Where the walk closes: once round the loop, within one run, from a node that run holds. */
  lemma {:induction false} ClosedAt(g: Graph, s: seq<Addr>, e: nat, u: seq<Addr>, j: nat) returns (k: nat)
    requires LeadsBack(g, s, e) && u == Unrolled(s, e, |u|) && j + 1 < |u| && Closes(g, u, j)
    ensures
      var b := RunStart(g, u, j + 1);
      && e <= k && b <= k < b + MAX_PATH_LEN && k + (|s| - e) <= j + 1
      && forall i :: b <= i <= j ==> Warm(g, u, i)
  {
    k := FoundInRun(g, u, j + 1, u[j + 1]);
    SamePlace(s, u[k], Place(s, e, k), Place(s, e, j + 1));
    NoNodeSooner(s, e, k, j + 1);
    forall i | RunStart(g, u, j + 1) <= i <= j
      ensures Warm(g, u, i)
    {
      WarmInRun(g, u, j + 1, i);
    }
  }

  lemma {:induction false} FoundInRun(g: Graph, u: seq<Addr>, i: nat, x: Addr) returns (k: nat)
    requires i <= |u| && x in RunAt(g, u, i)
    ensures
      var b := RunStart(g, u, i);
      b <= k < b + MAX_PATH_LEN && k < i && u[k] == x
  {
    RunIs(g, u, i);
    var run := RunAt(g, u, i);
    var d :| 0 <= d < |run| && run[d] == x;
    k := RunStart(g, u, i) + d;
  }

  lemma {:induction false} SamePlace(s: seq<Addr>, x: Addr, i: nat, j: nat)
    requires Distinct(s) && i < |s| && j < |s| && s[i] == x == s[j]
    ensures i == j
  {
  }

  /** A run that comes into the loop and closes. */
  lemma {:induction false} ClosingFromOutside(g: Graph, s: seq<Addr>, e: nat, u: seq<Addr>, j: nat, k: nat)
    requires LeadsBack(g, s, e) && u == Unrolled(s, e, |u|) && j + 1 < |u| && RunStart(g, u, j + 1) <= e <= k
    requires k < RunStart(g, u, j + 1) + MAX_PATH_LEN && k + (|s| - e) <= j + 1
    requires forall i :: RunStart(g, u, j + 1) <= i <= j ==> Warm(g, u, i)
    ensures !Full(g, s, e) && WarmIn(g, s, e)
  {
    NotFull(g, s, e, u, j + 1);
    forall i | e <= i < |s|
      ensures Warm(g, s, i)
    {
      WarmAlike(g, s, e, |u|, i);
    }
  }

  /** A run that starts on the loop and closes. */
  lemma {:induction false} ClosingFromInside(g: Graph, s: seq<Addr>, e: nat, u: seq<Addr>, j: nat, k: nat)
    requires LeadsBack(g, s, e) && u == Unrolled(s, e, |u|) && j + 1 < |u| && e < RunStart(g, u, j + 1) <= k
    requires k + (|s| - e) <= j + 1
    requires forall i :: RunStart(g, u, j + 1) <= i <= j ==> Warm(g, u, i)
    ensures WarmLoop(g, s, e) && (Full(g, s, e) ==> !WarmIn(g, s, e))
  {
    var b := RunStart(g, u, j + 1);
    StartIs(g, u, j + 1);
    if b == e + 1 {
      WarmOnceRoundFromSecond(g, s, e, u);
    } else {
      WarmOnceRound(g, s, e, u, b);
    }
    if Full(g, s, e) {
      NotWarmInThen(g, s, e, u, b);
    }
  }

  lemma {:induction false} NotWarmInThen(g: Graph, s: seq<Addr>, e: nat, u: seq<Addr>, b: nat)
    requires e < |s| && u == Unrolled(s, e, |u|) && e < b <= |u| && !Warm(g, u, b - 1)
    requires WarmLoop(g, s, e) && Warm(g, s, e)
    ensures !WarmIn(g, s, e)
  {
    var d := b - 1;
    WarmAlike(g, s, e, |u|, e);
    WarmBehind(g, s, e, u, d);
    if d < |s| {
      WarmAlike(g, s, e, |u|, d);
    }
  }

  /** On a warm loop only its first two nodes can be met by a walk that is not warm. */
  lemma {:induction false} WarmBehind(g: Graph, s: seq<Addr>, e: nat, u: seq<Addr>, d: nat)
    requires e < |s| && u == Unrolled(s, e, |u|) && e < d < |u| && WarmLoop(g, s, e)
    ensures d >= e + 2 || d >= |s| ==> Warm(g, u, d)
  {
    var i := Place(s, e, d);
    assert WarmRound(g, s, e, i);
    if d >= e + 2 {
      WarmOnLoop(g, s, e, u, d);
    }
  }

  lemma {:induction false} ClosingComesRound(g: Graph, s: seq<Addr>, e: nat, u: seq<Addr>, j: nat)
    requires LeadsBack(g, s, e) && u == Unrolled(s, e, |u|) && j + 1 < |u| && Closes(g, u, j)
    ensures ComesRound(g, s, e)
  {
    var k := ClosedAt(g, s, e, u, j);
    if RunStart(g, u, j + 1) <= e {
      ClosingFromOutside(g, s, e, u, j, k);
    } else {
      ClosingFromInside(g, s, e, u, j, k);
    }
  }

  /** The run holds the node that comes again. */
  lemma {:induction false} ClosesAt(g: Graph, u: seq<Addr>, b: nat, k: nat, next: nat)
    requires next < |u| && b <= k < next && k < b + MAX_PATH_LEN && u[k] == u[next]
    requires RunStart(g, u, next) == b
    ensures Closes(g, u, next - 1)
  {
    RunIs(g, u, next);
    var run, i := RunAt(g, u, next), k - b;
    assert run[i] == u[k];
  }

  lemma {:induction false} WarmInCloses(g: Graph, s: seq<Addr>, e: nat, u: seq<Addr>)
    requires LeadsBack(g, s, e) && WarmIn(g, s, e) && !Full(g, s, e) && u == Unrolled(s, e, |s| + 1)
    ensures Closes(g, u, |s| - 1)
  {
    var n := |s|;
    forall k | e <= k < n
      ensures Warm(g, u, k)
    {
      WarmAlike(g, s, e, |u|, k);
    }
    RunGoesOn(g, u, e, n);
    var b := RunStart(g, u, n);
    RunHasRoom(g, s, e, u);
    ClosesAt(g, u, b, e, n);
  }

  lemma {:induction false} RunHasRoom(g: Graph, s: seq<Addr>, e: nat, u: seq<Addr>)
    requires e < |s| && u == Unrolled(s, e, |u|) && e < |u| && Warm(g, s, e) && !Full(g, s, e)
    ensures e < RunStart(g, u, e) + MAX_PATH_LEN
  {
    var b := RunStart(g, u, e);
    if b + MAX_PATH_LEN <= e {
      forall i | e - MAX_PATH_LEN <= i <= e
        ensures Warm(g, s, i)
      {
        if i < e {
          WarmInRun(g, u, e, i);
          WarmAlike(g, s, e, |u|, i);
        }
      }
    }
  }

  /** A run is given up on the way round, and the next one comes round. */
  lemma {:induction false} WarmLoopCloses(g: Graph, s: seq<Addr>, e: nat, d: nat, u: seq<Addr>) returns (again: nat)
    requires LeadsBack(g, s, e) && WarmLoop(g, s, e) && e <= d < |s| && !Warm(g, s, d)
    requires |u| == d + |s| + 5 && u == Unrolled(s, e, |u|)
    ensures 0 < again < |u| && Closes(g, u, again - 1)
  {
    var m, i := |s| - e, d + 4;
    WarmAlike(g, s, e, |u|, d);
    AllWarmBehind(g, s, e, u, d + 3);
    var b := NewRun(g, u, d, i);
    again := b + m;
    StaysInRun(g, u, b, i, again);
    RoundAgain(s, e, u, b, again);
    ClosesAt(g, u, b, b, again);
  }

  lemma {:induction false} AllWarmBehind(g: Graph, s: seq<Addr>, e: nat, u: seq<Addr>, d: nat)
    requires e < |s| && u == Unrolled(s, e, |u|) && e + 2 <= d && WarmLoop(g, s, e)
    ensures forall k :: d <= k < |u| ==> Warm(g, u, k)
  {
    forall k | d <= k < |u|
      ensures Warm(g, u, k)
    {
      WarmBehind(g, s, e, u, k);
    }
  }

  lemma {:induction false} RoundAgain(s: seq<Addr>, e: nat, u: seq<Addr>, b: nat, again: nat)
    requires e < |s| && u == Unrolled(s, e, |u|) && e <= b && again == b + (|s| - e) < |u|
    ensures u[again] == u[b]
  {
  }

  /** Behind a place where a run is given up a new one starts. */
  lemma {:induction false} NewRun(g: Graph, u: seq<Addr>, d: nat, i: nat) returns (b: nat)
    requires i == d + 4 <= |u| && !Warm(g, u, d) && Warm(g, u, i - 1)
    ensures b == RunStart(g, u, i) && d < b < i
  {
    b := RunStart(g, u, i);
    LivesAre(g, u, i - 1);
    NotInRun(g, u, i, d);
  }

  lemma {:induction false} StaysInRun(g: Graph, u: seq<Addr>, b: nat, i: nat, j: nat)
    requires b < j <= |u| && i <= |u| && b == RunStart(g, u, i) < i && forall k :: i <= k < j ==> Warm(g, u, k)
    ensures RunStart(g, u, j) == b
  {
    if i <= j {
      RunGoesOn(g, u, i, j);
    } else {
      RunLasts(g, u, i, j);
    }
  }

  lemma {:induction false} NotInRun(g: Graph, u: seq<Addr>, i: nat, d: nat)
    requires d < i <= |u| && !Warm(g, u, d)
    ensures RunStart(g, u, i) > d
  {
    if RunStart(g, u, i) <= d {
      WarmInRun(g, u, i, d);
    }
  }

  lemma {:induction false} ComingRoundReturns(g: Graph, s: seq<Addr>, e: nat)
    requires LeadsBack(g, s, e) && ComesRound(g, s, e)
    ensures exists calls: nat :: Comes(g, s[0], [], -1, calls)
  {
    var u, again;
    if WarmIn(g, s, e) {
      u, again := Unrolled(s, e, |s| + 1), |s|;
      WarmInCloses(g, s, e, u);
    } else {
      var d :| e <= d < |s| && !Warm(g, s, d);
      u := Unrolled(s, e, d + |s| + 5);
      again := WarmLoopCloses(g, s, e, d, u);
    }
    UnrolledContig(g, s, e, |u|);
    ClosingReturns(g, u, again - 1);
    assert u[0] == s[0];
  }

  lemma {:induction false} NotComingRoundDoesNot(g: Graph, s: seq<Addr>, e: nat, calls: nat)
    requires LeadsBack(g, s, e) && !ComesRound(g, s, e)
    ensures !Comes(g, s[0], [], -1, calls)
  {
    var u := Unrolled(s, e, calls + 2);
    UnrolledContig(g, s, e, calls + 2);
    forall j | 0 <= j < |u| - 1
      ensures !Closes(g, u, j)
    {
      if Closes(g, u, j) {
        ClosingComesRound(g, s, e, u, j);
      }
    }
    OpenDoesNotReturn(g, u, calls);
    assert u[0] == s[0];
  }

  /**
   * The exact condition, for a walk along any chain that leads back: its run comes round the loop
   * on the way in, or round the loop itself once it has been given up there; and a run that is
   * full when it comes in, which then does not hold a node of the loop, has to be given up.
   */
  lemma {:induction false} WalkReturnsIff(g: Graph, s: seq<Addr>, e: nat)
    requires LeadsBack(g, s, e)
    ensures (exists calls: nat :: Returns(g, s[0], [], 0, false, calls)) <==> ComesRound(g, s, e)
  {
    if ComesRound(g, s, e) {
      ComingRoundReturns(g, s, e);
      var calls: nat :| Comes(g, s[0], [], -1, calls);
      AllowanceOnlyWhenCollecting(g, s[0], [], -1, 0, calls);
    } else {
      forall calls: nat
        ensures !Returns(g, s[0], [], 0, false, calls)
      {
        NotComingRoundDoesNot(g, s, e, calls);
        AllowanceOnlyWhenCollecting(g, s[0], [], -1, 0, calls);
      }
    }
  }

  /** For a chain into a drop rule: that rule, or one of the two in front of it, must have changed, and the run must have room. */
  lemma {:induction false} DropRuleReturnsIff(g: Graph, s: seq<Addr>)
    requires s != [] && LeadsBack(g, s, |s| - 1)
    ensures (exists calls: nat :: Returns(g, s[0], [], 0, false, calls)) <==>
            Warm(g, s, |s| - 1) && !Full(g, s, |s| - 1)
  {
    var e := |s| - 1;
    WalkReturnsIff(g, s, e);
    assert WarmRound(g, s, e, e) <==> Changed(g, s[e]);
    if Changed(g, s[e]) {
      assert Warm(g, s, e);
    }
  }

  /** A rule that leads to a node with a drop rule, both unchanged: the walk from its node never returns. */
  lemma {:induction false} IdleDropRuleNeverReturns(a: Addr, b: Addr, calls: nat)
    requires a != b
    ensures !Returns(map[b := Rule(a, false), a := Rule(a, false)], b, [], 0, false, calls)
  {
    var g, s := map[b := Rule(a, false), a := Rule(a, false)], [b, a];
    assert StepAt(g, s, 0);
    assert LeadsBack(g, s, 1);
    DropRuleReturnsIff(g, s);
  }
}
