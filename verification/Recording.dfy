// What the planner's sweeps record on any table whose walks return, whatever
// loops its rules form.
module Recording {
  import opened Common
  import opened RuleGraph
  import opened PathConflicts

  /** What get_node_path records on any graph, if it returns within a number of calls. */
  function Record(g: Graph, u: Addr, path: seq<Addr>, lives: int, active: bool, calls: nat): Option<PathList>
    decreases calls, u
  {
    if calls == 0 then None
    else if !active && !Changed(g, u) then
      if u in g then Record(g, g[u].next, path, lives, false, calls - 1) else Some([])
    else
      var path' := if |path| < MAX_PATH_LEN then path + [u] else path;
      var lives' := (if Changed(g, u) then MAX_CHANGED_LIFES else lives) - 1;
      if lives' < 0 then Behind(path', if u in g then Record(g, g[u].next, [], MAX_CHANGED_LIFES, false, calls - 1) else Some([[]]))
      else if u !in g || g[u].next in path' then Some([path'])
      else Record(g, g[u].next, path', lives', true, calls - 1)
  }

  function Behind(path: seq<Addr>, rest: Option<PathList>): Option<PathList> {
    if rest.Some? then Some([path] + rest.value) else None
  }

  /** It returns exactly if the walk does. */
  lemma {:induction false} RecordReturns(g: Graph, u: Addr, path: seq<Addr>, lives: int, active: bool, calls: nat)
    ensures Record(g, u, path, lives, active, calls).Some? <==> Returns(g, u, path, lives, active, calls)
    decreases calls
  {
    if calls > 0 && u in g {
      var path' := if |path| < MAX_PATH_LEN then path + [u] else path;
      var lives' := (if Changed(g, u) then MAX_CHANGED_LIFES else lives) - 1;
      if !active && !Changed(g, u) {
        RecordReturns(g, g[u].next, path, lives, false, calls - 1);
      } else if lives' < 0 {
        RecordReturns(g, g[u].next, [], MAX_CHANGED_LIFES, false, calls - 1);
      } else {
        RecordReturns(g, g[u].next, path', lives', true, calls - 1);
      }
    }
  }

  /** However many calls are allowed, it is the same. */
  lemma {:induction false} SameRecord(g: Graph, u: Addr, path: seq<Addr>, lives: int, active: bool, m: nat, n: nat)
    requires Record(g, u, path, lives, active, m).Some? && Record(g, u, path, lives, active, n).Some?
    ensures Record(g, u, path, lives, active, m) == Record(g, u, path, lives, active, n)
    decreases m
  {
    if u in g {
      var path' := if |path| < MAX_PATH_LEN then path + [u] else path;
      var lives' := (if Changed(g, u) then MAX_CHANGED_LIFES else lives) - 1;
      if !active && !Changed(g, u) {
        SameRecord(g, g[u].next, path, lives, false, m - 1, n - 1);
      } else if lives' < 0 {
        SameRecord(g, g[u].next, [], MAX_CHANGED_LIFES, false, m - 1, n - 1);
      } else if g[u].next !in path' {
        SameRecord(g, g[u].next, path', lives', true, m - 1, n - 1);
      }
    }
  }

  /** On a table without loops it is the walk of RuleGraph. */
  lemma {:induction false} RecordOfChain(g: Graph, u: Addr, path: seq<Addr>, lives: int, active: bool, n: nat)
    requires Ends(g, u, n)
    ensures Record(g, u, path, lives, active, n + 1) == Some(Walk(g, u, path, lives, active, n))
    decreases n
  {
    if u in g {
      var path' := if |path| < MAX_PATH_LEN then path + [u] else path;
      var lives' := (if Changed(g, u) then MAX_CHANGED_LIFES else lives) - 1;
      if !active && !Changed(g, u) {
        RecordOfChain(g, g[u].next, path, lives, false, n - 1);
      } else if lives' < 0 {
        RecordOfChain(g, g[u].next, [], MAX_CHANGED_LIFES, false, n - 1);
      } else if g[u].next !in path' {
        RecordOfChain(g, g[u].next, path', lives', true, n - 1);
      }
    }
  }

  lemma {:induction false} GrownDistinct(path: seq<Addr>, u: Addr)
    requires Distinct(path) && u !in path
    ensures Distinct(path + [u])
  {
  }

  /** No recorded path comes to a node twice. */
  lemma {:induction false} RecordedAreDistinct(g: Graph, u: Addr, path: seq<Addr>, lives: int, active: bool, calls: nat)
    requires Record(g, u, path, lives, active, calls).Some? && Distinct(path) && u !in path && (!active ==> path == [])
    ensures forall p :: p in Record(g, u, path, lives, active, calls).value ==> Distinct(p)
    decreases calls
  {
    GrownDistinct(path, u);
    if u in g {
      var path' := if |path| < MAX_PATH_LEN then path + [u] else path;
      var lives' := (if Changed(g, u) then MAX_CHANGED_LIFES else lives) - 1;
      if !active && !Changed(g, u) {
        RecordedAreDistinct(g, g[u].next, path, lives, false, calls - 1);
      } else if lives' < 0 {
        RecordedAreDistinct(g, g[u].next, [], MAX_CHANGED_LIFES, false, calls - 1);
      } else if g[u].next !in path' {
        RecordedAreDistinct(g, g[u].next, path', lives', true, calls - 1);
      }
    }
  }

  // ---- Walks from several starts.

  /** Path p is recorded by the walk from r. */
  ghost predicate FoundFrom(g: Graph, r: Addr, p: seq<Addr>) {
    exists calls: nat :: InRecord(g, r, calls, p)
  }

  predicate InRecord(g: Graph, r: Addr, calls: nat, p: seq<Addr>) {
    var found := Record(g, r, [], 0, false, calls);
    found.Some? && p in found.value
  }

  ghost predicate Finishes(g: Graph, r: Addr) {
    exists calls: nat :: Record(g, r, [], 0, false, calls).Some?
  }

  /** What the walk from r records. */
  ghost function Found(g: Graph, r: Addr): PathList
    requires Finishes(g, r)
  {
    var calls: nat :| Record(g, r, [], 0, false, calls).Some?;
    Record(g, r, [], 0, false, calls).value
  }

  lemma {:induction false} FoundIs(g: Graph, r: Addr, calls: nat)
    requires Record(g, r, [], 0, false, calls).Some?
    ensures Finishes(g, r) && Found(g, r) == Record(g, r, [], 0, false, calls).value
  {
    var other: nat :| Record(g, r, [], 0, false, other).Some? && Found(g, r) == Record(g, r, [], 0, false, other).value;
    SameRecord(g, r, [], 0, false, calls, other);
  }

  lemma {:induction false} FoundHas(g: Graph, r: Addr, p: seq<Addr>)
    requires Finishes(g, r)
    ensures FoundFrom(g, r, p) <==> p in Found(g, r)
  {
    var calls: nat :| Record(g, r, [], 0, false, calls).Some?;
    FoundIs(g, r, calls);
    if p in Found(g, r) {
      assert InRecord(g, r, calls, p);
    }
    if other: nat :| InRecord(g, r, other, p) {
      FoundIs(g, r, other);
    }
  }

  ghost predicate AllFinish(g: Graph, starts: seq<Addr>) {
    forall r :: r in starts ==> Finishes(g, r)
  }

  /** What the walks from a list of starts record, one after the other. */
  ghost function AllFound(g: Graph, starts: seq<Addr>): PathList
    requires AllFinish(g, starts)
  {
    if starts == [] then []
    else
      assert Last(starts) in starts;
      AllFound(g, starts[..|starts| - 1]) + Found(g, Last(starts))
  }

  lemma {:induction false} AllFoundHas(g: Graph, starts: seq<Addr>, p: seq<Addr>)
    requires AllFinish(g, starts)
    ensures p in AllFound(g, starts) <==> exists r :: r in starts && FoundFrom(g, r, p)
  {
    if starts != [] {
      var front, last := starts[..|starts| - 1], Last(starts);
      assert last in starts && starts == front + [last];
      AllFoundHas(g, front, p);
      FoundHas(g, last, p);
      assert forall r :: r in starts <==> r in front || r == last;
    }
  }

  lemma {:induction false} AllFoundMore(g: Graph, starts: seq<Addr>, r: Addr)
    requires AllFinish(g, starts) && Finishes(g, r)
    ensures AllFinish(g, starts + [r]) && AllFound(g, starts + [r]) == AllFound(g, starts) + Found(g, r)
  {
    assert (starts + [r])[..|starts|] == starts;
  }

  /** The starts hold every node that no rule leads to, the walks from them return, and P lists what these record. */
  ghost predicate FoundBy(g: Graph, starts: seq<Addr>, P: PathList) {
    && (forall r :: r in g && IsRoot(g, r) ==> r in starts)
    && AllFinish(g, starts)
    && (forall p :: p in P <==> exists r :: r in starts && FoundFrom(g, r, p))
  }

  /** Without loops it is the list of PathConflicts. */
  lemma {:induction false} FoundIsRecorded(g: Graph, starts: seq<Addr>, P: PathList)
    requires ShortChains(g) && FoundBy(g, starts, P)
    ensures RecordedList(g, starts, P)
  {
    forall p
      ensures p in P <==> p in AllWalks(g, starts)
    {
      AllWalksAre(g, starts, p);
      forall r | r in starts
        ensures FoundFrom(g, r, p) <==> p in RootWalk(g, r)
      {
        RecordOfChain(g, r, [], 0, false, MAX_PATH_LEN);
        FoundIs(g, r, MAX_PATH_LEN + 1);
        FoundHas(g, r, p);
      }
    }
  }

  lemma {:induction false} FoundAreDistinct(g: Graph, starts: seq<Addr>, P: PathList)
    requires FoundBy(g, starts, P)
    ensures forall p :: p in P ==> Distinct(p)
  {
    forall p | p in P
      ensures Distinct(p)
    {
      var r :| r in starts && FoundFrom(g, r, p);
      var calls: nat :| InRecord(g, r, calls, p);
      RecordedAreDistinct(g, r, [], 0, false, calls);
    }
  }

  // ---- The two sweeps.

  /** Some walk from these starts records a path through u. */
  ghost predicate OnFound(g: Graph, starts: seq<Addr>, u: Addr) {
    exists r, p :: r in starts && FoundFrom(g, r, p) && u in p
  }

  /**
   * The first n starts are the nodes no rule leads to.  The others are changed nodes that no path
   * recorded before them passes, and the second sweep leaves out no such node.
   */
  ghost predicate SweptFrom(g: Graph, starts: seq<Addr>, n: nat) {
    && n <= |starts|
    && (forall r :: r in starts[..n] <==> r in g && IsRoot(g, r))
    && (forall k :: n <= k < |starts| ==> Changed(g, starts[k]) && !OnFound(g, starts[..k], starts[k]))
    && (forall u :: Changed(g, u) ==> u in starts || OnFound(g, starts, u))
  }

  /** Where the sweeps may start the walk has to return. */
  ghost predicate SweepsReturn(g: Graph) {
    forall r :: (r in g && IsRoot(g, r)) || Changed(g, r) ==> Finishes(g, r)
  }

  lemma {:induction false} OnFoundStays(g: Graph, starts: seq<Addr>, more: seq<Addr>, u: Addr)
    requires starts <= more && OnFound(g, starts, u)
    ensures OnFound(g, more, u)
  {
    var r, p :| r in starts && FoundFrom(g, r, p) && u in p;
    assert r in more;
  }

  lemma {:induction false} OnFoundIs(g: Graph, starts: seq<Addr>, u: Addr)
    requires AllFinish(g, starts)
    ensures OnFound(g, starts, u) <==> exists p :: p in AllFound(g, starts) && u in p
  {
    if OnFound(g, starts, u) {
      var r, p :| r in starts && FoundFrom(g, r, p) && u in p;
      AllFoundHas(g, starts, p);
    }
    if p :| p in AllFound(g, starts) && u in p {
      AllFoundHas(g, starts, p);
    }
  }

  /** On a table without loops every walk returns. */
  lemma {:induction false} ShortChainsReturn(g: Graph)
    requires ShortChains(g)
    ensures SweepsReturn(g)
  {
    forall r
      ensures Finishes(g, r)
    {
      RecordOfChain(g, r, [], 0, false, MAX_PATH_LEN);
    }
  }
}
