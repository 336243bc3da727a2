/**
 * Paths on the 4-neighbour unit-cost grid, the contract both pathfinders
 * meet, and the facts about a best-first search that make its first pop of
 * a cell final: the proof is shared by A* (Manhattan heuristic) and
 * Dijkstra (heuristic zero).
 */
module Paths {
  import opened Grid

  /** w walks from a to b in unit steps; every cell after the first is passable. */
  predicate IsPath(blocked: array2<bool>, w: seq<Pos>, a: Pos, b: Pos)
    requires IsGrid(blocked)
    reads blocked
  {
    |w| >= 1 && w[0] == a && w[|w| - 1] == b &&
    (forall i :: 1 <= i < |w| ==> Passable(blocked, w[i])) &&
    (forall i :: 0 <= i < |w| - 1 ==> Adjacent(w[i], w[i + 1]))
  }

  ghost predicate Reachable(blocked: array2<bool>, a: Pos, b: Pos)
    requires IsGrid(blocked)
    reads blocked
  {
    exists w :: IsPath(blocked, w, a, b)
  }

  /** p is a path from a to b with no more cells than any other. */
  ghost predicate Shortest(blocked: array2<bool>, p: seq<Pos>, a: Pos, b: Pos)
    requires IsGrid(blocked)
    reads blocked
  {
    IsPath(blocked, p, a, b) && forall w :: IsPath(blocked, w, a, b) ==> |p| <= |w|
  }

  /**
   * What `astar` and `dijkstra` return: exactly [start] when start equals
   * goal, a shortest path when the goal is reachable, and [] exactly when
   * it is not.
   */
  ghost predicate SearchResult(blocked: array2<bool>, start: Pos, goal: Pos, path: seq<Pos>)
    requires IsGrid(blocked)
    reads blocked
  {
    (start == goal ==> path == [start]) &&
    (path != [] ==> Shortest(blocked, path, start, goal)) &&
    (path == [] <==> !Reachable(blocked, start, goal))
  }

  /** Two results of the contract have the same length, whichever optimal path each picked. */
  lemma SearchResultsAgree(blocked: array2<bool>, start: Pos, goal: Pos, p: seq<Pos>, q: seq<Pos>)
    requires IsGrid(blocked)
    requires SearchResult(blocked, start, goal, p) && SearchResult(blocked, start, goal, q)
    ensures |p| == |q|
  {
  }

  /** The search heuristic: Manhattan distance to the goal for A*, zero for Dijkstra. */
  function Heur(useH: bool, p: Pos, goal: Pos): nat {
    if useH then Manhattan(p, goal) else 0
  }

  lemma Triangle(a: Pos, b: Pos, c: Pos)
    ensures Manhattan(a, c) <= Manhattan(a, b) + Manhattan(b, c)
  {
  }

  /** Every passable neighbour of a settled cell u was offered a cost of at most dv[u] + 1. */
  ghost predicate Expanded(blocked: array2<bool>, visited: set<Pos>, dv: map<Pos, nat>, gs: map<Pos, nat>)
    requires IsGrid(blocked)
    reads blocked
  {
    forall u, n :: u in visited && Adjacent(u, n) && Passable(blocked, n) ==>
      u in dv && n in gs && gs[n] <= dv[u] + 1
  }

  /** No path from start to a settled cell v has fewer than dv[v] steps. */
  ghost predicate Optimal(blocked: array2<bool>, start: Pos, visited: set<Pos>, dv: map<Pos, nat>)
    requires IsGrid(blocked)
    reads blocked
  {
    forall v, w :: v in visited && IsPath(blocked, w, start, v) ==> v in dv && dv[v] <= |w| - 1
  }

  /** A walk that starts inside s and ends outside it crosses the border at some step. */
  lemma FirstExit(w: seq<Pos>, s: set<Pos>) returns (i: nat)
    requires |w| >= 1 && w[0] in s && w[|w| - 1] !in s
    ensures 1 <= i < |w| && w[i - 1] in s && w[i] !in s
  {
    i := 1;
    while w[i] in s
      invariant 1 <= i < |w| && w[i - 1] in s
      decreases |w| - i
    {
      i := i + 1;
    }
  }

  /** The cell k steps before the end of a walk is within Manhattan distance k of it. */
  lemma {:induction false} StepsBound(w: seq<Pos>, i: nat)
    requires i < |w|
    requires forall k :: 0 <= k < |w| - 1 ==> Adjacent(w[k], w[k + 1])
    ensures Manhattan(w[i], w[|w| - 1]) <= |w| - 1 - i
    decreases |w| - i
  {
    if i < |w| - 1 {
      StepsBound(w, i + 1);
      assert Adjacent(w[i], w[i + 1]);
      Triangle(w[i], w[i + 1], w[|w| - 1]);
    }
  }

  lemma PathPrefix(blocked: array2<bool>, w: seq<Pos>, a: Pos, b: Pos, i: nat)
    requires IsGrid(blocked)
    requires IsPath(blocked, w, a, b) && i < |w|
    ensures IsPath(blocked, w[..i + 1], a, w[i])
  {
  }

  lemma PathExtend(blocked: array2<bool>, w: seq<Pos>, a: Pos, b: Pos, c: Pos)
    requires IsGrid(blocked)
    requires IsPath(blocked, w, a, b) && Adjacent(b, c) && Passable(blocked, c)
    ensures IsPath(blocked, w + [c], a, c)
  {
  }

  /**
   * The heart of best-first search with a consistent heuristic: if every
   * unsettled cell on the frontier has key at least `key`, then no path to
   * an unsettled cell c is shorter than key - h(c). Any such path leaves
   * the settled region at some step i; the cell it enters there was
   * offered cost at most i, and from it the heuristic drops by at most one
   * per remaining step.
   */
  lemma PopIsOptimal(blocked: array2<bool>, start: Pos, goal: Pos, useH: bool,
                     visited: set<Pos>, dv: map<Pos, nat>, gs: map<Pos, nat>,
                     key: int, c: Pos, w: seq<Pos>)
    requires IsGrid(blocked)
    requires start in visited && c !in visited
    requires Expanded(blocked, visited, dv, gs) && Optimal(blocked, start, visited, dv)
    requires forall n :: n in gs && n !in visited ==> key <= gs[n] + Heur(useH, n, goal)
    requires IsPath(blocked, w, start, c)
    ensures key <= |w| - 1 + Heur(useH, c, goal)
  {
    var i := FirstExit(w, visited);
    var u, n := w[i - 1], w[i];
    assert Adjacent(w[i - 1], w[i - 1 + 1]);
    assert Passable(blocked, n);
    PathPrefix(blocked, w, start, c, i - 1);
    assert dv[u] <= i - 1;
    assert n in gs && gs[n] <= i;
    StepsBound(w, i);
    Triangle(n, c, goal);
  }

  /**
   * When every offered cell is settled and every settled cell has been
   * expanded, every path from the start stays inside the settled region.
   */
  lemma ClosedSetContainsPaths(blocked: array2<bool>, start: Pos, visited: set<Pos>,
                               dv: map<Pos, nat>, gs: map<Pos, nat>, w: seq<Pos>, b: Pos)
    requires IsGrid(blocked)
    requires start in visited && Expanded(blocked, visited, dv, gs)
    requires forall n :: n in gs ==> n in visited
    requires IsPath(blocked, w, start, b)
    ensures b in visited
  {
    var i := 0;
    while i < |w| - 1
      invariant 0 <= i < |w| && w[i] in visited
    {
      assert Adjacent(w[i], w[i + 1]);
      assert Passable(blocked, w[i + 1]);
      i := i + 1;
    }
  }

  /** Lowering offered costs keeps every settled cell expanded. */
  lemma ExpandedLower(blocked: array2<bool>, visited: set<Pos>, dv: map<Pos, nat>, gs: map<Pos, nat>, gs': map<Pos, nat>)
    requires IsGrid(blocked)
    requires Expanded(blocked, visited, dv, gs)
    requires forall m :: m in gs ==> m in gs' && gs'[m] <= gs[m]
    ensures Expanded(blocked, visited, dv, gs')
  {
  }

  /** The first i + 1 directions of cur have been offered cost at most g + 1 once direction i has. */
  lemma OfferedAfterPush(blocked: array2<bool>, gs: map<Pos, nat>, cur: Pos, i: nat, g: nat, ng: nat)
    requires IsGrid(blocked)
    requires i < 4 && ng == g + 1
    requires Step(cur, i) !in gs || ng < gs[Step(cur, i)]
    requires forall j :: 0 <= j < i && Passable(blocked, Step(cur, j)) ==>
      Step(cur, j) in gs && gs[Step(cur, j)] <= g + 1
    ensures forall j :: 0 <= j < i + 1 && Passable(blocked, Step(cur, j)) ==>
      Step(cur, j) in gs[Step(cur, i) := ng] && gs[Step(cur, i) := ng][Step(cur, j)] <= g + 1
  {
  }

  /** A path as long as the optimal settled cost of the goal is a search result. */
  lemma FoundIsShortest(blocked: array2<bool>, start: Pos, goal: Pos, visited: set<Pos>,
                        dv: map<Pos, nat>, path: seq<Pos>)
    requires IsGrid(blocked)
    requires start != goal && goal in visited && Optimal(blocked, start, visited, dv)
    requires IsPath(blocked, path, start, goal) && goal in dv && |path| == dv[goal] + 1
    ensures SearchResult(blocked, start, goal, path)
  {
  }

  function Reverse(s: seq<Pos>): (r: seq<Pos>)
    ensures |r| == |s| && forall i :: 0 <= i < |s| ==> r[i] == s[|s| - 1 - i]
  {
    seq(|s|, i requires 0 <= i < |s| => s[|s| - 1 - i])
  }

  /**
   * A path collected backwards from b to a, as both searches reconstruct it:
   * every cell but the last (a) is passable.
   */
  predicate IsBackPath(blocked: array2<bool>, bp: seq<Pos>, a: Pos, b: Pos)
    requires IsGrid(blocked)
    reads blocked
  {
    |bp| >= 1 && bp[0] == b && bp[|bp| - 1] == a &&
    (forall i :: 0 <= i < |bp| - 1 ==> Passable(blocked, bp[i])) &&
    (forall i :: 0 <= i < |bp| - 1 ==> Adjacent(bp[i], bp[i + 1]))
  }

  /** Reversing a backward path (`path[::-1]`) gives a forward path of the same length. */
  lemma ReverseBackPath(blocked: array2<bool>, bp: seq<Pos>, a: Pos, b: Pos)
    requires IsGrid(blocked)
    requires IsBackPath(blocked, bp, a, b)
    ensures IsPath(blocked, Reverse(bp), a, b) && |Reverse(bp)| == |bp|
  {
    var r := Reverse(bp);
    forall i | 0 <= i < |r| - 1
      ensures Adjacent(r[i], r[i + 1])
    {
      var j := |bp| - 2 - i;
      assert r[i] == bp[j + 1] && r[i + 1] == bp[j];
      assert Adjacent(bp[j], bp[j + 1]);
    }
    forall i | 1 <= i < |r|
      ensures Passable(blocked, r[i])
    {
      assert r[i] == bp[|bp| - 1 - i];
    }
  }
}
