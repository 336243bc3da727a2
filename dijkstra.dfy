/**
 * `dijkstra` of the single-floor script: uniform-cost search on the
 * 4-neighbour grid with a `dist` map of best offered distances, a `prev`
 * map updated whenever a distance improves, and a `visited` set whose
 * first pop of a cell is final. The queue `pq` is a sequence with
 * extract-minimum under heapq's order on (d, cell); the proofs use the d
 * order only. Optimality comes from Paths.PopIsOptimal with heuristic 0.
 */
module DijkstraSearch {
  import opened Grid
  import opened Paths

  /** A queue entry (d, cell) of `pq`. */
  datatype Item = Item(d: nat, cell: Pos)

  /** The tuple order heapq compares items by: d, then x, then y. */
  predicate ItemLe(a: Item, b: Item) {
    a.d < b.d || (a.d == b.d && (a.cell.x < b.cell.x || (a.cell.x == b.cell.x && a.cell.y <= b.cell.y)))
  }

  /** heappop: the index of a least item of the queue. */
  method PopMin(pq: seq<Item>) returns (k: nat)
    requires pq != []
    ensures k < |pq|
    ensures forall j :: 0 <= j < |pq| ==> ItemLe(pq[k], pq[j])
  {
    k := 0;
    var i := 1;
    while i < |pq|
      invariant 1 <= i <= |pq| && k < i
      invariant forall j :: 0 <= j < i ==> ItemLe(pq[k], pq[j])
    {
      if !ItemLe(pq[k], pq[i]) {
        k := i;
      }
      i := i + 1;
    }
  }

  /**
   * The `dist`/`prev` maps: the start has distance 0 and no predecessor;
   * every other cell with a distance is passable, has a settled
   * predecessor one step away, and its distance is one more than that
   * predecessor's settled cost.
   */
  ghost predicate Links(blocked: array2<bool>, start: Pos, dist: map<Pos, nat>, prev: map<Pos, Pos>,
                        visited: set<Pos>, dv: map<Pos, nat>)
    requires IsGrid(blocked)
    reads blocked
  {
    start in dist && dist[start] == 0 && start !in prev &&
    (forall n :: n in dist && n != start ==> n in prev) &&
    forall n {:trigger prev[n]} :: n in prev ==>
      n in dist && n != start && prev[n] in visited && prev[n] in dv && Adjacent(prev[n], n) &&
      Passable(blocked, n) && dist[n] == dv[prev[n]] + 1
  }

  /** Settled cells keep the distance they were settled with. */
  ghost predicate SettledOk(dist: map<Pos, nat>, visited: set<Pos>, dv: map<Pos, nat>) {
    dv.Keys == visited && (forall v :: v in visited ==> v in dist && dist[v] == dv[v])
  }

  /** For each settled cell, a ghost path from the start as long as its settled cost. */
  ghost predicate Witnessed(blocked: array2<bool>, start: Pos, visited: set<Pos>, dv: map<Pos, nat>,
                            wit: map<Pos, seq<Pos>>)
    requires IsGrid(blocked)
    reads blocked
  {
    wit.Keys == visited && dv.Keys == visited &&
    forall v :: v in visited ==> IsPath(blocked, wit[v], start, v) && |wit[v]| == dv[v] + 1
  }

  /** Every queued item names a cell with a distance no larger than the item's. */
  ghost predicate ItemsOk(pq: seq<Item>, dist: map<Pos, nat>) {
    forall j :: 0 <= j < |pq| ==> pq[j].cell in dist && pq[j].d >= dist[pq[j].cell]
  }

  /** Every cell with an unsettled distance still has an item carrying exactly that distance. */
  ghost predicate Frontier(pq: seq<Item>, dist: map<Pos, nat>, visited: set<Pos>) {
    forall n :: n in dist && n !in visited ==>
      exists j :: 0 <= j < |pq| && pq[j].cell == n && pq[j].d == dist[n]
  }

  /** The invariant of the `while pq` loop. */
  ghost predicate Inv(blocked: array2<bool>, start: Pos, goal: Pos, pq: seq<Item>,
                      dist: map<Pos, nat>, prev: map<Pos, Pos>, visited: set<Pos>,
                      dv: map<Pos, nat>, wit: map<Pos, seq<Pos>>)
    requires IsGrid(blocked)
    reads blocked
  {
    (visited == {} ==> pq == [Item(0, start)]) &&
    (visited != {} ==> start in visited) &&
    goal !in visited &&
    Links(blocked, start, dist, prev, visited, dv) &&
    SettledOk(dist, visited, dv) &&
    Witnessed(blocked, start, visited, dv, wit) &&
    ItemsOk(pq, dist) && Frontier(pq, dist, visited) &&
    Expanded(blocked, visited, dv, dist) &&
    Optimal(blocked, start, visited, dv)
  }

  /** The invariant of the neighbour loop while cell cur is expanded; i directions are done. */
  ghost predicate Relaxing(blocked: array2<bool>, start: Pos, goal: Pos, pq: seq<Item>,
                           dist: map<Pos, nat>, prev: map<Pos, Pos>, visited: set<Pos>,
                           dv: map<Pos, nat>, wit: map<Pos, seq<Pos>>, cur: Pos, i: nat)
    requires IsGrid(blocked)
    reads blocked
  {
    start in visited && cur in visited && goal !in visited &&
    Links(blocked, start, dist, prev, visited, dv) &&
    SettledOk(dist, visited, dv) &&
    Witnessed(blocked, start, visited, dv, wit) &&
    ItemsOk(pq, dist) && Frontier(pq, dist, visited) &&
    Expanded(blocked, visited - {cur}, dv, dist) &&
    i <= 4 &&
    (forall j :: 0 <= j < i && Passable(blocked, Step(cur, j)) ==>
      Step(cur, j) in dist && dist[Step(cur, j)] <= dv[cur] + 1) &&
    Optimal(blocked, start, visited, dv)
  }

  lemma ItemsAfterPop(pq: seq<Item>, k: nat, dist: map<Pos, nat>)
    requires k < |pq| && ItemsOk(pq, dist)
    ensures ItemsOk(pq[..k] + pq[k + 1..], dist)
  {
    var rest := pq[..k] + pq[k + 1..];
    forall j | 0 <= j < |rest|
      ensures rest[j].cell in dist && rest[j].d >= dist[rest[j].cell]
    {
      assert rest[j] == if j < k then pq[j] else pq[j + 1];
    }
  }

  lemma FrontierAfterPop(pq: seq<Item>, k: nat, dist: map<Pos, nat>, visited: set<Pos>, visited': set<Pos>)
    requires k < |pq| && Frontier(pq, dist, visited)
    requires visited <= visited' && pq[k].cell in visited'
    ensures Frontier(pq[..k] + pq[k + 1..], dist, visited')
  {
    var rest := pq[..k] + pq[k + 1..];
    forall n | n in dist && n !in visited'
      ensures exists j :: 0 <= j < |rest| && rest[j].cell == n && rest[j].d == dist[n]
    {
      var j :| 0 <= j < |pq| && pq[j].cell == n && pq[j].d == dist[n];
      if j < k {
        assert rest[j] == pq[j];
      } else {
        assert rest[j - 1] == pq[j];
      }
    }
  }

  /** Popping an item whose cell is already settled (`continue`) keeps the invariant. */
  lemma PopSettled(blocked: array2<bool>, start: Pos, goal: Pos, before: seq<Item>, k: nat,
                   dist: map<Pos, nat>, prev: map<Pos, Pos>, visited: set<Pos>,
                   dv: map<Pos, nat>, wit: map<Pos, seq<Pos>>)
    requires IsGrid(blocked)
    requires Inv(blocked, start, goal, before, dist, prev, visited, dv, wit)
    requires k < |before| && before[k].cell in visited
    ensures Inv(blocked, start, goal, before[..k] + before[k + 1..], dist, prev, visited, dv, wit)
  {
    ItemsAfterPop(before, k, dist);
    FrontierAfterPop(before, k, dist, visited, visited);
  }

  /**
   * The first pop of an unsettled cell carries exactly its distance, and
   * that distance is optimal: every unsettled offered distance is at
   * least as large, so PopIsOptimal applies with heuristic 0.
   */
  lemma PopCostOptimal(blocked: array2<bool>, start: Pos, goal: Pos, before: seq<Item>, k: nat,
                       dist: map<Pos, nat>, prev: map<Pos, Pos>, visited: set<Pos>,
                       dv: map<Pos, nat>, wit: map<Pos, seq<Pos>>)
    requires IsGrid(blocked)
    requires Inv(blocked, start, goal, before, dist, prev, visited, dv, wit)
    requires k < |before| && forall j :: 0 <= j < |before| ==> ItemLe(before[k], before[j])
    requires before[k].cell !in visited
    ensures before[k].cell in dist && before[k].d == dist[before[k].cell]
    ensures forall w :: IsPath(blocked, w, start, before[k].cell) ==> before[k].d <= |w| - 1
  {
    var e := before[k];
    var j0 :| 0 <= j0 < |before| && before[j0].cell == e.cell && before[j0].d == dist[e.cell];
    assert ItemLe(e, before[j0]);
    if e.cell != start {
      assert start in visited;
      forall n | n in dist && n !in visited
        ensures e.d <= dist[n] + Heur(false, n, goal)
      {
        var j :| 0 <= j < |before| && before[j].cell == n && before[j].d == dist[n];
        assert ItemLe(e, before[j]);
      }
      forall w | IsPath(blocked, w, start, e.cell)
        ensures e.d <= |w| - 1
      {
        PopIsOptimal(blocked, start, goal, false, visited, dv, dist, e.d, e.cell, w);
      }
    }
  }

  /** Settling the popped cell keeps the maps linked and gives it a witness path. */
  lemma SettleKeepsLinks(blocked: array2<bool>, start: Pos, dist: map<Pos, nat>, prev: map<Pos, Pos>,
                         visited: set<Pos>, dv: map<Pos, nat>, wit: map<Pos, seq<Pos>>,
                         cur: Pos, d: nat, w: seq<Pos>)
    requires IsGrid(blocked)
    requires Links(blocked, start, dist, prev, visited, dv) && SettledOk(dist, visited, dv)
    requires Witnessed(blocked, start, visited, dv, wit)
    requires cur !in visited && cur in dist && d == dist[cur]
    requires cur != start ==> cur in prev && prev[cur] in wit
    requires w == if cur == start then [start] else wit[prev[cur]] + [cur]
    ensures Links(blocked, start, dist, prev, visited + {cur}, dv[cur := d])
    ensures SettledOk(dist, visited + {cur}, dv[cur := d])
    ensures Witnessed(blocked, start, visited + {cur}, dv[cur := d], wit[cur := w])
  {
    SettledAfterSettle(dist, visited, dv, cur, d);
    LinksAfterSettle(blocked, start, dist, prev, visited, dv, cur, d);
    var u := if cur == start then start else prev[cur];
    WitnessedAfterSettle(blocked, start, visited, dv, wit, u, cur, d, w);
  }

  /** The settled cell's witness is its predecessor's witness extended by one step. */
  lemma WitnessedAfterSettle(blocked: array2<bool>, start: Pos, visited: set<Pos>, dv: map<Pos, nat>,
                             wit: map<Pos, seq<Pos>>, u: Pos, cur: Pos, d: nat, w: seq<Pos>)
    requires IsGrid(blocked)
    requires Witnessed(blocked, start, visited, dv, wit) && cur !in visited
    requires cur == start ==> d == 0 && w == [start]
    requires cur != start ==>
      u in visited && Adjacent(u, cur) && Passable(blocked, cur) && d == dv[u] + 1 && w == wit[u] + [cur]
    ensures Witnessed(blocked, start, visited + {cur}, dv[cur := d], wit[cur := w])
  {
    if cur != start {
      PathExtend(blocked, wit[u], start, u, cur);
    }
  }

  lemma SettledAfterSettle(dist: map<Pos, nat>, visited: set<Pos>, dv: map<Pos, nat>, cur: Pos, d: nat)
    requires SettledOk(dist, visited, dv) && cur in dist && dist[cur] == d
    ensures SettledOk(dist, visited + {cur}, dv[cur := d])
  {
    assert dv[cur := d].Keys == dv.Keys + {cur};
  }

  lemma LinksAfterSettle(blocked: array2<bool>, start: Pos, dist: map<Pos, nat>, prev: map<Pos, Pos>,
                         visited: set<Pos>, dv: map<Pos, nat>, cur: Pos, d: nat)
    requires IsGrid(blocked)
    requires Links(blocked, start, dist, prev, visited, dv) && dv.Keys == visited && cur !in visited
    ensures Links(blocked, start, dist, prev, visited + {cur}, dv[cur := d])
  {
  }

  /** The first pop of a cell settles it with its distance, which is optimal. */
  lemma SettleOptimal(blocked: array2<bool>, start: Pos, goal: Pos, before: seq<Item>, k: nat,
                      dist: map<Pos, nat>, prev: map<Pos, Pos>, visited: set<Pos>,
                      dv: map<Pos, nat>, wit: map<Pos, seq<Pos>>)
    requires IsGrid(blocked)
    requires Inv(blocked, start, goal, before, dist, prev, visited, dv, wit)
    requires k < |before| && forall j :: 0 <= j < |before| ==> ItemLe(before[k], before[j])
    requires before[k].cell !in visited
    ensures before[k].cell == start || InBounds(before[k].cell)
    ensures before[k].cell in dist && before[k].d == dist[before[k].cell]
    ensures before[k].cell != start ==> before[k].cell in prev && prev[before[k].cell] in wit
    ensures Optimal(blocked, start, visited + {before[k].cell}, dv[before[k].cell := before[k].d])
  {
    var cur := before[k].cell;
    PopCostOptimal(blocked, start, goal, before, k, dist, prev, visited, dv, wit);
    if cur != start {
      assert prev[cur] in visited;
    }
  }

  /** Settling a cell other than the goal lets the neighbour loop start. */
  lemma PopUnsettled(blocked: array2<bool>, start: Pos, goal: Pos, before: seq<Item>, k: nat,
                     dist: map<Pos, nat>, prev: map<Pos, Pos>, visited: set<Pos>, dv: map<Pos, nat>,
                     visited': set<Pos>, dv': map<Pos, nat>, wit': map<Pos, seq<Pos>>, cur: Pos)
    requires IsGrid(blocked)
    requires k < |before| && before[k].cell == cur && cur !in visited && cur != goal && goal !in visited
    requires visited == {} ==> before == [Item(0, start)]
    requires visited != {} ==> start in visited
    requires ItemsOk(before, dist) && Frontier(before, dist, visited) && Expanded(blocked, visited, dv, dist)
    requires visited' == visited + {cur} && dv' == dv[cur := before[k].d]
    requires Links(blocked, start, dist, prev, visited', dv') && SettledOk(dist, visited', dv')
    requires Witnessed(blocked, start, visited', dv', wit') && Optimal(blocked, start, visited', dv')
    ensures Relaxing(blocked, start, goal, before[..k] + before[k + 1..], dist, prev, visited', dv', wit', cur, 0)
  {
    ItemsAfterPop(before, k, dist);
    FrontierAfterPop(before, k, dist, visited, visited');
    assert visited' - {cur} == visited;
  }

  /**
   * A settled cell is never improved: a path to it through the current
   * cell costs dv[cur] + 1, which its optimal settled cost cannot exceed.
   */
  lemma SettledNotImproved(blocked: array2<bool>, start: Pos, dist: map<Pos, nat>, visited: set<Pos>,
                           dv: map<Pos, nat>, wit: map<Pos, seq<Pos>>, cur: Pos, n: Pos)
    requires IsGrid(blocked)
    requires cur in visited && n in visited && Adjacent(cur, n) && Passable(blocked, n)
    requires SettledOk(dist, visited, dv) && Witnessed(blocked, start, visited, dv, wit)
    requires Optimal(blocked, start, visited, dv)
    ensures dist[n] <= dv[cur] + 1
  {
    PathExtend(blocked, wit[cur], start, cur, n);
  }

  lemma ItemsAfterPush(pq: seq<Item>, dist: map<Pos, nat>, n: Pos, nd: nat)
    requires ItemsOk(pq, dist) && (n !in dist || nd < dist[n])
    ensures ItemsOk(pq + [Item(nd, n)], dist[n := nd])
  {
    var pq' := pq + [Item(nd, n)];
    forall j | 0 <= j < |pq'|
      ensures pq'[j].cell in dist[n := nd] && pq'[j].d >= dist[n := nd][pq'[j].cell]
    {
      if j < |pq| {
        assert pq'[j] == pq[j];
      }
    }
  }

  lemma FrontierAfterPush(pq: seq<Item>, dist: map<Pos, nat>, visited: set<Pos>, n: Pos, nd: nat)
    requires Frontier(pq, dist, visited)
    ensures Frontier(pq + [Item(nd, n)], dist[n := nd], visited)
  {
    var pq' := pq + [Item(nd, n)];
    var dist' := dist[n := nd];
    forall m | m in dist' && m !in visited
      ensures exists j :: 0 <= j < |pq'| && pq'[j].cell == m && pq'[j].d == dist'[m]
    {
      if m == n {
        assert pq'[|pq|] == Item(nd, n);
      } else {
        var j :| 0 <= j < |pq| && pq[j].cell == m && pq[j].d == dist[m];
        assert pq'[j] == pq[j];
      }
    }
  }

  lemma LinksAfterPush(blocked: array2<bool>, start: Pos, dist: map<Pos, nat>, prev: map<Pos, Pos>,
                       visited: set<Pos>, dv: map<Pos, nat>, cur: Pos, n: Pos, nd: nat)
    requires IsGrid(blocked)
    requires Links(blocked, start, dist, prev, visited, dv) && SettledOk(dist, visited, dv)
    requires cur in visited && Adjacent(cur, n) && Passable(blocked, n) && nd == dv[cur] + 1
    requires n !in dist || nd < dist[n]
    ensures n != start
    ensures Links(blocked, start, dist[n := nd], prev[n := cur], visited, dv)
  {
  }

  lemma SettledAfterPush(dist: map<Pos, nat>, visited: set<Pos>, dv: map<Pos, nat>, n: Pos, nd: nat)
    requires SettledOk(dist, visited, dv) && n !in visited
    ensures SettledOk(dist[n := nd], visited, dv)
  {
  }

  /** Improving neighbour n = Step(cur, i) to d + 1 keeps the neighbour-loop invariant. */
  lemma RelaxPush(blocked: array2<bool>, start: Pos, goal: Pos, pq: seq<Item>,
                  dist: map<Pos, nat>, prev: map<Pos, Pos>, visited: set<Pos>,
                  dv: map<Pos, nat>, wit: map<Pos, seq<Pos>>, cur: Pos, i: nat, n: Pos, nd: nat)
    requires IsGrid(blocked)
    requires Relaxing(blocked, start, goal, pq, dist, prev, visited, dv, wit, cur, i)
    requires i < 4 && n == Step(cur, i) && Passable(blocked, n) && nd == dv[cur] + 1
    requires n !in dist || nd < dist[n]
    ensures Relaxing(blocked, start, goal, pq + [Item(nd, n)], dist[n := nd], prev[n := cur],
                     visited, dv, wit, cur, i + 1)
  {
    var d := AdjacentIsStep(cur, n);
    if n in visited {
      SettledNotImproved(blocked, start, dist, visited, dv, wit, cur, n);
    }
    assert n !in visited;
    LinksAfterPush(blocked, start, dist, prev, visited, dv, cur, n, nd);
    SettledAfterPush(dist, visited, dv, n, nd);
    ItemsAfterPush(pq, dist, n, nd);
    FrontierAfterPush(pq, dist, visited, n, nd);
    ExpandedLower(blocked, visited - {cur}, dv, dist, dist[n := nd]);
    OfferedAfterPush(blocked, dist, cur, i, nd - 1, nd);
  }

  /** Skipping neighbour Step(cur, i) (out of bounds, blocked, or no better) keeps the invariant. */
  lemma RelaxSkip(blocked: array2<bool>, start: Pos, goal: Pos, pq: seq<Item>,
                  dist: map<Pos, nat>, prev: map<Pos, Pos>, visited: set<Pos>,
                  dv: map<Pos, nat>, wit: map<Pos, seq<Pos>>, cur: Pos, i: nat, n: Pos, nd: nat)
    requires IsGrid(blocked)
    requires Relaxing(blocked, start, goal, pq, dist, prev, visited, dv, wit, cur, i)
    requires i < 4 && n == Step(cur, i) && nd == dv[cur] + 1
    requires !Passable(blocked, n) || (n in dist && nd >= dist[n])
    ensures Relaxing(blocked, start, goal, pq, dist, prev, visited, dv, wit, cur, i + 1)
  {
  }

  /** After all four directions, the expanded cell joins the expanded region. */
  lemma RelaxDone(blocked: array2<bool>, start: Pos, goal: Pos, pq: seq<Item>,
                  dist: map<Pos, nat>, prev: map<Pos, Pos>, visited: set<Pos>,
                  dv: map<Pos, nat>, wit: map<Pos, seq<Pos>>, cur: Pos)
    requires IsGrid(blocked)
    requires Relaxing(blocked, start, goal, pq, dist, prev, visited, dv, wit, cur, 4)
    ensures Inv(blocked, start, goal, pq, dist, prev, visited, dv, wit)
  {
    forall u, n | u in visited && Adjacent(u, n) && Passable(blocked, n)
      ensures u in dv && n in dist && dist[n] <= dv[u] + 1
    {
      if u == cur {
        var d := AdjacentIsStep(u, n);
      } else {
        assert u in visited - {cur};
      }
    }
  }

  /** An exhausted queue means the goal cannot be reached. */
  lemma Exhausted(blocked: array2<bool>, start: Pos, goal: Pos,
                  dist: map<Pos, nat>, prev: map<Pos, Pos>, visited: set<Pos>,
                  dv: map<Pos, nat>, wit: map<Pos, seq<Pos>>)
    requires IsGrid(blocked)
    requires Inv(blocked, start, goal, [], dist, prev, visited, dv, wit)
    ensures !Reachable(blocked, start, goal)
  {
    assert start in visited;
    forall b, w | IsPath(blocked, w, start, b)
      ensures b in visited
    {
      ClosedSetContainsPaths(blocked, start, visited, dv, dist, w, b);
    }
  }

  /**
   * The reconstruction of `dijkstra`: from the goal, follow `prev` while
   * the cell has a predecessor or is the start, stopping after the start,
   * then reverse. Every settled cell other than the start has a settled
   * predecessor one step closer, so the walk reaches the start.
   */
  method Reconstruct(blocked: array2<bool>, start: Pos, goal: Pos, dist: map<Pos, nat>,
                     prev: map<Pos, Pos>, ghost visited: set<Pos>, ghost dv: map<Pos, nat>)
    returns (path: seq<Pos>)
    requires IsGrid(blocked)
    requires Links(blocked, start, dist, prev, visited, dv) && SettledOk(dist, visited, dv)
    requires goal in visited
    ensures IsPath(blocked, path, start, goal) && |path| == dv[goal] + 1
  {
    var bp: seq<Pos> := [];
    var p := goal;
    while p in prev || p == start
      invariant p in visited
      invariant |bp| + dv[p] == dv[goal]
      invariant |bp| == 0 ==> p == goal
      invariant |bp| > 0 ==> bp[0] == goal && Adjacent(bp[|bp| - 1], p)
      invariant forall j :: 0 <= j < |bp| - 1 ==> Adjacent(bp[j], bp[j + 1])
      invariant forall j :: 0 <= j < |bp| ==> Passable(blocked, bp[j])
      decreases dv[p]
    {
      ghost var prefix := bp;
      bp := bp + [p];
      assert forall j :: 0 <= j < |prefix| ==> bp[j] == prefix[j];
      if p == start {
        break;
      }
      p := prev[p];
    }
    assert bp[|bp| - 1] == start && |bp| == dv[goal] + 1;
    ReverseBackPath(blocked, bp, start, goal);
    path := Reverse(bp);
  }

  /**
   * The `for dx, dy in ...` loop of `dijkstra`: each passable neighbour
   * whose distance d + 1 beats `dist.get(n, inf)` gets that distance,
   * cur as its predecessor, and a queue item.
   */
  method ExpandCell(blocked: array2<bool>, start: Pos, goal: Pos, pq: seq<Item>,
                    dist: map<Pos, nat>, prev: map<Pos, Pos>, ghost visited: set<Pos>,
                    ghost dv: map<Pos, nat>, ghost wit: map<Pos, seq<Pos>>, cur: Pos, d: nat)
    returns (pq': seq<Item>, dist': map<Pos, nat>, prev': map<Pos, Pos>)
    requires IsGrid(blocked)
    requires Relaxing(blocked, start, goal, pq, dist, prev, visited, dv, wit, cur, 0) && d == dv[cur]
    ensures Inv(blocked, start, goal, pq', dist', prev', visited, dv, wit)
  {
    pq', dist', prev' := pq, dist, prev;
    for i := 0 to 4
      invariant Relaxing(blocked, start, goal, pq', dist', prev', visited, dv, wit, cur, i)
    {
      var n := Step(cur, i);
      var nd := d + 1;
      if InBounds(n) && !blocked[n.x, n.y] && (n !in dist' || nd < dist'[n]) {
        RelaxPush(blocked, start, goal, pq', dist', prev', visited, dv, wit, cur, i, n, nd);
        dist' := dist'[n := nd];
        prev' := prev'[n := cur];
        pq' := pq' + [Item(nd, n)];
      } else {
        RelaxSkip(blocked, start, goal, pq', dist', prev', visited, dv, wit, cur, i, n, nd);
      }
    }
    RelaxDone(blocked, start, goal, pq', dist', prev', visited, dv, wit, cur);
  }

  /**
   * dijkstra(start, goal): [start] when start equals goal, otherwise a
   * shortest 4-connected path through unblocked cells, or [] when none
   * exists.
   */
  method Dijkstra(blocked: array2<bool>, start: Pos, goal: Pos) returns (path: seq<Pos>)
    requires IsGrid(blocked)
    ensures SearchResult(blocked, start, goal, path)
  {
    if start == goal {
      return [start];
    }
    var dist: map<Pos, nat> := map[start := 0];
    var prev: map<Pos, Pos> := map[];
    var visited: set<Pos> := {};
    var pq := [Item(0, start)];
    ghost var dv: map<Pos, nat> := map[];
    ghost var wit: map<Pos, seq<Pos>> := map[];
    assert pq[0].cell == start && pq[0].d == dist[start];
    while pq != []
      invariant Inv(blocked, start, goal, pq, dist, prev, visited, dv, wit)
      decreases Universe(start) - visited, |pq|
    {
      var k := PopMin(pq);
      var e := pq[k];
      ghost var before := pq;
      pq := pq[..k] + pq[k + 1..];
      var cur := e.cell;
      if cur in visited {
        PopSettled(blocked, start, goal, before, k, dist, prev, visited, dv, wit);
        continue;
      }
      SettleOptimal(blocked, start, goal, before, k, dist, prev, visited, dv, wit);
      ghost var w := if cur == start then [start] else wit[prev[cur]] + [cur];
      SettleKeepsLinks(blocked, start, dist, prev, visited, dv, wit, cur, e.d, w);
      ghost var visited0, dv0 := visited, dv;
      SettleShrinks(start, visited, cur);
      visited := visited + {cur};
      dv := dv[cur := e.d];
      wit := wit[cur := w];
      if cur == goal {
        path := Reconstruct(blocked, start, goal, dist, prev, visited, dv);
        FoundIsShortest(blocked, start, goal, visited, dv, path);
        return;
      }
      PopUnsettled(blocked, start, goal, before, k, dist, prev, visited0, dv0, visited, dv, wit, cur);
      pq, dist, prev := ExpandCell(blocked, start, goal, pq, dist, prev, visited, dv, wit, cur, e.d);
    }
    Exhausted(blocked, start, goal, dist, prev, visited, dv, wit);
    path := [];
  }

}
