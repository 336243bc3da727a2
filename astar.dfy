/**
 * `astar`: best-first search on the 4-neighbour unit-cost grid with the
 * Manhattan heuristic, a `visited` set whose first pop of a cell is final,
 * the `came` parent map and the `gscore` best-offered-cost map. The heap
 * `openh` is a sequence with extract-minimum under the same order heapq
 * uses (f, then g, then the cell); the proofs rely on the f order only,
 * so they hold for any tie-break among equal keys.
 */
module AStarSearch {
  import opened Wrappers
  import opened Grid
  import opened Paths

  /** A heap entry (f, g, cell, parent) of `openh`. */
  datatype Entry = Entry(f: nat, g: nat, cell: Pos, parent: Option<Pos>)

  /** The tuple order heapq compares entries by: f, then g, then x, then y. */
  predicate EntryLe(a: Entry, b: Entry) {
    a.f < b.f || (a.f == b.f && (a.g < b.g || (a.g == b.g &&
      (a.cell.x < b.cell.x || (a.cell.x == b.cell.x && a.cell.y <= b.cell.y)))))
  }

  /** heappop: the index of a least entry of the open set. */
  method PopMin(open: seq<Entry>) returns (k: nat)
    requires open != []
    ensures k < |open|
    ensures forall j :: 0 <= j < |open| ==> EntryLe(open[k], open[j])
  {
    k := 0;
    var i := 1;
    while i < |open|
      invariant 1 <= i <= |open| && k < i
      invariant forall j :: 0 <= j < i ==> EntryLe(open[k], open[j])
    {
      if !EntryLe(open[k], open[i]) {
        k := i;
      }
      i := i + 1;
    }
  }

  /**
   * What every pushed entry satisfies: its key is g + h, its cell is the
   * start or passable, the start entry has no parent and cost 0, and any
   * other entry was pushed by a settled neighbour u with cost dv[u] + 1.
   */
  ghost predicate EntryOk(blocked: array2<bool>, start: Pos, goal: Pos,
                          visited: set<Pos>, dv: map<Pos, nat>, e: Entry)
    requires IsGrid(blocked)
    reads blocked
  {
    e.f == e.g + Manhattan(e.cell, goal) &&
    (e.cell == start || Passable(blocked, e.cell)) &&
    match e.parent
    case None => e.cell == start && e.g == 0
    case Some(u) =>
      u in visited && u in dv && e.cell != start && Adjacent(u, e.cell) &&
      Passable(blocked, e.cell) && e.g == dv[u] + 1
  }

  /**
   * The `came` map is a parent chain: the start's parent is None, and
   * every other settled cell is passable, adjacent to its settled parent
   * and one step further from the start.
   */
  ghost predicate Chain(blocked: array2<bool>, start: Pos, came: map<Pos, Option<Pos>>, dv: map<Pos, nat>)
    requires IsGrid(blocked)
    reads blocked
  {
    forall v {:trigger came[v]} :: v in came ==> (
      v in dv &&
      match came[v]
      case None => v == start && dv[v] == 0
      case Some(u) =>
        u in came && u in dv && v != start && Adjacent(u, v) &&
        Passable(blocked, v) && dv[v] == dv[u] + 1)
  }

  /** Every offered but unsettled cell still has an entry with its best offered cost. */
  ghost predicate Frontier(open: seq<Entry>, gs: map<Pos, nat>, visited: set<Pos>) {
    forall n :: n in gs && n !in visited ==>
      exists j :: 0 <= j < |open| && open[j].cell == n && open[j].g == gs[n]
  }

  lemma FrontierAfterPop(open: seq<Entry>, k: nat, gs: map<Pos, nat>, visited: set<Pos>, visited': set<Pos>)
    requires k < |open| && Frontier(open, gs, visited)
    requires visited <= visited' && open[k].cell in visited'
    ensures Frontier(open[..k] + open[k + 1..], gs, visited')
  {
    var rest := open[..k] + open[k + 1..];
    forall n | n in gs && n !in visited'
      ensures exists j :: 0 <= j < |rest| && rest[j].cell == n && rest[j].g == gs[n]
    {
      var j :| 0 <= j < |open| && open[j].cell == n && open[j].g == gs[n];
      if j < k {
        assert rest[j] == open[j];
      } else {
        assert rest[j - 1] == open[j];
      }
    }
  }

  /** Every entry of the open set satisfies EntryOk. */
  ghost predicate EntriesOk(blocked: array2<bool>, start: Pos, goal: Pos,
                            visited: set<Pos>, dv: map<Pos, nat>, open: seq<Entry>)
    requires IsGrid(blocked)
    reads blocked
  {
    forall j :: 0 <= j < |open| ==> EntryOk(blocked, start, goal, visited, dv, open[j])
  }

  function StartEntry(start: Pos, goal: Pos): Entry {
    Entry(Manhattan(start, goal), 0, start, None)
  }

  /**
   * The invariant of the `while openh` loop. `dv` (ghost) records the cost
   * each cell was settled with; the last two conjuncts say that the
   * settled cells have all been expanded and that their costs are optimal.
   */
  ghost predicate Inv(blocked: array2<bool>, start: Pos, goal: Pos, open: seq<Entry>,
                      came: map<Pos, Option<Pos>>, gscore: map<Pos, nat>,
                      visited: set<Pos>, dv: map<Pos, nat>)
    requires IsGrid(blocked)
    reads blocked
  {
    (visited == {} ==> open == [StartEntry(start, goal)]) &&
    (visited != {} ==> start in visited) &&
    goal !in visited &&
    came.Keys == visited && dv.Keys == visited &&
    start in gscore && gscore[start] == 0 &&
    Chain(blocked, start, came, dv) &&
    EntriesOk(blocked, start, goal, visited, dv, open) &&
    Frontier(open, gscore, visited) &&
    Expanded(blocked, visited, dv, gscore) &&
    Optimal(blocked, start, visited, dv)
  }

  /** The invariant of the neighbour loop while cell cur is expanded; i directions are done. */
  ghost predicate Relaxing(blocked: array2<bool>, start: Pos, goal: Pos, open: seq<Entry>,
                           came: map<Pos, Option<Pos>>, gscore: map<Pos, nat>,
                           visited: set<Pos>, dv: map<Pos, nat>, cur: Pos, i: nat)
    requires IsGrid(blocked)
    reads blocked
  {
    start in visited && cur in visited && goal !in visited &&
    came.Keys == visited && dv.Keys == visited &&
    start in gscore && gscore[start] == 0 &&
    Chain(blocked, start, came, dv) &&
    EntriesOk(blocked, start, goal, visited, dv, open) &&
    Frontier(open, gscore, visited) &&
    Expanded(blocked, visited - {cur}, dv, gscore) &&
    i <= 4 &&
    (forall j :: 0 <= j < i && Passable(blocked, Step(cur, j)) ==>
      Step(cur, j) in gscore && gscore[Step(cur, j)] <= dv[cur] + 1) &&
    Optimal(blocked, start, visited, dv)
  }

  /** Popping an entry whose cell is already settled (`continue`) keeps the invariant. */
  lemma PopSettled(blocked: array2<bool>, start: Pos, goal: Pos, before: seq<Entry>, k: nat,
                   came: map<Pos, Option<Pos>>, gscore: map<Pos, nat>, visited: set<Pos>, dv: map<Pos, nat>)
    requires IsGrid(blocked)
    requires Inv(blocked, start, goal, before, came, gscore, visited, dv)
    requires k < |before| && before[k].cell in visited
    ensures Inv(blocked, start, goal, before[..k] + before[k + 1..], came, gscore, visited, dv)
  {
    var open := before[..k] + before[k + 1..];
    FrontierAfterPop(before, k, gscore, visited, visited);
    forall j | 0 <= j < |open|
      ensures EntryOk(blocked, start, goal, visited, dv, open[j])
    {
      if j < k {
        assert open[j] == before[j];
      } else {
        assert open[j] == before[j + 1];
      }
    }
  }

  /** Settling more cells, without changing the costs of settled ones, keeps an entry valid. */
  lemma EntryOkGrows(blocked: array2<bool>, start: Pos, goal: Pos, visited: set<Pos>, dv: map<Pos, nat>,
                     visited': set<Pos>, dv': map<Pos, nat>, e: Entry)
    requires IsGrid(blocked)
    requires EntryOk(blocked, start, goal, visited, dv, e)
    requires visited <= visited' && forall u :: u in dv ==> u in dv' && dv'[u] == dv[u]
    ensures EntryOk(blocked, start, goal, visited', dv', e)
  {
  }

  /** Removing entry k from the open set and settling more cells keeps the other entries valid. */
  lemma EntriesAfterPop(blocked: array2<bool>, start: Pos, goal: Pos, before: seq<Entry>, k: nat,
                        visited: set<Pos>, dv: map<Pos, nat>, visited': set<Pos>, dv': map<Pos, nat>)
    requires IsGrid(blocked)
    requires k < |before| && EntriesOk(blocked, start, goal, visited, dv, before)
    requires visited <= visited' && forall u :: u in dv ==> u in dv' && dv'[u] == dv[u]
    ensures EntriesOk(blocked, start, goal, visited', dv', before[..k] + before[k + 1..])
  {
    var open := before[..k] + before[k + 1..];
    forall j | 0 <= j < |open|
      ensures EntryOk(blocked, start, goal, visited', dv', open[j])
    {
      var j0 := if j < k then j else j + 1;
      assert open[j] == before[j0];
      EntryOkGrows(blocked, start, goal, visited, dv, visited', dv', before[j0]);
    }
  }

  /**
   * The cost of a least entry whose cell is unsettled is optimal: its key
   * bounds every unsettled offered cell from below, so PopIsOptimal applies.
   */
  lemma PopCostOptimal(blocked: array2<bool>, start: Pos, goal: Pos, before: seq<Entry>, k: nat,
                         gscore: map<Pos, nat>, visited: set<Pos>, dv: map<Pos, nat>)
    requires IsGrid(blocked)
    requires k < |before| && forall j :: 0 <= j < |before| ==> EntryLe(before[k], before[j])
    requires before[k].cell !in visited && before[k].cell != start && start in visited
    requires EntriesOk(blocked, start, goal, visited, dv, before) && Frontier(before, gscore, visited)
    requires Expanded(blocked, visited, dv, gscore) && Optimal(blocked, start, visited, dv)
    ensures forall w :: IsPath(blocked, w, start, before[k].cell) ==> before[k].g <= |w| - 1
  {
    var e := before[k];
    assert EntryOk(blocked, start, goal, visited, dv, e);
    forall n | n in gscore && n !in visited
      ensures e.f <= gscore[n] + Heur(true, n, goal)
    {
      var j :| 0 <= j < |before| && before[j].cell == n && before[j].g == gscore[n];
      assert EntryLe(e, before[j]);
      assert EntryOk(blocked, start, goal, visited, dv, before[j]);
    }
    forall w | IsPath(blocked, w, start, e.cell)
      ensures e.g <= |w| - 1
    {
      PopIsOptimal(blocked, start, goal, true, visited, dv, gscore, e.f, e.cell, w);
    }
  }

  /** Settling the popped cell with the popped cost and parent keeps Chain and Optimal. */
  lemma SettleKeepsChain(blocked: array2<bool>, start: Pos, goal: Pos, before: seq<Entry>, k: nat,
                         came: map<Pos, Option<Pos>>, gscore: map<Pos, nat>, visited: set<Pos>, dv: map<Pos, nat>)
    requires IsGrid(blocked)
    requires Inv(blocked, start, goal, before, came, gscore, visited, dv)
    requires k < |before| && forall j :: 0 <= j < |before| ==> EntryLe(before[k], before[j])
    requires before[k].cell !in visited
    ensures Chain(blocked, start, came[before[k].cell := before[k].parent], dv[before[k].cell := before[k].g])
    ensures Optimal(blocked, start, visited + {before[k].cell}, dv[before[k].cell := before[k].g])
    ensures before[k].cell == start || InBounds(before[k].cell)
  {
    var e := before[k];
    assert EntryOk(blocked, start, goal, visited, dv, e);
    if e.cell != start {
      PopCostOptimal(blocked, start, goal, before, k, gscore, visited, dv);
    }
  }

  /** Settling a cell other than the goal lets the neighbour loop start. */
  lemma PopUnsettled(blocked: array2<bool>, start: Pos, goal: Pos, before: seq<Entry>, k: nat,
                     gscore: map<Pos, nat>, visited: set<Pos>, dv: map<Pos, nat>,
                     came': map<Pos, Option<Pos>>, visited': set<Pos>, dv': map<Pos, nat>, cur: Pos)
    requires IsGrid(blocked)
    requires k < |before| && before[k].cell == cur && cur !in visited && cur != goal && goal !in visited
    requires visited == {} ==> before == [StartEntry(start, goal)]
    requires visited != {} ==> start in visited
    requires dv.Keys == visited && start in gscore && gscore[start] == 0
    requires EntriesOk(blocked, start, goal, visited, dv, before) && Frontier(before, gscore, visited)
    requires Expanded(blocked, visited, dv, gscore)
    requires visited' == visited + {cur} && dv' == dv[cur := before[k].g] && came'.Keys == visited'
    requires Chain(blocked, start, came', dv') && Optimal(blocked, start, visited', dv')
    ensures Relaxing(blocked, start, goal, before[..k] + before[k + 1..], came', gscore, visited', dv', cur, 0)
  {
    assert dv'.Keys == visited' by {
      assert dv'.Keys == dv.Keys + {cur};
    }
    FrontierAfterPop(before, k, gscore, visited, visited');
    EntriesAfterPop(blocked, start, goal, before, k, visited, dv, visited', dv');
    assert visited' - {cur} == visited;
  }

  /** Appending a valid entry keeps every entry valid. */
  lemma EntriesAfterPush(blocked: array2<bool>, start: Pos, goal: Pos, visited: set<Pos>, dv: map<Pos, nat>,
                         open: seq<Entry>, e: Entry)
    requires IsGrid(blocked)
    requires EntriesOk(blocked, start, goal, visited, dv, open) && EntryOk(blocked, start, goal, visited, dv, e)
    ensures EntriesOk(blocked, start, goal, visited, dv, open + [e])
  {
    var open' := open + [e];
    forall j | 0 <= j < |open'|
      ensures EntryOk(blocked, start, goal, visited, dv, open'[j])
    {
      if j < |open| {
        assert open'[j] == open[j];
      }
    }
  }

  /** Offering cell n cost g and pushing an entry for it keeps the frontier complete. */
  lemma FrontierAfterPush(open: seq<Entry>, gs: map<Pos, nat>, visited: set<Pos>, e: Entry)
    requires Frontier(open, gs, visited)
    ensures Frontier(open + [e], gs[e.cell := e.g], visited)
  {
    var open' := open + [e];
    var gs' := gs[e.cell := e.g];
    forall m | m in gs' && m !in visited
      ensures exists j :: 0 <= j < |open'| && open'[j].cell == m && open'[j].g == gs'[m]
    {
      if m == e.cell {
        assert open'[|open|] == e;
      } else {
        var j :| 0 <= j < |open| && open[j].cell == m && open[j].g == gs[m];
        assert open'[j] == open[j];
      }
    }
  }

  /** Pushing neighbour n = Step(cur, i) with cost g + 1 keeps the neighbour-loop invariant. */
  lemma RelaxPush(blocked: array2<bool>, start: Pos, goal: Pos, open: seq<Entry>,
                  came: map<Pos, Option<Pos>>, gscore: map<Pos, nat>,
                  visited: set<Pos>, dv: map<Pos, nat>, cur: Pos, i: nat, n: Pos, ng: nat)
    requires IsGrid(blocked)
    requires Relaxing(blocked, start, goal, open, came, gscore, visited, dv, cur, i)
    requires i < 4 && n == Step(cur, i) && Passable(blocked, n) && ng == dv[cur] + 1
    requires n !in gscore || ng < gscore[n]
    ensures Relaxing(blocked, start, goal, open + [Entry(ng + Manhattan(n, goal), ng, n, Some(cur))],
                     came, gscore[n := ng], visited, dv, cur, i + 1)
  {
    var d := AdjacentIsStep(cur, n);
    var e := Entry(ng + Manhattan(n, goal), ng, n, Some(cur));
    EntriesAfterPush(blocked, start, goal, visited, dv, open, e);
    FrontierAfterPush(open, gscore, visited, e);
    ExpandedLower(blocked, visited - {cur}, dv, gscore, gscore[n := ng]);
    OfferedAfterPush(blocked, gscore, cur, i, ng - 1, ng);
    assert n != start;
  }

  /** Skipping neighbour Step(cur, i) (out of bounds, blocked, or no better) keeps the invariant. */
  lemma RelaxSkip(blocked: array2<bool>, start: Pos, goal: Pos, open: seq<Entry>,
                  came: map<Pos, Option<Pos>>, gscore: map<Pos, nat>,
                  visited: set<Pos>, dv: map<Pos, nat>, cur: Pos, i: nat, n: Pos, ng: nat)
    requires IsGrid(blocked)
    requires Relaxing(blocked, start, goal, open, came, gscore, visited, dv, cur, i)
    requires i < 4 && n == Step(cur, i) && ng == dv[cur] + 1
    requires !Passable(blocked, n) || (n in gscore && ng >= gscore[n])
    ensures Relaxing(blocked, start, goal, open, came, gscore, visited, dv, cur, i + 1)
  {
  }

  /** After all four directions, the expanded cell joins the expanded region. */
  lemma RelaxDone(blocked: array2<bool>, start: Pos, goal: Pos, open: seq<Entry>,
                  came: map<Pos, Option<Pos>>, gscore: map<Pos, nat>,
                  visited: set<Pos>, dv: map<Pos, nat>, cur: Pos)
    requires IsGrid(blocked)
    requires Relaxing(blocked, start, goal, open, came, gscore, visited, dv, cur, 4)
    ensures Inv(blocked, start, goal, open, came, gscore, visited, dv)
  {
    forall u, n | u in visited && Adjacent(u, n) && Passable(blocked, n)
      ensures u in dv && n in gscore && gscore[n] <= dv[u] + 1
    {
      if u == cur {
        var d := AdjacentIsStep(u, n);
      } else {
        assert u in visited - {cur};
      }
    }
  }

  /** An exhausted open set means the goal cannot be reached. */
  lemma Exhausted(blocked: array2<bool>, start: Pos, goal: Pos,
                  came: map<Pos, Option<Pos>>, gscore: map<Pos, nat>, visited: set<Pos>, dv: map<Pos, nat>)
    requires IsGrid(blocked)
    requires Inv(blocked, start, goal, [], came, gscore, visited, dv)
    ensures !Reachable(blocked, start, goal)
  {
    assert start in visited;
    forall b, w | IsPath(blocked, w, start, b)
      ensures b in visited
    {
      ClosedSetContainsPaths(blocked, start, visited, dv, gscore, w, b);
    }
  }

  /**
   * The cells collected so far walking back from the goal, and p the next
   * one: the walk goes one step at a time from the goal, its cells are
   * passable, and its length plus the cost of p is the cost of the goal.
   * Once p is None, the last cell collected is the start.
   */
  ghost predicate Trail(blocked: array2<bool>, start: Pos, goal: Pos, came: map<Pos, Option<Pos>>,
                        dv: map<Pos, nat>, bp: seq<Pos>, p: Option<Pos>)
    requires IsGrid(blocked)
    reads blocked
  {
    goal in dv &&
    (|bp| == 0 ==> p == Some(goal)) &&
    (|bp| > 0 ==> bp[0] == goal) &&
    (forall j :: 0 <= j < |bp| - 1 ==> Adjacent(bp[j], bp[j + 1])) &&
    match p
    case Some(v) =>
      v in came && v in dv && |bp| + dv[v] == dv[goal] &&
      (|bp| > 0 ==> Adjacent(bp[|bp| - 1], v)) &&
      forall j :: 0 <= j < |bp| ==> Passable(blocked, bp[j])
    case None =>
      |bp| == dv[goal] + 1 && bp[|bp| - 1] == start &&
      forall j :: 0 <= j < |bp| - 1 ==> Passable(blocked, bp[j])
  }

  /** Collecting v and moving to its parent extends the trail, one step closer to the start. */
  lemma TrailStep(blocked: array2<bool>, start: Pos, goal: Pos, came: map<Pos, Option<Pos>>,
                  dv: map<Pos, nat>, bp: seq<Pos>, v: Pos)
    requires IsGrid(blocked) && Chain(blocked, start, came, dv)
    requires Trail(blocked, start, goal, came, dv, bp, Some(v))
    ensures Trail(blocked, start, goal, came, dv, bp + [v], came[v])
    ensures came[v].Some? ==> came[v].value in dv && dv[came[v].value] < dv[v]
  {
    var bp' := bp + [v];
    assert forall j :: 0 <= j < |bp| ==> bp'[j] == bp[j];
    match came[v]
    case None =>
    case Some(u) =>
  }

  /**
   * The reconstruction of `astar`: append cells from the goal back along
   * `came` until the parent is None, then reverse. The chain ends at the
   * start because every other settled cell has a parent one step closer.
   */
  method Reconstruct(blocked: array2<bool>, start: Pos, goal: Pos,
                     came: map<Pos, Option<Pos>>, ghost dv: map<Pos, nat>) returns (path: seq<Pos>)
    requires IsGrid(blocked)
    requires Chain(blocked, start, came, dv) && goal in came
    ensures IsPath(blocked, path, start, goal) && |path| == dv[goal] + 1
  {
    var bp: seq<Pos> := [];
    var p: Option<Pos> := Some(goal);
    while p.Some?
      invariant Trail(blocked, start, goal, came, dv, bp, p)
      decreases if p.Some? then dv[p.value] + 1 else 0
    {
      var v := p.value;
      TrailStep(blocked, start, goal, came, dv, bp, v);
      bp := bp + [v];
      p := came[v];
    }
    ReverseBackPath(blocked, bp, start, goal);
    path := Reverse(bp);
  }

  /**
   * The `for dx, dy in ...` loop of `astar`: each passable neighbour of cur
   * whose offered cost g + 1 beats its best so far is recorded in gscore
   * and pushed with key g + 1 + h.
   */
  method ExpandCell(blocked: array2<bool>, start: Pos, goal: Pos, open: seq<Entry>,
                    ghost came: map<Pos, Option<Pos>>, gscore: map<Pos, nat>,
                    ghost visited: set<Pos>, ghost dv: map<Pos, nat>, cur: Pos, g: nat)
    returns (open': seq<Entry>, gscore': map<Pos, nat>)
    requires IsGrid(blocked)
    requires Relaxing(blocked, start, goal, open, came, gscore, visited, dv, cur, 0) && g == dv[cur]
    ensures Inv(blocked, start, goal, open', came, gscore', visited, dv)
  {
    open', gscore' := open, gscore;
    for i := 0 to 4
      invariant Relaxing(blocked, start, goal, open', came, gscore', visited, dv, cur, i)
    {
      var n := Step(cur, i);
      var ng := g + 1;
      if InBounds(n) && !blocked[n.x, n.y] && (n !in gscore' || ng < gscore'[n]) {
        RelaxPush(blocked, start, goal, open', came, gscore', visited, dv, cur, i, n, ng);
        gscore' := gscore'[n := ng];
        open' := open' + [Entry(ng + Manhattan(n, goal), ng, n, Some(cur))];
      } else {
        RelaxSkip(blocked, start, goal, open', came, gscore', visited, dv, cur, i, n, ng);
      }
    }
    RelaxDone(blocked, start, goal, open', came, gscore', visited, dv, cur);
  }

  /**
   * astar(blocked, start, goal): [start] when start equals goal, otherwise
   * a shortest 4-connected path through unblocked cells, or [] when none
   * exists.
   */
  method AStar(blocked: array2<bool>, start: Pos, goal: Pos) returns (path: seq<Pos>)
    requires IsGrid(blocked)
    ensures SearchResult(blocked, start, goal, path)
  {
    if start == goal {
      return [start];
    }
    var open := [StartEntry(start, goal)];
    var came: map<Pos, Option<Pos>> := map[];
    var gscore: map<Pos, nat> := map[start := 0];
    var visited: set<Pos> := {};
    ghost var dv: map<Pos, nat> := map[];
    assert open[0].cell == start && open[0].g == gscore[start];
    while open != []
      invariant Inv(blocked, start, goal, open, came, gscore, visited, dv)
      decreases Universe(start) - visited, |open|
    {
      var k := PopMin(open);
      var e := open[k];
      ghost var before := open;
      open := open[..k] + open[k + 1..];
      var cur := e.cell;
      if cur in visited {
        PopSettled(blocked, start, goal, before, k, came, gscore, visited, dv);
        continue;
      }
      SettleKeepsChain(blocked, start, goal, before, k, came, gscore, visited, dv);
      ghost var visited0, dv0 := visited, dv;
      SettleShrinks(start, visited, cur);
      visited := visited + {cur};
      came := came[cur := e.parent];
      dv := dv[cur := e.g];
      if cur == goal {
        path := Reconstruct(blocked, start, goal, came, dv);
        FoundIsShortest(blocked, start, goal, visited, dv, path);
        return;
      }
      PopUnsettled(blocked, start, goal, before, k, gscore, visited0, dv0, came, visited, dv, cur);
      open, gscore := ExpandCell(blocked, start, goal, open, came, gscore, visited, dv, cur, e.g);
    }
    Exhausted(blocked, start, goal, came, gscore, visited, dv);
    path := [];
  }
}
