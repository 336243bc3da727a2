/**
 * The obstacle grid shared by both scripts: a GridW x GridH boolean array
 * `blocked`, indexed [x, y], filled in place by rectangle and line
 * primitives that silently clip to the bounds, after which the service,
 * start and end cells are forced back to passable.
 */
module Grid {
  import opened Wrappers

  const GridW: int := 35
  const GridH: int := 20

  /** A grid cell (x, y); x grows to the right, y downwards. */
  datatype Pos = Pos(x: int, y: int)

  predicate InBounds(p: Pos) {
    0 <= p.x < GridW && 0 <= p.y < GridH
  }

  function Abs(n: int): nat {
    if n < 0 then -n else n
  }

  /** Manhattan distance |dx| + |dy|, the heuristic and the greedy metric. */
  function Manhattan(a: Pos, b: Pos): nat {
    Abs(a.x - b.x) + Abs(a.y - b.y)
  }

  /** One unit step in x or in y: the 4-neighbourhood. */
  predicate Adjacent(a: Pos, b: Pos) {
    Manhattan(a, b) == 1
  }

  /** The neighbour offsets in the order the searches try them. */
  const Dirs: seq<(int, int)> := [(1, 0), (-1, 0), (0, 1), (0, -1)]

  function Step(p: Pos, k: nat): Pos
    requires k < 4
  {
    Pos(p.x + Dirs[k].0, p.y + Dirs[k].1)
  }

  /** Every 4-neighbour is reached by one of the four offsets, and only they are. */
  lemma AdjacentIsStep(a: Pos, b: Pos) returns (k: nat)
    ensures Adjacent(a, b) ==> k < 4 && b == Step(a, k)
    ensures forall j :: 0 <= j < 4 ==> Adjacent(a, Step(a, j))
  {
    if b.x == a.x + 1 {
      k := 0;
    } else if b.x == a.x - 1 {
      k := 1;
    } else if b.y == a.y + 1 {
      k := 2;
    } else if b.y == a.y - 1 {
      k := 3;
    } else {
      k := 4;
    }
  }

  /** The shape of the numpy array `np.zeros((GRID_W, GRID_H), dtype=bool)`. */
  predicate IsGrid(blocked: array2<bool>) {
    blocked.Length0 == GridW && blocked.Length1 == GridH
  }

  /** In bounds and not blocked: a cell the agent may enter. */
  predicate Passable(blocked: array2<bool>, p: Pos)
    requires IsGrid(blocked)
    reads blocked
  {
    InBounds(p) && !blocked[p.x, p.y]
  }

  /** Every cell a search may ever settle: the in-bounds cells and its start. */
  function Universe(start: Pos): set<Pos> {
    (set x: int, y: int | 0 <= x < GridW && 0 <= y < GridH :: Pos(x, y)) + {start}
  }

  lemma InUniverse(start: Pos, p: Pos)
    requires p == start || InBounds(p)
    ensures p in Universe(start)
  {
    if p != start {
      assert p == Pos(p.x, p.y);
    }
  }

  /** Settling a new cell of the universe shrinks what is left to settle. */
  lemma SettleShrinks(start: Pos, visited: set<Pos>, cur: Pos)
    requires cur == start || InBounds(cur)
    requires cur !in visited
    ensures Universe(start) - (visited + {cur}) < Universe(start) - visited
  {
    InUniverse(start, cur);
  }

  predicate InRect(i: int, j: int, x: int, y: int, w: int, h: int) {
    x <= i < x + w && y <= j < y + h
  }

  /** The inclusive segment between a and b, whichever order they come in. */
  predicate Between(i: int, a: int, b: int) {
    (a <= i <= b) || (b <= i <= a)
  }

  /** block_rect: set every in-bounds cell of [x, x+w) x [y, y+h) to True. */
  method BlockRect(blocked: array2<bool>, x: int, y: int, w: int, h: int)
    requires IsGrid(blocked)
    modifies blocked
    ensures forall i, j :: 0 <= i < GridW && 0 <= j < GridH ==>
      blocked[i, j] == (old(blocked[i, j]) || InRect(i, j, x, y, w, h))
  {
    var xx := x;
    while xx < x + w
      invariant x <= xx <= x + (if w > 0 then w else 0)
      invariant forall i, j :: 0 <= i < GridW && 0 <= j < GridH ==>
        blocked[i, j] == (old(blocked[i, j]) || (x <= i < xx && y <= j < y + h))
    {
      var yy := y;
      while yy < y + h
        invariant y <= yy <= y + (if h > 0 then h else 0)
        invariant forall i, j :: 0 <= i < GridW && 0 <= j < GridH ==>
          blocked[i, j] == (old(blocked[i, j]) || (x <= i < xx && y <= j < y + h) || (i == xx && y <= j < yy))
      {
        if 0 <= xx < GridW && 0 <= yy < GridH {
          blocked[xx, yy] := true;
        }
        yy := yy + 1;
      }
      xx := xx + 1;
    }
  }

  /** block_hline: set the in-bounds cells of row y between x0 and x1 inclusive. */
  method BlockHLine(blocked: array2<bool>, x0: int, x1: int, y: int)
    requires IsGrid(blocked)
    modifies blocked
    ensures forall i, j :: 0 <= i < GridW && 0 <= j < GridH ==>
      blocked[i, j] == (old(blocked[i, j]) || (j == y && Between(i, x0, x1)))
  {
    var (a, b) := if x0 <= x1 then (x0, x1) else (x1, x0);
    var xx := a;
    while xx <= b
      invariant a <= xx <= b + 1
      invariant forall i, j :: 0 <= i < GridW && 0 <= j < GridH ==>
        blocked[i, j] == (old(blocked[i, j]) || (j == y && a <= i < xx))
    {
      if 0 <= xx < GridW && 0 <= y < GridH {
        blocked[xx, y] := true;
      }
      xx := xx + 1;
    }
  }

  /** block_vline: set the in-bounds cells of column x between y0 and y1 inclusive. */
  method BlockVLine(blocked: array2<bool>, x: int, y0: int, y1: int)
    requires IsGrid(blocked)
    modifies blocked
    ensures forall i, j :: 0 <= i < GridW && 0 <= j < GridH ==>
      blocked[i, j] == (old(blocked[i, j]) || (i == x && Between(j, y0, y1)))
  {
    var (a, b) := if y0 <= y1 then (y0, y1) else (y1, y0);
    var yy := a;
    while yy <= b
      invariant a <= yy <= b + 1
      invariant forall i, j :: 0 <= i < GridW && 0 <= j < GridH ==>
        blocked[i, j] == (old(blocked[i, j]) || (i == x && a <= j < yy))
    {
      if 0 <= x < GridW && 0 <= yy < GridH {
        blocked[x, yy] := true;
      }
      yy := yy + 1;
    }
  }

  /** The cells a wall from (x1, y1) to (x2, y2) covers when it is axis-aligned. */
  predicate OnWall(i: int, j: int, x1: int, y1: int, x2: int, y2: int) {
    if y1 == y2 then j == y1 && Between(i, x1, x2)
    else x1 == x2 && i == x1 && Between(j, y1, y2)
  }

  /**
   * line_wall of the multi-floor script, obstacle half: a horizontal or
   * vertical wall is blocked, a diagonal one is silently ignored.
   */
  method LineWall(blocked: array2<bool>, x1: int, y1: int, x2: int, y2: int)
    requires IsGrid(blocked)
    modifies blocked
    ensures forall i, j :: 0 <= i < GridW && 0 <= j < GridH ==>
      blocked[i, j] == (old(blocked[i, j]) || OnWall(i, j, x1, y1, x2, y2))
  {
    if y1 == y2 {
      BlockHLine(blocked, x1, x2, y1);
    } else if x1 == x2 {
      BlockVLine(blocked, x1, y1, y2);
    }
  }

  /**
   * line_wall of the single-floor script, obstacle half: as LineWall, but a
   * diagonal wall raises ValueError and blocks nothing.
   */
  method LineWallStrict(blocked: array2<bool>, x1: int, y1: int, x2: int, y2: int) returns (r: Outcome<string>)
    requires IsGrid(blocked)
    modifies blocked
    ensures r.Fail? <==> (y1 != y2 && x1 != x2)
    ensures forall i, j :: 0 <= i < GridW && 0 <= j < GridH ==>
      blocked[i, j] == (old(blocked[i, j]) || OnWall(i, j, x1, y1, x2, y2))
  {
    if y1 == y2 {
      BlockHLine(blocked, x1, x2, y1);
      r := Pass;
    } else if x1 == x2 {
      BlockVLine(blocked, x1, y1, y2);
      r := Pass;
    } else {
      r := Fail("Hanya garis horizontal/vertikal yang didukung.");
    }
  }

  /** room_wall, obstacle half: the whole room rectangle becomes blocked. */
  method RoomWall(blocked: array2<bool>, x: int, y: int, w: int, h: int)
    requires IsGrid(blocked)
    modifies blocked
    ensures forall i, j :: 0 <= i < GridW && 0 <= j < GridH ==>
      blocked[i, j] == (old(blocked[i, j]) || InRect(i, j, x, y, w, h))
  {
    BlockRect(blocked, x, y, w, h);
  }

  /** Indices numpy accepts on an axis of length n: -n <= i < n. */
  predicate NpIndexable(p: Pos) {
    -GridW <= p.x < GridW && -GridH <= p.y < GridH
  }

  /** The cell numpy writes for `blocked[p.x, p.y]`: negative indices count from the end. */
  function NpCell(p: Pos): (c: Pos)
    requires NpIndexable(p)
    ensures InBounds(c)
    ensures InBounds(p) ==> c == p
  {
    Pos(if p.x < 0 then p.x + GridW else p.x, if p.y < 0 then p.y + GridH else p.y)
  }

  function ClearedCells(pts: seq<Pos>): set<Pos>
    requires forall k :: 0 <= k < |pts| ==> NpIndexable(pts[k])
  {
    set k | 0 <= k < |pts| :: NpCell(pts[k])
  }

  function EndList(end: Option<Pos>): seq<Pos> {
    if end.Some? then [end.value] else []
  }

  /** The points the layout builders clear, in order: the service points, the start, then the end when set. */
  function ClearList(services: seq<Pos>, start: Pos, end: Option<Pos>): seq<Pos> {
    services + [start] + EndList(end)
  }

  /** How many leading points numpy accepts before the first one that raises IndexError. */
  function IndexablePrefix(pts: seq<Pos>): (n: nat)
    ensures n <= |pts|
    ensures forall k :: 0 <= k < n ==> NpIndexable(pts[k])
    ensures n < |pts| ==> !NpIndexable(pts[n])
  {
    if pts == [] || !NpIndexable(pts[0]) then 0
    else
      assert forall k :: 1 <= k < |pts| ==> pts[k] == pts[1..][k - 1];
      1 + IndexablePrefix(pts[1..])
  }

  /** Every in-bounds service, start or end point is among the cleared cells. */
  lemma ClearedCovers(services: seq<Pos>, start: Pos, end: Option<Pos>)
    requires forall k :: 0 <= k < |ClearList(services, start, end)| ==> NpIndexable(ClearList(services, start, end)[k])
    ensures forall p :: (p in services || p == start || p in EndList(end)) && InBounds(p) ==>
      p in ClearedCells(ClearList(services, start, end))
  {
    var pts := ClearList(services, start, end);
    forall p | (p in services || p == start || p in EndList(end)) && InBounds(p)
      ensures p in ClearedCells(pts)
    {
      var k: int;
      if p in services {
        k :| 0 <= k < |services| && services[k] == p;
      } else if p == start {
        k := |services|;
      } else {
        k := |services| + 1;
      }
      assert pts[k] == p;
      assert NpCell(pts[k]) in ClearedCells(pts);
    }
  }

  /**
   * The unblocking step of the layout builders: `blocked[sx, sy] = False`
   * for each service point, then for the start and (when set) the end.
   * An index outside numpy's range raises IndexError at that point, after
   * the points before it have been cleared; the failure carries that point.
   */
  method ForcePassable(blocked: array2<bool>, services: seq<Pos>, start: Pos, end: Option<Pos>)
    returns (r: Outcome<Pos>)
    requires IsGrid(blocked)
    modifies blocked
    ensures r.Pass? <==> forall k :: 0 <= k < |ClearList(services, start, end)| ==>
      NpIndexable(ClearList(services, start, end)[k])
    ensures r.Fail? ==> !NpIndexable(r.error)
    ensures r.Fail? ==> r.error == ClearList(services, start, end)[IndexablePrefix(ClearList(services, start, end))]
    ensures forall i, j :: 0 <= i < GridW && 0 <= j < GridH ==>
      blocked[i, j] == (old(blocked[i, j]) &&
        Pos(i, j) !in ClearedCells(ClearList(services, start, end)[..IndexablePrefix(ClearList(services, start, end))]))
    ensures r.Pass? ==> forall p :: (p in services || p == start || p in EndList(end)) && InBounds(p) ==> Passable(blocked, p)
  {
    var pts := ClearList(services, start, end);
    var n := 0;
    while n < |pts| && NpIndexable(pts[n])
      invariant 0 <= n <= IndexablePrefix(pts)
      invariant forall i, j :: 0 <= i < GridW && 0 <= j < GridH ==>
        blocked[i, j] == (old(blocked[i, j]) && Pos(i, j) !in ClearedCells(pts[..n]))
    {
      var c := NpCell(pts[n]);
      blocked[c.x, c.y] := false;
      assert ClearedCells(pts[..n + 1]) == ClearedCells(pts[..n]) + {c} by {
        assert forall k :: 0 <= k < n ==> pts[..n + 1][k] == pts[..n][k];
      }
      n := n + 1;
    }
    assert n == IndexablePrefix(pts);
    if n < |pts| {
      r := Fail(pts[n]);
      return;
    }
    r := Pass;
    assert pts[..n] == pts;
    ClearedCovers(services, start, end);
  }
}
