/**
 * Frame expansion: every leg of a route is pathfound, the path is played
 * without its first cell, and the agent then dwells at the arrival cell
 * for a number of frames that depends on whether the point is due, on the
 * mode and, in the single-floor script, on whether it is the end point.
 */
module Frames {
  import opened Wrappers
  import opened Grid
  import opened Paths
  import AStarSearch
  import DijkstraSearch
  import opened Routes

  /** SERVICE_PAUSE_SEC, QUICK_CHECK_SEC and FPS. */
  const ServicePauseSec: nat := 4
  const QuickCheckSec: nat := 1
  const Fps: nat := 8

  /** `max(1, int(sec * FPS))`; the seconds are integers, so `int` truncates nothing. */
  function DwellFrames(sec: nat): (n: nat)
    ensures n >= 1 && n >= sec * Fps
    ensures n == 1 || n == sec * Fps
  {
    if sec * Fps >= 1 then sec * Fps else 1
  }

  /** A due point holds the agent 32 frames, a quick check 8, and no pause is shorter than one frame. */
  lemma DwellConstants(sec: nat)
    ensures DwellFrames(ServicePauseSec) == 32 && DwellFrames(QuickCheckSec) == 8
    ensures DwellFrames(sec) >= 1 && DwellFrames(sec) >= sec * Fps
  {
  }

  /** `[b] * n`. */
  function Repeat(b: Pos, n: nat): (r: seq<Pos>)
    ensures |r| == n && forall i :: 0 <= i < n ==> r[i] == b
  {
    seq(n, _ => b)
  }

  /**
   * How long the agent pauses on arrival at a waypoint:
   * - Multi: `build_frames` of the multi-floor script, with the due set it
   *   computes from the clusters;
   * - Single: `build_path` of the single-floor script, with DUE_POINTS and END_POS.
   */
  datatype DwellRule =
    | Multi(dueSet: set<Pos>, mode: string)
    | Single(duePoints: seq<Pos>, endPos: Option<Pos>, mode: string)

  function Dwell(rule: DwellRule, b: Pos): (n: nat)
    ensures n == 0 || n == DwellFrames(QuickCheckSec) || n == DwellFrames(ServicePauseSec)
    ensures rule.Multi? ==> (n == DwellFrames(ServicePauseSec) <==> b in rule.dueSet)
    ensures rule.Multi? ==> (n == 0 <==> b !in rule.dueSet && rule.mode != "patrol")
    ensures rule.Single? && rule.endPos == Some(b) ==> n == 0
    ensures rule.Single? ==> (n == DwellFrames(ServicePauseSec) <==>
      rule.endPos != Some(b) && b in rule.duePoints && (rule.mode == "nn" || rule.mode == "patrol"))
    ensures rule.Single? ==> (n == DwellFrames(QuickCheckSec) <==>
      rule.endPos != Some(b) && b !in rule.duePoints && rule.mode == "patrol")
  {
    match rule
    case Multi(dueSet, mode) =>
      if b in dueSet then DwellFrames(ServicePauseSec)
      else if mode == "patrol" then DwellFrames(QuickCheckSec)
      else 0
    case Single(duePoints, endPos, mode) =>
      if endPos.Some? && b == endPos.value then 0
      else if mode == "nn" then (if b in duePoints then DwellFrames(ServicePauseSec) else 0)
      else if mode == "patrol" then
        (if b in duePoints then DwellFrames(ServicePauseSec) else DwellFrames(QuickCheckSec))
      else 0
  }

  /** The multi-floor due set: `{c.service for c in CLUSTERS if c.pct >= THRESHOLD_PCT}`. */
  function DueSet(cs: seq<Cluster>): (due: set<Pos>)
    ensures forall p :: p in due <==> exists i :: 0 <= i < |cs| && cs[i].service == p && cs[i].pct >= ThresholdPct
  {
    var due := set c | c in cs && c.pct >= ThresholdPct :: c.service;
    assert forall i :: 0 <= i < |cs| && cs[i].pct >= ThresholdPct ==> cs[i].service in due by {
      forall i | 0 <= i < |cs| && cs[i].pct >= ThresholdPct
        ensures cs[i].service in due
      {
        assert cs[i] in cs;
      }
    }
    due
  }

  /** The due set holds exactly the due points at the global threshold. */
  lemma DueSetIsDuePoints(cs: seq<Cluster>, p: Pos)
    ensures p in DueSet(cs) <==> p in DuePoints(cs, ThresholdPct)
  {
    if p in DuePoints(cs, ThresholdPct) {
      var i :| 0 <= i < |cs| && cs[i].service == p && cs[i].pct >= ThresholdPct;
      assert cs[i] in cs;
    }
  }

  /** The cells a leg contributes: none for a path of at most one cell, else the path less its first cell, then the pause. */
  function SegmentFrames(seg: seq<Pos>, b: Pos, dwell: nat): seq<Pos> {
    if |seg| <= 1 then [] else seg[1..] + Repeat(b, dwell)
  }

  /** The waypoints arrived at: every waypoint but the first. */
  function Arrivals(route: seq<Pos>): seq<Pos> {
    if route == [] then [] else route[1..]
  }

  /** The frames of legs segs arriving at arr, in order. */
  function FramesOf(segs: seq<seq<Pos>>, arr: seq<Pos>, rule: DwellRule): (r: seq<Pos>)
    requires |segs| == |arr|
    ensures (forall i :: 0 <= i < |segs| ==> |segs[i]| <= 1) ==> r == []
    decreases |segs|
  {
    if segs == [] then []
    else
      var n := |segs| - 1;
      FramesOf(segs[..n], arr[..n], rule) + SegmentFrames(segs[n], arr[n], Dwell(rule, arr[n]))
  }

  /** The legs of a route all satisfy the search contract. */
  ghost predicate Legs(blocked: array2<bool>, route: seq<Pos>, segs: seq<seq<Pos>>)
    requires IsGrid(blocked)
    reads blocked
  {
    |segs| == |Arrivals(route)| &&
    forall i :: 0 <= i < |segs| ==> SearchResult(blocked, route[i], route[i + 1], segs[i])
  }

  /** The first n legs of the route satisfy the search contract. */
  ghost predicate LegsUpTo(blocked: array2<bool>, route: seq<Pos>, segs: seq<seq<Pos>>, n: nat)
    requires IsGrid(blocked)
    reads blocked
  {
    n < |route| && |segs| == n &&
    forall i :: 0 <= i < n ==> SearchResult(blocked, route[i], route[i + 1], segs[i])
  }

  lemma LegsStep(blocked: array2<bool>, route: seq<Pos>, segs: seq<seq<Pos>>, n: nat, seg: seq<Pos>)
    requires IsGrid(blocked) && LegsUpTo(blocked, route, segs, n) && n + 1 < |route|
    requires SearchResult(blocked, route[n], route[n + 1], seg)
    ensures LegsUpTo(blocked, route, segs + [seg], n + 1)
    ensures route[1..n + 2] == route[1..n + 1] + [route[n + 1]]
  {
  }

  lemma LegsDone(blocked: array2<bool>, route: seq<Pos>, segs: seq<seq<Pos>>)
    requires IsGrid(blocked) && route != [] && LegsUpTo(blocked, route, segs, |route| - 1)
    ensures Legs(blocked, route, segs) && route[1..|route|] == Arrivals(route)
  {
  }

  lemma AppendLeg(before: seq<Pos>, seg: seq<Pos>, b: Pos, d: nat)
    requires |seg| > 1
    ensures before + seg[1..] + Repeat(b, d) == before + SegmentFrames(seg, b, d)
    ensures before + seg[1..] == before + SegmentFrames(seg, b, 0)
  {
    assert Repeat(b, 0) == [];
  }

  lemma FramesOfSnoc(segs: seq<seq<Pos>>, arr: seq<Pos>, rule: DwellRule, seg: seq<Pos>, b: Pos)
    requires |segs| == |arr|
    ensures FramesOf(segs + [seg], arr + [b], rule) ==
      FramesOf(segs, arr, rule) + SegmentFrames(seg, b, Dwell(rule, b))
  {
    assert (segs + [seg])[..|segs|] == segs;
    assert (arr + [b])[..|arr|] == arr;
  }

  /**
   * build_frames of the multi-floor script. The due set is taken at the
   * global threshold, whatever threshold built the route.
   */
  method BuildFrames(blocked: array2<bool>, route: seq<Pos>, cs: seq<Cluster>, mode: string)
    returns (frames: seq<Pos>, ghost segs: seq<seq<Pos>>)
    requires IsGrid(blocked)
    ensures Legs(blocked, route, segs)
    ensures frames == FramesOf(segs, Arrivals(route), Multi(DueSet(cs), mode))
    ensures |route| < 2 ==> frames == []
  {
    frames := [];
    segs := [];
    if |route| < 2 {
      return;
    }
    var dueSet := DueSet(cs);
    var i := 0;
    while i < |route| - 1
      invariant LegsUpTo(blocked, route, segs, i)
      invariant frames == FramesOf(segs, route[1..i + 1], Multi(dueSet, mode))
    {
      var b := route[i + 1];
      var seg := AStarSearch.AStar(blocked, route[i], b);
      FramesOfSnoc(segs, route[1..i + 1], Multi(dueSet, mode), seg, b);
      LegsStep(blocked, route, segs, i, seg);
      segs := segs + [seg];
      i := i + 1;
      if |seg| <= 1 {
        continue;
      }
      ghost var before := frames;
      frames := frames + seg[1..];
      if b in dueSet {
        frames := frames + Repeat(b, DwellFrames(ServicePauseSec));
        AppendLeg(before, seg, b, DwellFrames(ServicePauseSec));
      } else if mode == "patrol" {
        frames := frames + Repeat(b, DwellFrames(QuickCheckSec));
        AppendLeg(before, seg, b, DwellFrames(QuickCheckSec));
      } else {
        AppendLeg(before, seg, b, 0);
      }
    }
    LegsDone(blocked, route, segs);
  }

  /** `pf = astar if pathfinder == "astar" else dijkstra`, applied to one leg. */
  method Pathfind(blocked: array2<bool>, a: Pos, b: Pos, pathfinder: string) returns (seg: seq<Pos>)
    requires IsGrid(blocked)
    ensures SearchResult(blocked, a, b, seg)
  {
    if pathfinder == "astar" {
      seg := AStarSearch.AStar(blocked, a, b);
    } else {
      seg := DijkstraSearch.Dijkstra(blocked, a, b);
    }
  }

  /**
   * build_path of the single-floor script: A* when the pathfinder is
   * "astar", Dijkstra for any other name; never a pause at END_POS.
   */
  method BuildPath(blocked: array2<bool>, route: seq<Pos>, duePoints: seq<Pos>, endPos: Option<Pos>,
                   mode: string, pathfinder: string)
    returns (frames: seq<Pos>, ghost segs: seq<seq<Pos>>)
    requires IsGrid(blocked)
    ensures Legs(blocked, route, segs)
    ensures frames == FramesOf(segs, Arrivals(route), Single(duePoints, endPos, mode))
    ensures |route| < 2 ==> frames == []
  {
    frames := [];
    segs := [];
    if |route| < 2 {
      return;
    }
    var i := 0;
    while i < |route| - 1
      invariant LegsUpTo(blocked, route, segs, i)
      invariant frames == FramesOf(segs, route[1..i + 1], Single(duePoints, endPos, mode))
    {
      var b := route[i + 1];
      var seg := Pathfind(blocked, route[i], b, pathfinder);
      FramesOfSnoc(segs, route[1..i + 1], Single(duePoints, endPos, mode), seg, b);
      LegsStep(blocked, route, segs, i, seg);
      segs := segs + [seg];
      i := i + 1;
      if |seg| <= 1 {
        continue;
      }
      ghost var before := frames;
      frames := frames + seg[1..];
      AppendLeg(before, seg, b, 0);
      if endPos.None? || b != endPos.value {
        if mode == "nn" {
          if b in duePoints {
            frames := frames + Repeat(b, DwellFrames(ServicePauseSec));
            AppendLeg(before, seg, b, DwellFrames(ServicePauseSec));
          }
        } else if mode == "patrol" {
          var isDue := b in duePoints;
          var dur := if isDue then ServicePauseSec else QuickCheckSec;
          frames := frames + Repeat(b, DwellFrames(dur));
          AppendLeg(before, seg, b, DwellFrames(dur));
        }
      }
    }
    LegsDone(blocked, route, segs);
  }

  /** Both pathfinders on the same pair: paths of the same length. */
  method ComparePathfinders(blocked: array2<bool>, a: Pos, b: Pos) returns (pa: seq<Pos>, pd: seq<Pos>)
    requires IsGrid(blocked)
    ensures |pa| == |pd|
    ensures pa == [] <==> !Reachable(blocked, a, b)
    ensures pa != [] ==> Shortest(blocked, pa, a, b) && Shortest(blocked, pd, a, b)
  {
    pa := AStarSearch.AStar(blocked, a, b);
    pd := DijkstraSearch.Dijkstra(blocked, a, b);
    SearchResultsAgree(blocked, a, b, pa, pd);
  }

  // ---------------- properties of the frames ----------------

  /** Steps walked: one per path cell after the first, over the legs that are played. */
  function Moves(segs: seq<seq<Pos>>): nat
    decreases |segs|
  {
    if segs == [] then 0
    else
      var n := |segs| - 1;
      Moves(segs[..n]) + (if |segs[n]| <= 1 then 0 else |segs[n]| - 1)
  }

  /** Pause frames: the dwell of every leg that is played. */
  function Pauses(segs: seq<seq<Pos>>, arr: seq<Pos>, rule: DwellRule): nat
    requires |segs| == |arr|
    decreases |segs|
  {
    if segs == [] then 0
    else
      var n := |segs| - 1;
      Pauses(segs[..n], arr[..n], rule) + (if |segs[n]| <= 1 then 0 else Dwell(rule, arr[n]))
  }

  /** The number of frames is the steps walked plus the pause frames. */
  lemma {:induction false} FrameCount(segs: seq<seq<Pos>>, arr: seq<Pos>, rule: DwellRule)
    requires |segs| == |arr|
    ensures |FramesOf(segs, arr, rule)| == Moves(segs) + Pauses(segs, arr, rule)
    decreases |segs|
  {
    if segs != [] {
      var n := |segs| - 1;
      FrameCount(segs[..n], arr[..n], rule);
    }
  }

  /** Dropping the last leg leaves the legs of the route without its last waypoint. */
  lemma LegsPrefix(blocked: array2<bool>, route: seq<Pos>, segs: seq<seq<Pos>>)
    requires IsGrid(blocked) && Legs(blocked, route, segs) && segs != []
    ensures |route| == |segs| + 1
    ensures Legs(blocked, route[..|segs|], segs[..|segs| - 1])
    ensures Arrivals(route[..|segs|]) == Arrivals(route)[..|segs| - 1]
    ensures Arrivals(route)[|segs| - 1] == route[|segs|]
    ensures SearchResult(blocked, route[|segs| - 1], route[|segs|], segs[|segs| - 1])
  {
    var n := |segs| - 1;
    var route' := route[..n + 1];
    forall i | 0 <= i < n
      ensures SearchResult(blocked, route'[i], route'[i + 1], segs[..n][i])
    {
      assert route'[i] == route[i] && route'[i + 1] == route[i + 1];
    }
  }

  /** Every frame is a cell the agent may stand on. */
  lemma {:induction false} FramesPassable(blocked: array2<bool>, route: seq<Pos>, segs: seq<seq<Pos>>, rule: DwellRule)
    requires IsGrid(blocked) && Legs(blocked, route, segs)
    ensures forall p :: p in FramesOf(segs, Arrivals(route), rule) ==> Passable(blocked, p)
    decreases |route|
  {
    if segs != [] {
      var n := |segs| - 1;
      var route' := route[..n + 1];
      LegsPrefix(blocked, route, segs);
      FramesPassable(blocked, route', segs[..n], rule);
      var seg, b := segs[n], route[n + 1];
      if |seg| > 1 {
        assert IsPath(blocked, seg, route[n], b);
        forall p | p in seg[1..]
          ensures Passable(blocked, p)
        {
          var k :| 0 <= k < |seg[1..]| && seg[1..][k] == p;
          assert seg[k + 1] == p;
        }
        assert b == seg[1..][|seg| - 2];
      }
    }
  }

  /** Consecutive cells are equal or one step apart. */
  predicate Walk(s: seq<Pos>) {
    forall i :: 0 <= i < |s| - 1 ==> s[i] == s[i + 1] || Adjacent(s[i], s[i + 1])
  }

  lemma WalkAppend(s: seq<Pos>, t: seq<Pos>)
    requires Walk(s) && Walk(t) && s != []
    requires t != [] ==> s[|s| - 1] == t[0] || Adjacent(s[|s| - 1], t[0])
    ensures Walk(s + t)
  {
    var w := s + t;
    forall i | 0 <= i < |w| - 1
      ensures w[i] == w[i + 1] || Adjacent(w[i], w[i + 1])
    {
      if i + 1 < |s| {
        assert w[i] == s[i] && w[i + 1] == s[i + 1];
      } else if i + 1 == |s| {
        assert w[i] == s[|s| - 1] && w[i + 1] == t[0];
      } else {
        assert w[i] == t[i - |s|] && w[i + 1] == t[i - |s| + 1];
      }
    }
  }

  /** A walk from a to b: its cells, first a and last b, go one step at a time. */
  predicate Linked(seg: seq<Pos>, a: Pos, b: Pos) {
    |seg| >= 1 && seg[0] == a && seg[|seg| - 1] == b &&
    forall i :: 0 <= i < |seg| - 1 ==> Adjacent(seg[i], seg[i + 1])
  }

  /** Playing one leg after a walk that stands at its first waypoint keeps the walk unbroken. */
  lemma LegStep(w: seq<Pos>, seg: seq<Pos>, a: Pos, b: Pos, d: nat)
    requires Walk(w) && w != [] && w[|w| - 1] == a && Linked(seg, a, b)
    ensures Walk(w + SegmentFrames(seg, b, d))
    ensures (w + SegmentFrames(seg, b, d))[|w + SegmentFrames(seg, b, d)| - 1] == b
  {
    if |seg| > 1 {
      var moves := seg[1..];
      assert Walk(moves) by {
        forall i | 0 <= i < |moves| - 1
          ensures Adjacent(moves[i], moves[i + 1])
        {
          assert moves[i] == seg[i + 1] && moves[i + 1] == seg[i + 2];
        }
      }
      var pause := Repeat(b, d);
      assert moves[|moves| - 1] == b;
      WalkAppend(moves, pause);
      assert Adjacent(seg[0], moves[0]);
      WalkAppend(w, moves + pause);
    } else {
      assert w + [] == w;
    }
  }

  /**
   * When every leg is reachable, the start followed by the frames is an
   * unbroken walk (a pause repeats a cell, a move goes one step) that ends
   * at the last waypoint.
   */
  lemma FramesContinuous(blocked: array2<bool>, route: seq<Pos>, segs: seq<seq<Pos>>, rule: DwellRule)
    requires IsGrid(blocked) && route != [] && Legs(blocked, route, segs)
    requires forall i :: 0 <= i < |route| - 1 ==> Reachable(blocked, route[i], route[i + 1])
    ensures Walk([route[0]] + FramesOf(segs, Arrivals(route), rule))
    ensures ([route[0]] + FramesOf(segs, Arrivals(route), rule))[|FramesOf(segs, Arrivals(route), rule)|] == route[|route| - 1]
  {
    forall i | 0 <= i < |segs|
      ensures Linked(segs[i], route[i], route[i + 1])
    {
      assert SearchResult(blocked, route[i], route[i + 1], segs[i]);
    }
    LinkedFramesContinuous(route, segs, rule);
  }

  lemma LinkedPrefix(route: seq<Pos>, segs: seq<seq<Pos>>)
    requires segs != [] && |segs| == |route| - 1
    requires forall i :: 0 <= i < |segs| ==> Linked(segs[i], route[i], route[i + 1])
    ensures forall i :: 0 <= i < |segs| - 1 ==>
      Linked(segs[..|segs| - 1][i], route[..|segs|][i], route[..|segs|][i + 1])
    ensures route[..|segs|][1..] == route[1..][..|segs| - 1]
  {
  }

  lemma FramesUnfold(route: seq<Pos>, segs: seq<seq<Pos>>, rule: DwellRule)
    requires segs != [] && |segs| == |route| - 1
    ensures [route[0]] + FramesOf(segs, route[1..], rule) ==
      ([route[0]] + FramesOf(segs[..|segs| - 1], route[..|segs|][1..], rule)) +
      SegmentFrames(segs[|segs| - 1], route[|segs|], Dwell(rule, route[|segs|]))
  {
    var n := |segs| - 1;
    var arr := route[1..];
    assert arr[..n] == route[..n + 1][1..] && arr[n] == route[n + 1];
    var front := FramesOf(segs[..n], arr[..n], rule);
    var last := SegmentFrames(segs[n], arr[n], Dwell(rule, arr[n]));
    assert FramesOf(segs, arr, rule) == front + last;
    assert [route[0]] + (front + last) == ([route[0]] + front) + last;
  }

  lemma {:induction false} LinkedFramesContinuous(route: seq<Pos>, segs: seq<seq<Pos>>, rule: DwellRule)
    requires route != [] && |segs| == |route| - 1
    requires forall i :: 0 <= i < |segs| ==> Linked(segs[i], route[i], route[i + 1])
    ensures Walk([route[0]] + FramesOf(segs, route[1..], rule))
    ensures ([route[0]] + FramesOf(segs, route[1..], rule))[|FramesOf(segs, route[1..], rule)|] == route[|route| - 1]
    decreases |route|
  {
    if segs != [] {
      var n := |segs| - 1;
      var route' := route[..n + 1];
      LinkedPrefix(route, segs);
      LinkedFramesContinuous(route', segs[..n], rule);
      var w' := [route[0]] + FramesOf(segs[..n], route'[1..], rule);
      var b := route[n + 1];
      LegStep(w', segs[n], route[n], b, Dwell(rule, b));
      FramesUnfold(route, segs, rule);
    }
  }

  /**
   * Any two pathfinders that meet the search contract give the same number
   * of frames on the same route: A* and Dijkstra play equally long.
   */
  lemma {:induction false} SameFrameCount(blocked: array2<bool>, route: seq<Pos>, segs: seq<seq<Pos>>,
                                          segs': seq<seq<Pos>>, rule: DwellRule)
    requires IsGrid(blocked) && Legs(blocked, route, segs) && Legs(blocked, route, segs')
    ensures Moves(segs) == Moves(segs')
    ensures Pauses(segs, Arrivals(route), rule) == Pauses(segs', Arrivals(route), rule)
    ensures |FramesOf(segs, Arrivals(route), rule)| == |FramesOf(segs', Arrivals(route), rule)|
    decreases |route|
  {
    FrameCount(segs, Arrivals(route), rule);
    FrameCount(segs', Arrivals(route), rule);
    if segs != [] {
      var n := |segs| - 1;
      var route' := route[..n + 1];
      LegsPrefix(blocked, route, segs);
      LegsPrefix(blocked, route, segs');
      SameFrameCount(blocked, route', segs[..n], segs'[..n], rule);
      SearchResultsAgree(blocked, route[n], route[n + 1], segs[n], segs'[n]);
    }
  }

  /** The single-floor player never pauses where the route ends at END_POS. */
  lemma NoPauseAtEnd(duePoints: seq<Pos>, endPos: Pos, mode: string, seg: seq<Pos>)
    ensures SegmentFrames(seg, endPos, Dwell(Single(duePoints, Some(endPos), mode), endPos)) ==
      (if |seg| <= 1 then [] else seg[1..])
  {
    if |seg| > 1 {
      assert seg[1..] + Repeat(endPos, 0) == seg[1..];
    }
  }
}
