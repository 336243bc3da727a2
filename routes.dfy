/**
 * Due detection and route ordering: which service points are due from
 * their fill percentage, the greedy nearest-neighbour tour over the due
 * points, and the patrol tour over every service point sorted by
 * (zone rank, y, x).
 */
module Routes {
  import opened Wrappers
  import opened Grid

  /** THRESHOLD = 0.80 and THRESHOLD_PCT = THRESHOLD * 100.0, which is 80.0. */
  const Threshold: real := 0.80
  const ThresholdPct: real := Threshold * 100.0

  /** A cluster record: its name, service point, zone and fill percentage (0..100). */
  datatype Cluster = Cluster(name: string, service: Pos, zone: string, pct: real)

  // ---------------- fill percentages and due points ----------------

  /** `PCT_BY_CLUSTER.get(name, 0.0)`: a cluster missing from the table reads as empty. */
  function Fill(table: map<string, real>, name: string): real {
    if name in table then table[name] else 0.0
  }

  /** Plants each cluster's fill from the table into its record, as the multi-floor script does. */
  function WithFill(cs: seq<Cluster>, table: map<string, real>): (r: seq<Cluster>)
    ensures SamePlaces(cs, r)
    ensures forall i :: 0 <= i < |cs| ==> r[i].name == cs[i].name
    ensures forall i :: 0 <= i < |cs| ==>
      r[i].pct == (if cs[i].name in table then table[cs[i].name] else 0.0)
  {
    seq(|cs|, i requires 0 <= i < |cs| => cs[i].(pct := Fill(table, cs[i].name)))
  }

  function Names(cs: seq<Cluster>): set<string> {
    set c | c in cs :: c.name
  }

  /** PCT_FILL: every cluster name mapped to its table fill, or 0.0 when the table lacks it. */
  function PctFill(cs: seq<Cluster>, table: map<string, real>): (m: map<string, real>)
    ensures forall n :: n in m <==> exists c :: c in cs && c.name == n
    ensures forall c :: c in cs && c.name !in table ==> m[c.name] == 0.0
    ensures forall c :: c in cs && c.name in table ==> m[c.name] == table[c.name]
  {
    map n | n in Names(cs) :: Fill(table, n)
  }

  /**
   * The due points of the multi-floor `build_routes`:
   * `[c.service for c in CLUSTERS if c.pct >= threshold_pct]`.
   */
  function DuePoints(cs: seq<Cluster>, thr: real): (r: seq<Pos>)
    ensures |r| <= |cs|
    ensures forall p :: p in r <==> exists i :: 0 <= i < |cs| && cs[i].service == p && cs[i].pct >= thr
  {
    if cs == [] then []
    else
      var rest := DuePoints(cs[1..], thr);
      assert forall i :: 1 <= i < |cs| ==> cs[i] == cs[1..][i - 1];
      (if cs[0].pct >= thr then [cs[0].service] else []) + rest
  }

  /** The due points keep cluster order: those of a concatenation are concatenated. */
  lemma {:induction false} DuePointsAppend(cs: seq<Cluster>, ds: seq<Cluster>, thr: real)
    ensures DuePoints(cs + ds, thr) == DuePoints(cs, thr) + DuePoints(ds, thr)
  {
    if cs != [] {
      assert (cs + ds)[1..] == cs[1..] + ds;
      DuePointsAppend(cs[1..], ds, thr);
    } else {
      assert cs + ds == ds;
    }
  }

  /**
   * DUE_POINTS of the single-floor script, read through the PCT_FILL map:
   * `[c.service for c in CLUSTERS if PCT_FILL[c.name] >= THRESHOLD_PCT]`.
   */
  function DuePointsRef(cs: seq<Cluster>, fill: map<string, real>): (r: seq<Pos>)
    requires forall c :: c in cs ==> c.name in fill
    ensures |r| <= |cs|
    ensures forall p :: p in r <==>
      exists i :: 0 <= i < |cs| && cs[i].service == p && fill[cs[i].name] >= ThresholdPct
  {
    if cs == [] then []
    else
      var rest := DuePointsRef(cs[1..], fill);
      assert forall i :: 1 <= i < |cs| ==> cs[i] == cs[1..][i - 1];
      assert cs[0] in cs;
      (if fill[cs[0].name] >= ThresholdPct then [cs[0].service] else []) + rest
  }

  /** Reading fills through PCT_FILL gives the same due points as planting them in the records. */
  lemma DuePointsRefAgree(cs: seq<Cluster>, table: map<string, real>)
    ensures DuePointsRef(cs, PctFill(cs, table)) == DuePoints(WithFill(cs, table), ThresholdPct)
  {
    DuePointsRefAgreeWith(cs, table, PctFill(cs, table));
  }

  lemma {:induction false} DuePointsRefAgreeWith(cs: seq<Cluster>, table: map<string, real>, fill: map<string, real>)
    requires forall c :: c in cs ==> c.name in fill && fill[c.name] == Fill(table, c.name)
    ensures DuePointsRef(cs, fill) == DuePoints(WithFill(cs, table), ThresholdPct)
  {
    if cs != [] {
      assert WithFill(cs, table)[1..] == WithFill(cs[1..], table);
      assert cs[0] in cs;
      DuePointsRefAgreeWith(cs[1..], table, fill);
    }
  }

  /** pct_color: red from the threshold up, orange from 80% of it, green below. */
  function PctColor(p: real): (c: string)
    ensures c == "red" <==> p >= ThresholdPct
    ensures c == "orange" <==> ThresholdPct * 0.8 <= p < ThresholdPct
    ensures c == "green" <==> p < ThresholdPct * 0.8
  {
    if p >= ThresholdPct then "red"
    else if p >= ThresholdPct * 0.8 then "orange"
    else "green"
  }

  /** A cluster's colour is red exactly when its service point is listed as due because of it. */
  lemma RedIffDue(cs: seq<Cluster>, i: nat)
    requires i < |cs|
    ensures PctColor(cs[i].pct) == "red" ==> cs[i].service in DuePoints(cs, ThresholdPct)
    ensures (forall j :: 0 <= j < |cs| && cs[j].service == cs[i].service ==> cs[j].pct == cs[i].pct) ==>
      (cs[i].service in DuePoints(cs, ThresholdPct) ==> PctColor(cs[i].pct) == "red")
  {
  }

  // ---------------- nearest-neighbour route ----------------

  /**
   * `min(remaining, key=manhattan to cur)`: the index of the first point
   * at least distance from cur.
   */
  function FirstNearest(cur: Pos, pts: seq<Pos>): (k: nat)
    requires pts != []
    ensures k < |pts|
    ensures forall j :: 0 <= j < |pts| ==> Manhattan(cur, pts[k]) <= Manhattan(cur, pts[j])
    ensures forall j :: 0 <= j < k ==> Manhattan(cur, pts[k]) < Manhattan(cur, pts[j])
    decreases |pts|
  {
    if |pts| == 1 then 0
    else
      var k := FirstNearest(cur, pts[1..]);
      assert forall j :: 1 <= j < |pts| ==> pts[j] == pts[1..][j - 1];
      if Manhattan(cur, pts[0]) <= Manhattan(cur, pts[k + 1]) then 0 else k + 1
  }

  /** `list.remove(v)`: drop the first occurrence of v. */
  function RemoveFirst(s: seq<Pos>, v: Pos): (r: seq<Pos>)
    requires v in s
    ensures |r| == |s| - 1
  {
    if s[0] == v then s[1..]
    else [s[0]] + RemoveFirst(s[1..], v)
  }

  /** `list.remove(v)` takes exactly one copy of v out of the list. */
  lemma {:induction false} RemoveFirstCount(s: seq<Pos>, v: Pos)
    requires v in s
    ensures multiset(RemoveFirst(s, v)) == multiset(s) - multiset{v}
  {
    assert s == [s[0]] + s[1..];
    if s[0] != v {
      RemoveFirstCount(s[1..], v);
    }
  }

  /** Removing the value found first at index k removes exactly index k. */
  lemma {:induction false} RemoveFirstAt(s: seq<Pos>, k: nat)
    requires k < |s| && forall j :: 0 <= j < k ==> s[j] != s[k]
    ensures RemoveFirst(s, s[k]) == s[..k] + s[k + 1..]
  {
    if k == 0 {
      assert s[..0] + s[1..] == s[1..];
    } else {
      var t := s[1..];
      assert t[k - 1] == s[k];
      assert s[0] != s[k];
      RemoveFirstAt(t, k - 1);
      assert t[..k - 1] == s[1..k] && t[k..] == s[k + 1..];
      assert [s[0]] + s[1..k] == s[..k];
      assert [s[0]] + (s[1..k] + s[k + 1..]) == s[..k] + s[k + 1..];
    }
  }

  /**
   * The point `min` picks is the first of least distance, so the `remove`
   * after it deletes that very position: no earlier copy of it exists.
   */
  lemma NearestRemoved(cur: Pos, pts: seq<Pos>)
    requires pts != []
    ensures RemoveFirst(pts, pts[FirstNearest(cur, pts)]) ==
      pts[..FirstNearest(cur, pts)] + pts[FirstNearest(cur, pts) + 1..]
  {
    var k := FirstNearest(cur, pts);
    forall j | 0 <= j < k
      ensures pts[j] != pts[k]
    {
      assert Manhattan(cur, pts[k]) < Manhattan(cur, pts[j]);
    }
    RemoveFirstAt(pts, k);
  }

  /**
   * The order in which the greedy loop visits the points: repeatedly the
   * first nearest remaining point, which then becomes the current point.
   */
  function NNOrder(cur: Pos, pts: seq<Pos>): (r: seq<Pos>)
    ensures |r| == |pts|
    decreases |pts|
  {
    if pts == [] then []
    else
      var nxt := pts[FirstNearest(cur, pts)];
      [nxt] + NNOrder(nxt, RemoveFirst(pts, nxt))
  }

  /** The tour visits every point exactly as often as it is listed: a permutation. */
  lemma {:induction false} NNOrderPermutes(cur: Pos, pts: seq<Pos>)
    ensures multiset(NNOrder(cur, pts)) == multiset(pts)
    decreases |pts|
  {
    if pts != [] {
      var nxt := pts[FirstNearest(cur, pts)];
      var rest := RemoveFirst(pts, nxt);
      RemoveFirstCount(pts, nxt);
      NNOrderPermutes(nxt, rest);
      assert multiset(pts) == multiset(rest) + multiset{nxt};
    }
  }

  /**
   * Greedy: at every step, the point taken is no farther from the current
   * point than any point still to be visited, and strictly nearer than any
   * such point listed before it.
   */
  lemma {:induction false} NNGreedy(cur: Pos, pts: seq<Pos>)
    requires pts != []
    ensures NNOrder(cur, pts)[0] == pts[FirstNearest(cur, pts)]
    ensures forall q :: q in pts ==> Manhattan(cur, NNOrder(cur, pts)[0]) <= Manhattan(cur, q)
    ensures NNOrder(cur, pts)[1..] == NNOrder(NNOrder(cur, pts)[0],
      pts[..FirstNearest(cur, pts)] + pts[FirstNearest(cur, pts) + 1..])
  {
    NearestRemoved(cur, pts);
  }

  /**
   * build_route_nn and the nn branch of the multi-floor build_routes: start
   * at start, repeatedly append the first nearest remaining due point and
   * remove it, then append the end point when there is one.
   */
  method NearestRoute(due: seq<Pos>, start: Pos, end: Option<Pos>) returns (route: seq<Pos>)
    ensures route == [start] + NNOrder(start, due) + EndList(end)
    ensures |route| == 1 + |due| + |EndList(end)|
  {
    var remaining := due;
    var cur := start;
    route := [cur];
    while remaining != []
      invariant route + NNOrder(cur, remaining) == [start] + NNOrder(start, due)
      decreases |remaining|
    {
      var nxt := remaining[FirstNearest(cur, remaining)];
      var rest := RemoveFirst(remaining, nxt);
      assert NNOrder(cur, remaining) == [nxt] + NNOrder(nxt, rest);
      assert (route + [nxt]) + NNOrder(nxt, rest) == route + NNOrder(cur, remaining);
      route := route + [nxt];
      remaining := rest;
      cur := nxt;
    }
    assert route == [start] + NNOrder(start, due);
    if end.Some? {
      route := route + [end.value];
    }
  }

  /** The nn route is start, then each due point once, then the end point if any. */
  lemma NNRouteShape(due: seq<Pos>, start: Pos, end: Option<Pos>)
    ensures var r := [start] + NNOrder(start, due) + EndList(end);
      |r| == 1 + |due| + |EndList(end)| && r[0] == start &&
      multiset(r[1..1 + |due|]) == multiset(due) &&
      (end.Some? ==> r[|r| - 1] == end.value)
  {
    NNOrderPermutes(start, due);
    var r := [start] + NNOrder(start, due) + EndList(end);
    assert r[1..1 + |due|] == NNOrder(start, due);
  }

  // ---------------- patrol route ----------------

  /** ZONE_RANK. */
  const ZoneRankTable: map<string, nat> :=
    map["bottom_left" := 0, "bottom_center" := 1, "bottom_right" := 2,
        "kantin" := 3, "koperasi" := 4, "lain" := 5]

  /** `ZONE_RANK.get(z, 5)`: an unknown zone ranks with "lain". */
  function ZoneRank(z: string): (r: nat)
    ensures r <= 5
    ensures r == 5 <==> z == "lain" || z !in ZoneRankTable
  {
    if z in ZoneRankTable then ZoneRankTable[z] else 5
  }

  /** sp2zone: service point to zone; a later cluster with the same point wins. */
  function Sp2Zone(cs: seq<Cluster>): map<Pos, string> {
    if cs == [] then map[]
    else Sp2Zone(cs[..|cs| - 1])[cs[|cs| - 1].service := cs[|cs| - 1].zone]
  }

  /** The keys of sp2zone are exactly the service points. */
  lemma {:induction false} Sp2ZoneKeys(cs: seq<Cluster>)
    ensures forall p :: p in Sp2Zone(cs) <==> exists i :: 0 <= i < |cs| && cs[i].service == p
    decreases |cs|
  {
    if cs != [] {
      var n := |cs| - 1;
      var init := cs[..n];
      Sp2ZoneKeys(init);
      assert Sp2Zone(cs) == Sp2Zone(init)[cs[n].service := cs[n].zone];
      forall p | p in Sp2Zone(cs)
        ensures exists i :: 0 <= i < |cs| && cs[i].service == p
      {
        if p != cs[n].service {
          var i :| 0 <= i < n && init[i].service == p;
          assert cs[i].service == p;
        }
      }
      forall p | exists i :: 0 <= i < |cs| && cs[i].service == p
        ensures p in Sp2Zone(cs)
      {
        var i :| 0 <= i < |cs| && cs[i].service == p;
        if i < n {
          assert init[i].service == p;
        }
      }
    }
  }

  /** No cluster after index i has the same service point as cluster i. */
  predicate LastServes(cs: seq<Cluster>, i: nat)
    requires i < |cs|
  {
    forall j :: i < j < |cs| ==> cs[j].service != cs[i].service
  }

  /** A service point maps to the zone of the last cluster serving it: a later cluster wins. */
  lemma {:induction false} Sp2ZoneLastWins(cs: seq<Cluster>)
    ensures forall i :: 0 <= i < |cs| && LastServes(cs, i) ==>
      cs[i].service in Sp2Zone(cs) && Sp2Zone(cs)[cs[i].service] == cs[i].zone
    decreases |cs|
  {
    if cs != [] {
      var n := |cs| - 1;
      var init := cs[..n];
      Sp2ZoneLastWins(init);
      assert Sp2Zone(cs) == Sp2Zone(init)[cs[n].service := cs[n].zone];
      forall i | 0 <= i < n && LastServes(cs, i)
        ensures cs[i].service in Sp2Zone(cs) && Sp2Zone(cs)[cs[i].service] == cs[i].zone
      {
        LastServesInit(cs, i);
      }
    }
  }

  lemma LastServesInit(cs: seq<Cluster>, i: nat)
    requires i < |cs| - 1 && LastServes(cs, i)
    ensures LastServes(cs[..|cs| - 1], i) && cs[..|cs| - 1][i] == cs[i]
    ensures cs[|cs| - 1].service != cs[i].service
  {
  }

  /** The sort key `(ZONE_RANK.get(sp2zone.get(p, "lain"), 5), p[1], p[0])`. */
  datatype Key = Key(rank: nat, y: int, x: int)

  function PatrolKey(zones: map<Pos, string>, p: Pos): Key {
    Key(ZoneRank(if p in zones then zones[p] else "lain"), p.y, p.x)
  }

  /** Python's tuple comparison on keys. */
  predicate KeyLe(a: Key, b: Key) {
    a.rank < b.rank || (a.rank == b.rank && (a.y < b.y || (a.y == b.y && a.x <= b.x)))
  }

  ghost predicate Sorted(zones: map<Pos, string>, s: seq<Pos>) {
    forall i, j :: 0 <= i < j < |s| ==> KeyLe(PatrolKey(zones, s[i]), PatrolKey(zones, s[j]))
  }

  lemma KeyTotal(a: Key, b: Key)
    ensures KeyLe(a, b) || KeyLe(b, a)
    ensures KeyLe(a, b) && KeyLe(b, a) ==> a == b
  {
  }

  lemma SortedTail(zones: map<Pos, string>, s: seq<Pos>)
    requires s != [] && Sorted(zones, s)
    ensures Sorted(zones, s[1..])
    ensures forall q :: q in s[1..] ==> KeyLe(PatrolKey(zones, s[0]), PatrolKey(zones, q))
  {
    assert forall i :: 0 <= i < |s| - 1 ==> s[1..][i] == s[i + 1];
  }

  /** Insert p before the first element whose key is not smaller: p precedes its equals. */
  function Insert(zones: map<Pos, string>, p: Pos, s: seq<Pos>): (r: seq<Pos>)
    ensures multiset(r) == multiset(s) + multiset{p}
  {
    if s == [] then [p]
    else if KeyLe(PatrolKey(zones, p), PatrolKey(zones, s[0])) then [p] + s
    else
      assert s == [s[0]] + s[1..];
      [s[0]] + Insert(zones, p, s[1..])
  }

  lemma KeyTrans(a: Key, b: Key, c: Key)
    requires KeyLe(a, b) && KeyLe(b, c)
    ensures KeyLe(a, c)
  {
  }

  /** A point no greater than every point of a sorted sequence may go in front of it. */
  lemma ConsSorted(zones: map<Pos, string>, x: Pos, t: seq<Pos>)
    requires Sorted(zones, t)
    requires forall q :: q in t ==> KeyLe(PatrolKey(zones, x), PatrolKey(zones, q))
    ensures Sorted(zones, [x] + t)
  {
    var r := [x] + t;
    forall i, j | 0 <= i < j < |r|
      ensures KeyLe(PatrolKey(zones, r[i]), PatrolKey(zones, r[j]))
    {
      assert r[j] == t[j - 1];
      if i > 0 {
        assert r[i] == t[i - 1];
      }
    }
  }

  /** Inserting into a sorted sequence keeps it sorted. */
  lemma {:induction false} InsertSorted(zones: map<Pos, string>, p: Pos, s: seq<Pos>)
    requires Sorted(zones, s)
    ensures Sorted(zones, Insert(zones, p, s))
    decreases |s|
  {
    if s != [] {
      var kp := PatrolKey(zones, p);
      var k0 := PatrolKey(zones, s[0]);
      SortedTail(zones, s);
      assert s == [s[0]] + s[1..];
      if KeyLe(kp, k0) {
        forall q | q in s
          ensures KeyLe(kp, PatrolKey(zones, q))
        {
          if q != s[0] {
            KeyTrans(kp, k0, PatrolKey(zones, q));
          }
        }
        ConsSorted(zones, p, s);
      } else {
        KeyTotal(kp, k0);
        InsertSorted(zones, p, s[1..]);
        var t := Insert(zones, p, s[1..]);
        forall q | q in t
          ensures KeyLe(k0, PatrolKey(zones, q))
        {
          assert q in multiset(t);
          assert q in multiset(s[1..]) || q == p;
        }
        ConsSorted(zones, s[0], t);
      }
    }
  }

  /** `sorted(ps, key=PatrolKey)`, stable: an insertion sort that keeps equal keys in input order. */
  function SortByKey(zones: map<Pos, string>, ps: seq<Pos>): (r: seq<Pos>)
    ensures multiset(r) == multiset(ps)
  {
    if ps == [] then []
    else
      assert ps == [ps[0]] + ps[1..];
      Insert(zones, ps[0], SortByKey(zones, ps[1..]))
  }

  lemma {:induction false} SortByKeySorted(zones: map<Pos, string>, ps: seq<Pos>)
    ensures Sorted(zones, SortByKey(zones, ps))
    decreases |ps|
  {
    if ps != [] {
      SortByKeySorted(zones, ps[1..]);
      InsertSorted(zones, ps[0], SortByKey(zones, ps[1..]));
    }
  }

  lemma TailCount(s: seq<Pos>)
    requires s != []
    ensures multiset(s[1..]) == multiset(s) - multiset{s[0]}
  {
    assert s == [s[0]] + s[1..];
  }

  /**
   * The key ends with (y, x), so distinct points never tie and there is
   * only one sorted permutation: stability changes nothing observable.
   */
  lemma {:induction false} SortedUnique(zones: map<Pos, string>, s: seq<Pos>, t: seq<Pos>)
    requires Sorted(zones, s) && Sorted(zones, t) && multiset(s) == multiset(t)
    ensures s == t
    decreases |s|
  {
    if s != [] {
      assert |t| == |s| by {
        assert |multiset(s)| == |s| && |multiset(t)| == |t|;
      }
      assert s[0] in multiset(t) && t[0] in multiset(s);
      var i :| 0 <= i < |t| && t[i] == s[0];
      var j :| 0 <= j < |s| && s[j] == t[0];
      assert KeyLe(PatrolKey(zones, t[0]), PatrolKey(zones, s[0])) by {
        if i > 0 {
          assert KeyLe(PatrolKey(zones, t[0]), PatrolKey(zones, t[i]));
        }
      }
      assert KeyLe(PatrolKey(zones, s[0]), PatrolKey(zones, t[0])) by {
        if j > 0 {
          assert KeyLe(PatrolKey(zones, s[0]), PatrolKey(zones, s[j]));
        }
      }
      KeyTotal(PatrolKey(zones, s[0]), PatrolKey(zones, t[0]));
      assert s[0] == t[0];
      TailCount(s);
      TailCount(t);
      SortedTail(zones, s);
      SortedTail(zones, t);
      SortedUnique(zones, s[1..], t[1..]);
    }
  }

  /** `service_points`: each cluster's service point, in cluster order. */
  function Services(cs: seq<Cluster>): (r: seq<Pos>)
    ensures |r| == |cs|
    ensures forall i :: 0 <= i < |cs| ==> r[i] == cs[i].service
  {
    seq(|cs|, i requires 0 <= i < |cs| => cs[i].service)
  }

  /**
   * Every service point is a key of sp2zone, so the "lain" default of
   * `sp2zone.get(p, "lain")` never applies while sorting the patrol tour:
   * a point ranks by the zone of the last cluster serving it, returned as i.
   */
  lemma PatrolKeyKnown(cs: seq<Cluster>, p: Pos) returns (i: nat)
    requires p in Services(cs)
    ensures i < |cs| && cs[i].service == p && LastServes(cs, i)
    ensures p in Sp2Zone(cs) && Sp2Zone(cs)[p] == cs[i].zone
    ensures PatrolKey(Sp2Zone(cs), p).rank == ZoneRank(cs[i].zone)
  {
    var k :| 0 <= k < |cs| && Services(cs)[k] == p;
    i := LastServing(cs, p, k);
    Sp2ZoneKeys(cs);
    Sp2ZoneLastWins(cs);
  }

  /** The last cluster whose service point is p, at or after index k. */
  lemma LastServing(cs: seq<Cluster>, p: Pos, k: nat) returns (i: nat)
    requires k < |cs| && cs[k].service == p
    ensures k <= i < |cs| && cs[i].service == p
    ensures forall j :: i < j < |cs| ==> cs[j].service != p
    decreases |cs| - k
  {
    if j :| k < j < |cs| && cs[j].service == p {
      i := LastServing(cs, p, j);
    } else {
      i := k;
    }
  }

  /** build_route_patrol_real's order: every service point sorted by (zone rank, y, x). */
  function PatrolOrder(cs: seq<Cluster>): seq<Pos> {
    SortByKey(Sp2Zone(cs), Services(cs))
  }

  /** build_route_patrol_real and the patrol branch of build_routes. */
  function PatrolRoute(start: Pos, cs: seq<Cluster>, end: Option<Pos>): (r: seq<Pos>)
    ensures |r| == 1 + |cs| + |EndList(end)|
    ensures r[0] == start && multiset(r[1..1 + |cs|]) == multiset(Services(cs))
    ensures Sorted(Sp2Zone(cs), r[1..1 + |cs|])
    ensures end.Some? ==> r[|r| - 1] == end.value
  {
    var o := PatrolOrder(cs);
    SortByKeySorted(Sp2Zone(cs), Services(cs));
    assert |multiset(o)| == |o|;
    assert ([start] + o + EndList(end))[1..1 + |cs|] == o;
    [start] + o + EndList(end)
  }

  /** Two cluster lists with the same service points and zones, in the same order. */
  predicate SamePlaces(cs: seq<Cluster>, ds: seq<Cluster>) {
    |cs| == |ds| && forall i :: 0 <= i < |cs| ==> cs[i].service == ds[i].service && cs[i].zone == ds[i].zone
  }

  lemma {:induction false} Sp2ZoneSamePlaces(cs: seq<Cluster>, ds: seq<Cluster>)
    requires SamePlaces(cs, ds)
    ensures Sp2Zone(cs) == Sp2Zone(ds)
    decreases |cs|
  {
    if cs != [] {
      Sp2ZoneSamePlaces(cs[..|cs| - 1], ds[..|ds| - 1]);
    }
  }

  /** The patrol route does not depend on the fill percentages (nor on names). */
  lemma PatrolIgnoresFill(start: Pos, cs: seq<Cluster>, ds: seq<Cluster>, end: Option<Pos>)
    requires SamePlaces(cs, ds)
    ensures PatrolRoute(start, cs, end) == PatrolRoute(start, ds, end)
  {
    Sp2ZoneSamePlaces(cs, ds);
    assert Services(cs) == Services(ds);
  }

  /**
   * build_routes of the multi-floor script: the due points of the
   * clusters at threshold thr, and the nn tour over them when mode is
   * "nn", the patrol tour over every service point for any other mode.
   */
  method BuildRoutes(cs: seq<Cluster>, thr: real, start: Pos, end: Option<Pos>, mode: string)
    returns (route: seq<Pos>, due: seq<Pos>)
    ensures due == DuePoints(cs, thr)
    ensures mode == "nn" ==> route == [start] + NNOrder(start, due) + EndList(end)
    ensures mode != "nn" ==> route == PatrolRoute(start, cs, end)
  {
    due := DuePoints(cs, thr);
    if mode == "nn" {
      route := NearestRoute(due, start, end);
    } else {
      route := [start] + PatrolOrder(cs) + EndList(end);
    }
  }
}
