/**
 * The first-floor instance of the multi-floor script: its five clusters,
 * the fill table planted into them, and the routes that follow.
 */
module Scenario {
  import opened Wrappers
  import opened Grid
  import opened Routes

  /** The first-floor clusters before any fill is planted (pct 0). */
  function Floor1Clusters(): seq<Cluster> {
    [ Cluster("top_left_row", Pos(3, 6), "koperasi", 0.0),
      Cluster("top_right_col", Pos(GridW - 13, 4), "kantin", 0.0),
      Cluster("bottom_left_col", Pos(2, 16), "bottom_left", 0.0),
      Cluster("bottom_mid_row", Pos(17, 18), "bottom_center", 0.0),
      Cluster("bottom_right_col", Pos(GridW - 3, 16), "bottom_right", 0.0) ]
  }

  /** PCT_BY_CLUSTER_F1. */
  function Floor1Fill(): map<string, real> {
    map["top_left_row" := 83.0, "top_right_col" := 55.0, "bottom_left_col" := 92.0,
        "bottom_mid_row" := 48.0, "bottom_right_col" := 88.0]
  }

  /** Three of the five clusters are due, in cluster order. */
  lemma Floor1Due()
    ensures DuePoints(WithFill(Floor1Clusters(), Floor1Fill()), ThresholdPct) ==
      [Pos(3, 6), Pos(2, 16), Pos(32, 16)]
  {
    var cs := WithFill(Floor1Clusters(), Floor1Fill());
    assert cs[0].pct == 83.0 && cs[1].pct == 55.0 && cs[2].pct == 92.0;
    assert cs[3].pct == 48.0 && cs[4].pct == 88.0;
    assert cs[0].service == Pos(3, 6) && cs[2].service == Pos(2, 16) && cs[4].service == Pos(32, 16);
    assert cs[5..] == [];
    assert DuePoints(cs[4..], ThresholdPct) == [Pos(32, 16)] by {
      assert cs[4..][1..] == cs[5..];
    }
    assert DuePoints(cs[3..], ThresholdPct) == [Pos(32, 16)] by {
      assert cs[3..][1..] == cs[4..];
    }
    assert DuePoints(cs[2..], ThresholdPct) == [Pos(2, 16), Pos(32, 16)] by {
      assert cs[2..][1..] == cs[3..];
    }
    assert DuePoints(cs[1..], ThresholdPct) == [Pos(2, 16), Pos(32, 16)] by {
      assert cs[1..][1..] == cs[2..];
    }
  }

  /** From START_POS (1, 19) the greedy tour takes the bottom-left point first. */
  lemma Floor1Nearest()
    ensures NNOrder(Pos(1, 19), [Pos(3, 6), Pos(2, 16), Pos(32, 16)]) ==
      [Pos(2, 16), Pos(3, 6), Pos(32, 16)]
  {
    var s := [Pos(3, 6), Pos(2, 16), Pos(32, 16)];
    assert FirstNearest(Pos(1, 19), s) == 1;
    assert RemoveFirst(s, Pos(2, 16)) == [Pos(3, 6), Pos(32, 16)];
    var t := [Pos(3, 6), Pos(32, 16)];
    assert FirstNearest(Pos(2, 16), t) == 0;
    assert RemoveFirst(t, Pos(3, 6)) == [Pos(32, 16)];
    assert FirstNearest(Pos(3, 6), [Pos(32, 16)]) == 0;
    assert RemoveFirst([Pos(32, 16)], Pos(32, 16)) == [];
  }

  /** The zone of each first-floor service point. */
  function Floor1Zones(): map<Pos, string> {
    map[Pos(3, 6) := "koperasi", Pos(22, 4) := "kantin", Pos(2, 16) := "bottom_left",
        Pos(17, 18) := "bottom_center", Pos(32, 16) := "bottom_right"]
  }

  lemma Floor1Sp2Zone()
    ensures Sp2Zone(Floor1Clusters()) == Floor1Zones()
  {
    var cs := Floor1Clusters();
    assert Sp2Zone(cs[..1]) == map[Pos(3, 6) := "koperasi"] by {
      assert cs[..1][..0] == [];
    }
    assert cs[..2][..1] == cs[..1] && cs[..3][..2] == cs[..2] && cs[..4][..3] == cs[..3];
    assert cs[..5][..4] == cs[..4] && cs[..5] == cs;
    assert Sp2Zone(cs[..2]) == map[Pos(3, 6) := "koperasi", Pos(22, 4) := "kantin"];
    assert Sp2Zone(cs[..3]) == map[Pos(3, 6) := "koperasi", Pos(22, 4) := "kantin", Pos(2, 16) := "bottom_left"];
    assert Sp2Zone(cs[..4]) == map[Pos(3, 6) := "koperasi", Pos(22, 4) := "kantin", Pos(2, 16) := "bottom_left",
                                   Pos(17, 18) := "bottom_center"];
  }

  /** The patrol order claimed for the first floor. */
  function Floor1PatrolOrder(): seq<Pos> {
    [Pos(2, 16), Pos(17, 18), Pos(32, 16), Pos(22, 4), Pos(3, 6)]
  }

  lemma Floor1Sorted()
    ensures Sorted(Floor1Zones(), Floor1PatrolOrder())
  {
    var zones, order := Floor1Zones(), Floor1PatrolOrder();
    assert PatrolKey(zones, order[0]) == Key(0, 16, 2);
    assert PatrolKey(zones, order[1]) == Key(1, 18, 17);
    assert PatrolKey(zones, order[2]) == Key(2, 16, 32);
    assert PatrolKey(zones, order[3]) == Key(3, 4, 22);
    assert PatrolKey(zones, order[4]) == Key(4, 6, 3);
  }

  lemma Floor1Services()
    ensures multiset(Services(Floor1Clusters())) == multiset(Floor1PatrolOrder())
  {
    var services := [Pos(3, 6), Pos(22, 4), Pos(2, 16), Pos(17, 18), Pos(32, 16)];
    assert Services(Floor1Clusters()) == services;
    assert services == [Pos(3, 6), Pos(22, 4)] + [Pos(2, 16), Pos(17, 18), Pos(32, 16)];
    assert Floor1PatrolOrder() == [Pos(2, 16), Pos(17, 18), Pos(32, 16)] + [Pos(22, 4), Pos(3, 6)];
  }

  /** The patrol tour runs bottom-left, bottom-centre, bottom-right, canteen, cooperative. */
  lemma Floor1Patrol()
    ensures PatrolOrder(Floor1Clusters()) == Floor1PatrolOrder()
  {
    var cs := Floor1Clusters();
    Floor1Sp2Zone();
    Floor1Sorted();
    Floor1Services();
    SortByKeySorted(Floor1Zones(), Services(cs));
    SortedUnique(Floor1Zones(), PatrolOrder(cs), Floor1PatrolOrder());
  }
}
