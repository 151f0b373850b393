/**
  The concrete situations the reach-geometry tests describe, stated as
  lemmas over the model: three points compared and deduplicated, and a
  five-point reach given in any order.
*/
module GeometryExamples {
  import opened ReachPoints
  import opened RunFolding
  import opened Results
  import opened Interpolation
  import opened ReachGeometries
  import opened PointSets

  // Three points: p1 and p2 differ only in their tag, p3 lies further along.
  const P1 := ReachPoint(DigiPoint, 0.0, 0.0, 0.0, 0.0)
  const P2 := ReachPoint(GridPoint, 0.0, 0.0, 0.0, 0.0)
  const P3 := ReachPoint(GridPoint, 10.0, 0.0, 0.0, 0.0)

  /** Equality ignores the tag and order follows chainage. */
  lemma ComparisonExample()
    ensures Same(P1, P2)
    ensures Less(P1, P3) && !Less(P3, P1) && !Less(P1, P2) && !Less(P2, P1)
  {
  }

  /** `sorted([p3, p1, p2]) == [p1, p2, p3]`. */
  lemma SortExample()
    ensures Sort([P3, P1, P2]) == [P1, P2, P3]
  {
    SortTwoExample();
    InsertExample();
    assert [P3, P1, P2][1..] == [P1, P2];
  }

  lemma SortTwoExample()
    ensures Sort([P1, P2]) == [P1, P2]
  {
    assert [P1, P2][1..] == [P2] && [P2][1..] == [];
    assert Sort([P2]) == [P2];
    assert LessEq(P1, P2);
  }

  lemma InsertExample()
    ensures Insert(P3, [P1, P2]) == [P1, P2, P3]
  {
    assert [P1, P2][1..] == [P2] && [P2][1..] == [];
    assert !LessEq(P3, P1) && !LessEq(P3, P2);
    assert Insert(P3, [P2]) == [P2, P3];
  }

  /** `sorted(list(set([p3, p1, p2]))) == [p1, p3]`. */
  lemma DeduplicationExample()
    ensures Unique([P3, P1, P2]) == [P3, P1]
    ensures Sort(Unique([P3, P1, P2])) == [P1, P3]
  {
    assert [P3, P1, P2][1..] == [P1, P2];
    assert [P1, P2][1..] == [P2];
    assert Without([P2], KeyOf(P1)) == [];
    assert Without([P1, P2], KeyOf(P3)) == [P1, P2];
    assert Unique([P1, P2]) == [P1];
    assert [P3, P1][1..] == [P1];
    assert Sort([P1]) == [P1];
  }

  /** The five points of the geometry fixture, before shuffling. */
  const Fixture := [
    ReachPoint(DigiPoint, 0.0, 0.0, 0.0, 0.0),
    ReachPoint(GridPoint, 0.0, 0.0, 0.0, 0.0),
    ReachPoint(GridPoint, 5.0, 0.5, 0.5, 0.5),
    ReachPoint(GridPoint, 10.0, 1.0, 1.0, 1.0),
    ReachPoint(DigiPoint, 10.0, 1.0, 1.0, 1.0)
  ]

  const Origin := Location(0.0, 0.0)
  const Middle := Location(0.5, 0.5)
  const End := Location(1.0, 1.0)

  lemma FixtureColumns()
    ensures Sorted(Fixture)
    ensures ChainagesOf(Fixture) == [0.0, 0.0, 5.0, 10.0, 10.0]
    ensures LocationsOf(Fixture) == [Origin, Origin, Middle, End, End]
    ensures |Filter(Fixture, GridPoint)| == 3 && |Filter(Fixture, DigiPoint)| == 2
  {
    assert Fixture[1..] == Fixture[1..][..];
  }

  /** Two lists with the same keys have the same chainage and location columns. */
  lemma {:induction false} SameKeysSameColumns(a: seq<ReachPoint>, b: seq<ReachPoint>)
    requires Keys(a) == Keys(b)
    ensures ChainagesOf(a) == ChainagesOf(b)
    ensures LocationsOf(a) == LocationsOf(b)
  {
    forall i | 0 <= i < |a| ensures a[i].chainage == b[i].chainage && LocationOf(a[i]) == LocationOf(b[i]) {
      KeysAt(a, i);
      KeysAt(b, i);
    }
  }

  lemma FixtureFolds()
    ensures FoldRuns([0.0, 0.0, 5.0, 10.0, 10.0]) == [0.0, 5.0, 10.0]
    ensures FoldRuns([Origin, Origin, Middle, End, End]) == [Origin, Middle, End]
  {
    assert FoldRuns([10.0, 10.0]) == [10.0] by { assert [10.0, 10.0][1..] == [10.0]; }
    assert FoldRuns([5.0, 10.0, 10.0]) == [5.0, 10.0] by { assert [5.0, 10.0, 10.0][1..] == [10.0, 10.0]; }
    assert FoldRuns([0.0, 5.0, 10.0, 10.0]) == [0.0, 5.0, 10.0] by { assert [0.0, 5.0, 10.0, 10.0][1..] == [5.0, 10.0, 10.0]; }
    assert [0.0, 0.0, 5.0, 10.0, 10.0][1..] == [0.0, 5.0, 10.0, 10.0];
    assert FoldRuns([End, End]) == [End] by { assert [End, End][1..] == [End]; }
    assert FoldRuns([Middle, End, End]) == [Middle, End] by { assert [Middle, End, End][1..] == [End, End]; }
    assert FoldRuns([Origin, Middle, End, End]) == [Origin, Middle, End] by { assert [Origin, Middle, End, End][1..] == [Middle, End, End]; }
    assert [Origin, Origin, Middle, End, End][1..] == [Origin, Middle, End, End];
  }

  /** The unshuffled fixture and any shuffle of it have the same columns. */
  lemma {:induction false} ShuffledColumns(shuffled: seq<ReachPoint>)
    requires multiset(shuffled) == multiset(Fixture)
    ensures ChainagesOf(FromPoints(shuffled).points) == ChainagesOf(Fixture)
    ensures LocationsOf(FromPoints(shuffled).points) == LocationsOf(Fixture)
    ensures |GridPoints(FromPoints(shuffled))| == 3 && |DigiPoints(FromPoints(shuffled))| == 2
  {
    var g := FromPoints(shuffled);
    FixtureColumns();
    SortKeepsSorted(Fixture);
    ConstructionIgnoresInputOrder(shuffled, Fixture);
    SameKeysSameColumns(g.points, Fixture);
    FilterPermutation(g.points, Fixture, GridPoint);
    FilterPermutation(g.points, Fixture, DigiPoint);
  }

  /** Whatever the shuffle, the fixture gives five stored points (three grid,
      two digitised), chainages [0, 5, 10], length 10, and a polyline with
      the three vertices (0, 0), (0.5, 0.5), (1, 1). */
  lemma {:induction false} ShuffledFixtureGeometry(shuffled: seq<ReachPoint>)
    requires multiset(shuffled) == multiset(Fixture)
    ensures |FromPoints(shuffled).points| == 5
    ensures |GridPoints(FromPoints(shuffled))| == 3 && |DigiPoints(FromPoints(shuffled))| == 2
    ensures Chainages(FromPoints(shuffled)) == [0.0, 5.0, 10.0]
    ensures Length(FromPoints(shuffled)) == Some(10.0)
    ensures Vertices(FromPoints(shuffled)) == [Origin, Middle, End]
    ensures ToShapely(FromPoints(shuffled)) == Some(LineString([Origin, Middle, End]))
  {
    FixtureColumns();
    ShuffledColumns(shuffled);
    FixtureFolds();
  }

  /** The cumulative distances along the fixture's locations. */
  lemma FixtureDistances(segLen: (Location, Location) -> real)
    requires IsPlanarDistance(segLen)
    ensures CumulativeDistances([Origin, Origin, Middle, End, End], segLen) ==
      [0.0, 0.0, segLen(Origin, Middle), segLen(Origin, Middle) + segLen(Middle, End),
       segLen(Origin, Middle) + segLen(Middle, End)]
    ensures 0.0 < segLen(Origin, Middle) < segLen(Origin, Middle) + segLen(Middle, End)
  {
    var ls := [Origin, Origin, Middle, End, End];
    CumulativeStep(ls, segLen, 0);
    CumulativeStep(ls, segLen, 1);
    CumulativeStep(ls, segLen, 2);
    CumulativeStep(ls, segLen, 3);
    assert segLen(Origin, Origin) == 0.0 && segLen(End, End) == 0.0;
    assert segLen(Origin, Middle) != 0.0 && segLen(Middle, End) != 0.0;
  }

  /** Interpolation over the fixture's (chainage, distance) table, evaluated at its nodes. */
  lemma FixtureTable(a: real, b: real)
    requires 0.0 < a < b
    ensures var cs := [0.0, 0.0, 5.0, 10.0, 10.0];
      var ds := [0.0, 0.0, a, b, b];
      && Interp(cs, ds, 0.0) == 0.0 && Interp(cs, ds, 5.0) == a && Interp(cs, ds, 10.0) == b
      && Interp(ds, cs, 0.0) == 0.0 && Interp(ds, cs, a) == 5.0 && Interp(ds, cs, b) == 10.0
  {
    var cs := [0.0, 0.0, 5.0, 10.0, 10.0];
    var ds := [0.0, 0.0, a, b, b];
    assert cs[1..] == [0.0, 5.0, 10.0, 10.0] && cs[1..][1..] == [5.0, 10.0, 10.0];
    assert ds[1..] == [0.0, a, b, b] && ds[1..][1..] == [a, b, b];
    assert Interp(cs, ds, 5.0) == Interp([0.0, 5.0, 10.0, 10.0], [0.0, a, b, b], 5.0);
    assert Interp(cs, ds, 10.0) == Interp([5.0, 10.0, 10.0], [a, b, b], 10.0);
    assert Interp(ds, cs, a) == Interp([0.0, a, b, b], [0.0, 5.0, 10.0, 10.0], a);
    assert Interp(ds, cs, b) == Interp([a, b, b], [5.0, 10.0, 10.0], b);
  }

  /** Conversions on any geometry whose columns are the fixture's: chainage 0, 5
      and 10 map to the cumulative distances 0, |(0, 0)-(0.5, 0.5)| and that plus
      |(0.5, 0.5)-(1, 1)|, and back. */
  lemma {:induction false} FixtureConversions(g: ReachGeometry, segLen: (Location, Location) -> real)
    requires IsPlanarDistance(segLen)
    requires ChainagesOf(g.points) == [0.0, 0.0, 5.0, 10.0, 10.0]
    requires LocationsOf(g.points) == [Origin, Origin, Middle, End, End]
    ensures |g.points| == 5 && g.points[0].chainage == 0.0 && g.points[4].chainage == 10.0
    ensures 0.0 < segLen(Origin, Middle) < segLen(Origin, Middle) + segLen(Middle, End) == Distances(g, segLen)[4]
    ensures ChainageToDistance(g, segLen, 0.0) == 0.0
    ensures ChainageToDistance(g, segLen, 5.0) == segLen(Origin, Middle)
    ensures ChainageToDistance(g, segLen, 10.0) == segLen(Origin, Middle) + segLen(Middle, End)
    ensures ChainageFromDistance(g, segLen, 0.0) == 0.0
    ensures ChainageFromDistance(g, segLen, segLen(Origin, Middle)) == 5.0
    ensures ChainageFromDistance(g, segLen, segLen(Origin, Middle) + segLen(Middle, End)) == 10.0
  {
    assert g.points[0].chainage == ChainagesOf(g.points)[0];
    assert g.points[4].chainage == ChainagesOf(g.points)[4];
    var a := segLen(Origin, Middle);
    var b := a + segLen(Middle, End);
    assert Distances(g, segLen) == [0.0, 0.0, a, b, b] && 0.0 < a < b by {
      FixtureDistances(segLen);
    }
    FixtureTable(a, b);
  }

  /** The same conversions hold for every shuffle of the fixture. */
  lemma {:induction false} ShuffledFixtureConversions(shuffled: seq<ReachPoint>, segLen: (Location, Location) -> real)
    requires multiset(shuffled) == multiset(Fixture)
    requires IsPlanarDistance(segLen)
    ensures var g := FromPoints(shuffled);
      |g.points| == 5 && g.points[0].chainage == 0.0 && g.points[4].chainage == 10.0
    ensures segLen(Origin, Middle) + segLen(Middle, End) == Distances(FromPoints(shuffled), segLen)[4]
    ensures ChainageToDistance(FromPoints(shuffled), segLen, 0.0) == 0.0
    ensures ChainageToDistance(FromPoints(shuffled), segLen, 5.0) == segLen(Origin, Middle)
    ensures ChainageToDistance(FromPoints(shuffled), segLen, 10.0) == segLen(Origin, Middle) + segLen(Middle, End)
    ensures ChainageFromDistance(FromPoints(shuffled), segLen, 0.0) == 0.0
    ensures ChainageFromDistance(FromPoints(shuffled), segLen, segLen(Origin, Middle)) == 5.0
    ensures ChainageFromDistance(FromPoints(shuffled), segLen, segLen(Origin, Middle) + segLen(Middle, End)) == 10.0
  {
    FixtureColumns();
    ShuffledColumns(shuffled);
    FixtureConversions(FromPoints(shuffled), segLen);
  }
}
