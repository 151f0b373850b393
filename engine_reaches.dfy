/**
  `ReachGeometry.from_dotnet_reaches`: the engine's reaches are read as plain
  records (grid points with a chainage, digitised points whose M value is
  their chainage), wrapped as tagged reach points, concatenated reach by
  reach, and handed to the ordinary construction.
*/
module EngineReaches {
  import opened ReachPoints
  import opened ReachGeometries

  /** A computational grid point as the engine exposes it. */
  datatype EngineGridPoint = EngineGridPoint(x: real, y: real, z: real, chainage: real)

  /** A digitised point as the engine exposes it; M plays the role of chainage. */
  datatype EngineDigiPoint = EngineDigiPoint(x: real, y: real, z: real, m: real)

  /** The two ordered point lists of one engine reach. */
  datatype EngineReach = EngineReach(gridPoints: seq<EngineGridPoint>, digiPoints: seq<EngineDigiPoint>)

  function FromGridPoint(gp: EngineGridPoint): ReachPoint {
    ReachPoint(GridPoint, gp.chainage, gp.x, gp.y, gp.z)
  }

  function FromDigiPoint(dp: EngineDigiPoint): ReachPoint {
    ReachPoint(DigiPoint, dp.m, dp.x, dp.y, dp.z)
  }

  /** The wrapped points of one reach: its grid points, then its digitised points. */
  function ReachRecords(r: EngineReach): seq<ReachPoint> {
    seq(|r.gridPoints|, i requires 0 <= i < |r.gridPoints| => FromGridPoint(r.gridPoints[i]))
    + seq(|r.digiPoints|, i requires 0 <= i < |r.digiPoints| => FromDigiPoint(r.digiPoints[i]))
  }

  /** The wrapped points of all reaches, reach by reach. */
  function CollectPoints(reaches: seq<EngineReach>): seq<ReachPoint> {
    if reaches == [] then [] else ReachRecords(reaches[0]) + CollectPoints(reaches[1..])
  }

  /** The geometry holds exactly the collected points, sorted. */
  function FromDotnetReaches(reaches: seq<EngineReach>): (g: ReachGeometry)
    ensures Valid(g)
    ensures multiset(g.points) == multiset(CollectPoints(reaches))
  {
    FromPoints(CollectPoints(reaches))
  }

  /** Number of grid points over all reaches (`sum(reach.GridPoints.Count)`). */
  function GridPointCount(reaches: seq<EngineReach>): nat {
    if reaches == [] then 0 else |reaches[0].gridPoints| + GridPointCount(reaches[1..])
  }

  /** Number of digitised points over all reaches (`sum(reach.DigiPoints.Count)`). */
  function DigiPointCount(reaches: seq<EngineReach>): nat {
    if reaches == [] then 0 else |reaches[0].digiPoints| + DigiPointCount(reaches[1..])
  }

  lemma {:induction false} FilterOfOneKind(s: seq<ReachPoint>, t: ReachPointType, u: ReachPointType)
    requires forall i :: 0 <= i < |s| ==> s[i].kind == t
    ensures Filter(s, t) == s
    ensures t != u ==> Filter(s, u) == []
  {
    if s != [] {
      assert forall i :: 0 <= i < |s[1..]| ==> s[1..][i] == s[i + 1];
      FilterOfOneKind(s[1..], t, u);
      assert s == [s[0]] + s[1..];
    }
  }

  lemma ReachRecordsFiltered(r: EngineReach)
    ensures |Filter(ReachRecords(r), GridPoint)| == |r.gridPoints|
    ensures |Filter(ReachRecords(r), DigiPoint)| == |r.digiPoints|
  {
    var grids := seq(|r.gridPoints|, i requires 0 <= i < |r.gridPoints| => FromGridPoint(r.gridPoints[i]));
    var digis := seq(|r.digiPoints|, i requires 0 <= i < |r.digiPoints| => FromDigiPoint(r.digiPoints[i]));
    FilterAppend(grids, digis, GridPoint);
    FilterAppend(grids, digis, DigiPoint);
    FilterOfOneKind(grids, GridPoint, DigiPoint);
    FilterOfOneKind(digis, DigiPoint, GridPoint);
  }

  lemma {:induction false} CollectedCounts(reaches: seq<EngineReach>)
    ensures |Filter(CollectPoints(reaches), GridPoint)| == GridPointCount(reaches)
    ensures |Filter(CollectPoints(reaches), DigiPoint)| == DigiPointCount(reaches)
  {
    if reaches != [] {
      CollectedCounts(reaches[1..]);
      ReachRecordsFiltered(reaches[0]);
      FilterAppend(ReachRecords(reaches[0]), CollectPoints(reaches[1..]), GridPoint);
      FilterAppend(ReachRecords(reaches[0]), CollectPoints(reaches[1..]), DigiPoint);
    }
  }

  /** The geometry holds one grid point per engine grid point and one
      digitised point per engine digitised point, over all reaches. */
  lemma {:induction false} FromDotnetReachesCounts(reaches: seq<EngineReach>)
    ensures |GridPoints(FromDotnetReaches(reaches))| == GridPointCount(reaches)
    ensures |DigiPoints(FromDotnetReaches(reaches))| == DigiPointCount(reaches)
    ensures |FromDotnetReaches(reaches).points| == GridPointCount(reaches) + DigiPointCount(reaches)
  {
    var all := CollectPoints(reaches);
    var g := FromDotnetReaches(reaches);
    CollectedCounts(reaches);
    FilterPermutation(g.points, all, GridPoint);
    FilterPermutation(g.points, all, DigiPoint);
    FilterPartition(g.points);
  }

  /** Where a collected point comes from: a grid point keeps its chainage,
      a digitised point takes its chainage from M. */
  lemma {:induction false} CollectedOrigin(reaches: seq<EngineReach>, p: ReachPoint)
    requires p in CollectPoints(reaches)
    ensures p.kind == GridPoint ==>
      exists i, j :: 0 <= i < |reaches| && 0 <= j < |reaches[i].gridPoints| && p == FromGridPoint(reaches[i].gridPoints[j])
    ensures p.kind == DigiPoint ==>
      exists i, j :: 0 <= i < |reaches| && 0 <= j < |reaches[i].digiPoints| && p == FromDigiPoint(reaches[i].digiPoints[j])
  {
    var r := reaches[0];
    var grids := seq(|r.gridPoints|, i requires 0 <= i < |r.gridPoints| => FromGridPoint(r.gridPoints[i]));
    var digis := seq(|r.digiPoints|, i requires 0 <= i < |r.digiPoints| => FromDigiPoint(r.digiPoints[i]));
    if p in grids {
      var j :| 0 <= j < |grids| && grids[j] == p;
      assert p == FromGridPoint(reaches[0].gridPoints[j]);
    } else if p in digis {
      var j :| 0 <= j < |digis| && digis[j] == p;
      assert p == FromDigiPoint(reaches[0].digiPoints[j]);
    } else {
      assert p in CollectPoints(reaches[1..]);
      CollectedOrigin(reaches[1..], p);
      if p.kind == GridPoint {
        var i, j :| 0 <= i < |reaches[1..]| && 0 <= j < |reaches[1..][i].gridPoints| && p == FromGridPoint(reaches[1..][i].gridPoints[j]);
        assert reaches[1..][i] == reaches[i + 1];
      } else {
        var i, j :| 0 <= i < |reaches[1..]| && 0 <= j < |reaches[1..][i].digiPoints| && p == FromDigiPoint(reaches[1..][i].digiPoints[j]);
        assert reaches[1..][i] == reaches[i + 1];
      }
    }
  }

  /** Every digitised point of the geometry is an engine digitised point
      whose M is its chainage; every grid point is an engine grid point. */
  lemma {:induction false} FromDotnetReachesOrigins(reaches: seq<EngineReach>, p: ReachPoint)
    ensures p in DigiPoints(FromDotnetReaches(reaches)) ==>
      exists i, j :: 0 <= i < |reaches| && 0 <= j < |reaches[i].digiPoints|
        && p.chainage == reaches[i].digiPoints[j].m && p == FromDigiPoint(reaches[i].digiPoints[j])
    ensures p in GridPoints(FromDotnetReaches(reaches)) ==>
      exists i, j :: 0 <= i < |reaches| && 0 <= j < |reaches[i].gridPoints|
        && p == FromGridPoint(reaches[i].gridPoints[j])
  {
    var g := FromDotnetReaches(reaches);
    var all := CollectPoints(reaches);
    if p in DigiPoints(g) || p in GridPoints(g) {
      var f := if p in DigiPoints(g) then DigiPoints(g) else GridPoints(g);
      var k :| 0 <= k < |f| && f[k] == p;
      assert p in g.points;
      assert p in multiset(all);
      CollectedOrigin(reaches, p);
    }
  }
}
