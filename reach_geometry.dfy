/**
  The geometry of a reach: its points sorted by chainage, the type-filtered
  views, the distinct chainages, the chainage span, the polyline through
  the points and the conversions between chainage and distance along it.
  A ReachGeometry is never changed after construction, so it is a value.
*/
module ReachGeometries {
  import opened ReachPoints
  import opened RunFolding
  import opened Results
  import opened Interpolation

  datatype ReachGeometry = ReachGeometry(points: seq<ReachPoint>)

  /** A line string through planar vertices. */
  datatype LineString = LineString(coords: seq<Location>)

  /** Ascending in the point order, hence by chainage. */
  predicate Sorted(s: seq<ReachPoint>) {
    forall i, j :: 0 <= i < j < |s| ==> LessEq(s[i], s[j])
  }

  /** The invariant every constructed geometry keeps. */
  predicate Valid(g: ReachGeometry) {
    Sorted(g.points)
  }

  // ---------------------------------------------------------------------
  // Construction: a stable sort of the given points; nothing is dropped.
  // ---------------------------------------------------------------------

  function Insert(p: ReachPoint, s: seq<ReachPoint>): (r: seq<ReachPoint>)
    requires Sorted(s)
    ensures Sorted(r)
    ensures multiset(r) == multiset(s) + multiset{p}
  {
    if s == [] then [p]
    else if LessEq(p, s[0]) then
      InsertAtFront(p, s);
      [p] + s
    else
      var t := Insert(p, s[1..]);
      InsertBehind(p, s, t);
      assert s == [s[0]] + s[1..];
      [s[0]] + t
  }

  lemma {:induction false} InsertAtFront(p: ReachPoint, s: seq<ReachPoint>)
    requires Sorted(s) && |s| > 0 && LessEq(p, s[0])
    ensures Sorted([p] + s)
  {
    forall j | 0 <= j < |s| ensures LessEq(p, s[j]) {
      if j > 0 {
        KeyLessEqTransitive(KeyOf(p), KeyOf(s[0]), KeyOf(s[j]));
      }
    }
  }

  lemma {:induction false} InsertBehind(p: ReachPoint, s: seq<ReachPoint>, t: seq<ReachPoint>)
    requires Sorted(s) && |s| > 0 && !LessEq(p, s[0])
    requires Sorted(t) && multiset(t) == multiset(s[1..]) + multiset{p}
    ensures Sorted([s[0]] + t)
  {
    forall j | 0 <= j < |t| ensures LessEq(s[0], t[j]) {
      assert t[j] in multiset(t);
      if t[j] != p {
        assert t[j] in multiset(s[1..]);
        var k :| 0 <= k < |s[1..]| && s[1..][k] == t[j];
        assert s[k + 1] == t[j];
      } else {
        KeyLessEqTotal(KeyOf(p), KeyOf(s[0]));
      }
    }
  }

  /** Python's `sorted`: ascending, stable, keeps every point. */
  function Sort(s: seq<ReachPoint>): (r: seq<ReachPoint>)
    ensures Sorted(r)
    ensures multiset(r) == multiset(s)
  {
    if s == [] then []
    else
      assert s == [s[0]] + s[1..];
      Insert(s[0], Sort(s[1..]))
  }

  /** `ReachGeometry(points)`: the points, sorted. Duplicates are kept. */
  function FromPoints(points: seq<ReachPoint>): (g: ReachGeometry)
    ensures Valid(g)
    ensures multiset(g.points) == multiset(points)
    ensures |g.points| == |points|
  {
    assert |multiset(Sort(points))| == |multiset(points)|;
    ReachGeometry(Sort(points))
  }

  lemma {:induction false} SortedChainagesAscend(s: seq<ReachPoint>)
    requires Sorted(s)
    ensures forall i, j :: 0 <= i < j < |s| ==> s[i].chainage <= s[j].chainage
  {
    forall i, j | 0 <= i < j < |s| ensures s[i].chainage <= s[j].chainage {
      OrderFollowsChainage(s[i], s[j]);
    }
  }

  /** Sorting an already sorted list changes nothing, so constructing a
      geometry from another geometry's points gives the same points. */
  lemma {:induction false} SortKeepsSorted(s: seq<ReachPoint>)
    requires Sorted(s)
    ensures Sort(s) == s
  {
    if s != [] {
      SortKeepsSorted(s[1..]);
      if |s| > 1 {
        assert LessEq(s[0], s[1]);
      }
      assert s == [s[0]] + s[1..];
    }
  }

  lemma {:induction false} FromPointsIdempotent(points: seq<ReachPoint>)
    ensures FromPoints(FromPoints(points).points) == FromPoints(points)
  {
    SortKeepsSorted(Sort(points));
  }

  // ---------------------------------------------------------------------
  // Permutation invariance: the comparison keys of the stored points do not
  // depend on the order in which the points were given.
  // ---------------------------------------------------------------------

  function Keys(s: seq<ReachPoint>): (r: seq<Key>)
    ensures |r| == |s|
  {
    if s == [] then [] else [KeyOf(s[0])] + Keys(s[1..])
  }

  lemma {:induction false} KeysAt(s: seq<ReachPoint>, i: nat)
    requires i < |s|
    ensures Keys(s)[i] == KeyOf(s[i])
  {
    if i > 0 {
      KeysAt(s[1..], i - 1);
    }
  }

  lemma {:induction false} KeysAppend(a: seq<ReachPoint>, b: seq<ReachPoint>)
    ensures Keys(a + b) == Keys(a) + Keys(b)
  {
    if a != [] {
      assert (a + b)[1..] == a[1..] + b;
      KeysAppend(a[1..], b);
    } else {
      assert a + b == b;
    }
  }

  lemma {:induction false} KeysPermutation(a: seq<ReachPoint>, b: seq<ReachPoint>)
    requires multiset(a) == multiset(b)
    ensures multiset(Keys(a)) == multiset(Keys(b))
  {
    if a == [] {
      assert |b| == |multiset(b)| == 0;
    } else {
      var k := PermutationRest(a, b);
      var rest := b[..k] + b[k + 1..];
      KeysPermutation(a[1..], rest);
      KeysRemoveAt(b, k);
      assert multiset(Keys(a)) == multiset(Keys(a[1..])) + multiset{KeyOf(a[0])} by {
        KeysRemoveAt(a, 0);
        assert a[..0] + a[1..] == a[1..];
      }
    }
  }

  /** The head of a permuted sequence sits somewhere in the other one; the tails match once it is taken out. */
  lemma {:induction false} PermutationRest<T>(a: seq<T>, b: seq<T>) returns (k: nat)
    requires multiset(a) == multiset(b) && |a| > 0
    ensures k < |b| && b[k] == a[0]
    ensures multiset(a[1..]) == multiset(b[..k] + b[k + 1..])
  {
    assert a[0] in b by {
      assert a[0] in multiset(b);
    }
    k :| 0 <= k < |b| && b[k] == a[0];
    assert multiset(a[1..]) == multiset(a) - multiset{a[0]} by {
      assert a == [a[0]] + a[1..];
    }
    MultisetRemoveAt(b, k);
  }

  lemma {:induction false} KeysRemoveAt(s: seq<ReachPoint>, k: nat)
    requires k < |s|
    ensures multiset(Keys(s)) == multiset(Keys(s[..k] + s[k + 1..])) + multiset{KeyOf(s[k])}
  {
    var a, c := s[..k], s[k + 1..];
    var mid := [s[k]] + c;
    assert Keys(s) == Keys(a) + ([KeyOf(s[k])] + Keys(c)) by {
      assert s == a + mid;
      assert mid[0] == s[k] && mid[1..] == c;
      KeysAppend(a, mid);
    }
    assert Keys(a + c) == Keys(a) + Keys(c) by {
      KeysAppend(a, c);
    }
  }

  lemma {:induction false} MultisetRemoveAt<T>(s: seq<T>, k: nat)
    requires k < |s|
    ensures multiset(s[..k] + s[k + 1..]) == multiset(s) - multiset{s[k]}
  {
    assert s == s[..k] + [s[k]] + s[k + 1..];
    assert multiset(s) == multiset(s[..k]) + multiset{s[k]} + multiset(s[k + 1..]);
  }

  predicate KeysSorted(s: seq<Key>) {
    forall i, j :: 0 <= i < j < |s| ==> KeyLessEq(s[i], s[j])
  }

  lemma {:induction false} KeysSortedTail(s: seq<Key>)
    requires KeysSorted(s) && |s| > 0
    ensures KeysSorted(s[1..])
  {
    forall i, j | 0 <= i < j < |s| - 1 ensures KeyLessEq(s[1..][i], s[1..][j]) {
      assert s[1..][i] == s[i + 1] && s[1..][j] == s[j + 1];
    }
  }

  lemma {:induction false} SortedHeadIsLeast(s: seq<Key>, x: Key)
    requires KeysSorted(s) && x in multiset(s)
    ensures KeyLessEq(s[0], x)
  {
    var i :| 0 <= i < |s| && s[i] == x;
    assert i == 0 || KeyLessEq(s[0], s[i]);
  }

  lemma {:induction false} MultisetTail<T>(s: seq<T>)
    requires |s| > 0
    ensures multiset(s[1..]) == multiset(s) - multiset{s[0]}
  {
    assert s == [s[0]] + s[1..];
  }

  /** Two sorted key lists holding the same keys are the same list. */
  lemma {:induction false} SortedKeysUnique(a: seq<Key>, b: seq<Key>)
    requires KeysSorted(a) && KeysSorted(b) && multiset(a) == multiset(b)
    ensures a == b
  {
    if a == [] {
      assert |b| == |multiset(b)| == 0;
    } else {
      assert |b| == |multiset(b)| == |a|;
      assert a[0] == b[0] by {
        SortedHeadIsLeast(b, a[0]);
        SortedHeadIsLeast(a, b[0]);
        KeyLessEqTotal(a[0], b[0]);
      }
      assert multiset(a[1..]) == multiset(b[1..]) by {
        MultisetTail(a);
        MultisetTail(b);
      }
      KeysSortedTail(a);
      KeysSortedTail(b);
      SortedKeysUnique(a[1..], b[1..]);
      assert a == [a[0]] + a[1..] && b == [b[0]] + b[1..];
    }
  }

  lemma {:induction false} SortedKeys(s: seq<ReachPoint>)
    requires Sorted(s)
    ensures KeysSorted(Keys(s))
  {
    forall i, j | 0 <= i < j < |s| ensures KeyLessEq(Keys(s)[i], Keys(s)[j]) {
      KeysAt(s, i);
      KeysAt(s, j);
    }
  }

  /** Constructing from any permutation of the same points stores the same
      sequence of (chainage, x, y, z) keys; only the tags of points that
      compare equal may trade places. */
  lemma {:induction false} ConstructionIgnoresInputOrder(p: seq<ReachPoint>, q: seq<ReachPoint>)
    requires multiset(p) == multiset(q)
    ensures Keys(FromPoints(p).points) == Keys(FromPoints(q).points)
  {
    var a, b := Sort(p), Sort(q);
    SortedKeys(a);
    SortedKeys(b);
    KeysPermutation(a, p);
    KeysPermutation(b, q);
    KeysPermutation(p, q);
    SortedKeysUnique(Keys(a), Keys(b));
  }

  // ---------------------------------------------------------------------
  // gridpoints / digipoints
  // ---------------------------------------------------------------------

  /** The points of one type, in their original order. */
  function Filter(s: seq<ReachPoint>, t: ReachPointType): (r: seq<ReachPoint>)
    ensures |r| <= |s|
    ensures forall i :: 0 <= i < |r| ==> r[i].kind == t && r[i] in s
    ensures forall i :: 0 <= i < |s| && s[i].kind == t ==> s[i] in r
  {
    if s == [] then []
    else if s[0].kind == t then [s[0]] + Filter(s[1..], t)
    else Filter(s[1..], t)
  }

  /** `gridpoints`: exactly the grid points of the geometry. */
  function GridPoints(g: ReachGeometry): (r: seq<ReachPoint>)
    ensures forall p :: p in r <==> p in g.points && p.kind == GridPoint
  {
    Filter(g.points, GridPoint)
  }

  /** `digipoints`: exactly the digitised points of the geometry. */
  function DigiPoints(g: ReachGeometry): (r: seq<ReachPoint>)
    ensures forall p :: p in r <==> p in g.points && p.kind == DigiPoint
  {
    Filter(g.points, DigiPoint)
  }

  /** Filtering keeps order: it distributes over concatenation. */
  lemma {:induction false} FilterAppend(a: seq<ReachPoint>, b: seq<ReachPoint>, t: ReachPointType)
    ensures Filter(a + b, t) == Filter(a, t) + Filter(b, t)
  {
    if a != [] {
      assert (a + b)[0] == a[0];
      assert (a + b)[1..] == a[1..] + b;
      FilterAppend(a[1..], b, t);
    } else {
      assert a + b == b;
    }
  }

  /** Each point is kept exactly as often as it occurs, if it has the type. */
  lemma {:induction false} FilterCount(s: seq<ReachPoint>, t: ReachPointType, p: ReachPoint)
    ensures multiset(Filter(s, t))[p] == if p.kind == t then multiset(s)[p] else 0
  {
    if s != [] {
      FilterCount(s[1..], t, p);
      assert s == [s[0]] + s[1..];
      assert multiset(s) == multiset{s[0]} + multiset(s[1..]);
      if s[0].kind == t {
        assert multiset(Filter(s, t)) == multiset{s[0]} + multiset(Filter(s[1..], t));
      } else {
        assert Filter(s, t) == Filter(s[1..], t);
      }
    }
  }

  /** The grid points and the digitised points together are all the points. */
  lemma {:induction false} FilterPartition(s: seq<ReachPoint>)
    ensures multiset(Filter(s, GridPoint)) + multiset(Filter(s, DigiPoint)) == multiset(s)
    ensures |Filter(s, GridPoint)| + |Filter(s, DigiPoint)| == |s|
  {
    forall p ensures (multiset(Filter(s, GridPoint)) + multiset(Filter(s, DigiPoint)))[p] == multiset(s)[p] {
      FilterCount(s, GridPoint, p);
      FilterCount(s, DigiPoint, p);
    }
    assert multiset(Filter(s, GridPoint)) + multiset(Filter(s, DigiPoint)) == multiset(s);
    assert |multiset(Filter(s, GridPoint))| + |multiset(Filter(s, DigiPoint))| == |multiset(s)|;
  }

  lemma {:induction false} FilterPermutation(a: seq<ReachPoint>, b: seq<ReachPoint>, t: ReachPointType)
    requires multiset(a) == multiset(b)
    ensures multiset(Filter(a, t)) == multiset(Filter(b, t))
    ensures |Filter(a, t)| == |Filter(b, t)|
  {
    forall p ensures multiset(Filter(a, t))[p] == multiset(Filter(b, t))[p] {
      FilterCount(a, t, p);
      FilterCount(b, t, p);
    }
    assert multiset(Filter(a, t)) == multiset(Filter(b, t));
    assert |multiset(Filter(a, t))| == |multiset(Filter(b, t))|;
  }

  /** A filtered view of a sorted list is sorted. */
  lemma {:induction false} FilterSorted(s: seq<ReachPoint>, t: ReachPointType)
    requires Sorted(s)
    ensures Sorted(Filter(s, t))
  {
    if s != [] {
      FilterSorted(s[1..], t);
      var r := Filter(s[1..], t);
      forall j | 0 <= j < |r| ensures LessEq(s[0], r[j]) {
        var k :| 0 <= k < |s[1..]| && s[1..][k] == r[j];
        assert s[k + 1] == r[j];
      }
    }
  }

  /** What the geometry promises about its type-filtered views. */
  lemma {:induction false} TypeViews(g: ReachGeometry)
    requires Valid(g)
    ensures Sorted(GridPoints(g)) && Sorted(DigiPoints(g))
    ensures |GridPoints(g)| + |DigiPoints(g)| == |g.points|
    ensures multiset(GridPoints(g)) + multiset(DigiPoints(g)) == multiset(g.points)
  {
    FilterSorted(g.points, GridPoint);
    FilterSorted(g.points, DigiPoint);
    FilterPartition(g.points);
  }

  // ---------------------------------------------------------------------
  // chainages and length
  // ---------------------------------------------------------------------

  function ChainagesOf(s: seq<ReachPoint>): (r: seq<real>)
    ensures |r| == |s|
  {
    seq(|s|, i requires 0 <= i < |s| => s[i].chainage)
  }

  /** The distinct chainages of the points, ascending. */
  function Chainages(g: ReachGeometry): (r: seq<real>)
    ensures |r| <= |g.points|
    ensures |r| == 0 <==> |g.points| == 0
    ensures |g.points| > 0 ==> r[0] == g.points[0].chainage && r[|r| - 1] == g.points[|g.points| - 1].chainage
  {
    FoldRuns(ChainagesOf(g.points))
  }

  /** `chainages` is strictly increasing and holds exactly the chainages of the points. */
  lemma {:induction false} ChainagesDistinctAscending(g: ReachGeometry)
    requires Valid(g)
    ensures StrictlyIncreasing(Chainages(g))
    ensures forall c :: c in Chainages(g) <==> exists i :: 0 <= i < |g.points| && g.points[i].chainage == c
  {
    SortedChainagesAscend(g.points);
    var cs := ChainagesOf(g.points);
    FoldRunsOfSorted(cs);
    FoldRunsMembers(cs);
    forall c ensures c in Chainages(g) <==> exists i :: 0 <= i < |g.points| && g.points[i].chainage == c {
      if c in Chainages(g) {
        var k :| 0 <= k < |Chainages(g)| && Chainages(g)[k] == c;
        var i :| 0 <= i < |cs| && cs[i] == c;
        assert g.points[i].chainage == c;
      }
      if exists i :: 0 <= i < |g.points| && g.points[i].chainage == c {
        var i :| 0 <= i < |g.points| && g.points[i].chainage == c;
        assert cs[i] == c;
      }
    }
  }

  /** `length`: the chainage span, last chainage minus first. A geometry
      without points has no length. */
  function Length(g: ReachGeometry): (r: Option<real>)
    ensures r.Some? <==> |g.points| > 0
  {
    var cs := Chainages(g);
    if |cs| == 0 then None else Some(cs[|cs| - 1] - cs[0])
  }

  lemma {:induction false} LengthIsChainageSpan(g: ReachGeometry)
    requires Valid(g) && |g.points| > 0
    ensures Length(g) == Some(g.points[|g.points| - 1].chainage - g.points[0].chainage)
    ensures Length(g).value >= 0.0
    ensures Length(g).value == 0.0 <==> |Chainages(g)| == 1
  {
    SortedChainagesAscend(g.points);
    ChainagesDistinctAscending(g);
    var cs := Chainages(g);
    if |cs| > 1 {
      assert cs[0] < cs[|cs| - 1];
    }
  }

  // ---------------------------------------------------------------------
  // The polyline (to_shapely)
  // ---------------------------------------------------------------------

  function LocationsOf(s: seq<ReachPoint>): (r: seq<Location>)
    ensures |r| == |s|
  {
    seq(|s|, i requires 0 <= i < |s| => LocationOf(s[i]))
  }

  /** The polyline's vertices: point locations in chainage order, with runs
      of consecutive points at the same (x, y) folded into one vertex. */
  function Vertices(g: ReachGeometry): (v: seq<Location>)
    ensures NoRepeatedNeighbours(v)
    ensures |v| <= |g.points|
  {
    FoldRuns(LocationsOf(g.points))
  }

  /** `to_shapely`: a line string through the vertices; it cannot be built
      from fewer than two vertices. */
  function ToShapely(g: ReachGeometry): (r: Option<LineString>)
    ensures r.Some? ==> r.value.coords == Vertices(g) && |r.value.coords| >= 2
  {
    var v := Vertices(g);
    if |v| >= 2 then Some(LineString(v)) else None
  }

  /** A polyline exists exactly when the points are at two or more distinct locations. */
  lemma {:induction false} ToShapelyDefined(g: ReachGeometry)
    ensures ToShapely(g).Some? <==>
      exists i, j :: 0 <= i < j < |g.points| && LocationOf(g.points[i]) != LocationOf(g.points[j])
  {
    var ls := LocationsOf(g.points);
    var v := Vertices(g);
    FoldRunsMembers(ls);
    if |v| >= 2 {
      var i :| 0 <= i < |ls| && ls[i] == v[0];
      var j :| 0 <= j < |ls| && ls[j] == v[1];
      assert v[0] != v[1];
      if i < j {
        assert LocationOf(g.points[i]) != LocationOf(g.points[j]);
      } else {
        assert LocationOf(g.points[j]) != LocationOf(g.points[i]);
      }
    } else {
      forall i, j | 0 <= i < j < |g.points| ensures LocationOf(g.points[i]) == LocationOf(g.points[j]) {
        assert ls[i] in v && ls[j] in v;
      }
    }
  }

  // ---------------------------------------------------------------------
  // Cumulative planar distance and the chainage <-> distance conversions
  // ---------------------------------------------------------------------

  /** What a planar segment length must satisfy (Euclidean distance does):
      it is never negative and it is zero exactly between equal locations. */
  ghost predicate IsPlanarDistance(segLen: (Location, Location) -> real) {
    forall a, b :: segLen(a, b) >= 0.0 && (segLen(a, b) == 0.0 <==> a == b)
  }

  /** Length of the polyline through the given vertices. */
  function PathLength(ls: seq<Location>, segLen: (Location, Location) -> real): real
    decreases |ls|
  {
    if |ls| < 2 then 0.0 else segLen(ls[0], ls[1]) + PathLength(ls[1..], segLen)
  }

  /** Cumulative distance along the locations: entry k is the distance from
      the first location to location k. */
  function CumulativeDistances(ls: seq<Location>, segLen: (Location, Location) -> real): (d: seq<real>)
    ensures |d| == |ls|
    ensures |d| > 0 ==> d[0] == 0.0
    decreases |ls|
  {
    if |ls| == 0 then []
    else if |ls| == 1 then [0.0]
    else
      var prev := CumulativeDistances(ls[..|ls| - 1], segLen);
      prev + [prev[|ls| - 2] + segLen(ls[|ls| - 2], ls[|ls| - 1])]
  }

  /** Entry k of the prefix sums is the length of the path up to location k. */
  lemma {:induction false} CumulativeIsPathLength(ls: seq<Location>, segLen: (Location, Location) -> real, k: nat)
    requires k < |ls|
    ensures CumulativeDistances(ls, segLen)[k] == PathLength(ls[..k + 1], segLen)
    decreases |ls|
  {
    var n := |ls|;
    if n > 1 {
      var front := ls[..n - 1];
      if k < n - 1 {
        CumulativeIsPathLength(front, segLen, k);
        assert front[..k + 1] == ls[..k + 1];
      } else {
        CumulativeIsPathLength(front, segLen, n - 2);
        assert front[..n - 1] == front;
        PathLengthExtend(front, ls[n - 1], segLen);
        assert front + [ls[n - 1]] == ls[..k + 1];
      }
    }
  }

  /** Consecutive entries differ by the length of the segment between them. */
  lemma {:induction false} CumulativeStep(ls: seq<Location>, segLen: (Location, Location) -> real, k: nat)
    requires k + 1 < |ls|
    ensures CumulativeDistances(ls, segLen)[k + 1] == CumulativeDistances(ls, segLen)[k] + segLen(ls[k], ls[k + 1])
    decreases |ls|
  {
    var n := |ls|;
    if k + 2 < n {
      var front := ls[..n - 1];
      CumulativeStep(front, segLen, k);
      assert front[k] == ls[k] && front[k + 1] == ls[k + 1];
    }
  }

  lemma {:induction false} PathLengthExtend(ls: seq<Location>, x: Location, segLen: (Location, Location) -> real)
    requires |ls| > 0
    ensures PathLength(ls + [x], segLen) == PathLength(ls, segLen) + segLen(ls[|ls| - 1], x)
    decreases |ls|
  {
    if |ls| > 1 {
      assert (ls + [x])[1..] == ls[1..] + [x];
      PathLengthExtend(ls[1..], x, segLen);
    }
  }

  /** Folding repeated locations does not change the length of the path. */
  lemma {:induction false} FoldRunsKeepsPathLength(ls: seq<Location>, segLen: (Location, Location) -> real)
    requires IsPlanarDistance(segLen)
    ensures PathLength(FoldRuns(ls), segLen) == PathLength(ls, segLen)
    decreases |ls|
  {
    if |ls| > 1 {
      var t := FoldRuns(ls[1..]);
      FoldRunsKeepsPathLength(ls[1..], segLen);
      if ls[0] == ls[1] {
        assert FoldRuns(ls) == t;
        assert segLen(ls[0], ls[1]) == 0.0;
      } else {
        assert FoldRuns(ls) == [ls[0]] + t;
        assert t[0] == ls[1];
        assert ([ls[0]] + t)[1..] == t;
        assert PathLength([ls[0]] + t, segLen) == segLen(ls[0], t[0]) + PathLength(t, segLen);
      }
    }
  }

  function Distances(g: ReachGeometry, segLen: (Location, Location) -> real): (d: seq<real>)
    ensures |d| == |g.points|
  {
    CumulativeDistances(LocationsOf(g.points), segLen)
  }

  /** Total geometric length of the reach. */
  function TotalDistance(g: ReachGeometry, segLen: (Location, Location) -> real): real {
    PathLength(LocationsOf(g.points), segLen)
  }

  /** The last cumulative distance is the length of the polyline. */
  lemma {:induction false} TotalDistanceIsPolylineLength(g: ReachGeometry, segLen: (Location, Location) -> real)
    requires IsPlanarDistance(segLen) && |g.points| > 0
    ensures Distances(g, segLen)[|g.points| - 1] == TotalDistance(g, segLen)
    ensures TotalDistance(g, segLen) == PathLength(Vertices(g), segLen)
  {
    var ls := LocationsOf(g.points);
    CumulativeIsPathLength(ls, segLen, |ls| - 1);
    assert ls[..|ls|] == ls;
    FoldRunsKeepsPathLength(ls, segLen);
  }

  /** Consecutive points with equal chainage lie at the same planar location. */
  predicate EqualChainageSameLocation(s: seq<ReachPoint>) {
    forall i, j :: 0 <= i && j == i + 1 < |s| && s[i].chainage == s[j].chainage ==> LocationOf(s[i]) == LocationOf(s[j])
  }

  /** Consecutive points with different chainage lie at different planar locations. */
  predicate DistinctChainageDistinctLocation(s: seq<ReachPoint>) {
    forall i, j :: 0 <= i && j == i + 1 < |s| && s[i].chainage != s[j].chainage ==> LocationOf(s[i]) != LocationOf(s[j])
  }

  /** `chainage_to_geometric_distance`: interpolates the (chainage, distance)
      table. The first point's chainage maps to distance 0, and on an
      ascending table every chainage maps into [0, total distance]. */
  function ChainageToDistance(g: ReachGeometry, segLen: (Location, Location) -> real, chainage: real): (r: real)
    requires |g.points| > 0
    requires g.points[0].chainage <= chainage <= g.points[|g.points| - 1].chainage
    ensures chainage == g.points[0].chainage ==> r == 0.0
    ensures Ascending(ChainagesOf(g.points), Distances(g, segLen)) ==>
      0.0 <= r <= Distances(g, segLen)[|g.points| - 1]
  {
    Interp(ChainagesOf(g.points), Distances(g, segLen), chainage)
  }

  /** `chainage_from_geometric_distance`: interpolates the table the other way.
      Distance 0 maps to the first point's chainage, and on an ascending
      table every distance maps into the chainage span. */
  function ChainageFromDistance(g: ReachGeometry, segLen: (Location, Location) -> real, distance: real): (r: real)
    requires |g.points| > 0
    requires 0.0 <= distance <= Distances(g, segLen)[|g.points| - 1]
    ensures distance == 0.0 ==> r == g.points[0].chainage
    ensures Ascending(Distances(g, segLen), ChainagesOf(g.points)) ==>
      g.points[0].chainage <= r <= g.points[|g.points| - 1].chainage
  {
    Interp(Distances(g, segLen), ChainagesOf(g.points), distance)
  }

  /** With a planar segment length the cumulative distances never decrease. */
  lemma {:induction false} CumulativeNondecreasing(ls: seq<Location>, segLen: (Location, Location) -> real)
    requires IsPlanarDistance(segLen)
    ensures Nondecreasing(CumulativeDistances(ls, segLen))
    decreases |ls|
  {
    var d := CumulativeDistances(ls, segLen);
    if |ls| > 1 {
      var front := ls[..|ls| - 1];
      CumulativeNondecreasing(front, segLen);
      var prev := CumulativeDistances(front, segLen);
      assert d == prev + [prev[|ls| - 2] + segLen(ls[|ls| - 2], ls[|ls| - 1])];
      assert segLen(ls[|ls| - 2], ls[|ls| - 1]) >= 0.0;
      forall i, j | 0 <= i < j < |d| ensures d[i] <= d[j] {
        if j == |d| - 1 {
          assert d[i] == prev[i] <= prev[|ls| - 2];
        } else {
          assert d[i] == prev[i] && d[j] == prev[j];
        }
      }
    }
  }

  /** Distances between points i < j: nondecreasing, equal when the chainages
      are and equal chainage means same location, and strictly increasing
      when the chainages differ and different chainage means different location. */
  lemma {:induction false} DistancesStep(g: ReachGeometry, segLen: (Location, Location) -> real, i: nat, j: nat)
    requires Valid(g) && IsPlanarDistance(segLen)
    requires i <= j < |g.points|
    ensures Distances(g, segLen)[i] <= Distances(g, segLen)[j]
    ensures EqualChainageSameLocation(g.points) && g.points[i].chainage == g.points[j].chainage ==>
      Distances(g, segLen)[i] == Distances(g, segLen)[j]
    ensures DistinctChainageDistinctLocation(g.points) && g.points[i].chainage != g.points[j].chainage ==>
      Distances(g, segLen)[i] < Distances(g, segLen)[j]
    decreases j - i
  {
    if i < j {
      var p := g.points;
      assert p[i].chainage <= p[i + 1].chainage <= p[j].chainage by {
        SortedChainagesAscend(p);
      }
      DistancesStep(g, segLen, i + 1, j);
      var ls := LocationsOf(p);
      var d := Distances(g, segLen);
      assert d[i + 1] == d[i] + segLen(ls[i], ls[i + 1]) by {
        CumulativeStep(ls, segLen, i);
      }
      if p[i].chainage == p[i + 1].chainage {
        if EqualChainageSameLocation(p) {
          assert ls[i] == ls[i + 1];
        }
      } else if DistinctChainageDistinctLocation(p) {
        assert ls[i] != ls[i + 1];
      }
    }
  }

  /** The (chainage, distance) table is ascending; it is monotone when equal
      chainage means same location, and aligned when moreover different
      chainage means different location. */
  lemma {:induction false} TableMonotone(g: ReachGeometry, segLen: (Location, Location) -> real)
    requires Valid(g) && IsPlanarDistance(segLen)
    ensures Ascending(ChainagesOf(g.points), Distances(g, segLen))
    ensures EqualChainageSameLocation(g.points) ==> Monotone(ChainagesOf(g.points), Distances(g, segLen))
    ensures EqualChainageSameLocation(g.points) && DistinctChainageDistinctLocation(g.points) ==>
      Aligned(ChainagesOf(g.points), Distances(g, segLen))
  {
    SortedChainagesAscend(g.points);
    forall i, j | 0 <= i < j < |g.points|
      ensures Distances(g, segLen)[i] <= Distances(g, segLen)[j]
      ensures EqualChainageSameLocation(g.points) && g.points[i].chainage == g.points[j].chainage ==>
        Distances(g, segLen)[i] == Distances(g, segLen)[j]
      ensures DistinctChainageDistinctLocation(g.points) && g.points[i].chainage != g.points[j].chainage ==>
        Distances(g, segLen)[i] < Distances(g, segLen)[j]
    {
      DistancesStep(g, segLen, i, j);
    }
  }

  /** Between two consecutive points of different chainage, distance grows
      linearly with chainage from one point's distance to the next one's. */
  lemma {:induction false} ChainageToDistanceOnSegment(g: ReachGeometry, segLen: (Location, Location) -> real, i: nat, c: real)
    requires Valid(g) && i + 1 < |g.points|
    requires g.points[i].chainage < c <= g.points[i + 1].chainage
    ensures g.points[0].chainage <= c <= g.points[|g.points| - 1].chainage
    ensures ChainageToDistance(g, segLen, c) ==
      Lerp(g.points[i].chainage, g.points[i + 1].chainage, Distances(g, segLen)[i], Distances(g, segLen)[i + 1], c)
  {
    var cs := ChainagesOf(g.points);
    assert Nondecreasing(cs) by {
      SortedChainagesAscend(g.points);
    }
    InterpOnSegment(cs, Distances(g, segLen), i, c);
  }

  /** Between two consecutive points at different distances, chainage grows
      linearly with distance from one point's chainage to the next one's. */
  lemma {:induction false} ChainageFromDistanceOnSegment(g: ReachGeometry, segLen: (Location, Location) -> real, i: nat, d: real)
    requires IsPlanarDistance(segLen) && i + 1 < |g.points|
    requires Distances(g, segLen)[i] < d <= Distances(g, segLen)[i + 1]
    ensures 0.0 <= d <= Distances(g, segLen)[|g.points| - 1]
    ensures ChainageFromDistance(g, segLen, d) ==
      Lerp(Distances(g, segLen)[i], Distances(g, segLen)[i + 1], g.points[i].chainage, g.points[i + 1].chainage, d)
  {
    var ds := Distances(g, segLen);
    CumulativeNondecreasing(LocationsOf(g.points), segLen);
    InterpOnSegment(ds, ChainagesOf(g.points), i, d);
  }

  /** At a point's chainage the distance is the cumulative distance up to that point;
      the first point is at distance 0. */
  lemma {:induction false} DistanceAtPoint(g: ReachGeometry, segLen: (Location, Location) -> real, k: nat)
    requires Valid(g) && IsPlanarDistance(segLen) && EqualChainageSameLocation(g.points)
    requires k < |g.points|
    ensures g.points[0].chainage <= g.points[k].chainage <= g.points[|g.points| - 1].chainage
    ensures ChainageToDistance(g, segLen, g.points[k].chainage) == Distances(g, segLen)[k]
    ensures ChainageToDistance(g, segLen, g.points[0].chainage) == 0.0
  {
    TableMonotone(g, segLen);
    InterpAtNode(ChainagesOf(g.points), Distances(g, segLen), k);
    InterpAtNode(ChainagesOf(g.points), Distances(g, segLen), 0);
  }

  /** Given a point's cumulative distance, the inverse conversion returns that point's chainage. */
  lemma {:induction false} ChainageAtPoint(g: ReachGeometry, segLen: (Location, Location) -> real, k: nat)
    requires Valid(g) && IsPlanarDistance(segLen) && k < |g.points|
    requires EqualChainageSameLocation(g.points) && DistinctChainageDistinctLocation(g.points)
    ensures 0.0 <= Distances(g, segLen)[k] <= Distances(g, segLen)[|g.points| - 1]
    ensures ChainageFromDistance(g, segLen, Distances(g, segLen)[k]) == g.points[k].chainage
  {
    TableMonotone(g, segLen);
    var d := Distances(g, segLen);
    var cs := ChainagesOf(g.points);
    assert Monotone(d, cs);
    InterpAtNode(d, cs, k);
  }

  /** A larger chainage never maps to a smaller distance. */
  lemma {:induction false} ChainageToDistanceMonotone(g: ReachGeometry, segLen: (Location, Location) -> real, c1: real, c2: real)
    requires Valid(g) && IsPlanarDistance(segLen) && |g.points| > 0
    requires g.points[0].chainage <= c1 <= c2 <= g.points[|g.points| - 1].chainage
    ensures ChainageToDistance(g, segLen, c1) <= ChainageToDistance(g, segLen, c2)
  {
    TableMonotone(g, segLen);
    InterpMonotone(ChainagesOf(g.points), Distances(g, segLen), c1, c2);
  }

  /** The two conversions are inverse to each other over the whole reach. */
  lemma {:induction false} ConversionsRoundTrip(g: ReachGeometry, segLen: (Location, Location) -> real, c: real, d: real)
    requires Valid(g) && IsPlanarDistance(segLen) && |g.points| > 0
    requires EqualChainageSameLocation(g.points) && DistinctChainageDistinctLocation(g.points)
    ensures g.points[0].chainage <= c <= g.points[|g.points| - 1].chainage ==>
      && 0.0 <= ChainageToDistance(g, segLen, c) <= Distances(g, segLen)[|g.points| - 1]
      && ChainageFromDistance(g, segLen, ChainageToDistance(g, segLen, c)) == c
    ensures 0.0 <= d <= Distances(g, segLen)[|g.points| - 1] ==>
      && g.points[0].chainage <= ChainageFromDistance(g, segLen, d) <= g.points[|g.points| - 1].chainage
      && ChainageToDistance(g, segLen, ChainageFromDistance(g, segLen, d)) == d
  {
    TableMonotone(g, segLen);
    var cs := ChainagesOf(g.points);
    var ds := Distances(g, segLen);
    assert Aligned(ds, cs);
    if cs[0] <= c <= cs[|cs| - 1] {
      InterpRoundTrip(cs, ds, c);
    }
    if ds[0] <= d <= ds[|ds| - 1] {
      InterpRoundTrip(ds, cs, d);
    }
  }
}
