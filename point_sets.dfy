/**
  `list(set(points))` on reach points: points are hashed and compared by
  chainage and coordinates, so a set holds one point per group of equal
  points. Building a set adds the points in order and does not replace an
  element by an equal one added later, so each group is represented by the
  point of it met first.
*/
module PointSets {
  import opened ReachPoints

  /** The points of `s` that are not equal to a point with key `k`, in order. */
  function Without(s: seq<ReachPoint>, k: Key): (r: seq<ReachPoint>)
    ensures |r| <= |s|
    ensures forall i :: 0 <= i < |r| ==> r[i] in s && KeyOf(r[i]) != k
    ensures forall i :: 0 <= i < |s| && KeyOf(s[i]) != k ==> s[i] in r
  {
    if s == [] then []
    else if KeyOf(s[0]) == k then Without(s[1..], k)
    else [s[0]] + Without(s[1..], k)
  }

  /** One representative per group of equal points, the first one met. */
  function Unique(s: seq<ReachPoint>): (r: seq<ReachPoint>)
    ensures |r| <= |s|
    ensures |s| > 0 ==> |r| > 0 && r[0] == s[0]
    decreases |s|
  {
    if s == [] then [] else [s[0]] + Unique(Without(s[1..], KeyOf(s[0])))
  }

  /** Deduplication keeps exactly one point of every group: no two kept
      points are equal, every kept point comes from the input, and every
      input point is equal to a kept one. */
  lemma UniqueGroups(s: seq<ReachPoint>)
    ensures forall i, j :: 0 <= i < j < |Unique(s)| ==> !Same(Unique(s)[i], Unique(s)[j])
    ensures forall q :: q in Unique(s) ==> q in s
    ensures forall p :: p in s ==> exists q :: q in Unique(s) && Same(p, q)
  {
    UniqueFromInput(s);
    UniqueDistinct(s);
    UniqueCovers(s);
  }

  lemma {:induction false} UniqueFromInput(s: seq<ReachPoint>)
    ensures forall q :: q in Unique(s) ==> q in s
    decreases |s|
  {
    if s != [] {
      var w := Without(s[1..], KeyOf(s[0]));
      UniqueFromInput(w);
      forall q | q in Unique(s) ensures q in s {
        if q != s[0] {
          assert q in Unique(w);
          var m :| 0 <= m < |w| && w[m] == q;
        }
      }
    }
  }

  lemma {:induction false} UniqueDistinct(s: seq<ReachPoint>)
    ensures forall i, j :: 0 <= i < j < |Unique(s)| ==> !Same(Unique(s)[i], Unique(s)[j])
    decreases |s|
  {
    if s != [] {
      var k := KeyOf(s[0]);
      var w := Without(s[1..], k);
      var u := Unique(w);
      var r := Unique(s);
      UniqueDistinct(w);
      UniqueFromInput(w);
      assert r == [s[0]] + u;
      forall i, j | 0 <= i < j < |r| ensures !Same(r[i], r[j]) {
        assert r[j] == u[j - 1];
        if i > 0 {
          assert r[i] == u[i - 1];
        } else {
          assert u[j - 1] in w;
          var m :| 0 <= m < |w| && w[m] == u[j - 1];
        }
      }
    }
  }

  lemma {:induction false} UniqueCovers(s: seq<ReachPoint>)
    ensures forall p :: p in s ==> exists q :: q in Unique(s) && Same(p, q)
    decreases |s|
  {
    if s != [] {
      var k := KeyOf(s[0]);
      var w := Without(s[1..], k);
      var u := Unique(w);
      UniqueCovers(w);
      assert Unique(s) == [s[0]] + u;
      forall p | p in s ensures exists q :: q in Unique(s) && Same(p, q) {
        if KeyOf(p) == k {
          assert Same(p, s[0]) && s[0] in Unique(s);
        } else {
          var i :| 0 <= i < |s| && s[i] == p;
          assert i > 0 && s[1..][i - 1] == p;
          assert p in w;
          var q :| q in u && Same(p, q);
          assert q in Unique(s);
        }
      }
    }
  }
}
