/**
  A point along a reach: a type tag (digitised or computational grid point),
  a chainage and three coordinates. Comparison ignores the tag.
*/
module ReachPoints {

  /** Whether a point was digitised (shape-defining) or is a grid node. */
  datatype ReachPointType = DigiPoint | GridPoint

  datatype ReachPoint = ReachPoint(kind: ReachPointType, chainage: real, x: real, y: real, z: real)

  /** The part of a point that equality and ordering look at. */
  datatype Key = Key(chainage: real, x: real, y: real, z: real)

  /** A planar location, as the polyline sees it. */
  datatype Location = Location(x: real, y: real)

  function KeyOf(p: ReachPoint): Key {
    Key(p.chainage, p.x, p.y, p.z)
  }

  function LocationOf(p: ReachPoint): Location {
    Location(p.x, p.y)
  }

  /** Point equality: chainage and coordinates, never the tag. */
  predicate Same(p: ReachPoint, q: ReachPoint) {
    KeyOf(p) == KeyOf(q)
  }

  /** Strict order on keys: by chainage, ties broken by x, then y, then z. */
  predicate KeyLess(a: Key, b: Key) {
    || a.chainage < b.chainage
    || (a.chainage == b.chainage && a.x < b.x)
    || (a.chainage == b.chainage && a.x == b.x && a.y < b.y)
    || (a.chainage == b.chainage && a.x == b.x && a.y == b.y && a.z < b.z)
  }

  predicate KeyLessEq(a: Key, b: Key) {
    KeyLess(a, b) || a == b
  }

  /** `p < q` on points. */
  predicate Less(p: ReachPoint, q: ReachPoint) {
    KeyLess(KeyOf(p), KeyOf(q))
  }

  /** `p <= q` on points. */
  predicate LessEq(p: ReachPoint, q: ReachPoint) {
    KeyLessEq(KeyOf(p), KeyOf(q))
  }

  /** Two points that agree on chainage and coordinates are equal whatever their tags. */
  lemma SameIgnoresType(p: ReachPoint, t: ReachPointType)
    ensures Same(p, p.(kind := t))
    ensures !Less(p, p.(kind := t)) && !Less(p.(kind := t), p)
  {
  }

  /** Comparison follows chainage: the point with the larger chainage is the greater one. */
  lemma OrderFollowsChainage(p: ReachPoint, q: ReachPoint)
    ensures p.chainage < q.chainage ==> Less(p, q) && !Less(q, p) && !Same(p, q)
    ensures LessEq(p, q) ==> p.chainage <= q.chainage
  {
  }

  /** The order is a strict total order consistent with equality: exactly one of
      `p < q`, `p == q`, `q < p` holds, and `<` is transitive. */
  lemma OrderIsTotal(p: ReachPoint, q: ReachPoint, r: ReachPoint)
    ensures Less(p, q) || Same(p, q) || Less(q, p)
    ensures !(Less(p, q) && Same(p, q)) && !(Less(p, q) && Less(q, p))
    ensures Less(p, q) && Less(q, r) ==> Less(p, r)
  {
  }

  lemma KeyLessEqTotal(a: Key, b: Key)
    ensures KeyLessEq(a, b) || KeyLessEq(b, a)
    ensures KeyLessEq(a, b) && KeyLessEq(b, a) ==> a == b
  {
  }

  lemma KeyLessEqTransitive(a: Key, b: Key, c: Key)
    requires KeyLessEq(a, b) && KeyLessEq(b, c)
    ensures KeyLessEq(a, c)
  {
  }
}
