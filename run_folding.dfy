/**
  Folding runs of equal consecutive elements into one element. The reach
  geometry uses it twice: for the distinct chainages of a sorted point list
  and for the vertices of the polyline (consecutive points at the same
  planar location become one vertex).
*/
module RunFolding {

  /** True when no two neighbours are equal. */
  predicate NoRepeatedNeighbours<T(==)>(s: seq<T>) {
    forall i, j :: 0 <= i && j == i + 1 < |s| ==> s[i] != s[j]
  }

  /** Collapses every run of equal consecutive elements to a single element. */
  function FoldRuns<T(==)>(s: seq<T>): (r: seq<T>)
    ensures |r| <= |s|
    ensures |r| == 0 <==> |s| == 0
    ensures |s| > 0 ==> r[0] == s[0] && r[|r| - 1] == s[|s| - 1]
    ensures NoRepeatedNeighbours(r)
  {
    if |s| <= 1 then s
    else if s[0] == s[1] then FoldRuns(s[1..])
    else [s[0]] + FoldRuns(s[1..])
  }

  /** Folding neither invents nor loses values. */
  lemma {:induction false} FoldRunsMembers<T>(s: seq<T>)
    ensures forall i :: 0 <= i < |FoldRuns(s)| ==> FoldRuns(s)[i] in s
    ensures forall i :: 0 <= i < |s| ==> s[i] in FoldRuns(s)
  {
    if |s| > 1 {
      FoldRunsMembers(s[1..]);
      assert s == [s[0]] + s[1..];
    }
  }

  /** A sequence without repeated neighbours is left as it is. */
  lemma {:induction false} FoldRunsKeepsFolded<T>(s: seq<T>)
    requires NoRepeatedNeighbours(s)
    ensures FoldRuns(s) == s
  {
    if |s| > 1 {
      var t := s[1..];
      NoRepeatedNeighboursTail(s);
      FoldRunsKeepsFolded(t);
      assert s[0] != s[1];
      calc {
        FoldRuns(s);
        [s[0]] + FoldRuns(t);
        [s[0]] + t;
        s;
      }
    }
  }

  lemma {:induction false} NoRepeatedNeighboursTail<T>(s: seq<T>)
    requires |s| > 0 && NoRepeatedNeighbours(s)
    ensures NoRepeatedNeighbours(s[1..])
  {
    var t := s[1..];
    forall i, j | 0 <= i && j == i + 1 < |t| ensures t[i] != t[j] {
      assert t[i] == s[i + 1] && t[j] == s[j + 1];
    }
  }

  /** Folding twice is folding once. */
  lemma {:induction false} FoldRunsIdempotent<T>(s: seq<T>)
    ensures FoldRuns(FoldRuns(s)) == FoldRuns(s)
  {
    FoldRunsKeepsFolded(FoldRuns(s));
  }

  /** Folding distributes over a split point where the two halves do not meet in a run. */
  lemma {:induction false} FoldRunsAppend<T>(a: seq<T>, b: seq<T>)
    requires |a| > 0 && |b| > 0 && a[|a| - 1] != b[0]
    ensures FoldRuns(a + b) == FoldRuns(a) + FoldRuns(b)
  {
    var ab := a + b;
    assert ab[0] == a[0];
    if |a| == 1 {
      assert ab[1..] == b;
      assert ab[1] == b[0];
      assert FoldRuns(ab) == [a[0]] + FoldRuns(b);
    } else {
      assert ab[1..] == a[1..] + b;
      assert ab[1] == a[1];
      FoldRunsAppend(a[1..], b);
      if a[0] != a[1] {
        assert FoldRuns(ab) == [a[0]] + (FoldRuns(a[1..]) + FoldRuns(b));
        assert FoldRuns(a) == [a[0]] + FoldRuns(a[1..]);
      }
    }
  }

  predicate Nondecreasing(s: seq<real>) {
    forall i, j :: 0 <= i < j < |s| ==> s[i] <= s[j]
  }

  predicate StrictlyIncreasing(s: seq<real>) {
    forall i, j :: 0 <= i < j < |s| ==> s[i] < s[j]
  }

  /** Folding a sorted list of numbers yields its distinct values in strictly increasing order. */
  lemma {:induction false} FoldRunsOfSorted(s: seq<real>)
    requires Nondecreasing(s)
    ensures StrictlyIncreasing(FoldRuns(s))
  {
    if |s| > 1 {
      assert Nondecreasing(s[1..]) by {
        forall i, j | 0 <= i < j < |s[1..]| ensures s[1..][i] <= s[1..][j] {
          assert s[1..][i] == s[i + 1] && s[1..][j] == s[j + 1];
        }
      }
      FoldRunsOfSorted(s[1..]);
      var t := FoldRuns(s[1..]);
      FoldRunsMembers(s[1..]);
      if s[0] != s[1] {
        forall j | 0 < j < |t| + 1
          ensures ([s[0]] + t)[0] < ([s[0]] + t)[j]
        {
          assert t[j - 1] in s[1..];
          assert s[0] <= t[j - 1];
          assert t[0] == s[1];
          assert s[0] < s[1] <= t[j - 1];
        }
      }
    }
  }
}
