/** Lists without repetition, and the sets of their elements. */
module Lists {

  function Min(a: int, b: int): int { if a < b then a else b }

  function Max(a: int, b: int): int { if a > b then a else b }

  predicate Distinct<T(==)>(s: seq<T>) { forall i, j :: 0 <= i < j < |s| ==> s[i] != s[j] }

  function AsSet<T>(s: seq<T>): set<T> { set i | 0 <= i < |s| :: s[i] }

  /** A list without repetition is as long as its set is large. */
  lemma {:induction false} DistinctCount<T>(s: seq<T>)
    requires Distinct(s)
    ensures |AsSet(s)| == |s|
  {
    if s == [] {
    } else {
      var n := |s| - 1;
      DistinctCount(s[..n]);
      assert AsSet(s) == AsSet(s[..n]) + {s[n]};
      assert s[n] !in AsSet(s[..n]);
    }
  }

  /** Fewer than |s| elements rank above one that s lists, if s lists all of them. */
  lemma ListedHasFewer<T>(s: seq<T>, k: T, above: set<T>)
    requires Distinct(s) && k in s && above <= AsSet(s) - {k}
    ensures |above| < |s|
  {
    var i :| 0 <= i < |s| && s[i] == k;
    DistinctCount(s);
    SubsetCount(above, AsSet(s) - {k});
  }

  /** At least |s| elements rank above one that s leaves out, if all that s lists do. */
  lemma UnlistedHasMany<T>(s: seq<T>, keys: set<T>, k: T, above: set<T>)
    requires Distinct(s) && k in keys && k !in s && AsSet(s) <= keys && AsSet(s) <= above
    ensures |s| < |keys| && |s| <= |above|
  {
    DistinctCount(s);
    SubsetCount(AsSet(s) + {k}, keys);
    SubsetCount(AsSet(s), above);
  }

  lemma SubsetCount<T>(a: set<T>, b: set<T>)
    requires a <= b
    ensures |a| <= |b| && (|a| == |b| ==> a == b)
  {
    assert b == a + (b - a);
  }
}
