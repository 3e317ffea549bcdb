/** Sizes of finite sets. */
module Sets {
  lemma {:induction false} SubsetSize<T>(small: set<T>, large: set<T>)
    requires small <= large
    ensures |small| <= |large|
  {
    if small != {} {
      var x :| x in small;
      SubsetSize(small - {x}, large - {x});
    }
  }

  /** A sequence without repetition is no longer than a set it is taken from. */
  lemma {:induction false} DistinctBound<T>(xs: seq<T>, bound: set<T>)
    requires forall i, j :: 0 <= i < j < |xs| ==> xs[i] != xs[j]
    requires forall i :: 0 <= i < |xs| ==> xs[i] in bound
    ensures |xs| <= |bound|
  {
    if xs != [] {
      DistinctBound(xs[..|xs| - 1], bound - {xs[|xs| - 1]});
    }
  }
}
