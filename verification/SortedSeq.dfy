/** The ascending account lists kept by the pool pallet (participants of a pool, voters of a
    request), and the binary search that locates an account or its insertion point. */
module SortedSeq {

  ghost predicate StrictlySorted(s: seq<nat>) {
    forall i, j :: 0 <= i < j < |s| ==> s[i] < s[j]
  }

  /** An element below a whole ascending list may be put in front of it. */
  lemma SortedCons(x: nat, s: seq<nat>)
    requires StrictlySorted(s)
    requires forall y :: y in s ==> x < y
    ensures StrictlySorted([x] + s)
  {
    forall i, j | 0 <= i < j < |[x] + s| ensures ([x] + s)[i] < ([x] + s)[j] {
      assert s[j - 1] in s;
    }
  }

  /** The list with `x` put in front of the first larger element. */
  function Insert(s: seq<nat>, x: nat): (r: seq<nat>)
    ensures |r| == |s| + 1
    ensures forall y :: y in r <==> y == x || y in s
    ensures StrictlySorted(s) && x !in s ==> StrictlySorted(r)
  {
    if s == [] || x < s[0] then [x] + s
    else
      var rest := Insert(s[1..], x);
      assert StrictlySorted(s) && x !in s ==> StrictlySorted([s[0]] + rest) by {
        if StrictlySorted(s) && x !in s { SortedCons(s[0], rest); }
      }
      [s[0]] + rest
  }

  /** The list without the first occurrence of `x`. */
  function Remove(s: seq<nat>, x: nat): (r: seq<nat>)
    ensures |r| == if x in s then |s| - 1 else |s|
    ensures forall y :: y in r ==> y in s
    ensures forall y :: y in s && y != x ==> y in r
    ensures StrictlySorted(s) ==> StrictlySorted(r) && x !in r
  {
    if s == [] then []
    else if s[0] == x then s[1..]
    else
      var rest := Remove(s[1..], x);
      assert StrictlySorted(s) ==> StrictlySorted([s[0]] + rest) by {
        if StrictlySorted(s) { SortedCons(s[0], rest); }
      }
      [s[0]] + rest
  }

  /** Inserting at the position a binary search reports is inserting in order. */
  lemma {:induction false} InsertAtIndex(s: seq<nat>, i: nat, x: nat)
    requires i <= |s|
    requires forall k :: 0 <= k < i ==> s[k] < x
    requires forall k :: i <= k < |s| ==> x < s[k]
    ensures s[..i] + [x] + s[i..] == Insert(s, x)
  {
    if i > 0 {
      InsertAtIndex(s[1..], i - 1, x);
      assert s[..i] == [s[0]] + s[1..][..i - 1];
    }
  }

  /** Removing the position a binary search reports is removing the element. */
  lemma {:induction false} RemoveAtIndex(s: seq<nat>, i: nat)
    requires StrictlySorted(s)
    requires i < |s|
    ensures s[..i] + s[i + 1..] == Remove(s, s[i])
  {
    if i > 0 {
      var rest := s[1..];
      RemoveAtIndex(rest, i - 1);
      assert s[0] != s[i] == rest[i - 1];
      assert s[..i] + s[i + 1..] == [s[0]] + (rest[..i - 1] + rest[i..]);
    }
  }

  ghost function Elements(s: seq<nat>): set<nat> {
    set x | x in s
  }

  /** A strictly ascending list has as many entries as elements. */
  lemma {:induction false} SortedLength(s: seq<nat>)
    requires StrictlySorted(s)
    ensures |s| == |Elements(s)|
  {
    if s != [] {
      SortedLength(s[1..]);
      assert s[0] !in Elements(s[1..]);
      assert Elements(s) == Elements(s[1..]) + {s[0]};
    }
  }

  datatype Position = Found(index: nat) | Missing(index: nat)

  /** The slice binary search of the standard library, on an ascending list. */
  method BinarySearch(s: seq<nat>, x: nat) returns (p: Position)
    requires StrictlySorted(s)
    ensures p.Found? <==> x in s
    ensures p.Found? ==> p.index < |s| && s[p.index] == x
    ensures p.Missing? ==> p.index <= |s|
    ensures p.Missing? ==> forall k :: 0 <= k < p.index ==> s[k] < x
    ensures p.Missing? ==> forall k :: p.index <= k < |s| ==> x < s[k]
  {
    var lo, hi := 0, |s|;
    while lo < hi
      invariant 0 <= lo <= hi <= |s|
      invariant forall k :: 0 <= k < lo ==> s[k] < x
      invariant forall k :: hi <= k < |s| ==> x < s[k]
    {
      var mid := (lo + hi) / 2;
      if s[mid] == x {
        return Found(mid);
      } else if s[mid] < x {
        lo := mid + 1;
      } else {
        hi := mid;
      }
    }
    return Missing(lo);
  }
}
