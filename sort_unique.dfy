/**
 * The sort-and-deduplicate helper used by the adjacency builder
 * (sort_unique_with_perm of the QMT utilities): it returns the sorted,
 * duplicate-free values of its input together with, for every input
 * position, the index of that position's value among the unique values.
 */
module SortUnique {
  import opened QmtTypes

  /** The first index of a strictly sorted sequence whose element is not below x. */
  method LowerBound(s: seq<Id2>, x: Id2) returns (k: nat)
    requires StrictlySorted(s)
    ensures k <= |s|
    ensures forall a :: 0 <= a < k ==> Less(s[a], x)
    ensures forall a :: k <= a < |s| ==> !Less(s[a], x)
  {
    k := 0;
    while k < |s| && Less(s[k], x)
      invariant k <= |s|
      invariant forall a :: 0 <= a < k ==> Less(s[a], x)
    {
      k := k + 1;
    }
  }

  /** Inserting x at its lower bound keeps a strictly sorted sequence strictly sorted when x is new. */
  lemma InsertKeepsSorted(s: seq<Id2>, k: nat, x: Id2)
    requires StrictlySorted(s) && k <= |s|
    requires forall a :: 0 <= a < k ==> Less(s[a], x)
    requires forall a :: k <= a < |s| ==> !Less(s[a], x)
    requires k == |s| || s[k] != x
    ensures StrictlySorted(s[..k] + [x] + s[k..])
    ensures forall y :: y in s[..k] + [x] + s[k..] <==> y in s || y == x
  {
    var next := s[..k] + [x] + s[k..];
    assert forall a :: 0 <= a < |next| ==> next[a] == (if a < k then s[a] else if a == k then x else s[a - 1]);
    assert forall a :: k <= a < |s| ==> Less(x, s[a]);
    assert forall y :: y in s <==> y in s[..k] || y in s[k..] by {
      assert s == s[..k] + s[k..];
    }
  }

  /**
   * Sort and deduplicate `values`. The unique values come out strictly
   * increasing, each of them occurs in the input, and `old2new[p]` is the
   * index of `values[p]` among them. The count returned is their number.
   */
  method SortUniqueWithPerm(values: seq<Id2>) returns (nbUniques: nat, uniques: seq<Id2>, old2new: seq<nat>)
    ensures nbUniques == |uniques|
    ensures StrictlySorted(uniques)
    ensures forall u :: 0 <= u < |uniques| ==> uniques[u] in values
    ensures |old2new| == |values|
    ensures forall p :: 0 <= p < |values| ==> old2new[p] < |uniques| && uniques[old2new[p]] == values[p]
  {
    uniques := [];
    var i := 0;
    while i < |values|
      invariant i <= |values|
      invariant StrictlySorted(uniques)
      invariant forall u :: 0 <= u < |uniques| ==> uniques[u] in values[..i]
      invariant forall p :: 0 <= p < i ==> values[p] in uniques
    {
      var x := values[i];
      var k := LowerBound(uniques, x);
      ghost var before := uniques;
      if k == |uniques| || uniques[k] != x {
        InsertKeepsSorted(uniques, k, x);
        uniques := uniques[..k] + [x] + uniques[k..];
      }
      assert forall y :: y in uniques <==> y in before || y == x;
      assert values[..i + 1] == values[..i] + [x];
      i := i + 1;
    }
    assert values[..i] == values;
    old2new := [];
    var p := 0;
    while p < |values|
      invariant p <= |values|
      invariant |old2new| == p
      invariant forall q :: 0 <= q < p ==> old2new[q] < |uniques| && uniques[old2new[q]] == values[q]
    {
      var k := LowerBound(uniques, values[p]);
      assert values[p] in uniques;
      old2new := old2new + [k];
      p := p + 1;
    }
    nbUniques := |uniques|;
  }
}
