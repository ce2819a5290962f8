/** Three-way comparisons: negative, zero or positive results, and the laws that make them an order. */
module Ordering {

  /** A comparison that a second one refines. */
  function Then(first: int, second: int): int {
    if first != 0 then first else second
  }

  /** Three pairwise comparisons that an order could have given. */
  predicate Chains(xy: int, yz: int, xz: int) {
    xy <= 0 && yz <= 0 ==> xz <= 0 && (xz == 0 <==> xy == 0 && yz == 0)
  }

  lemma ThenChains(xy: int, yz: int, xz: int, xy': int, yz': int, xz': int)
    requires Chains(xy, yz, xz) && Chains(xy', yz', xz')
    ensures Chains(Then(xy, xy'), Then(yz, yz'), Then(xz, xz'))
  {}

  predicate Pairwise<T>(s: seq<T>, r: (T, T) -> bool) {
    forall i, j :: 0 <= i < j < |s| ==> r(s[i], s[j])
  }

  lemma PairwiseInsert<T>(t: seq<T>, i: nat, e: T, r: (T, T) -> bool)
    requires i <= |t| && Pairwise(t, r)
    requires forall k :: 0 <= k < i ==> r(t[k], e)
    requires forall k :: i <= k < |t| ==> r(e, t[k])
    ensures Pairwise(t[..i] + [e] + t[i..], r)
  {
    var u := t[..i] + [e] + t[i..];
    forall k, l | 0 <= k < l < |u| ensures r(u[k], u[l]) {
      assert u[k] == if k < i then t[k] else if k == i then e else t[k - 1];
      assert u[l] == if l < i then t[l] else if l == i then e else t[l - 1];
    }
  }
}
