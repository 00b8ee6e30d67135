/** Counting the identities handed out so far. */
module Counting {

  lemma {:induction false} IdsCount(n: nat, s: set<nat>)
    requires forall p: nat :: p in s <==> p < n
    ensures |s| == n
  {
    if n == 0 {
      assert s == {};
    } else {
      IdsCount(n - 1, s - {n - 1});
    }
  }
}
