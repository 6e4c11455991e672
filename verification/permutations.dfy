// Listings of the first n positions, each exactly once.
module Permutations {
  import opened Sequences
  import KernelSort

  function Identity(n: nat): (s: seq<nat>)
    ensures |s| == n
  {
    seq(n, i => i)
  }

  predicate IsPermutation(order: seq<nat>, n: nat) {
    multiset(order) == multiset(Identity(n))
  }

  lemma {:induction false} CountInIdentity(n: nat, p: nat)
    ensures multiset(Identity(n))[p] == (if p < n then 1 else 0)
  {
    if n > 0 {
      CountInIdentity(n - 1, p);
      assert Identity(n) == Identity(n - 1) + [n - 1];
    } else {
      assert Identity(0) == [];
    }
  }

  // A permutation of the first n positions lists each of them once.
  lemma PermutationFacts(order: seq<nat>, n: nat)
    requires IsPermutation(order, n)
    ensures |order| == n && Distinct(order) && KernelSort.Below(order, n)
    ensures forall p :: 0 <= p < n ==> p in order
  {
    assert |order| == |multiset(order)| == |multiset(Identity(n))| == n;
    forall i | 0 <= i < n
      ensures order[i] < n
    {
      assert order[i] in multiset(order);
      CountInIdentity(n, order[i]);
    }
    forall i, k | 0 <= i < k < n
      ensures order[i] != order[k]
    {
      if order[i] == order[k] {
        ListedTwice(order, i, k);
        CountInIdentity(n, order[i]);
      }
    }
    forall p | 0 <= p < n
      ensures p in order
    {
      CountInIdentity(n, p);
      assert p in multiset(order);
    }
  }

  lemma PositionOf(order: seq<nat>, n: nat, p: nat) returns (i: nat)
    requires IsPermutation(order, n) && p < n
    ensures i < |order| && order[i] == p
  {
    PermutationFacts(order, n);
    assert p in order;
    i :| 0 <= i < |order| && order[i] == p;
  }

  lemma IdentityIsPermutation(order: seq<nat>, n: nat)
    requires order == Identity(n)
    ensures IsPermutation(order, n)
  {
  }

  lemma OnlyOnce(order: seq<nat>, i: nat, k: nat)
    requires Distinct(order) && i < |order| && k < |order| && order[i] == order[k]
    ensures i == k
  {
  }
}
