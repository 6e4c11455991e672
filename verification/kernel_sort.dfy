// The kernel's sort(): all that a caller may rely on is a sorted permutation.
module KernelSort {

  // The comparator orders the positions below d.
  ghost predicate TotalPreorder(cmp: (nat, nat) --> int, d: nat) {
    && (forall a, b :: 0 <= a < d && 0 <= b < d ==> cmp.requires(a, b))
    && (forall a, b :: 0 <= a < d && 0 <= b < d ==> cmp(a, b) <= 0 || cmp(b, a) <= 0)
    && (forall a, b, c | 0 <= a < d && 0 <= b < d && 0 <= c < d
          :: cmp(a, b) <= 0 && cmp(b, c) <= 0 ==> cmp(a, c) <= 0)
  }

  predicate Below(s: seq<nat>, d: nat) {
    forall i :: 0 <= i < |s| ==> s[i] < d
  }

  ghost predicate Sorted(s: seq<nat>, cmp: (nat, nat) --> int, d: nat)
    requires TotalPreorder(cmp, d) && Below(s, d)
  {
    forall i, j :: 0 <= i < j < |s| ==> cmp(s[i], s[j]) <= 0
  }

  function Insert(x: nat, s: seq<nat>, cmp: (nat, nat) --> int, ghost d: nat): (r: seq<nat>)
    requires TotalPreorder(cmp, d) && Below(s, d) && x < d
    ensures |r| == |s| + 1 && multiset(r) == multiset(s) + multiset{x} && Below(r, d)
    ensures forall j :: 0 <= j < |r| ==> r[j] == x || r[j] in s
  {
    if s == [] then [x]
    else if cmp(x, s[0]) <= 0 then [x] + s
    else
      assert s == [s[0]] + s[1..];
      [s[0]] + Insert(x, s[1..], cmp, d)
  }

  lemma PrependKeepsSorted(x: nat, s: seq<nat>, cmp: (nat, nat) --> int, d: nat)
    requires TotalPreorder(cmp, d) && Below(s, d) && x < d && Sorted(s, cmp, d)
    requires forall j :: 0 <= j < |s| ==> cmp(x, s[j]) <= 0
    ensures Below([x] + s, d) && Sorted([x] + s, cmp, d)
  {
  }

  lemma {:induction false} InsertKeepsSorted(x: nat, s: seq<nat>, cmp: (nat, nat) --> int, d: nat)
    requires TotalPreorder(cmp, d) && Below(s, d) && x < d && Sorted(s, cmp, d)
    ensures Sorted(Insert(x, s, cmp, d), cmp, d)
  {
    if s == [] {
    } else if cmp(x, s[0]) <= 0 {
      PrependKeepsSorted(x, s, cmp, d);
    } else {
      InsertKeepsSorted(x, s[1..], cmp, d);
      PrependKeepsSorted(s[0], Insert(x, s[1..], cmp, d), cmp, d);
    }
  }

  function InsertionSort(s: seq<nat>, cmp: (nat, nat) --> int, ghost d: nat): (r: seq<nat>)
    requires TotalPreorder(cmp, d) && Below(s, d)
    ensures |r| == |s| && multiset(r) == multiset(s)
    ensures Below(r, d) && Sorted(r, cmp, d)
  {
    if s == [] then []
    else
      var rest := InsertionSort(s[1..], cmp, d);
      InsertKeepsSorted(s[0], rest, cmp, d);
      assert s == [s[0]] + s[1..];
      Insert(s[0], rest, cmp, d)
  }

  method Sort(ptr: array<nat>, n: nat, cmp: (nat, nat) --> int, ghost d: nat)
    requires n <= ptr.Length && TotalPreorder(cmp, d) && Below(ptr[..n], d)
    modifies ptr
    ensures multiset(ptr[..n]) == multiset(old(ptr[..n])) && ptr[n..] == old(ptr[n..])
    ensures Below(ptr[..n], d) && Sorted(ptr[..n], cmp, d)
  {
    hide TotalPreorder, Sorted, InsertionSort;
    var s := InsertionSort(ptr[..n], cmp, d);
    forall i | 0 <= i < n {
      ptr[i] := s[i];
    }
    assert ptr[..n] == s;
  }
}
