// Small facts about sequences that several modules share.
module Sequences {

  function Front<T>(s: seq<T>): seq<T>
    requires s != []
  {
    s[..|s| - 1]
  }

  function Last<T>(s: seq<T>): T
    requires s != []
  {
    s[|s| - 1]
  }

  ghost predicate Distinct<T>(s: seq<T>) {
    forall i, k :: 0 <= i < k < |s| ==> s[i] != s[k]
  }

  function Elements<T>(s: seq<T>): set<T> {
    set x | x in s
  }

  // Distinct elements number as many as their positions.
  lemma {:induction false} SizeOfDistinct<T>(s: seq<T>)
    requires Distinct(s)
    ensures |Elements(s)| == |s|
  {
    if s != [] {
      var front := Front(s);
      SizeOfDistinct(front);
      assert forall x :: x in s <==> x in front || x == Last(s);
      assert Elements(s) == Elements(front) + {Last(s)};
    }
  }

  function Without<T>(s: seq<T>, i: nat): seq<T>
    requires i < |s|
  {
    s[..i] + s[i + 1..]
  }

  lemma MultisetWithout<T>(s: seq<T>, i: nat)
    requires i < |s|
    ensures multiset(Without(s, i)) == multiset(s) - multiset{s[i]}
  {
    assert multiset(s) == multiset(Without(s, i)) + multiset{s[i]} by {
      assert s == s[..i] + [s[i]] + s[i + 1..];
    }
  }

  lemma SliceInside<T>(s: seq<T>, n: nat, from: nat, to: nat)
    requires from <= to <= n <= |s|
    ensures s[..n][from..to] == s[from..to]
  {
  }

  // Of two listings of the same elements, one element can be taken out of both.
  lemma TakeOut<T>(a: seq<T>, i: nat, b: seq<T>) returns (k: nat)
    requires i < |a| && multiset(a) == multiset(b)
    ensures k < |b| && b[k] == a[i] && multiset(Without(b, k)) == multiset(Without(a, i))
  {
    assert a[i] in multiset(b);
    k :| 0 <= k < |b| && b[k] == a[i];
    MultisetWithout(a, i);
    MultisetWithout(b, k);
  }

  lemma ListedTwice<T>(s: seq<T>, i: nat, k: nat)
    requires i < |s| && k < |s| && i != k && s[i] == s[k]
    ensures multiset(s)[s[i]] >= 2
  {
    var lo, hi := if i < k then i else k, if i < k then k else i;
    assert s == s[..hi] + [s[hi]] + s[hi + 1..];
    assert s[lo] in s[..hi];
    assert multiset(s[..hi])[s[lo]] >= 1;
  }
}
