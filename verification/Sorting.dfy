/** The library sort: a sorted permutation and no more, since Go's sort is not stable. */
module Sorting {
  import opened Words
  import opened Lex

  predicate SortedBy<T>(key: T -> Bytes, s: seq<T>) {
    forall i :: 0 < i < |s| ==> !LexLess(key(s[i]), key(s[i - 1]))
  }

  lemma {:induction false} PlacedSorted<T>(key: T -> Bytes, r: seq<T>, k: nat, x: T, s: seq<T>)
    requires SortedBy(key, r) && k <= |r| && s == r[..k] + [x] + r[k..]
    requires k > 0 ==> !LexLess(key(x), key(r[k - 1]))
    requires k < |r| ==> !LexLess(key(r[k]), key(x))
    ensures SortedBy(key, s)
  {
    forall i | 0 < i < |s|
      ensures !LexLess(key(s[i]), key(s[i - 1]))
    {
      if i < k {
        assert s[i] == r[i] && s[i - 1] == r[i - 1];
      } else if i == k {
        assert s[i] == x && s[i - 1] == r[k - 1];
      } else if i == k + 1 {
        assert s[i] == r[k] && s[i - 1] == x;
      } else {
        assert s[i] == r[i - 1] && s[i - 1] == r[i - 2];
      }
    }
  }

  lemma {:induction false} PlacedContents<T>(r: seq<T>, k: nat, x: T, s: seq<T>)
    requires k <= |r| && s == r[..k] + [x] + r[k..]
    ensures multiset(s) == multiset(r) + multiset{x}
  {
    assert r == r[..k] + r[k..];
  }

  /** Where an element goes in a sorted list. */
  method Place<T>(key: T -> Bytes, r: seq<T>, x: T) returns (k: nat)
    ensures k <= |r|
    ensures k > 0 ==> !LexLess(key(x), key(r[k - 1]))
    ensures k < |r| ==> !LexLess(key(r[k]), key(x))
  {
    k := 0;
    while k < |r| && !LexLess(key(x), key(r[k]))
      invariant k <= |r|
      invariant k > 0 ==> !LexLess(key(x), key(r[k - 1]))
    {
      k := k + 1;
    }
    if k < |r| {
      LexAsymmetric(key(x), key(r[k]));
    }
  }

  method SortBy<T>(key: T -> Bytes, xs: seq<T>) returns (r: seq<T>)
    ensures SortedBy(key, r) && multiset(r) == multiset(xs)
  {
    r := [];
    for i := 0 to |xs|
      invariant SortedBy(key, r) && multiset(r) == multiset(xs[..i])
    {
      var k := Place(key, r, xs[i]);
      var s := r[..k] + [xs[i]] + r[k..];
      PlacedSorted(key, r, k, xs[i], s);
      PlacedContents(r, k, xs[i], s);
      assert xs[..i + 1] == xs[..i] + [xs[i]];
      r := s;
    }
    assert xs[..|xs|] == xs;
  }

  /** Taking one element out of the middle. */
  lemma {:induction false} TakeOutLeaves<T>(s: seq<T>, k: nat)
    requires k < |s|
    ensures multiset(s[..k] + s[k + 1..]) == multiset(s) - multiset{s[k]}
    ensures s[k] in multiset(s)
  {
    assert s == s[..k] + [s[k]] + s[k + 1..];
  }
}
