/** Store keys: no name may be a prefix of another, which a scan of sorted neighbours decides. */
module StoreKeys {
  import opened Words
  import opened Lex
  import opened Sorting

  type Name = Bytes

  /** At or before in byte order. */
  predicate LexLeq(a: Bytes, b: Bytes) {
    !LexLess(b, a)
  }

  predicate Ordered(s: seq<Name>) {
    forall i :: 0 < i < |s| ==> LexLeq(s[i - 1], s[i])
  }

  /** No name at one position is a prefix of the name at another. */
  predicate PrefixFree(names: seq<Name>) {
    forall i, j :: 0 <= i < |names| && 0 <= j < |names| && i != j ==> !(names[i] <= names[j])
  }

  predicate NeighboursFree(s: seq<Name>) {
    forall i :: 0 < i < |s| ==> !(s[i - 1] <= s[i])
  }

  // ---- Prefixes and order ----

  /** A prefix is never after what it begins. */
  lemma {:induction false} PrefixIsLeq(a: Bytes, b: Bytes)
    requires a <= b
    ensures LexLeq(a, b)
    decreases |a|
  {
    if a != [] && b != [] {
      assert a[0] == b[0];
      assert b[1..][..|a| - 1] == a[1..];
      PrefixIsLeq(a[1..], b[1..]);
    }
  }

  /** What lies between a name and an extension of it is an extension too. */
  lemma {:induction false} PrefixBetween(a: Bytes, b: Bytes, c: Bytes)
    requires LexLeq(a, b) && LexLeq(b, c) && a <= c
    ensures a <= b
    decreases |a|
  {
    if a != [] {
      assert b != [] && c != [];
      assert a[0] == c[0];
      assert a[0] == b[0];
      assert c[1..][..|a| - 1] == a[1..];
      PrefixBetween(a[1..], b[1..], c[1..]);
      assert a == [a[0]] + a[1..] && b == [b[0]] + b[1..];
    }
  }

  lemma {:induction false} LeqTransitive(a: Bytes, b: Bytes, c: Bytes)
    requires LexLeq(a, b) && LexLeq(b, c)
    ensures LexLeq(a, c)
  {
    if LexLess(c, a) {
      LexTotal(a, b);
      if LexLess(a, b) {
        LexTransitive(c, a, b);
      }
    }
  }

  lemma {:induction false} OrderedPair(s: seq<Name>, i: nat, j: nat)
    requires Ordered(s) && i <= j < |s|
    ensures LexLeq(s[i], s[j])
    decreases j
  {
    if i == j {
      LexIrreflexive(s[i]);
    } else {
      OrderedPair(s, i, j - 1);
      LeqTransitive(s[i], s[j - 1], s[j]);
    }
  }

  /** In sorted order a prefix anywhere shows up between neighbours. */
  lemma {:induction false} NeighboursSuffice(s: seq<Name>)
    requires Ordered(s)
    ensures NeighboursFree(s) <==> PrefixFree(s)
  {
    if NeighboursFree(s) {
      forall i, j | 0 <= i < |s| && 0 <= j < |s| && i != j
        ensures !(s[i] <= s[j])
      {
        NeighbourBlocks(s, i, j);
      }
    }
  }

  lemma {:induction false} NeighbourBlocks(s: seq<Name>, i: nat, j: nat)
    requires Ordered(s) && NeighboursFree(s) && i < |s| && j < |s| && i != j
    ensures !(s[i] <= s[j])
  {
    if s[i] <= s[j] {
      if i < j {
        OrderedPair(s, i, i + 1);
        OrderedPair(s, i + 1, j);
        PrefixBetween(s[i], s[i + 1], s[j]);
      } else {
        PrefixIsLeq(s[i], s[j]);
        OrderedPair(s, j, i);
        LexTotal(s[i], s[j]);
        OrderedPair(s, j, j + 1);
        OrderedPair(s, j + 1, i);
        PrefixBetween(s[j], s[j + 1], s[i]);
      }
    }
  }

  // ---- The order of the names does not matter ----

  /** Prefix freedom of a bag of names; a repeated name is a prefix of its copy. */
  ghost predicate FreeBag(bag: multiset<Name>) {
    (forall x :: bag[x] <= 1) && (forall x, y :: x in bag && y in bag && x != y ==> !(x <= y))
  }

  /** A name that occurs twice occurs at two places. */
  lemma {:induction false} TwoPlaces(s: seq<Name>, x: Name) returns (i: nat, j: nat)
    requires multiset(s)[x] >= 2
    ensures i < |s| && j < |s| && i != j && s[i] == s[j] == x
  {
    assert x in multiset(s);
    i :| 0 <= i < |s| && s[i] == x;
    TakeOutLeaves(s, i);
    var rest := s[..i] + s[i + 1..];
    assert x in multiset(rest);
    var k :| 0 <= k < |rest| && rest[k] == x;
    j := if k < i then k else k + 1;
  }

  /** Two places with the same name count as two occurrences. */
  lemma {:induction false} TwoOccurrences(s: seq<Name>, i: nat, j: nat)
    requires i < |s| && j < |s| && i != j && s[i] == s[j]
    ensures multiset(s)[s[i]] >= 2
  {
    TakeOutLeaves(s, i);
    var rest := s[..i] + s[i + 1..];
    var k := if j < i then j else j - 1;
    assert rest[k] == s[i];
    TakeOutLeaves(rest, k);
  }

  lemma {:induction false} BagOfFree(s: seq<Name>)
    requires PrefixFree(s)
    ensures FreeBag(multiset(s))
  {
    forall x
      ensures multiset(s)[x] <= 1
    {
      if multiset(s)[x] >= 2 {
        var i, j := TwoPlaces(s, x);
      }
    }
    forall x, y | x in multiset(s) && y in multiset(s) && x != y
      ensures !(x <= y)
    {
      var i :| 0 <= i < |s| && s[i] == x;
      var j :| 0 <= j < |s| && s[j] == y;
    }
  }

  lemma {:induction false} FreeOfBag(s: seq<Name>)
    requires FreeBag(multiset(s))
    ensures PrefixFree(s)
  {
    forall i, j | 0 <= i < |s| && 0 <= j < |s| && i != j
      ensures !(s[i] <= s[j])
    {
      assert s[i] in multiset(s) && s[j] in multiset(s);
      if s[i] == s[j] {
        TwoOccurrences(s, i, j);
      }
    }
  }

  lemma {:induction false} FreePermuted(s: seq<Name>, t: seq<Name>)
    requires multiset(s) == multiset(t)
    ensures PrefixFree(s) <==> PrefixFree(t)
  {
    if PrefixFree(s) {
      BagOfFree(s);
      FreeOfBag(t);
    } else if PrefixFree(t) {
      BagOfFree(t);
      FreeOfBag(s);
    }
  }

  // ---- The check and the keys ----

  /** `sort.Strings` on a copy. */
  method SortStrings(names: seq<Name>) returns (r: seq<Name>)
    ensures Ordered(r) && multiset(r) == multiset(names)
  {
    r := SortBy((n: Name) => n, names);
  }

  /** Scans only neighbours, and is normal exactly when no name anywhere is a prefix of another. */
  method AssertNoPrefix(names: seq<Name>) returns (normal: bool)
    ensures normal <==> PrefixFree(names)
  {
    var sorted := SortStrings(names);
    FreePermuted(names, sorted);
    NeighboursSuffice(sorted);
    var i := 1;
    while i < |sorted|
      invariant 1 <= i
      invariant forall k :: 0 < k < i && k < |sorted| ==> !(sorted[k - 1] <= sorted[k])
    {
      if sorted[i - 1] <= sorted[i] {
        return false;
      }
      i := i + 1;
    }
    return true;
  }

  class KVStoreKey {
    const name: Name

    constructor (name: Name)
      ensures this.name == name
    {
      this.name := name;
    }
  }

  /** One new key per name, each under its own name. */
  method NewKVStoreKeys(names: seq<Name>) returns (r: Option<map<Name, KVStoreKey>>)
    ensures r.Some? <==> PrefixFree(names)
    ensures r.Some? ==> |r.value| == |names| && forall n :: n in r.value <==> n in names
    ensures r.Some? ==> forall n :: n in r.value ==> fresh(r.value[n]) && r.value[n].name == n
  {
    var normal := AssertNoPrefix(names);
    if !normal {
      return None;
    }
    var keys: map<Name, KVStoreKey> := map[];
    for i := 0 to |names|
      invariant |keys| == i
      invariant forall n :: n in keys <==> n in names[..i]
      invariant forall n :: n in keys ==> fresh(keys[n]) && keys[n].name == n
    {
      assert names[i] !in names[..i];
      var key := new KVStoreKey(names[i]);
      keys := keys[names[i] := key];
      assert names[..i + 1] == names[..i] + [names[i]];
    }
    assert names[..|names|] == names;
    return Some(keys);
  }
}
