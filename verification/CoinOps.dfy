/** Coin-set operations as the program performs them, against the algebra of their amounts. A panic is `None`. */
module CoinOps {
  import opened Words
  import opened Lex
  import opened CoinSets
  import opened CoinAlgebra
  import opened Sorting

  // ---- Counting entries ----

  function Count(c: Coins, d: Denom): nat {
    if c == [] then 0 else (if c[0].denom == d then 1 else 0) + Count(c[1..], d)
  }

  function NonZero(c: Coins): Coins {
    if c == [] then [] else Single(c[0]) + NonZero(c[1..])
  }

  lemma {:induction false} NonZeroSnoc(c: Coins, x: Coin)
    ensures NonZero(c + [x]) == NonZero(c) + Single(x)
    decreases |c|
  {
    if c != [] {
      NonZeroSnoc(c[1..], x);
      assert (c + [x])[1..] == c[1..] + [x];
    }
  }

  lemma {:induction false} NonZeroAmount(c: Coins, d: Denom)
    ensures Amount(NonZero(c), d) == Amount(c, d)
    decreases |c|
  {
    if c != [] {
      NonZeroAmount(c[1..], d);
      AmountCons(c[0], NonZero(c[1..]), d);
    }
  }

  lemma {:induction false} NonZeroAll(c: Coins)
    requires forall i :: 0 <= i < |c| ==> c[i].amount != 0
    ensures NonZero(c) == c
    decreases |c|
  {
    if c != [] {
      NonZeroAll(c[1..]);
      assert c == [c[0]] + c[1..];
    }
  }

  lemma {:induction false} CountAppend(a: Coins, b: Coins, d: Denom)
    ensures Count(a + b, d) == Count(a, d) + Count(b, d)
    decreases |a|
  {
    if a == [] {
      assert a + b == b;
    } else {
      CountAppend(a[1..], b, d);
      assert (a + b)[1..] == a[1..] + b;
    }
  }

  lemma {:induction false} CountAbsent(c: Coins, d: Denom)
    ensures Count(c, d) == 0 <==> !Mentions(c, d)
    decreases |c|
  {
    if c != [] {
      CountAbsent(c[1..], d);
      if Mentions(c, d) && c[0].denom != d {
        var i :| 0 <= i < |c| && c[i].denom == d;
        assert c[1..][i - 1].denom == d;
      }
      if Mentions(c[1..], d) {
        var i :| 0 <= i < |c[1..]| && c[1..][i].denom == d;
        assert c[i + 1].denom == d;
      }
    }
  }

  /** Taking one entry out of the middle. */
  lemma {:induction false} TakeOut(c: Coins, k: nat, d: Denom)
    requires k < |c|
    ensures Amount(c, d) == Amount([c[k]], d) + Amount(c[..k] + c[k + 1..], d)
    ensures Count(c, d) == Count([c[k]], d) + Count(c[..k] + c[k + 1..], d)
  {
    assert c == c[..k] + ([c[k]] + c[k + 1..]);
    AmountAppend(c[..k], [c[k]] + c[k + 1..], d);
    AmountAppend([c[k]], c[k + 1..], d);
    AmountAppend(c[..k], c[k + 1..], d);
    CountAppend(c[..k], [c[k]] + c[k + 1..], d);
    CountAppend([c[k]], c[k + 1..], d);
    CountAppend(c[..k], c[k + 1..], d);
  }

  /** The first entry of a list, found in a permutation of it. */
  lemma {:induction false} Extract(xs: Coins, ys: Coins) returns (k: nat)
    requires xs != [] && multiset(xs) == multiset(ys)
    ensures k < |ys| && ys[k] == xs[0]
    ensures multiset(xs[1..]) == multiset(ys[..k] + ys[k + 1..])
  {
    assert xs[0] in multiset(xs);
    assert xs[0] in ys;
    k :| 0 <= k < |ys| && ys[k] == xs[0];
    assert multiset(xs[1..]) == multiset(xs) - multiset{xs[0]} by {
      assert xs == [xs[0]] + xs[1..];
    }
    TakeOutLeaves(ys, k);
  }

  /** Amounts and counts do not depend on the order of the entries. */
  lemma {:induction false} PermutationKeeps(xs: Coins, ys: Coins, d: Denom)
    requires multiset(xs) == multiset(ys)
    ensures Amount(xs, d) == Amount(ys, d) && Count(xs, d) == Count(ys, d)
    decreases |xs|
  {
    if xs == [] {
      assert |multiset(ys)| == |ys|;
    } else {
      var k := Extract(xs, ys);
      var rest := ys[..k] + ys[k + 1..];
      TakeOut(ys, k, d);
      PermutationKeeps(xs[1..], rest, d);
    }
  }

  // ---- Sorting ----

  /** Adjacent strict order is strict order. */
  lemma {:induction false} AdjacentStrict(c: Coins, i: nat, j: nat)
    requires forall k :: 0 < k < |c| ==> LexLess(c[k - 1].denom, c[k].denom)
    requires i < j < |c|
    ensures LexLess(c[i].denom, c[j].denom)
    decreases j
  {
    assert LexLess(c[j - 1].denom, c[j].denom);
    if i < j - 1 {
      AdjacentStrict(c, i, j - 1);
      LexTransitive(c[i].denom, c[j - 1].denom, c[j].denom);
    }
  }

  lemma {:induction false} CountTwice(c: Coins, k: nat)
    requires 0 < k < |c| && c[k - 1].denom == c[k].denom
    ensures Count(c, c[k].denom) >= 2
  {
    var d := c[k].denom;
    assert c == c[..k - 1] + ([c[k - 1]] + ([c[k]] + c[k + 1..]));
    CountAppend(c[..k - 1], [c[k - 1]] + ([c[k]] + c[k + 1..]), d);
    CountAppend([c[k - 1]], [c[k]] + c[k + 1..], d);
    CountAppend([c[k]], c[k + 1..], d);
  }

  lemma {:induction false} SortedDistinct(c: Coins)
    requires Sorted(c) && forall d :: Count(c, d) <= 1
    ensures StrictlySorted(c)
  {
    forall k | 0 < k < |c|
      ensures LexLess(c[k - 1].denom, c[k].denom)
    {
      LexTotal(c[k - 1].denom, c[k].denom);
      if c[k - 1].denom == c[k].denom {
        CountTwice(c, k);
      }
    }
    forall i, j | 0 <= i < j < |c|
      ensures LexLess(c[i].denom, c[j].denom)
    {
      AdjacentStrict(c, i, j);
    }
  }

  lemma {:induction false} StrictCount(c: Coins, d: Denom)
    requires StrictlySorted(c)
    ensures Count(c, d) <= 1
    decreases |c|
  {
    if c != [] {
      StrictTail(c);
      StrictCount(c[1..], d);
      CountAbsent(c[1..], d);
    }
  }

  lemma {:induction false} StrictIsSorted(c: Coins)
    requires StrictlySorted(c)
    ensures Sorted(c)
  {
    forall i | 0 < i < |c|
      ensures !LexLess(c[i].denom, c[i - 1].denom)
    {
      LexAsymmetric(c[i - 1].denom, c[i].denom);
    }
  }

  /** `sort.Sort`: callers may rely only on a sorted permutation. */
  method Sort(xs: Coins) returns (r: Coins)
    ensures Sorted(r) && multiset(r) == multiset(xs)
  {
    r := SortBy((c: Coin) => c.denom, xs);
  }

  method IsSorted(c: Coins) returns (sorted: bool)
    ensures sorted <==> Sorted(c)
  {
    var i := 1;
    while i < |c|
      invariant 1 <= i
      invariant forall k :: 0 < k < i && k < |c| ==> !LexLess(c[k].denom, c[k - 1].denom)
    {
      if LexLess(c[i].denom, c[i - 1].denom) {
        return false;
      }
      i := i + 1;
    }
    return true;
  }

  // ---- Construction ----

  method RemoveZeroCoins(c: Coins) returns (r: Coins)
    ensures r == NonZero(c)
  {
    var i := 0;
    while i < |c|
      invariant 0 <= i <= |c|
      invariant forall k :: 0 <= k < i ==> c[k].amount != 0
    {
      if c[i].amount == 0 {
        break;
      } else if i == |c| - 1 {
        NonZeroAll(c);
        return c;
      }
      i := i + 1;
    }
    r := [];
    for j := 0 to |c|
      invariant r == NonZero(c[..j])
    {
      assert c[..j + 1] == c[..j] + [c[j]];
      NonZeroSnoc(c[..j], c[j]);
      if c[j].amount != 0 {
        r := r + [c[j]];
      }
    }
    assert c[..|c|] == c;
  }

  /** One coin as `Validate` looks at it. */
  predicate ValidCoin(c: Coin) {
    ValidDenom(c.denom) && c.amount > 0
  }

  /** The prefix of a list that `Validate` has accepted. */
  lemma {:induction false} ValidSnoc(c: Coins, k: nat)
    requires 0 < k < |c| && Valid(c[..k])
    ensures Valid(c[..k + 1]) <==> ValidCoin(c[k]) && LexLess(c[k - 1].denom, c[k].denom)
  {
    var p := c[..k + 1];
    assert forall i :: 0 <= i < k ==> p[i] == c[..k][i];
    if ValidCoin(c[k]) && LexLess(c[k - 1].denom, c[k].denom) {
      forall i | 0 <= i < k
        ensures LexLess(p[i].denom, p[k].denom)
      {
        if i < k - 1 {
          assert LexLess(c[..k][i].denom, c[..k][k - 1].denom);
          LexTransitive(p[i].denom, p[k - 1].denom, p[k].denom);
        }
      }
    }
    if Valid(p) {
      assert ValidCoin(p[k]) && LexLess(p[k - 1].denom, p[k].denom);
    }
  }

  lemma ValidPrefix(c: Coins, k: nat)
    requires k <= |c|
    ensures Valid(c) ==> Valid(c[..k])
  {
  }

  method Validate(c: Coins) returns (ok: bool)
    ensures ok <==> Valid(c)
  {
    if |c| == 0 {
      return true;
    }
    if !ValidDenom(c[0].denom) || c[0].amount <= 0 {
      return false;
    }
    var lowDenom := c[0].denom;
    for k := 1 to |c|
      invariant Valid(c[..k]) && lowDenom == c[k - 1].denom
    {
      ValidSnoc(c, k);
      if !ValidDenom(c[k].denom) || LexLess(c[k].denom, lowDenom) || c[k].denom == lowDenom || c[k].amount <= 0 {
        if LexLess(c[k].denom, lowDenom) {
          LexAsymmetric(c[k].denom, lowDenom);
        }
        LexIrreflexive(lowDenom);
        ValidPrefix(c, k + 1);
        return false;
      }
      LexTotal(lowDenom, c[k].denom);
      lowDenom := c[k].denom;
    }
    assert c[..|c|] == c;
    return true;
  }

  predicate AllValid(c: Coins) {
    forall i :: 0 <= i < |c| ==> ValidCoin(c[i])
  }

  /** Non-zero entries that are positive, well-formed and of distinct denominations. */
  ghost predicate Presentable(c: Coins) {
    AllValid(NonZero(c)) && forall d :: Count(NonZero(c), d) <= 1
  }

  lemma {:induction false} AllValidPermuted(xs: Coins, ys: Coins)
    requires multiset(xs) == multiset(ys) && AllValid(xs)
    ensures AllValid(ys)
  {
    forall i | 0 <= i < |ys|
      ensures ValidCoin(ys[i])
    {
      assert ys[i] in multiset(ys);
      assert ys[i] in xs;
    }
  }

  lemma {:induction false} SortedValidIsCollected(c: Coins, s: Coins)
    requires Valid(s) && multiset(s) == multiset(NonZero(c))
    ensures Presentable(c) && s == Collect(c)
  {
    forall d
      ensures Count(NonZero(c), d) <= 1 && Amount(s, d) == Amount(c, d)
    {
      PermutationKeeps(s, NonZero(c), d);
      NonZeroAmount(c, d);
      StrictCount(s, d);
    }
    AllValidPermuted(s, NonZero(c));
    ValidIsCanonical(s);
    CollectMeaning(c);
    CanonicalUnique(s, Collect(c));
  }

  lemma {:induction false} PresentableSorts(c: Coins, s: Coins)
    requires Presentable(c) && Sorted(s) && multiset(s) == multiset(NonZero(c))
    ensures Valid(s)
  {
    forall d
      ensures Count(s, d) <= 1
    {
      PermutationKeeps(s, NonZero(c), d);
    }
    SortedDistinct(s);
    AllValidPermuted(NonZero(c), s);
  }

  lemma {:induction false} SortedIsValid(c: Coins, s: Coins)
    requires Sorted(s) && multiset(s) == multiset(NonZero(c))
    ensures Valid(s) <==> Presentable(c)
    ensures Valid(s) ==> s == Collect(c)
  {
    if Valid(s) {
      SortedValidIsCollected(c, s);
    } else if Presentable(c) {
      PresentableSorts(c, s);
    }
  }

  method NewCoins(c: Coins) returns (r: Option<Coins>)
    ensures r.Some? <==> Presentable(c)
    ensures r.Some? ==> Valid(r.value) && r.value == Collect(c)
  {
    var s := RemoveZeroCoins(c);
    if |s| > 1 {
      s := Sort(s);
    }
    SortedIsValid(c, s);
    var ok := Validate(s);
    return if ok then Some(s) else None;
  }

  /** A valid set passes through `NewCoins` unchanged. */
  lemma {:induction false} ValidIsPresentable(c: Coins)
    requires Valid(c)
    ensures Presentable(c) && Collect(c) == c
  {
    ValidIsCanonical(c);
    NonZeroAll(c);
    StrictIsSorted(c);
    SortedIsValid(c, c);
  }

  // ---- Addition ----

  /** Every group holds the coins of its denomination, with the amount of the list. */
  ghost predicate Groups(groups: map<Denom, Coins>, c: Coins) {
    && (forall d :: d in groups <==> Mentions(c, d))
    && (forall d :: d in groups ==> Amount(groups[d], d) == Amount(c, d))
    && (forall d, i :: d in groups && 0 <= i < |groups[d]| ==> groups[d][i].denom == d)
  }

  lemma {:induction false} GroupsSnoc(groups: map<Denom, Coins>, c: Coins, x: Coin, more: map<Denom, Coins>)
    requires Groups(groups, c)
    requires more == groups[x.denom := (if x.denom in groups then groups[x.denom] else []) + [x]]
    ensures Groups(more, c + [x])
  {
    forall d
      ensures d in more <==> Mentions(c + [x], d)
    {
      if Mentions(c, d) {
        var i :| 0 <= i < |c| && c[i].denom == d;
        assert (c + [x])[i].denom == d;
      }
      assert (c + [x])[|c|].denom == x.denom;
    }
    forall d | d in more
      ensures Amount(more[d], d) == Amount(c + [x], d)
    {
      AmountAppend(c, [x], d);
      if d == x.denom {
        var g := if d in groups then groups[d] else [];
        AmountAppend(g, [x], d);
        if d !in groups {
          AmountAbsent(c, d);
        }
      }
    }
  }

  method Group(c: Coins) returns (groups: map<Denom, Coins>)
    ensures Groups(groups, c)
  {
    groups := map[];
    for i := 0 to |c|
      invariant Groups(groups, c[..i])
    {
      var x := c[i];
      var more := groups[x.denom := (if x.denom in groups then groups[x.denom] else []) + [x]];
      GroupsSnoc(groups, c[..i], x, more);
      assert c[..i + 1] == c[..i] + [x];
      groups := more;
    }
    assert c[..|c|] == c;
  }

  /** The coins of one group added up. */
  method Combine(d: Denom, c: Coins) returns (combo: Coin)
    requires forall i :: 0 <= i < |c| ==> c[i].denom == d
    ensures combo == Coin(d, Amount(c, d))
  {
    combo := Coin(d, 0);
    for i := 0 to |c|
      invariant combo == Coin(d, Amount(c[..i], d))
    {
      assert c[..i + 1] == c[..i] + [c[i]];
      AmountAppend(c[..i], [c[i]], d);
      combo := Coin(d, combo.amount + c[i].amount);
    }
    assert c[..|c|] == c;
  }

  /** What has been combined so far: one non-zero entry for each finished denomination. */
  ghost predicate Combined(out: Coins, c: Coins, todo: set<Denom>) {
    && (forall i :: 0 <= i < |out| ==> out[i].amount != 0)
    && (forall d :: Count(out, d) <= 1)
    && (forall d :: d in todo ==> Count(out, d) == 0)
    && (forall d :: Amount(out, d) == if d in todo then 0 else Amount(c, d))
  }

  lemma {:induction false} CombinedStart(c: Coins, todo: set<Denom>)
    requires forall d :: d in todo <==> Mentions(c, d)
    ensures Combined([], c, todo)
  {
    forall d | d !in todo
      ensures Amount(c, d) == 0
    {
      AmountAbsent(c, d);
    }
  }

  lemma {:induction false} CombinedStep(out: Coins, c: Coins, todo: set<Denom>, d: Denom)
    requires Combined(out, c, todo) && d in todo
    ensures Combined(out + Single(Coin(d, Amount(c, d))), c, todo - {d})
  {
    var x := Single(Coin(d, Amount(c, d)));
    forall e
      ensures Count(out + x, e) <= 1
      ensures e in todo - {d} ==> Count(out + x, e) == 0
      ensures Amount(out + x, e) == if e in todo - {d} then 0 else Amount(c, e)
    {
      CountAppend(out, x, e);
      AmountAppend(out, x, e);
    }
  }

  lemma {:induction false} CombinedSorts(out: Coins, c: Coins, s: Coins)
    requires Combined(out, c, {}) && Sorted(s) && multiset(s) == multiset(out)
    ensures s == Collect(c)
  {
    forall d
      ensures Count(s, d) <= 1 && Amount(s, d) == Amount(c, d)
    {
      PermutationKeeps(s, out, d);
    }
    SortedDistinct(s);
    forall i | 0 <= i < |s|
      ensures s[i].amount != 0
    {
      assert s[i] in multiset(s);
      assert s[i] in out;
    }
    CollectMeaning(c);
    CanonicalUnique(s, Collect(c));
  }

  /** Groups by denomination and visits the groups in any order. */
  method SafeAdd(a: Coins, b: Coins) returns (r: Option<Coins>)
    ensures r == if Sorted(a) && Sorted(b) then Some(Plus(a, b)) else None
  {
    var sorted := IsSorted(a);
    if !sorted {
      return None;
    }
    sorted := IsSorted(b);
    if !sorted {
      return None;
    }
    ghost var both := a + b;
    var groups := Group(a + b);
    var todo := groups.Keys;
    var out := [];
    CombinedStart(both, todo);
    while todo != {}
      invariant todo <= groups.Keys
      invariant Combined(out, both, todo)
      decreases |todo|
    {
      var d :| d in todo;
      var combo := Combine(d, groups[d]);
      CombinedStep(out, both, todo, d);
      if combo.amount != 0 {
        out := out + [combo];
      } else {
        assert out + [] == out;
      }
      todo := todo - {d};
    }
    var s := out;
    if |s| > 1 {
      s := Sort(s);
    }
    CombinedSorts(out, both, s);
    return Some(s);
  }

  // ---- Subtraction ----

  method Negative(c: Coins) returns (r: Coins)
    ensures r == Negated(c)
  {
    r := [];
    for i := 0 to |c|
      invariant |r| == i && forall k :: 0 <= k < i ==> r[k] == Coin(c[k].denom, -c[k].amount)
    {
      r := r + [Coin(c[i].denom, -c[i].amount)];
    }
  }

  method IsAnyNegative(c: Coins) returns (any: bool)
    ensures any == AnyNegative(c)
    ensures any <==> exists i :: 0 <= i < |c| && c[i].amount < 0
  {
    for i := 0 to |c|
      invariant forall k :: 0 <= k < i ==> c[k].amount >= 0
    {
      if c[i].amount < 0 {
        return true;
      }
    }
    return false;
  }

  /** Subtracting the canonical form of a list subtracts the list. */
  lemma {:induction false} MinusCollected(a: Coins, b: Coins)
    ensures Minus(a, Collect(b)) == Minus(a, b)
  {
    CollectMeaning(b);
    MinusMeaning(a, b);
    MinusMeaning(a, Collect(b));
    CanonicalUnique(Minus(a, Collect(b)), Minus(a, b));
  }

  /** Subtracts and reports whether the first set fails to cover the second. */
  method SafeSub(a: Coins, b: Coins) returns (r: Option<(Coins, bool)>)
    ensures r.Some? <==> Sorted(a) && Presentable(b)
    ensures r.Some? ==> r.value.0 == Minus(a, b)
    ensures r.Some? ==> (r.value.1 <==> !Covers(a, b))
  {
    var sanitized := NewCoins(b);
    if sanitized.None? {
      return None;
    }
    var opposite := Negative(sanitized.value);
    StrictIsSorted(opposite);
    var diff := SafeAdd(a, opposite);
    if diff.None? {
      return None;
    }
    MinusCollected(a, b);
    MinusNegativeExactly(a, b);
    var any := IsAnyNegative(diff.value);
    return Some((diff.value, any));
  }

  /** Panics rather than return a negative amount. */
  method Sub(a: Coins, b: Coins) returns (r: Option<Coins>)
    ensures r.Some? <==> Sorted(a) && Presentable(b) && Covers(a, b)
    ensures r.Some? ==> r.value == Minus(a, b)
  {
    var diff := SafeSub(a, b);
    if diff.None? || diff.value.1 {
      return None;
    }
    return Some(diff.value.0);
  }

  // ---- Lookup ----

  /** Binary search. */
  function Find(c: Coins, d: Denom): Option<Coin>
    decreases |c|
  {
    if |c| == 0 then None
    else if |c| == 1 then if c[0].denom == d then Some(c[0]) else None
    else
      var mid := |c| / 2;
      if LexLess(d, c[mid].denom) then Find(c[..mid], d)
      else if d == c[mid].denom then Some(c[mid])
      else Find(c[mid + 1..], d)
  }

  /** The amount found, or zero. */
  function AmountFound(c: Coins, d: Denom): int {
    match Find(c, d)
    case Some(coin) => coin.amount
    case None => 0
  }

  lemma {:induction false} MentionsAppend(a: Coins, b: Coins, d: Denom)
    ensures Mentions(a + b, d) <==> Mentions(a, d) || Mentions(b, d)
  {
    CountAppend(a, b, d);
    CountAbsent(a, d);
    CountAbsent(b, d);
    CountAbsent(a + b, d);
  }

  /** A denomination below the middle entry is found in the lower half, if at all. */
  lemma {:induction false} LowerHalf(c: Coins, mid: nat, d: Denom)
    requires StrictlySorted(c) && mid < |c| && LexLess(d, c[mid].denom)
    ensures Amount(c, d) == Amount(c[..mid], d) && (Mentions(c, d) <==> Mentions(c[..mid], d))
  {
    var high := c[mid..];
    forall i | 0 <= i < |high|
      ensures high[i].denom != d
    {
      if i > 0 {
        LexTransitive(d, c[mid].denom, high[i].denom);
      }
      LexAsymmetric(d, high[i].denom);
    }
    assert c == c[..mid] + high;
    AmountAppend(c[..mid], high, d);
    MentionsAppend(c[..mid], high, d);
    AmountAbsent(high, d);
  }

  /** A denomination above the middle entry is found in the upper half, if at all. */
  lemma {:induction false} UpperHalf(c: Coins, mid: nat, d: Denom)
    requires StrictlySorted(c) && mid < |c| && LexLess(c[mid].denom, d)
    ensures Amount(c, d) == Amount(c[mid + 1..], d) && (Mentions(c, d) <==> Mentions(c[mid + 1..], d))
  {
    var low := c[..mid + 1];
    forall i | 0 <= i < |low|
      ensures low[i].denom != d
    {
      if i < mid {
        LexTransitive(low[i].denom, c[mid].denom, d);
      }
      LexAsymmetric(low[i].denom, d);
    }
    assert c == low + c[mid + 1..];
    AmountAppend(low, c[mid + 1..], d);
    MentionsAppend(low, c[mid + 1..], d);
    AmountAbsent(low, d);
  }

  /** Binary search finds the entry of a denomination, and fails only where a linear scan would. */
  lemma {:induction false} FindAgrees(c: Coins, d: Denom)
    requires StrictlySorted(c)
    ensures AmountFound(c, d) == Amount(c, d)
    ensures Find(c, d).Some? <==> Mentions(c, d)
    ensures Find(c, d).Some? ==> Find(c, d).value in c && Find(c, d).value.denom == d
    decreases |c|
  {
    if |c| > 1 {
      var mid := |c| / 2;
      LexTotal(d, c[mid].denom);
      if LexLess(d, c[mid].denom) {
        LowerHalf(c, mid, d);
        FindAgrees(c[..mid], d);
      } else if d == c[mid].denom {
        AmountAt(c, mid);
      } else {
        UpperHalf(c, mid, d);
        FindAgrees(c[mid + 1..], d);
      }
    }
  }

  // ---- Comparison ----

  /** No entry of the second list exceeds what the first holds of it. */
  predicate EachCovered(a: Coins, b: Coins) {
    forall i :: 0 <= i < |b| ==> b[i].amount <= Amount(a, b[i].denom)
  }

  /** On valid sets comparing entry by entry compares everything. */
  lemma {:induction false} CoversExactly(a: Coins, b: Coins)
    requires Valid(a) && Valid(b)
    ensures Covers(a, b) <==> EachCovered(a, b)
    ensures Covers(a, b) && b != [] ==> a != []
  {
    ValidIsCanonical(a);
    if EachCovered(a, b) {
      forall d
        ensures Amount(a, d) >= Amount(b, d)
      {
        if Mentions(b, d) {
          var i :| 0 <= i < |b| && b[i].denom == d;
          AmountAt(b, i);
        } else {
          AmountAbsent(b, d);
        }
      }
    }
    if Covers(a, b) {
      forall i | 0 <= i < |b|
        ensures b[i].amount <= Amount(a, b[i].denom)
      {
        AmountAt(b, i);
        assert Amount(a, b[i].denom) >= Amount(b, b[i].denom);
      }
      if b != [] {
        assert Amount(a, b[0].denom) >= b[0].amount > 0;
      }
    }
  }

  /** Looks up every entry of the second set in the first; an ill-formed denomination panics. */
  method IsAllGTE(a: Coins, b: Coins) returns (r: Option<bool>)
    ensures Valid(a) && Valid(b) ==> r == Some(Covers(a, b))
  {
    if Valid(a) && Valid(b) {
      CoversExactly(a, b);
    }
    if |b| == 0 {
      return Some(true);
    }
    if |a| == 0 {
      return Some(false);
    }
    for i := 0 to |b|
      invariant Valid(a) && Valid(b) ==> forall k :: 0 <= k < i ==> b[k].amount <= Amount(a, b[k].denom)
    {
      if !ValidDenom(b[i].denom) {
        return None;
      }
      if Valid(a) {
        FindAgrees(a, b[i].denom);
      }
      if b[i].amount > AmountFound(a, b[i].denom) {
        return Some(false);
      }
    }
    return Some(true);
  }

  /** The first position where two lists of one length differ is one of a denomination. */
  predicate ClashAt(a: Coins, b: Coins, i: nat) {
    i < |a| == |b| && a[..i] == b[..i] && a[i].denom != b[i].denom
  }

  /** Sorting leaves a canonical set as it is. */
  lemma {:induction false} SortedUnique(a: Coins, s: Coins)
    requires Canonical(a) && Sorted(s) && multiset(a) == multiset(s)
    ensures s == a
  {
    forall d
      ensures Count(s, d) <= 1 && Amount(a, d) == Amount(s, d)
    {
      PermutationKeeps(a, s, d);
      StrictCount(a, d);
    }
    SortedDistinct(s);
    forall i | 0 <= i < |s|
      ensures s[i].amount != 0
    {
      assert s[i] in multiset(a);
    }
    CanonicalUnique(a, s);
  }

  /** Lists that first differ in an amount have no clash. */
  lemma {:induction false} NoClash(s: Coins, t: Coins, i: nat)
    requires i < |s| == |t| && s[..i] == t[..i] && s[i].denom == t[i].denom && s[i] != t[i]
    ensures forall k: nat :: !ClashAt(s, t, k)
  {
    forall k: nat
      ensures !ClashAt(s, t, k)
    {
      if k < i {
        assert s[k] == s[..i][k] && t[k] == t[..i][k];
      } else if i < k < |s| {
        assert s[..k][i] != t[..k][i];
      }
    }
  }

  /** Sorts both and compares pairwise; comparing two denominations panics. */
  method IsEqual(a: Coins, b: Coins) returns (r: Option<bool>)
    ensures Valid(a) && Valid(b) ==> (r == Some(true) <==> a == b)
    ensures Valid(a) && Valid(b) ==> (r == None <==> exists i :: ClashAt(a, b, i))
  {
    if |a| != |b| {
      return Some(false);
    }
    var s, t := a, b;
    if |a| > 1 {
      s := Sort(a);
      t := Sort(b);
    }
    if Valid(a) && Valid(b) {
      StrictIsSorted(a);
      StrictIsSorted(b);
      SortedUnique(a, s);
      SortedUnique(b, t);
    }
    assert multiset(s) == multiset(a) && multiset(t) == multiset(b);
    assert |s| == |multiset(s)| == |multiset(a)| == |a|;
    assert |t| == |multiset(t)| == |multiset(b)| == |b|;
    for i := 0 to |s|
      invariant s[..i] == t[..i]
    {
      if s[i].denom != t[i].denom {
        assert Valid(a) && Valid(b) ==> ClashAt(a, b, i);
        return None;
      }
      if s[i].amount != t[i].amount {
        NoClash(s, t, i);
        return Some(false);
      }
      assert s[..i + 1] == s[..i] + [s[i]] && t[..i + 1] == t[..i] + [t[i]];
    }
    assert s[..|s|] == s && t[..|t|] == t;
    return Some(true);
  }

  // ---- Maximum and minimum ----

  predicate Positive(c: Coins) {
    forall i :: 0 <= i < |c| ==> c[i].amount > 0
  }

  /** Once one set is used up the maximum is what is left of the other. */
  lemma {:induction false} MaxExhausted(a: Coins, b: Coins)
    requires a == [] || b == []
    requires Positive(a) && Positive(b)
    ensures Pointwise(Larger, a, b) == a + b
    decreases |a| + |b|
  {
    if a != [] {
      MaxExhausted(a[1..], b);
      assert a == [a[0]] + a[1..];
    } else if b != [] {
      MaxExhausted(a, b[1..]);
      assert b == [b[0]] + b[1..];
    }
  }

  /** The closing loops of `Max`. */
  method AppendRest(list: Coins, c: Coins, from: nat) returns (r: Coins)
    requires from <= |c|
    ensures r == list + c[from..]
  {
    r := list;
    for i := from to |c|
      invariant r == list + c[from..i]
    {
      r := r + [c[i]];
    }
  }

  lemma {:induction false} MaxTakesLeft(max: Coins, a: Coins, b: Coins, i: int, j: int)
    requires Walked(Larger, max, a, b, i, j) && Positive(a)
    requires i < |a| && j < |b| && LexLess(a[i].denom, b[j].denom)
    ensures Walked(Larger, max + [a[i]], a, b, i + 1, j)
  {
    WalkLeft(Larger, max, a, b, i, j);
  }

  lemma {:induction false} MaxTakesRight(max: Coins, a: Coins, b: Coins, i: int, j: int)
    requires Walked(Larger, max, a, b, i, j) && Positive(b)
    requires i < |a| && j < |b| && LexLess(b[j].denom, a[i].denom)
    ensures Walked(Larger, max + [b[j]], a, b, i, j + 1)
  {
    WalkRight(Larger, max, a, b, i, j);
  }

  lemma {:induction false} MaxTakesBoth(max: Coins, a: Coins, b: Coins, i: int, j: int, most: Coin)
    requires Walked(Larger, max, a, b, i, j) && Positive(a) && Positive(b)
    requires i < |a| && j < |b| && a[i].denom == b[j].denom
    requires most == if b[j].amount > a[i].amount then b[j] else a[i]
    ensures Walked(Larger, max + [most], a, b, i + 1, j + 1)
  {
    WalkBoth(Larger, max, a, b, i, j);
  }

  lemma {:induction false} MaxFinish(max: Coins, a: Coins, b: Coins, i: int, j: int)
    requires Walked(Larger, max, a, b, i, j) && (i == |a| || j == |b|)
    requires Positive(a) && Positive(b)
    ensures max + a[i..] + b[j..] == MaxOf(a, b)
  {
    MaxExhausted(a[i..], b[j..]);
  }

  method MaxList(a: Coins, b: Coins) returns (max: Coins)
    ensures Positive(a) && Positive(b) ==> max == MaxOf(a, b)
  {
    max := [];
    var i, j := 0, 0;
    ghost var positive := Positive(a) && Positive(b);
    WalkStart(Larger, a, b);
    while i < |a| && j < |b|
      invariant 0 <= i <= |a| && 0 <= j <= |b|
      invariant positive ==> Walked(Larger, max, a, b, i, j)
    {
      LexTotal(a[i].denom, b[j].denom);
      if LexLess(a[i].denom, b[j].denom) {
        if positive {
          MaxTakesLeft(max, a, b, i, j);
        }
        max := max + [a[i]];
        i := i + 1;
      } else if a[i].denom == b[j].denom {
        var most := if b[j].amount > a[i].amount then b[j] else a[i];
        if positive {
          MaxTakesBoth(max, a, b, i, j, most);
        }
        max := max + [most];
        i, j := i + 1, j + 1;
      } else {
        if positive {
          MaxTakesRight(max, a, b, i, j);
        }
        max := max + [b[j]];
        j := j + 1;
      }
    }
    if positive {
      MaxFinish(max, a, b, i, j);
    }
    max := AppendRest(max, a, i);
    max := AppendRest(max, b, j);
  }

  method Max(a: Coins, b: Coins) returns (r: Option<Coins>)
    ensures Valid(a) && Valid(b) ==> r == Some(MaxOf(a, b))
  {
    var list := MaxList(a, b);
    r := NewCoins(list);
    if Valid(a) && Valid(b) {
      MaxMeaning(a, b);
      ValidIsPresentable(list);
    }
  }

  /** Once one set is used up nothing is left of the minimum. */
  lemma {:induction false} MinExhausted(a: Coins, b: Coins)
    requires a == [] || b == []
    requires Positive(a) && Positive(b)
    ensures Pointwise(Smaller, a, b) == []
    decreases |a| + |b|
  {
    if a != [] {
      MinExhausted(a[1..], b);
    } else if b != [] {
      MinExhausted(a, b[1..]);
    }
  }

  lemma {:induction false} MinSkipsLeft(min: Coins, a: Coins, b: Coins, i: int, j: int)
    requires Walked(Smaller, min, a, b, i, j) && Positive(a)
    requires i < |a| && j < |b| && LexLess(a[i].denom, b[j].denom)
    ensures Walked(Smaller, min, a, b, i + 1, j)
  {
    WalkLeft(Smaller, min, a, b, i, j);
    assert min + [] == min;
  }

  lemma {:induction false} MinSkipsRight(min: Coins, a: Coins, b: Coins, i: int, j: int)
    requires Walked(Smaller, min, a, b, i, j) && Positive(b)
    requires i < |a| && j < |b| && LexLess(b[j].denom, a[i].denom)
    ensures Walked(Smaller, min, a, b, i, j + 1)
  {
    WalkRight(Smaller, min, a, b, i, j);
    assert min + [] == min;
  }

  lemma {:induction false} MinTakesBoth(min: Coins, a: Coins, b: Coins, i: int, j: int, least: Coin)
    requires Walked(Smaller, min, a, b, i, j) && Positive(a) && Positive(b)
    requires i < |a| && j < |b| && a[i].denom == b[j].denom
    requires least == if b[j].amount < a[i].amount then b[j] else a[i]
    ensures least.amount != 0 && Walked(Smaller, min + [least], a, b, i + 1, j + 1)
  {
    WalkBoth(Smaller, min, a, b, i, j);
  }

  lemma {:induction false} MinFinish(min: Coins, a: Coins, b: Coins, i: int, j: int)
    requires Walked(Smaller, min, a, b, i, j) && (i == |a| || j == |b|)
    requires Positive(a) && Positive(b)
    ensures min == MinOf(a, b)
  {
    MinExhausted(a[i..], b[j..]);
  }

  method MinList(a: Coins, b: Coins) returns (min: Coins)
    ensures Positive(a) && Positive(b) ==> min == MinOf(a, b)
  {
    min := [];
    var i, j := 0, 0;
    ghost var positive := Positive(a) && Positive(b);
    WalkStart(Smaller, a, b);
    while i < |a| && j < |b|
      invariant 0 <= i <= |a| && 0 <= j <= |b|
      invariant positive ==> Walked(Smaller, min, a, b, i, j)
    {
      LexTotal(a[i].denom, b[j].denom);
      if LexLess(a[i].denom, b[j].denom) {
        if positive {
          MinSkipsLeft(min, a, b, i, j);
        }
        i := i + 1;
      } else if a[i].denom == b[j].denom {
        var least := if b[j].amount < a[i].amount then b[j] else a[i];
        if positive {
          MinTakesBoth(min, a, b, i, j, least);
        }
        if least.amount != 0 {
          min := min + [least];
        }
        i, j := i + 1, j + 1;
      } else {
        if positive {
          MinSkipsRight(min, a, b, i, j);
        }
        j := j + 1;
      }
    }
    if positive {
      MinFinish(min, a, b, i, j);
    }
  }

  method Min(a: Coins, b: Coins) returns (r: Option<Coins>)
    ensures Valid(a) && Valid(b) ==> r == Some(MinOf(a, b))
  {
    var list := MinList(a, b);
    r := NewCoins(list);
    if Valid(a) && Valid(b) {
      MinMeaning(a, b);
      ValidIsPresentable(list);
    }
  }
}
