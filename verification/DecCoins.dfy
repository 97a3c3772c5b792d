/** Decimal coin sets. An amount counts the smallest decimal fraction, so that UNIT of them are one whole coin. */
module DecCoins {
  import opened Words
  import opened Lex
  import opened CoinSets
  import opened CoinAlgebra
  import CoinOps

  const UNIT: int := 1_000_000_000_000_000_000

  method RemoveZeroDecCoins(c: Coins) returns (r: Coins)
    ensures r == CoinOps.NonZero(c)
  {
    r := [];
    for i := 0 to |c|
      invariant r == CoinOps.NonZero(c[..i])
    {
      assert c[..i + 1] == c[..i] + [c[i]];
      CoinOps.NonZeroSnoc(c[..i], c[i]);
      if c[i].amount != 0 {
        r := r + [c[i]];
      }
    }
    assert c[..|c|] == c;
  }

  // ---- Addition by a two-pointer merge ----

  /** With one set used up the merge keeps the non-zero rest of the other. */
  lemma {:induction false} MergedWithNothing(c: Coins)
    ensures Merged(c, []) == CoinOps.NonZero(c) && Merged([], c) == CoinOps.NonZero(c)
    decreases |c|
  {
    if c != [] {
      MergedWithNothing(c[1..]);
      assert Coin(c[0].denom, c[0].amount + 0) == c[0];
    }
  }

  /** A list with one more coin, unless the coin is zero. */
  function Extended(sum: Coins, c: Coin): Coins {
    if c.amount != 0 then sum + [c] else sum
  }

  lemma {:induction false} MergeLeft(sum: Coins, a: Coins, b: Coins, i: int, j: int)
    requires Walked(Added, sum, a, b, i, j)
    requires i < |a| && j < |b| && LexLess(a[i].denom, b[j].denom)
    ensures Walked(Added, Extended(sum, a[i]), a, b, i + 1, j)
  {
    WalkLeft(Added, sum, a, b, i, j);
    assert sum + [] == sum;
  }

  lemma {:induction false} MergeRight(sum: Coins, a: Coins, b: Coins, i: int, j: int)
    requires Walked(Added, sum, a, b, i, j)
    requires i < |a| && j < |b| && LexLess(b[j].denom, a[i].denom)
    ensures Walked(Added, Extended(sum, b[j]), a, b, i, j + 1)
  {
    WalkRight(Added, sum, a, b, i, j);
    assert sum + [] == sum;
  }

  lemma {:induction false} MergeBoth(sum: Coins, a: Coins, b: Coins, i: int, j: int)
    requires Walked(Added, sum, a, b, i, j)
    requires i < |a| && j < |b| && a[i].denom == b[j].denom
    ensures Walked(Added, Extended(sum, Coin(a[i].denom, a[i].amount + b[j].amount)), a, b, i + 1, j + 1)
  {
    WalkBoth(Added, sum, a, b, i, j);
    assert sum + [] == sum;
  }

  lemma {:induction false} MergeEnds(sum: Coins, a: Coins, b: Coins, i: int, j: int)
    requires Walked(Added, sum, a, b, i, j)
    ensures i == |a| ==> Merged(a, b) == sum + CoinOps.NonZero(b[j..])
    ensures j == |b| ==> Merged(a, b) == sum + CoinOps.NonZero(a[i..])
    ensures i == |a| && j == |b| ==> Merged(a, b) == sum
  {
    MergedWithNothing(b[j..]);
    MergedWithNothing(a[i..]);
  }

  /** The sum of any two lists is the walk over both. */
  method SafeAdd(a: Coins, b: Coins) returns (sum: Coins)
    ensures sum == Merged(a, b)
  {
    sum := [];
    var i, j := 0, 0;
    WalkStart(Added, a, b);
    while true
      invariant 0 <= i <= |a| && 0 <= j <= |b|
      invariant Walked(Added, sum, a, b, i, j)
      decreases |a| + |b| - i - j
    {
      if i == |a| {
        MergeEnds(sum, a, b, i, j);
        if j == |b| {
          return;
        }
        var rest := RemoveZeroDecCoins(b[j..]);
        return sum + rest;
      } else if j == |b| {
        MergeEnds(sum, a, b, i, j);
        var rest := RemoveZeroDecCoins(a[i..]);
        return sum + rest;
      }
      LexTotal(a[i].denom, b[j].denom);
      if LexLess(a[i].denom, b[j].denom) {
        MergeLeft(sum, a, b, i, j);
        if a[i].amount != 0 {
          sum := sum + [a[i]];
        }
        i := i + 1;
      } else if a[i].denom == b[j].denom {
        MergeBoth(sum, a, b, i, j);
        var res := Coin(a[i].denom, a[i].amount + b[j].amount);
        if res.amount != 0 {
          sum := sum + [res];
        }
        i, j := i + 1, j + 1;
      } else {
        MergeRight(sum, a, b, i, j);
        if b[j].amount != 0 {
          sum := sum + [b[j]];
        }
        j := j + 1;
      }
    }
  }

  /** On valid sets the merge is the grouping sum, and valid. */
  lemma {:induction false} SumOfValid(a: Coins, b: Coins)
    requires Valid(a) && Valid(b)
    ensures Merged(a, b) == Plus(a, b) && Valid(Merged(a, b))
    ensures forall d :: Amount(Merged(a, b), d) == Amount(a, d) + Amount(b, d)
  {
    MergedIsPlus(a, b);
    PlusValid(a, b);
    PlusMeaning(a, b);
  }

  lemma NegatedStrict(c: Coins)
    requires StrictlySorted(c)
    ensures StrictlySorted(Negated(c))
  {
  }

  /** Unlike its integer counterpart, subtraction does not sanitise its second operand. */
  method SafeSub(a: Coins, b: Coins) returns (diff: Coins, negative: bool)
    ensures diff == Merged(a, Negated(b)) && negative == AnyNegative(diff)
    ensures StrictlySorted(a) && StrictlySorted(b) ==> diff == Minus(a, b) && (negative <==> !Covers(a, b))
  {
    var opposite := CoinOps.Negative(b);
    diff := SafeAdd(a, opposite);
    negative := CoinOps.IsAnyNegative(diff);
    if StrictlySorted(a) && StrictlySorted(b) {
      NegatedStrict(b);
      MergedIsPlus(a, opposite);
      MinusNegativeExactly(a, b);
    }
  }

  // ---- Validation ----

  ghost predicate SeenIn(seen: set<Denom>, c: Coins) {
    forall d :: d in seen <==> Mentions(c, d)
  }

  lemma {:induction false} SeenSnoc(seen: set<Denom>, c: Coins, k: nat)
    requires k < |c| && SeenIn(seen, c[..k])
    ensures SeenIn(seen + {c[k].denom}, c[..k + 1])
  {
    assert c[..k + 1] == c[..k] + [c[k]];
    forall d
      ensures d in seen + {c[k].denom} <==> Mentions(c[..k + 1], d)
    {
      CoinOps.MentionsAppend(c[..k], [c[k]], d);
      assert Mentions([c[k]], d) <==> [c[k]][0].denom == d;
    }
  }

  /** A repeated denomination is refused by the order alone. */
  lemma {:induction false} SeenIsUnsorted(c: Coins, k: nat)
    requires 0 < k < |c| && StrictlySorted(c[..k]) && Mentions(c[..k], c[k].denom)
    ensures !LexLess(c[k - 1].denom, c[k].denom)
  {
    var p := c[..k];
    var i :| 0 <= i < |p| && p[i].denom == c[k].denom;
    LexIrreflexive(c[k].denom);
    if i < k - 1 {
      assert LexLess(p[i].denom, p[k - 1].denom);
      LexAsymmetric(p[i].denom, p[k - 1].denom);
    }
  }

  method Validate(c: Coins) returns (ok: bool)
    ensures ok <==> Valid(c)
  {
    if |c| == 0 {
      return true;
    }
    if !ValidDenom(c[0].denom) || c[0].amount <= 0 {
      return false;
    }
    var lowDenom := c[0].denom;
    var seen := {lowDenom};
    SeenSnoc({}, c, 0);
    for k := 1 to |c|
      invariant Valid(c[..k]) && lowDenom == c[k - 1].denom && SeenIn(seen, c[..k])
    {
      CoinOps.ValidSnoc(c, k);
      CoinOps.ValidPrefix(c, k + 1);
      if c[k].denom in seen {
        SeenIsUnsorted(c, k);
        return false;
      }
      if !ValidDenom(c[k].denom) || !LexLess(lowDenom, c[k].denom) || c[k].amount <= 0 {
        return false;
      }
      SeenSnoc(seen, c, k);
      lowDenom := c[k].denom;
      seen := seen + {lowDenom};
    }
    assert c[..|c|] == c;
    return true;
  }

  // ---- Intersection ----

  /** The amount found by binary search; an ill-formed denomination panics. */
  function AmountOf(c: Coins, d: Denom): Option<int> {
    if ValidDenom(d) then Some(CoinOps.AmountFound(c, d)) else None
  }

  predicate AllDenomsValid(c: Coins) {
    forall i :: 0 <= i < |c| ==> ValidDenom(c[i].denom)
  }

  /** Every entry cut down to what the other set holds. */
  function Clipped(a: Coins, b: Coins): Coins {
    seq(|a|, i requires 0 <= i < |a| => Coin(a[i].denom, Smaller(a[i].amount, CoinOps.AmountFound(b, a[i].denom))))
  }

  method Intersect(a: Coins, b: Coins) returns (r: Option<Coins>)
    ensures r == if AllDenomsValid(a) then Some(CoinOps.NonZero(Clipped(a, b))) else None
  {
    var res := [];
    for i := 0 to |a|
      invariant AllDenomsValid(a[..i]) && res == Clipped(a, b)[..i]
    {
      var amount := AmountOf(b, a[i].denom);
      if amount.None? {
        return None;
      }
      res := res + [Coin(a[i].denom, Smaller(a[i].amount, amount.value))];
      assert a[..i + 1] == a[..i] + [a[i]];
    }
    assert a[..|a|] == a && Clipped(a, b)[..|a|] == Clipped(a, b);
    var list := RemoveZeroDecCoins(res);
    return Some(list);
  }

  lemma {:induction false} NonZeroAbove(c: Coins, low: Denom)
    requires Above(low, c)
    ensures Above(low, CoinOps.NonZero(c))
    decreases |c|
  {
    if c != [] {
      NonZeroAbove(c[1..], low);
    }
  }

  lemma {:induction false} NonZeroCanonical(c: Coins)
    requires StrictlySorted(c)
    ensures Canonical(CoinOps.NonZero(c))
    decreases |c|
  {
    if c != [] {
      StrictTail(c);
      NonZeroCanonical(c[1..]);
      NonZeroAbove(c[1..], c[0].denom);
      ConsCanonical(c[0], CoinOps.NonZero(c[1..]));
    }
  }

  lemma {:induction false} ClippedAmount(a: Coins, b: Coins, d: Denom)
    requires Valid(a) && Valid(b)
    ensures StrictlySorted(Clipped(a, b))
    ensures Amount(Clipped(a, b), d) == Smaller(Amount(a, d), Amount(b, d))
  {
    var c := Clipped(a, b);
    if Mentions(a, d) {
      var i :| 0 <= i < |a| && a[i].denom == d;
      AmountAt(a, i);
      AmountAt(c, i);
      CoinOps.FindAgrees(b, d);
    } else {
      forall i | 0 <= i < |c|
        ensures c[i].denom != d
      {
        assert a[i].denom != d;
      }
      AmountAbsent(a, d);
      AmountAbsent(c, d);
      ValidIsCanonical(b);
    }
  }

  /** The intersection of valid sets is their minimum. */
  lemma {:induction false} IntersectionIsMinimum(a: Coins, b: Coins)
    requires Valid(a) && Valid(b)
    ensures AllDenomsValid(a) && CoinOps.NonZero(Clipped(a, b)) == MinOf(a, b)
  {
    ClippedAmount(a, b, []);
    NonZeroCanonical(Clipped(a, b));
    MinMeaning(a, b);
    ValidIsCanonical(MinOf(a, b));
    forall d
      ensures Amount(CoinOps.NonZero(Clipped(a, b)), d) == Amount(MinOf(a, b), d)
    {
      ClippedAmount(a, b, d);
      CoinOps.NonZeroAmount(Clipped(a, b), d);
    }
    CanonicalUnique(CoinOps.NonZero(Clipped(a, b)), MinOf(a, b));
  }

  // ---- Truncation ----

  /** Division that truncates toward zero. */
  function TruncateInt(x: int): int {
    if x >= 0 then x / UNIT else -(-x / UNIT)
  }

  /** What is left over has the sign of the whole and is less than one unit. */
  lemma {:induction false} TruncatesTowardZero(x: int)
    ensures var rest := x - TruncateInt(x) * UNIT;
            if x >= 0 then 0 <= rest < UNIT && TruncateInt(x) >= 0 else -UNIT < rest <= 0 && TruncateInt(x) <= 0
  {
  }

  function WholePart(c: Coin): Coin {
    Coin(c.denom, TruncateInt(c.amount))
  }

  function ChangePart(c: Coin): Coin {
    Coin(c.denom, c.amount - TruncateInt(c.amount) * UNIT)
  }

  /** A coin splits into whole coins and a fraction, and panics on a negative amount or an ill-formed denomination. */
  method TruncateCoin(c: Coin) returns (r: Option<(Coin, Coin)>)
    ensures r == if Splittable(c) then Some((WholePart(c), ChangePart(c))) else None
    ensures r.Some? ==> r.value.0.amount * UNIT + r.value.1.amount == c.amount
    ensures r.Some? ==> r.value.0.amount >= 0 && 0 <= r.value.1.amount < UNIT
  {
    var truncated := TruncateInt(c.amount);
    var change := c.amount - truncated * UNIT;
    if !ValidDenom(c.denom) || truncated < 0 {
      return None;
    }
    if !ValidDenom(c.denom) || change < 0 {
      return None;
    }
    return Some((Coin(c.denom, truncated), Coin(c.denom, change)));
  }

  predicate Splittable(c: Coin) {
    ValidDenom(c.denom) && c.amount >= 0
  }

  predicate Truncatable(c: Coins) {
    forall i :: 0 <= i < |c| ==> Splittable(c[i])
  }

  function Wholes(c: Coins): Coins {
    seq(|c|, i requires 0 <= i < |c| => WholePart(c[i]))
  }

  function Changes(c: Coins): Coins {
    seq(|c|, i requires 0 <= i < |c| => ChangePart(c[i]))
  }

  /** Adding one more coin to a collected set collects one more coin. */
  lemma {:induction false} CollectSnoc(xs: Coins, c: Coin)
    ensures Canonical(Collect(xs)) && Plus(Collect(xs), [c]) == Collect(xs + [c])
    ensures c.amount == 0 ==> Collect(xs) == Collect(xs + [c])
  {
    CollectMeaning(xs);
    CollectMeaning(xs + [c]);
    PlusMeaning(Collect(xs), [c]);
    forall d
      ensures Amount(xs + [c], d) == Amount(xs, d) + Amount([c], d)
    {
      AmountAppend(xs, [c], d);
    }
    CanonicalUnique(Plus(Collect(xs), [c]), Collect(xs + [c]));
    if c.amount == 0 {
      assert forall d :: Amount([c], d) == 0;
      assert forall d :: Amount(xs + [c], d) == Amount(xs, d);
      CanonicalUnique(Collect(xs), Collect(xs + [c]));
    }
  }

  /** A set with one more part, zero parts being skipped. */
  function WithPart(s: Coins, part: Coin): Coins {
    if part.amount != 0 then Plus(s, [part]) else s
  }

  /** What one more coin does to the collected parts. */
  lemma {:induction false} PartsSnoc(c: Coins, i: nat)
    requires i < |c|
    ensures Canonical(Collect(Wholes(c[..i]))) && Canonical(Collect(Changes(c[..i])))
    ensures Collect(Wholes(c[..i + 1])) == WithPart(Collect(Wholes(c[..i])), WholePart(c[i]))
    ensures Collect(Changes(c[..i + 1])) == WithPart(Collect(Changes(c[..i])), ChangePart(c[i]))
  {
    assert Wholes(c[..i + 1]) == Wholes(c[..i]) + [WholePart(c[i])];
    assert Changes(c[..i + 1]) == Changes(c[..i]) + [ChangePart(c[i])];
    CollectSnoc(Wholes(c[..i]), WholePart(c[i]));
    CollectSnoc(Changes(c[..i]), ChangePart(c[i]));
  }

  /** One coin added to a canonical set by grouping. */
  method AddWhole(whole: Coins, c: Coin) returns (r: Coins)
    requires Canonical(whole)
    ensures r == Plus(whole, [c])
  {
    CoinOps.StrictIsSorted(whole);
    var sum := CoinOps.SafeAdd(whole, [c]);
    r := sum.value;
  }

  /** One coin added to a canonical set by merging. */
  method AddChange(change: Coins, c: Coin) returns (r: Coins)
    requires Canonical(change)
    ensures r == Plus(change, [c])
  {
    MergedIsPlus(change, [c]);
    r := SafeAdd(change, [c]);
  }

  /** One turn of the loop: whole coins are added by grouping and fractions by merging, zeros are skipped. */
  method AddParts(whole: Coins, change: Coins, c: Coin) returns (r: Option<(Coins, Coins)>)
    requires Canonical(whole) && Canonical(change)
    ensures r == if Splittable(c) then Some((WithPart(whole, WholePart(c)), WithPart(change, ChangePart(c)))) else None
  {
    var parts := TruncateCoin(c);
    if parts.None? {
      return None;
    }
    var w, g := whole, change;
    if parts.value.0.amount != 0 {
      w := AddWhole(w, parts.value.0);
    }
    if parts.value.1.amount != 0 {
      g := AddChange(g, parts.value.1);
    }
    return Some((w, g));
  }

  /** The sums after the first `i` coins, all of which could be split. */
  ghost predicate Parted(c: Coins, i: nat, whole: Coins, change: Coins)
    requires i <= |c|
  {
    Truncatable(c[..i]) && whole == Collect(Wholes(c[..i])) && change == Collect(Changes(c[..i]))
  }

  lemma {:induction false} PartedNext(c: Coins, i: nat, whole: Coins, change: Coins)
    requires i < |c| && Parted(c, i, whole, change)
    ensures Canonical(whole) && Canonical(change)
    ensures Splittable(c[i]) ==> Parted(c, i + 1, WithPart(whole, WholePart(c[i])), WithPart(change, ChangePart(c[i])))
  {
    PartsSnoc(c, i);
    assert c[..i + 1] == c[..i] + [c[i]];
  }

  /** Both sums over the coins of any list; a coin that cannot be split panics. */
  method TruncateDecimal(c: Coins) returns (r: Option<(Coins, Coins)>)
    ensures r == if Truncatable(c) then Some((Collect(Wholes(c)), Collect(Changes(c)))) else None
  {
    var whole: Coins, change: Coins := [], [];
    for i := 0 to |c|
      invariant Parted(c, i, whole, change)
    {
      PartedNext(c, i, whole, change);
      var next := AddParts(whole, change, c[i]);
      if next.None? {
        return None;
      }
      whole, change := next.value.0, next.value.1;
    }
    assert c[..|c|] == c;
    return Some((whole, change));
  }

  lemma {:induction false} PartsConserve(c: Coins, d: Denom)
    ensures Amount(Wholes(c), d) * UNIT + Amount(Changes(c), d) == Amount(c, d)
    decreases |c|
  {
    if c != [] {
      PartsConserve(c[1..], d);
      assert Wholes(c)[1..] == Wholes(c[1..]) && Changes(c)[1..] == Changes(c[1..]);
    }
  }

  /** Nothing is created or lost: for any list, in any order and with repeats. */
  lemma {:induction false} TruncationConserves(c: Coins)
    ensures forall d :: Amount(Collect(Wholes(c)), d) * UNIT + Amount(Collect(Changes(c)), d) == Amount(c, d)
    ensures Canonical(Collect(Wholes(c))) && Canonical(Collect(Changes(c)))
  {
    CollectMeaning(Wholes(c));
    CollectMeaning(Changes(c));
    forall d
      ensures Amount(Collect(Wholes(c)), d) * UNIT + Amount(Collect(Changes(c)), d) == Amount(c, d)
    {
      PartsConserve(c, d);
    }
  }

  lemma {:induction false} PartAmounts(c: Coins, d: Denom)
    requires Valid(c)
    ensures Amount(Wholes(c), d) == Amount(c, d) / UNIT
    ensures Amount(Changes(c), d) == Amount(c, d) % UNIT
  {
    if Mentions(c, d) {
      var i :| 0 <= i < |c| && c[i].denom == d;
      AmountAt(c, i);
      AmountAt(Wholes(c), i);
      AmountAt(Changes(c), i);
    } else {
      AmountAbsent(c, d);
      forall i | 0 <= i < |c|
        ensures Wholes(c)[i].denom != d && Changes(c)[i].denom != d
      {
        assert c[i].denom != d;
      }
      AmountAbsent(Wholes(c), d);
      AmountAbsent(Changes(c), d);
    }
  }

  /** A valid set splits into valid sets of whole coins and of fractions below one. */
  lemma {:induction false} TruncationExact(c: Coins)
    requires Valid(c)
    ensures Truncatable(c) && Valid(Collect(Wholes(c))) && Valid(Collect(Changes(c)))
    ensures forall d :: Amount(Collect(Wholes(c)), d) == Amount(c, d) / UNIT
    ensures forall d :: Amount(Collect(Changes(c)), d) == Amount(c, d) % UNIT
  {
    var w, g := Collect(Wholes(c)), Collect(Changes(c));
    CollectMeaning(Wholes(c));
    CollectMeaning(Changes(c));
    ValidIsCanonical(c);
    var f, h := d => Amount(w, d), d => Amount(g, d);
    forall d
      ensures f(d) == Amount(c, d) / UNIT && h(d) == Amount(c, d) % UNIT
    {
      PartAmounts(c, d);
    }
    assert Sound(f) && Sound(h);
    ValidExactly(w);
    ValidExactly(g);
  }
}
