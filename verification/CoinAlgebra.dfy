/** The laws of coin-set arithmetic, stated on what the sets denote. */
module CoinAlgebra {
  import opened Words
  import opened Lex
  import opened CoinSets

  // ---- Addition: one coin at a time into a canonical set ----

  function Single(c: Coin): Coins {
    if c.amount == 0 then [] else [c]
  }

  function Insert(c: Coin, s: Coins): Coins {
    if s == [] then Single(c)
    else if c.denom == s[0].denom then Single(Coin(c.denom, c.amount + s[0].amount)) + s[1..]
    else if LexLess(c.denom, s[0].denom) then Single(c) + s
    else [s[0]] + Insert(c, s[1..])
  }

  /** The canonical set with the amounts of an arbitrary list. */
  function Collect(xs: Coins): Coins {
    if xs == [] then [] else Insert(xs[0], Collect(xs[1..]))
  }

  function Plus(a: Coins, b: Coins): Coins {
    Collect(a + b)
  }

  function Negated(a: Coins): Coins {
    seq(|a|, i requires 0 <= i < |a| => Coin(a[i].denom, -a[i].amount))
  }

  function Minus(a: Coins, b: Coins): Coins {
    Plus(a, Negated(b))
  }

  /** A list continued by a coin below everything in it. */
  lemma ConsCanonical(c: Coin, s: Coins)
    requires Canonical(s) && forall i :: 0 <= i < |s| ==> LexLess(c.denom, s[i].denom)
    ensures Canonical(Single(c) + s)
  {
  }

  lemma {:induction false} InsertBound(low: Denom, c: Coin, s: Coins)
    requires LexLess(low, c.denom) && forall i :: 0 <= i < |s| ==> LexLess(low, s[i].denom)
    ensures forall i :: 0 <= i < |Insert(c, s)| ==> LexLess(low, Insert(c, s)[i].denom)
    decreases |s|
  {
    if s != [] {
      InsertBound(low, c, s[1..]);
    }
  }

  lemma {:induction false} InsertCanonical(c: Coin, s: Coins)
    requires Canonical(s)
    ensures Canonical(Insert(c, s))
    decreases |s|
  {
    if s != [] {
      StrictTail(s);
      LexTotal(c.denom, s[0].denom);
      if c.denom == s[0].denom {
        ConsCanonical(Coin(c.denom, c.amount + s[0].amount), s[1..]);
      } else if LexLess(c.denom, s[0].denom) {
        forall i | 0 <= i < |s|
          ensures LexLess(c.denom, s[i].denom)
        {
          if i > 0 {
            LexTransitive(c.denom, s[0].denom, s[i].denom);
          }
        }
        ConsCanonical(c, s);
      } else {
        InsertCanonical(c, s[1..]);
        InsertBound(s[0].denom, c, s[1..]);
        ConsCanonical(s[0], Insert(c, s[1..]));
      }
    }
  }

  lemma {:induction false} InsertAmount(c: Coin, s: Coins, d: Denom)
    ensures Amount(Insert(c, s), d) == Amount([c], d) + Amount(s, d)
    decreases |s|
  {
    if s != [] {
      if c.denom == s[0].denom {
        AmountAppend(Single(Coin(c.denom, c.amount + s[0].amount)), s[1..], d);
      } else if LexLess(c.denom, s[0].denom) {
        AmountAppend(Single(c), s, d);
      } else {
        InsertAmount(c, s[1..], d);
        AmountAppend([s[0]], Insert(c, s[1..]), d);
      }
    }
  }

  lemma {:induction false} CollectMeaning(xs: Coins)
    ensures Canonical(Collect(xs))
    ensures forall d :: Amount(Collect(xs), d) == Amount(xs, d)
    decreases |xs|
  {
    if xs != [] {
      CollectMeaning(xs[1..]);
      InsertCanonical(xs[0], Collect(xs[1..]));
      forall d
        ensures Amount(Collect(xs), d) == Amount(xs, d)
      {
        InsertAmount(xs[0], Collect(xs[1..]), d);
      }
    }
  }

  lemma {:induction false} PlusMeaning(a: Coins, b: Coins)
    ensures Canonical(Plus(a, b))
    ensures forall d :: Amount(Plus(a, b), d) == Amount(a, d) + Amount(b, d)
  {
    CollectMeaning(a + b);
    forall d
      ensures Amount(Plus(a, b), d) == Amount(a, d) + Amount(b, d)
    {
      AmountAppend(a, b, d);
    }
  }

  lemma {:induction false} NegatedAmount(a: Coins, d: Denom)
    ensures Amount(Negated(a), d) == -Amount(a, d)
    decreases |a|
  {
    if a != [] {
      NegatedAmount(a[1..], d);
      assert Negated(a)[1..] == Negated(a[1..]);
    }
  }

  lemma {:induction false} MinusMeaning(a: Coins, b: Coins)
    ensures Canonical(Minus(a, b))
    ensures forall d :: Amount(Minus(a, b), d) == Amount(a, d) - Amount(b, d)
  {
    PlusMeaning(a, Negated(b));
    forall d
      ensures Amount(Minus(a, b), d) == Amount(a, d) - Amount(b, d)
    {
      NegatedAmount(b, d);
    }
  }

  // ---- The group laws, for every list of coins ----

  lemma {:induction false} PlusCommutes(a: Coins, b: Coins)
    ensures Plus(a, b) == Plus(b, a)
  {
    PlusMeaning(a, b);
    PlusMeaning(b, a);
    CanonicalUnique(Plus(a, b), Plus(b, a));
  }

  lemma {:induction false} PlusAssociates(a: Coins, b: Coins, c: Coins)
    ensures Plus(Plus(a, b), c) == Plus(a, Plus(b, c))
  {
    PlusMeaning(a, b);
    PlusMeaning(Plus(a, b), c);
    PlusMeaning(b, c);
    PlusMeaning(a, Plus(b, c));
    CanonicalUnique(Plus(Plus(a, b), c), Plus(a, Plus(b, c)));
  }

  lemma {:induction false} PlusNothing(a: Coins)
    requires Canonical(a)
    ensures Plus(a, []) == a
  {
    PlusMeaning(a, []);
    CanonicalUnique(Plus(a, []), a);
  }

  /** Adding and then subtracting gives back the set, whatever was added. */
  lemma {:induction false} MinusUndoesPlus(a: Coins, b: Coins)
    requires Canonical(a)
    ensures Minus(Plus(a, b), b) == a
    ensures Plus(Minus(a, b), b) == a
  {
    PlusMeaning(a, b);
    MinusMeaning(Plus(a, b), b);
    CanonicalUnique(Minus(Plus(a, b), b), a);
    MinusMeaning(a, b);
    PlusMeaning(Minus(a, b), b);
    CanonicalUnique(Plus(Minus(a, b), b), a);
  }

  // ---- Validity ----

  /** The amounts of a valid set: none negative, and only of well-formed denominations. */
  ghost predicate Sound(f: Denom -> int) {
    forall d :: f(d) >= 0 && (f(d) > 0 ==> ValidDenom(d))
  }

  /** A canonical set is valid exactly when its amounts are sound. */
  lemma {:induction false} ValidExactly(c: Coins)
    requires Canonical(c)
    ensures Valid(c) <==> Sound(d => Amount(c, d))
  {
    if Valid(c) {
      ValidIsCanonical(c);
    }
    if Sound(d => Amount(c, d)) {
      forall i | 0 <= i < |c|
        ensures c[i].amount > 0 && ValidDenom(c[i].denom)
      {
        AmountAt(c, i);
        assert (d => Amount(c, d))(c[i].denom) == c[i].amount;
      }
    }
  }

  /** Addition yields a valid set exactly when the summed amounts are sound. */
  lemma {:induction false} PlusValidExactly(a: Coins, b: Coins)
    ensures Valid(Plus(a, b)) <==> Sound(d => Amount(a, d) + Amount(b, d))
  {
    PlusMeaning(a, b);
    ValidExactly(Plus(a, b));
    var f, g := d => Amount(Plus(a, b), d), d => Amount(a, d) + Amount(b, d);
    assert forall d :: f(d) == g(d);
    assert Sound(f) <==> Sound(g);
  }

  lemma {:induction false} PlusValid(a: Coins, b: Coins)
    requires Valid(a) && Valid(b)
    ensures Valid(Plus(a, b))
  {
    ValidIsCanonical(a);
    ValidIsCanonical(b);
    PlusValidExactly(a, b);
  }

  /** The documented promise that a sum is always valid fails on a negative input. */
  lemma {:induction false} PlusCanBeInvalid(d: Denom)
    ensures Plus([Coin(d, -1)], []) == [Coin(d, -1)]
    ensures !Valid(Plus([Coin(d, -1)], []))
  {
    PlusNothing([Coin(d, -1)]);
  }

  // ---- Order and subtraction ----

  /** At least as much of everything. */
  ghost predicate Covers(a: Coins, b: Coins) {
    forall d :: Amount(a, d) >= Amount(b, d)
  }

  predicate AnyNegative(c: Coins) {
    exists i :: 0 <= i < |c| && c[i].amount < 0
  }

  /** A negative amount shows as a negative entry. */
  lemma {:induction false} NegativeShows(c: Coins, d: Denom)
    requires StrictlySorted(c) && Amount(c, d) < 0
    ensures AnyNegative(c)
  {
    if !Mentions(c, d) {
      AmountAbsent(c, d);
    } else {
      var i :| 0 <= i < |c| && c[i].denom == d;
      AmountAt(c, i);
    }
  }

  /** Subtraction reports a negative amount exactly when the subtrahend is not covered. */
  lemma {:induction false} MinusNegativeExactly(a: Coins, b: Coins)
    ensures AnyNegative(Minus(a, b)) <==> !Covers(a, b)
  {
    MinusMeaning(a, b);
    var diff := Minus(a, b);
    if !Covers(a, b) {
      var d :| Amount(a, d) < Amount(b, d);
      NegativeShows(diff, d);
    }
    if AnyNegative(diff) {
      var i :| 0 <= i < |diff| && diff[i].amount < 0;
      AmountAt(diff, i);
    }
  }

  lemma {:induction false} MinusValid(a: Coins, b: Coins)
    requires Valid(a) && Valid(b)
    ensures Valid(Minus(a, b)) <==> Covers(a, b)
  {
    ValidIsCanonical(a);
    ValidIsCanonical(b);
    MinusMeaning(a, b);
    MinusNegativeExactly(a, b);
    ValidExactly(Minus(a, b));
    if Covers(a, b) {
      var f := d => Amount(Minus(a, b), d);
      forall d
        ensures f(d) >= 0 && (f(d) > 0 ==> ValidDenom(d))
      {
        assert Amount(a, d) >= Amount(b, d) >= 0;
      }
      assert Sound(f);
    } else {
      assert AnyNegative(Minus(a, b));
    }
  }

  // ---- Merging two sorted lists with an operation on amounts ----

  /** The two-pointer walk: a missing denomination counts as zero and zero results are dropped. */
  function Pointwise(f: (int, int) -> int, a: Coins, b: Coins): Coins
    decreases |a| + |b|
  {
    if a == [] && b == [] then []
    else if b == [] || (a != [] && LexLess(a[0].denom, b[0].denom)) then
      Single(Coin(a[0].denom, f(a[0].amount, 0))) + Pointwise(f, a[1..], b)
    else if a == [] || LexLess(b[0].denom, a[0].denom) then
      Single(Coin(b[0].denom, f(0, b[0].amount))) + Pointwise(f, a, b[1..])
    else
      Single(Coin(a[0].denom, f(a[0].amount, b[0].amount))) + Pointwise(f, a[1..], b[1..])
  }

  predicate Above(low: Denom, c: Coins) {
    forall i :: 0 <= i < |c| ==> LexLess(low, c[i].denom)
  }

  lemma {:induction false} PointwiseAbove(f: (int, int) -> int, a: Coins, b: Coins, low: Denom)
    requires Above(low, a) && Above(low, b)
    ensures Above(low, Pointwise(f, a, b))
    decreases |a| + |b|
  {
    if a == [] && b == [] {
    } else if b == [] || (a != [] && LexLess(a[0].denom, b[0].denom)) {
      PointwiseAbove(f, a[1..], b, low);
    } else if a == [] || LexLess(b[0].denom, a[0].denom) {
      PointwiseAbove(f, a, b[1..], low);
    } else {
      PointwiseAbove(f, a[1..], b[1..], low);
    }
  }

  /** What lies above a head also lies above anything below that head. */
  lemma {:induction false} AboveHead(low: Denom, c: Coins)
    requires StrictlySorted(c) && (c != [] ==> LexLess(low, c[0].denom))
    ensures Above(low, c)
  {
    forall i | 0 <= i < |c|
      ensures LexLess(low, c[i].denom)
    {
      if i > 0 {
        LexTransitive(low, c[0].denom, c[i].denom);
      }
    }
  }

  lemma {:induction false} PointwiseCanonical(f: (int, int) -> int, a: Coins, b: Coins)
    requires StrictlySorted(a) && StrictlySorted(b)
    ensures Canonical(Pointwise(f, a, b))
    decreases |a| + |b|
  {
    if a == [] && b == [] {
    } else if b == [] || (a != [] && LexLess(a[0].denom, b[0].denom)) {
      StrictTail(a);
      AboveHead(a[0].denom, b);
      PointwiseCanonical(f, a[1..], b);
      PointwiseAbove(f, a[1..], b, a[0].denom);
      ConsCanonical(Coin(a[0].denom, f(a[0].amount, 0)), Pointwise(f, a[1..], b));
    } else if a == [] || LexLess(b[0].denom, a[0].denom) {
      StrictTail(b);
      AboveHead(b[0].denom, a);
      PointwiseCanonical(f, a, b[1..]);
      PointwiseAbove(f, a, b[1..], b[0].denom);
      ConsCanonical(Coin(b[0].denom, f(0, b[0].amount)), Pointwise(f, a, b[1..]));
    } else {
      LexTotal(a[0].denom, b[0].denom);
      StrictTail(a);
      StrictTail(b);
      PointwiseCanonical(f, a[1..], b[1..]);
      PointwiseAbove(f, a[1..], b[1..], a[0].denom);
      ConsCanonical(Coin(a[0].denom, f(a[0].amount, b[0].amount)), Pointwise(f, a[1..], b[1..]));
    }
  }

  /** One coin in front: its own denomination, or the rest. */
  lemma {:induction false} AmountCons(c: Coin, s: Coins, d: Denom)
    ensures Amount(Single(c) + s, d) == (if c.denom == d then c.amount else 0) + Amount(s, d)
  {
    AmountAppend(Single(c), s, d);
  }

  /** The amounts of a sorted set past its first entry. */
  lemma {:induction false} AmountPastHead(a: Coins, d: Denom)
    requires StrictlySorted(a) && a != []
    ensures StrictlySorted(a[1..])
    ensures d == a[0].denom ==> Amount(a, d) == a[0].amount && Amount(a[1..], d) == 0
    ensures d != a[0].denom ==> Amount(a, d) == Amount(a[1..], d)
  {
    StrictTail(a);
    AmountAbsent(a[1..], a[0].denom);
  }

  lemma {:induction false} PointwiseAmount(f: (int, int) -> int, a: Coins, b: Coins, d: Denom)
    requires StrictlySorted(a) && StrictlySorted(b) && f(0, 0) == 0
    ensures Amount(Pointwise(f, a, b), d) == f(Amount(a, d), Amount(b, d))
    decreases |a| + |b|
  {
    if a == [] && b == [] {
    } else if b == [] || (a != [] && LexLess(a[0].denom, b[0].denom)) {
      AmountPastHead(a, d);
      AmountBelow(b, a[0].denom);
      PointwiseAmount(f, a[1..], b, d);
      AmountCons(Coin(a[0].denom, f(a[0].amount, 0)), Pointwise(f, a[1..], b), d);
    } else if a == [] || LexLess(b[0].denom, a[0].denom) {
      AmountPastHead(b, d);
      AmountBelow(a, b[0].denom);
      PointwiseAmount(f, a, b[1..], d);
      AmountCons(Coin(b[0].denom, f(0, b[0].amount)), Pointwise(f, a, b[1..]), d);
    } else {
      LexTotal(a[0].denom, b[0].denom);
      AmountPastHead(a, d);
      AmountPastHead(b, d);
      PointwiseAmount(f, a[1..], b[1..], d);
      AmountCons(Coin(a[0].denom, f(a[0].amount, b[0].amount)), Pointwise(f, a[1..], b[1..]), d);
    }
  }

  /** A walk that has passed `i` and `j` entries and produced `list`. */
  ghost predicate Walked(f: (int, int) -> int, list: Coins, a: Coins, b: Coins, i: int, j: int) {
    0 <= i <= |a| && 0 <= j <= |b| && list + Pointwise(f, a[i..], b[j..]) == Pointwise(f, a, b)
  }

  lemma {:induction false} WalkStart(f: (int, int) -> int, a: Coins, b: Coins)
    ensures Walked(f, [], a, b, 0, 0)
  {
    assert a[0..] == a && b[0..] == b;
    assert [] + Pointwise(f, a, b) == Pointwise(f, a, b);
  }

  lemma {:induction false} WalkLeft(f: (int, int) -> int, list: Coins, a: Coins, b: Coins, i: int, j: int)
    requires Walked(f, list, a, b, i, j)
    requires i < |a| && (j == |b| || LexLess(a[i].denom, b[j].denom))
    ensures Walked(f, list + Single(Coin(a[i].denom, f(a[i].amount, 0))), a, b, i + 1, j)
  {
    assert a[i..][1..] == a[i + 1..];
    var x, rest := Single(Coin(a[i].denom, f(a[i].amount, 0))), Pointwise(f, a[i + 1..], b[j..]);
    assert list + (x + rest) == (list + x) + rest;
  }

  lemma {:induction false} WalkRight(f: (int, int) -> int, list: Coins, a: Coins, b: Coins, i: int, j: int)
    requires Walked(f, list, a, b, i, j)
    requires j < |b| && (i == |a| || LexLess(b[j].denom, a[i].denom))
    ensures Walked(f, list + Single(Coin(b[j].denom, f(0, b[j].amount))), a, b, i, j + 1)
  {
    if i < |a| {
      LexAsymmetric(b[j].denom, a[i].denom);
    }
    assert b[j..][1..] == b[j + 1..];
    var x, rest := Single(Coin(b[j].denom, f(0, b[j].amount))), Pointwise(f, a[i..], b[j + 1..]);
    assert list + (x + rest) == (list + x) + rest;
  }

  lemma {:induction false} WalkBoth(f: (int, int) -> int, list: Coins, a: Coins, b: Coins, i: int, j: int)
    requires Walked(f, list, a, b, i, j)
    requires i < |a| && j < |b| && a[i].denom == b[j].denom
    ensures Walked(f, list + Single(Coin(a[i].denom, f(a[i].amount, b[j].amount))), a, b, i + 1, j + 1)
  {
    LexIrreflexive(a[i].denom);
    assert a[i..][1..] == a[i + 1..] && b[j..][1..] == b[j + 1..];
    var x, rest := Single(Coin(a[i].denom, f(a[i].amount, b[j].amount))), Pointwise(f, a[i + 1..], b[j + 1..]);
    assert list + (x + rest) == (list + x) + rest;
  }

  // ---- Maximum, minimum and the two-pointer sum ----

  function Larger(x: int, y: int): int {
    if y > x then y else x
  }

  function Smaller(x: int, y: int): int {
    if y < x then y else x
  }

  function Added(x: int, y: int): int {
    x + y
  }

  function MaxOf(a: Coins, b: Coins): Coins {
    Pointwise(Larger, a, b)
  }

  function MinOf(a: Coins, b: Coins): Coins {
    Pointwise(Smaller, a, b)
  }

  function Merged(a: Coins, b: Coins): Coins {
    Pointwise(Added, a, b)
  }

  lemma {:induction false} MaxMeaning(a: Coins, b: Coins)
    requires Valid(a) && Valid(b)
    ensures Valid(MaxOf(a, b))
    ensures forall d :: Amount(MaxOf(a, b), d) == Larger(Amount(a, d), Amount(b, d))
  {
    PointwiseCanonical(Larger, a, b);
    forall d
      ensures Amount(MaxOf(a, b), d) == Larger(Amount(a, d), Amount(b, d))
    {
      PointwiseAmount(Larger, a, b, d);
    }
    ValidIsCanonical(a);
    ValidIsCanonical(b);
    ValidExactly(MaxOf(a, b));
    var f := d => Amount(MaxOf(a, b), d);
    assert forall d :: f(d) == Larger(Amount(a, d), Amount(b, d));
    assert Sound(f);
  }

  lemma {:induction false} MinMeaning(a: Coins, b: Coins)
    requires Valid(a) && Valid(b)
    ensures Valid(MinOf(a, b))
    ensures forall d :: Amount(MinOf(a, b), d) == Smaller(Amount(a, d), Amount(b, d))
  {
    PointwiseCanonical(Smaller, a, b);
    forall d
      ensures Amount(MinOf(a, b), d) == Smaller(Amount(a, d), Amount(b, d))
    {
      PointwiseAmount(Smaller, a, b, d);
    }
    ValidIsCanonical(a);
    ValidIsCanonical(b);
    ValidExactly(MinOf(a, b));
    var f := d => Amount(MinOf(a, b), d);
    assert forall d :: f(d) == Smaller(Amount(a, d), Amount(b, d));
    assert Sound(f);
  }

  /** The maximum is the least upper bound of the pointwise order. */
  lemma {:induction false} MaxIsLeastUpperBound(a: Coins, b: Coins, c: Coins)
    requires Valid(a) && Valid(b)
    ensures Covers(MaxOf(a, b), a) && Covers(MaxOf(a, b), b)
    ensures Covers(c, a) && Covers(c, b) <==> Covers(c, MaxOf(a, b))
  {
    MaxMeaning(a, b);
  }

  /** The minimum is the greatest lower bound of the pointwise order. */
  lemma {:induction false} MinIsGreatestLowerBound(a: Coins, b: Coins, c: Coins)
    requires Valid(a) && Valid(b)
    ensures Covers(a, MinOf(a, b)) && Covers(b, MinOf(a, b))
    ensures Covers(a, c) && Covers(b, c) <==> Covers(MinOf(a, b), c)
  {
    MinMeaning(a, b);
  }

  /** A sum splits into the minimum and the maximum. */
  lemma {:induction false} SumOfMinAndMax(a: Coins, b: Coins)
    requires Valid(a) && Valid(b)
    ensures Plus(a, b) == Plus(MinOf(a, b), MaxOf(a, b))
  {
    PlusMeaning(a, b);
    MinMeaning(a, b);
    MaxMeaning(a, b);
    PlusMeaning(MinOf(a, b), MaxOf(a, b));
    CanonicalUnique(Plus(a, b), Plus(MinOf(a, b), MaxOf(a, b)));
  }

  /** The two-pointer sum of decimal coins is the grouping sum of coins. */
  lemma {:induction false} MergedIsPlus(a: Coins, b: Coins)
    requires StrictlySorted(a) && StrictlySorted(b)
    ensures Merged(a, b) == Plus(a, b)
  {
    PointwiseCanonical(Added, a, b);
    PlusMeaning(a, b);
    forall d
      ensures Amount(Merged(a, b), d) == Amount(Plus(a, b), d)
    {
      PointwiseAmount(Added, a, b, d);
    }
    CanonicalUnique(Merged(a, b), Plus(a, b));
  }
}
