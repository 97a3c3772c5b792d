/** Coin sets and what they denote: an amount per denomination. */
module CoinSets {
  import opened Words
  import opened Lex

  type Denom = Bytes

  datatype Coin = Coin(denom: Denom, amount: int)

  type Coins = seq<Coin>

  predicate IsLetter(b: Byte) {
    0x41 <= b <= 0x5a || 0x61 <= b <= 0x7a
  }

  predicate IsDenomByte(b: Byte) {
    IsLetter(b) || 0x30 <= b <= 0x39 || b == 0x2f || b == 0x3a || b == 0x2e || b == 0x5f || b == 0x2d
  }

  /** The default denomination pattern: a letter and then 2 to 127 letters, digits or `/:._-`. */
  predicate ValidDenom(d: Denom) {
    3 <= |d| <= 128 && IsLetter(d[0]) && forall i :: 1 <= i < |d| ==> IsDenomByte(d[i])
  }

  /** The total amount of a denomination in a list of coins, whatever its order. */
  function Amount(c: Coins, d: Denom): int {
    if c == [] then 0 else (if c[0].denom == d then c[0].amount else 0) + Amount(c[1..], d)
  }

  predicate Sorted(c: Coins) {
    forall i :: 0 < i < |c| ==> !LexLess(c[i].denom, c[i - 1].denom)
  }

  predicate StrictlySorted(c: Coins) {
    forall i, j :: 0 <= i < j < |c| ==> LexLess(c[i].denom, c[j].denom)
  }

  /** Sorted, without duplicates and without zeros: one representation per meaning. */
  predicate Canonical(c: Coins) {
    StrictlySorted(c) && forall i :: 0 <= i < |c| ==> c[i].amount != 0
  }

  /** What `Validate` accepts. */
  predicate Valid(c: Coins) {
    StrictlySorted(c) && forall i :: 0 <= i < |c| ==> c[i].amount > 0 && ValidDenom(c[i].denom)
  }

  predicate Mentions(c: Coins, d: Denom) {
    exists i :: 0 <= i < |c| && c[i].denom == d
  }

  // ---- Amounts ----

  lemma {:induction false} AmountAppend(a: Coins, b: Coins, d: Denom)
    ensures Amount(a + b, d) == Amount(a, d) + Amount(b, d)
    decreases |a|
  {
    if a == [] {
      assert a + b == b;
    } else {
      AmountAppend(a[1..], b, d);
      assert (a + b)[1..] == a[1..] + b;
    }
  }

  lemma {:induction false} AmountAbsent(c: Coins, d: Denom)
    requires !Mentions(c, d)
    ensures Amount(c, d) == 0
    decreases |c|
  {
    if c != [] {
      assert c[0].denom != d;
      forall i | 0 <= i < |c[1..]|
        ensures c[1..][i].denom != d
      {
        assert c[1..][i] == c[i + 1];
      }
      AmountAbsent(c[1..], d);
    }
  }

  lemma {:induction false} StrictTail(c: Coins)
    requires StrictlySorted(c) && c != []
    ensures StrictlySorted(c[1..])
    ensures forall i :: 0 <= i < |c[1..]| ==> LexLess(c[0].denom, c[1..][i].denom)
    ensures !Mentions(c[1..], c[0].denom)
  {
    LexIrreflexive(c[0].denom);
    forall i | 0 <= i < |c[1..]|
      ensures LexLess(c[0].denom, c[1..][i].denom)
    {
      assert c[1..][i] == c[i + 1];
    }
  }

  lemma {:induction false} AmountAt(c: Coins, i: nat)
    requires StrictlySorted(c) && i < |c|
    ensures Amount(c, c[i].denom) == c[i].amount
    decreases |c|
  {
    StrictTail(c);
    if i == 0 {
      AmountAbsent(c[1..], c[0].denom);
    } else {
      LexAsymmetric(c[0].denom, c[i].denom);
      AmountAt(c[1..], i - 1);
    }
  }

  /** Nothing is below the first denomination. */
  lemma {:induction false} AmountBelow(c: Coins, d: Denom)
    requires StrictlySorted(c) && (c != [] ==> LexLess(d, c[0].denom))
    ensures Amount(c, d) == 0
  {
    if Mentions(c, d) {
      var i :| 0 <= i < |c| && c[i].denom == d;
      LexIrreflexive(d);
      if i > 0 {
        LexTransitive(d, c[0].denom, c[i].denom);
      }
    }
    AmountAbsent(c, d);
  }

  /** Two canonical sets with the same amounts are the same set. */
  lemma {:induction false} CanonicalUnique(a: Coins, b: Coins)
    requires Canonical(a) && Canonical(b)
    requires forall d :: Amount(a, d) == Amount(b, d)
    ensures a == b
    decreases |a|
  {
    if a == [] {
      if b != [] {
        AmountAt(b, 0);
      }
    } else if b == [] {
      AmountAt(a, 0);
    } else {
      SameHead(a, b);
      StrictTail(a);
      StrictTail(b);
      forall d
        ensures Amount(a[1..], d) == Amount(b[1..], d)
      {
        assert Amount(a, d) == Amount(b, d);
      }
      CanonicalUnique(a[1..], b[1..]);
      assert a == [a[0]] + a[1..] && b == [b[0]] + b[1..];
    }
  }

  lemma {:induction false} SameHead(a: Coins, b: Coins)
    requires Canonical(a) && Canonical(b) && a != [] && b != []
    requires forall d :: Amount(a, d) == Amount(b, d)
    ensures a[0] == b[0]
  {
    var x, y := a[0].denom, b[0].denom;
    AmountAt(a, 0);
    AmountAt(b, 0);
    assert Amount(a, x) == Amount(b, x) && Amount(a, y) == Amount(b, y);
    LexTotal(x, y);
    if LexLess(x, y) {
      AmountBelow(b, x);
    } else if LexLess(y, x) {
      AmountBelow(a, y);
    }
  }

  lemma {:induction false} ValidIsCanonical(c: Coins)
    requires Valid(c)
    ensures Canonical(c)
    ensures forall d :: Amount(c, d) >= 0
    ensures forall d :: Amount(c, d) > 0 ==> ValidDenom(d)
  {
    forall d
      ensures Amount(c, d) >= 0 && (Amount(c, d) > 0 ==> ValidDenom(d))
    {
      if Mentions(c, d) {
        var i :| 0 <= i < |c| && c[i].denom == d;
        AmountAt(c, i);
      } else {
        AmountAbsent(c, d);
      }
    }
  }
}
