/** What ProcessProposal accepts, for every verifier and every list of transactions, honest or not. */
module Verdicts {
  import opened Words
  import opened Transactions
  import opened TxSelection
  import opened Proposal
  import opened ProposalProps

  /** Verifying transactions in turn, gas aside: None once one does not decode or fails. */
  function InTurn<S>(v: Verifier<S>, branch: S, txs: seq<Bytes>): Option<S>
    decreases |txs|
  {
    if txs == [] then Some(branch)
    else if v.decode(txs[0]).None? || !v.run(branch, txs[0]).1 then None
    else InTurn(v, v.run(branch, txs[0]).0, txs[1..])
  }

  /** The gas limits the transactions declare. */
  function Declared(decode: Bytes -> Option<Tx>, txs: seq<Bytes>): (r: seq<nat>)
    ensures |r| == |txs|
  {
    seq(|txs|, i requires 0 <= i < |txs| => if decode(txs[i]).Some? then GasLimit(decode(txs[i]).value) else 0)
  }

  /** The running total after `k` transactions, as a uint64, is within the cap. */
  predicate CappedAt(cap: Int64, gas: nat, declared: seq<nat>, k: int)
    requires 0 <= k <= |declared|
  {
    (gas + Sum(declared[..k])) % TWO64 <= cap
  }

  ghost predicate Capped(cap: Int64, gas: nat, declared: seq<nat>) {
    forall k :: 0 < k <= |declared| ==> CappedAt(cap, gas, declared, k)
  }

  lemma {:induction false} CappedShift(cap: Int64, gas: nat, declared: seq<nat>, k: int)
    requires 0 < k <= |declared|
    ensures CappedAt(cap, gas, declared, k) <==> CappedAt(cap, (gas + declared[0]) % TWO64, declared[1..], k - 1)
  {
    assert declared[..k][1..] == declared[1..][..k - 1];
    var x, y := gas + declared[0], Sum(declared[1..][..k - 1]);
    assert (x % TWO64 + y) % TWO64 == (x + y) % TWO64;
  }

  lemma {:induction false} CappedCons(cap: Int64, gas: nat, declared: seq<nat>)
    requires declared != []
    ensures var gas' := (gas + declared[0]) % TWO64;
            Capped(cap, gas, declared) <==> gas' <= cap && Capped(cap, gas', declared[1..])
  {
    var gas', rest := (gas + declared[0]) % TWO64, declared[1..];
    assert rest[..0] == [];
    forall k | 0 < k <= |declared|
      ensures CappedAt(cap, gas, declared, k) <==> CappedAt(cap, gas', rest, k - 1)
    {
      CappedShift(cap, gas, declared, k);
    }
    if Capped(cap, gas, declared) {
      assert CappedAt(cap, gas, declared, 1);
      forall k | 0 < k <= |rest|
        ensures CappedAt(cap, gas', rest, k)
      {
        assert CappedAt(cap, gas, declared, k + 1);
      }
    }
  }

  /** The loop passes exactly when everything verifies in turn and, under a cap, every running total is within it. */
  lemma {:induction false} JudgedExactly<S>(v: Verifier<S>, cap: Int64, branch: S, gas: Uint64, txs: seq<Bytes>)
    ensures var r := JudgeAll(v, cap, branch, gas, txs);
            && (r.Passing? <==>
                  InTurn(v, branch, txs).Some? && (cap > 0 ==> Capped(cap, gas, Declared(v.decode, txs))))
            && (r.Passing? ==> Some(r.branch) == InTurn(v, branch, txs))
    decreases |txs|
  {
    if txs != [] {
      var declared := Declared(v.decode, txs);
      assert declared[1..] == Declared(v.decode, txs[1..]);
      CappedCons(cap, gas, declared);
      var r := Judge(v, cap, branch, gas, txs[0]);
      if r.Passing? {
        JudgedExactly(v, cap, r.branch, r.gas, txs[1..]);
      }
    }
  }

  /** Acceptance of any proposal, in terms of decoding, running and declared gas alone. */
  lemma {:induction false} AcceptedExactly<S>(
      v: Verifier<S>, maxGas: Option<Int64>, pool: Pool, branch: S, txs: seq<Bytes>)
    ensures Accepts(v, maxGas, pool, branch, txs) <==>
      || pool.NoPool?
      || (&& InTurn(v, branch, txs).Some?
          && (maxGas.Some? && maxGas.value > 0 ==>
                forall k :: 0 <= k <= |txs| ==> Sum(Declared(v.decode, txs)[..k]) % TWO64 <= maxGas.value))
  {
    var cap: Int64 := if maxGas.Some? then maxGas.value else 0;
    var declared := Declared(v.decode, txs);
    JudgedExactly(v, cap, branch, 0, txs);
    assert declared[..0] == [];
    if Capped(cap, 0, declared) {
      forall k | 0 < k <= |txs|
        ensures Sum(declared[..k]) % TWO64 <= cap
      {
        assert CappedAt(cap, 0, declared, k);
      }
    }
  }

  /** While no single gas limit exceeds the cap nothing wraps, and the running totals are true totals. */
  lemma {:induction false} CappedTruly(cap: Int64, declared: seq<nat>, k: nat)
    requires cap > 0 && Capped(cap, 0, declared) && k <= |declared|
    requires forall i :: 0 <= i < |declared| ==> declared[i] < TWO63
    ensures Sum(declared[..k]) <= cap
    decreases k
  {
    if k == 0 {
      assert declared[..0] == [];
    } else {
      CappedTruly(cap, declared, k - 1);
      assert declared[..k] == declared[..k - 1] + [declared[k - 1]];
      SumSnoc(declared[..k - 1], declared[k - 1]);
      assert CappedAt(cap, 0, declared, k);
    }
  }

  lemma {:induction false} SumPrefix(s: seq<nat>, k: nat)
    requires k <= |s|
    ensures Sum(s[..k]) <= Sum(s)
    decreases |s| - k
  {
    if k == |s| {
      assert s[..k] == s;
    } else {
      assert s[..k + 1] == s[..k] + [s[k]];
      SumSnoc(s[..k], s[k]);
      SumPrefix(s, k + 1);
    }
  }

  /**
    * Under a positive cap, and with declared gas below 2^63 each, a proposal is accepted exactly when everything
    * verifies in turn and the true total is within the cap. An accepted proposal of any gas is within the cap
    * exactly when each of its transactions is.
    */
  lemma {:induction false} AcceptedWithinGas<S>(
      v: Verifier<S>, cap: Int64, order: seq<Tx>, stuck: set<Tx>, branch: S, txs: seq<Bytes>)
    requires cap > 0
    ensures var accepted, declared :=
              Accepts(v, Some(cap), Pool(order, stuck), branch, txs), Declared(v.decode, txs);
            && ((forall i :: 0 <= i < |txs| ==> declared[i] < TWO63) ==>
                  (accepted <==> InTurn(v, branch, txs).Some? && Sum(declared) <= cap))
            && (accepted ==> (Sum(declared) <= cap <==> forall i :: 0 <= i < |txs| ==> declared[i] <= cap))
  {
    var declared := Declared(v.decode, txs);
    JudgedExactly(v, cap, branch, 0, txs);
    assert declared[..|txs|] == declared;
    if (forall i :: 0 <= i < |txs| ==> declared[i] < TWO63) && Capped(cap, 0, declared) {
      CappedTruly(cap, declared, |txs|);
    }
    if Sum(declared) <= cap {
      forall k | 0 < k <= |declared|
        ensures CappedAt(cap, 0, declared, k)
      {
        SumPrefix(declared, k);
      }
      forall i | 0 <= i < |txs|
        ensures declared[i] <= cap
      {
        SumBounds(declared, i);
      }
    }
  }
}
