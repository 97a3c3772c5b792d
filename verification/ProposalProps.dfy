/** What every proposal built from the mempool satisfies, whatever the verifier. */
module ProposalProps {
  import opened Words
  import opened Transactions
  import opened TxSelection
  import opened Proposal

  ghost predicate Subsequence<T>(xs: seq<T>, ys: seq<T>)
    decreases |ys|
  {
    if ys == [] then xs == []
    else Subsequence(xs, ys[1..]) || (xs != [] && xs[0] == ys[0] && Subsequence(xs[1..], ys[1..]))
  }

  /** The sequence a signer used in the latest of these transactions it signed. */
  function LastSeq(txs: seq<Tx>, a: Address): Option<Uint64> {
    if txs == [] then None
    else
      var own := SeqOf(SigsOf(txs[|txs| - 1]), a);
      if own.Some? then own else LastSeq(txs[..|txs| - 1], a)
  }

  /** Each signature continues its signer's previous one in the list by exactly one, modulo 2^64. */
  ghost predicate Chained(txs: seq<Tx>) {
    forall j, s :: 0 <= j < |txs| && s in SigsOf(txs[j]) && LastSeq(txs[..j], s.signer).Some?
      ==> s.sequence == Succ(LastSeq(txs[..j], s.signer).value)
  }

  /** The recorded sequence of every signer in the proposal is the one it used last. */
  ghost predicate Tracked(last: map<Address, Uint64>, chosen: seq<Tx>) {
    forall a :: LastSeq(chosen, a).Some? ==> a in last && last[a] == LastSeq(chosen, a).value
  }

  ghost predicate EncodedBy(encode: Tx -> Option<Bytes>, chosen: seq<Tx>, txs: seq<Bytes>) {
    && |chosen| == |txs|
    && forall i :: 0 <= i < |txs| ==> encode(chosen[i]) == Some(txs[i])
  }

  lemma {:induction false} ScanMeaning(last: map<Address, Uint64>, sigs: seq<Sig>, acc: map<Address, Uint64>)
    ensures var r := Scan(last, sigs, acc);
            && (r.Some? <==> forall s :: s in sigs && s.signer in last ==> s.sequence == Succ(last[s.signer]))
            && (r.Some? ==> forall a :: (a in r.value <==> a in acc || SeqOf(sigs, a).Some?))
            && (r.Some? ==> forall a :: a in r.value ==>
                  r.value[a] == if SeqOf(sigs, a).Some? then SeqOf(sigs, a).value else acc[a])
    decreases |sigs|
  {
    if sigs != [] {
      ScanMeaning(last, sigs[1..], acc[sigs[0].signer := sigs[0].sequence]);
      assert sigs == [sigs[0]] + sigs[1..];
    }
  }

  lemma {:induction false} ChosenChained(last: map<Address, Uint64>, chosen: seq<Tx>, tx: Tx)
    requires Chained(chosen) && Tracked(last, chosen)
    requires Scan(last, SigsOf(tx), map[]).Some?
    ensures Chained(chosen + [tx])
    ensures Tracked(Record(last, Scan(last, SigsOf(tx), map[]).value, true), chosen + [tx])
  {
    ScanMeaning(last, SigsOf(tx), map[]);
    var more := chosen + [tx];
    assert more[..|chosen|] == chosen;
    forall j, s | 0 <= j < |more| && s in SigsOf(more[j]) && LastSeq(more[..j], s.signer).Some?
      ensures s.sequence == Succ(LastSeq(more[..j], s.signer).value)
    {
      if j < |chosen| {
        assert more[..j] == chosen[..j];
      }
    }
  }

  /** The invariant of the selection loop. */
  ghost predicate Sound<S>(v: Verifier<S>, p: Picker<S>) {
    Chained(p.chosen) && Tracked(p.last, p.chosen) && EncodedBy(v.encode, p.chosen, p.sel.txs)
  }

  lemma {:induction false} TurnKeepsSound<S>(v: Verifier<S>, lim: Limits, stuck: set<Tx>, p: Picker<S>, tx: Tx)
    requires Sound(v, p)
    ensures var t := Turned(v, lim, stuck, p, tx);
            && (t.Next? ==> Sound(v, t.p))
            && (t.Halt? ==> Chained(t.p.chosen) && EncodedBy(v.encode, t.p.chosen, t.p.sel.txs))
            && (!t.Panic? ==> t.p.chosen == p.chosen || t.p.chosen == p.chosen + [tx])
  {
    if tx.sigs.Some? && Scan(p.last, tx.sigs.value, map[]).Some? {
      ChosenChained(p.last, p.chosen, tx);
    }
  }

  /** Every proposal is an encoded, sequence-chained subsequence of the mempool order. */
  lemma {:induction false} ProposalIsChained<S>(v: Verifier<S>, lim: Limits, stuck: set<Tx>, p: Picker<S>, txs: seq<Tx>)
    requires Sound(v, p)
    ensures var r := PickAll(v, lim, stuck, p, txs);
            r.Done? ==>
              && Chained(r.p.chosen)
              && EncodedBy(v.encode, r.p.chosen, r.p.sel.txs)
              && p.chosen <= r.p.chosen
              && Subsequence(r.p.chosen[|p.chosen|..], txs)
    decreases |txs|
  {
    var r := PickAll(v, lim, stuck, p, txs);
    if txs == [] || r.Panicked? {
    } else {
      TurnKeepsSound(v, lim, stuck, p, txs[0]);
      var t := Turned(v, lim, stuck, p, txs[0]);
      if t.Next? {
        ProposalIsChained(v, lim, stuck, t.p, txs[1..]);
      } else {
        EmptySubsequence(txs[1..]);
      }
      var rest := r.p.chosen[|p.chosen|..];
      if t.p.chosen == p.chosen + [txs[0]] {
        assert rest[0] == txs[0];
        assert rest[1..] == r.p.chosen[|t.p.chosen|..];
      }
    }
  }

  lemma {:induction false} EmptySubsequence<T>(ys: seq<T>)
    ensures Subsequence([], ys)
    decreases |ys|
  {
    if ys != [] {
      EmptySubsequence(ys[1..]);
    }
  }

  /** The byte budget, for every verifier and for the no-mempool path. */
  lemma {:induction false} ProposalWithinBytes<S>(
      v: Verifier<S>, lim: Limits, stuck: set<Tx>, p: Picker<S>, txs: seq<Tx>)
    requires lim.maxBytes < TWO63
    requires forall tx :: v.encode(tx).Some? ==> |v.encode(tx).value| < TWO63
    requires BytesExact(p.sel, lim)
    ensures var r := PickAll(v, lim, stuck, p, txs);
            r.Done? ==> BytesExact(r.p.sel, lim)
    decreases |txs|
  {
    if txs != [] {
      var t := Turned(v, lim, stuck, p, txs[0]);
      var tx := txs[0];
      if !t.Panic? && v.encode(tx).Some? {
        SelectKeepsBytes(p.sel, lim, GasLimit(tx), v.encode(tx).value);
      }
      if t.Next? {
        ProposalWithinBytes(v, lim, stuck, t.p, txs[1..]);
      }
    }
  }

  lemma {:induction false} ForwardedWithinBytes(lim: Limits, sel: Selection, txs: seq<Bytes>)
    requires lim.maxBytes < TWO63 && Addressable(txs)
    requires BytesExact(sel, lim)
    ensures BytesExact(TakeAll(lim, sel, txs), lim)
    decreases |txs|
  {
    if txs != [] {
      SelectKeepsBytes(sel, lim, 0, txs[0]);
      ForwardedWithinBytes(lim, Select(sel, lim, 0, txs[0]), txs[1..]);
    }
  }

  /** Whatever PrepareProposal returns fits into a non-negative `MaxTxBytes`, with or without a mempool. */
  lemma {:induction false} PreparedWithinBytes<S>(
      v: Verifier<S>, maxTxBytes: Int64, maxGas: Option<Int64>, pool: Pool, branch: S, reqTxs: seq<Bytes>)
    requires maxTxBytes >= 0 && Addressable(reqTxs)
    requires forall tx :: v.encode(tx).Some? ==> |v.encode(tx).value| < TWO63
    ensures var r := Prepared(v, PrepareLimits(maxTxBytes, maxGas), pool, branch, reqTxs);
            r.Some? ==> Sum(Lengths(r.value)) <= maxTxBytes
  {
    var lim := PrepareLimits(maxTxBytes, maxGas);
    assert lim.maxBytes == maxTxBytes;
    if pool.NoPool? {
      ForwardedWithinBytes(lim, NOTHING, reqTxs);
    } else {
      ProposalWithinBytes(v, lim, pool.stuck, Picker(branch, NOTHING, map[], []), pool.order);
    }
  }

  function Gases(txs: seq<Tx>): (r: seq<nat>)
    ensures |r| == |txs|
  {
    seq(|txs|, i requires 0 <= i < |txs| => GasLimit(txs[i]))
  }

  lemma {:induction false} SumBounds(s: seq<nat>, i: int)
    requires 0 <= i < |s|
    ensures s[i] <= Sum(s)
  {
    if i > 0 {
      SumBounds(s[1..], i - 1);
    }
  }

  /** The gas counter is the true total modulo 2^64, and each accepted step stays under the cap. */
  ghost predicate GasCounted<S>(p: Picker<S>, cap: Uint64) {
    && p.sel.gas <= cap
    && ((forall i :: 0 <= i < |p.chosen| ==> GasLimit(p.chosen[i]) <= cap) ==> p.sel.gas == Sum(Gases(p.chosen)))
  }

  lemma {:induction false} GasCounter<S>(v: Verifier<S>, lim: Limits, stuck: set<Tx>, p: Picker<S>, txs: seq<Tx>)
    requires 0 < lim.maxGas < TWO63
    requires GasCounted(p, lim.maxGas)
    ensures var r := PickAll(v, lim, stuck, p, txs);
            r.Done? ==> GasCounted(r.p, lim.maxGas)
    decreases |txs|
  {
    if txs != [] {
      var t := Turned(v, lim, stuck, p, txs[0]);
      if !t.Panic? {
        if t.p.chosen != p.chosen {
          assert t.p.chosen == p.chosen + [txs[0]];
          assert Gases(t.p.chosen) == Gases(p.chosen) + [GasLimit(txs[0])];
          SumSnoc(Gases(p.chosen), GasLimit(txs[0]));
          assert GasLimit(t.p.chosen[|p.chosen|]) == GasLimit(txs[0]);
          assert forall i :: 0 <= i < |p.chosen| ==> t.p.chosen[i] == p.chosen[i];
        }
        if t.Next? {
          GasCounter(v, lim, stuck, t.p, txs[1..]);
        }
      }
    }
  }

  /**
    * The true gas of a proposal respects a positive `MaxGas` exactly when each proposed
    * transaction does on its own; that always holds when per-transaction gas is at most 2^63 - 1.
    */
  lemma {:induction false} ProposalWithinGas<S>(v: Verifier<S>, lim: Limits, stuck: set<Tx>, branch: S, txs: seq<Tx>)
    requires 0 < lim.maxGas < TWO63
    ensures var r := PickAll(v, lim, stuck, Picker(branch, NOTHING, map[], []), txs);
            r.Done? ==>
              && (Sum(Gases(r.p.chosen)) <= lim.maxGas <==>
                  forall i :: 0 <= i < |r.p.chosen| ==> GasLimit(r.p.chosen[i]) <= lim.maxGas)
              && ((forall tx :: tx in txs ==> GasLimit(tx) < TWO63) ==> Sum(Gases(r.p.chosen)) <= lim.maxGas)
  {
    var start := Picker(branch, NOTHING, map[], []);
    GasCounter(v, lim, stuck, start, txs);
    var r := PickAll(v, lim, stuck, start, txs);
    if r.Done? {
      forall i | 0 <= i < |r.p.chosen|
        ensures GasLimit(r.p.chosen[i]) <= Sum(Gases(r.p.chosen))
      {
        SumBounds(Gases(r.p.chosen), i);
      }
      if forall tx :: tx in txs ==> GasLimit(tx) < TWO63 {
        SmallGas(v, lim, stuck, start, txs);
      }
    }
  }

  ghost predicate EachWithin(txs: seq<Tx>, cap: Uint64) {
    forall i :: 0 <= i < |txs| ==> GasLimit(txs[i]) <= cap
  }

  lemma {:induction false} SmallTurn<S>(v: Verifier<S>, lim: Limits, stuck: set<Tx>, p: Picker<S>, tx: Tx)
    requires 0 < lim.maxGas < TWO63 && p.sel.gas <= lim.maxGas && GasLimit(tx) < TWO63
    requires EachWithin(p.chosen, lim.maxGas)
    ensures var t := Turned(v, lim, stuck, p, tx);
            !t.Panic? ==> t.p.sel.gas <= lim.maxGas && EachWithin(t.p.chosen, lim.maxGas)
  {
    assert ToU64(GasLimit(tx) + p.sel.gas) == GasLimit(tx) + p.sel.gas;
  }

  /** Without wrap-around the capacity test bounds each selected transaction. */
  lemma {:induction false} SmallGas<S>(v: Verifier<S>, lim: Limits, stuck: set<Tx>, p: Picker<S>, txs: seq<Tx>)
    requires 0 < lim.maxGas < TWO63 && p.sel.gas <= lim.maxGas
    requires forall tx :: tx in txs ==> GasLimit(tx) < TWO63
    requires EachWithin(p.chosen, lim.maxGas)
    ensures var r := PickAll(v, lim, stuck, p, txs);
            r.Done? ==> EachWithin(r.p.chosen, lim.maxGas)
    decreases |txs|
  {
    if txs != [] {
      assert txs[0] in txs;
      SmallTurn(v, lim, stuck, p, txs[0]);
      var t := Turned(v, lim, stuck, p, txs[0]);
      if t.Next? {
        SmallGas(v, lim, stuck, t.p, txs[1..]);
      }
    }
  }

  function Trusting(): Verifier<int> {
    Verifier(tx => Some([]), bz => None, (s, bz) => (s, true))
  }

  /** With larger per-transaction gas the uint64 sum wraps and the true total can exceed the cap. */
  lemma {:induction false} WrappedGasExceedsCap()
    ensures var v := Trusting();
            var huge := Tx(Some([]), Some(TWO64 - 3), [], []);
            var five := Tx(Some([]), Some(5), [], []);
            var r := PickAll(v, Limits(100, 10), {}, Picker(0, NOTHING, map[], []), [five, huge]);
            && r.Done? && r.p.chosen == [five, huge]
            && Sum(Gases(r.p.chosen)) > 10
  {
    var v := Trusting();
    var huge := Tx(Some([]), Some(TWO64 - 3), [], []);
    var five := Tx(Some([]), Some(5), [], []);
    var lim := Limits(100, 10);
    var start := Picker(0, NOTHING, map[], []);
    assert Scan(map[], [], map[]) == Some(map[]);
    var one := Turned(v, lim, {}, start, five);
    assert one == Next(Picker(0, Selection(0, 5, [[]]), Record(map[], map[], true), [five]));
    assert Record(map[], map[], true) == map[];
    var two := Turned(v, lim, {}, one.p, huge);
    assert two == Next(Picker(0, Selection(0, 2, [[], []]), Record(map[], map[], true), [five, huge]));
    var txs := [five, huge];
    assert txs[1..] == [huge] && [huge][1..] == [];
    assert PickAll(v, lim, {}, two.p, []) == Done(two.p);
    assert PickAll(v, lim, {}, one.p, [huge]) == Done(two.p);
    SumBounds(Gases([five, huge]), 1);
  }
}
