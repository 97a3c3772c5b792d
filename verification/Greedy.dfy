/**
  * What the proposer selects, told from the history of the loop alone: no counters, no record of sequences. The
  * loop that keeps both picks exactly these transactions, so it never stops or skips without a reason.
  */
module Greedy {
  import opened Words
  import opened Transactions
  import opened TxSelection
  import opened Proposal
  import opened ProposalProps
  import Coherence

  /**
    * The branch so far, the transactions selected, those that verified without being selected, and those that did
    * not verify.
    */
  datatype History<!S> = History(branch: S, chosen: seq<Tx>, over: seq<Tx>, gone: seq<Tx>)

  function Encodings(encode: Tx -> Option<Bytes>, txs: seq<Tx>): (r: seq<Bytes>)
    ensures |r| == |txs|
  {
    seq(|txs|, i requires 0 <= i < |txs| => if encode(txs[i]).Some? then encode(txs[i]).value else [])
  }

  function TotalBytes<S>(v: Verifier<S>, txs: seq<Tx>): nat {
    Sum(Lengths(Encodings(v.encode, txs)))
  }

  function TotalGas(txs: seq<Tx>): nat {
    Sum(Gases(txs))
  }

  /** The sequence a signer used in the first of these transactions it signed. */
  function FirstSeq(txs: seq<Tx>, a: Address): Option<Uint64> {
    if txs == [] then None
    else if FirstSeq(txs[..|txs| - 1], a).Some? then FirstSeq(txs[..|txs| - 1], a)
    else SeqOf(SigsOf(txs[|txs| - 1]), a)
  }

  /**
    * The sequence a signer has to use next: one more than in its last selected transaction; before any, the one
    * of its first transaction that verified.
    */
  function Expected<S>(h: History<S>, a: Address): Option<Uint64> {
    if LastSeq(h.chosen, a).Some? then Some((LastSeq(h.chosen, a).value + 1) % TWO64) else FirstSeq(h.over, a)
  }

  ghost predicate Follows<S>(h: History<S>, tx: Tx) {
    forall s :: s in SigsOf(tx) && Expected(h, s.signer).Some? ==> s.sequence == Expected(h, s.signer).value
  }

  predicate Verifies<S>(v: Verifier<S>, h: History<S>, tx: Tx) {
    v.encode(tx).Some? && v.run(h.branch, v.encode(tx).value).1
  }

  /** Something verified, and the selected transactions already reach a limit; totals are uint64. */
  predicate Exhausted<S>(v: Verifier<S>, lim: Limits, h: History<S>) {
    && h.chosen + h.over != []
    && (|| TotalBytes(v, h.chosen) % TWO64 >= lim.maxBytes
        || (lim.maxGas > 0 && TotalGas(h.chosen) % TWO64 >= lim.maxGas))
  }

  predicate HasRoom<S>(v: Verifier<S>, lim: Limits, h: History<S>, tx: Tx) {
    && TotalBytes(v, h.chosen + [tx]) % TWO64 <= lim.maxBytes
    && (lim.maxGas > 0 ==> TotalGas(h.chosen + [tx]) % TWO64 <= lim.maxGas)
  }

  ghost predicate Selects<S>(v: Verifier<S>, lim: Limits, h: History<S>, tx: Tx) {
    !Exhausted(v, lim, h) && Follows(h, tx) && Verifies(v, h, tx) && HasRoom(v, lim, h, tx)
  }

  ghost function Offer<S>(v: Verifier<S>, lim: Limits, h: History<S>, tx: Tx): History<S> {
    if Exhausted(v, lim, h) || !Follows(h, tx) then h
    else if v.encode(tx).None? then h.(gone := h.gone + [tx])
    else
      var branch := v.run(h.branch, v.encode(tx).value).0;
      if !Verifies(v, h, tx) then h.(branch := branch, gone := h.gone + [tx])
      else if HasRoom(v, lim, h, tx) then h.(branch := branch, chosen := h.chosen + [tx])
      else h.(branch := branch, over := h.over + [tx])
  }

  ghost function OfferAll<S>(v: Verifier<S>, lim: Limits, h: History<S>, txs: seq<Tx>): History<S>
    decreases |txs|
  {
    if txs == [] then h else OfferAll(v, lim, Offer(v, lim, h, txs[0]), txs[1..])
  }

  // ---- The loop's counters and records tell the history ----

  /** What is recorded of a signer is one less than what is expected of it. */
  ghost predicate Knows(last: map<Address, Uint64>, a: Address, expected: Option<Uint64>) {
    (a in last <==> expected.Some?) && (a in last ==> Succ(last[a]) == expected.value)
  }

  ghost predicate Remembers<S>(last: map<Address, Uint64>, h: History<S>) {
    forall a :: Knows(last, a, Expected(h, a))
  }

  ghost predicate Counts<S>(v: Verifier<S>, lim: Limits, p: Picker<S>, h: History<S>) {
    && p.branch == h.branch && p.chosen == h.chosen && EncodedBy(v.encode, p.chosen, p.sel.txs)
    && p.sel.bytes == TotalBytes(v, h.chosen) % TWO64
    && (lim.maxGas > 0 ==> p.sel.gas == TotalGas(h.chosen) % TWO64)
  }

  lemma {:induction false} TotalsSnoc<S>(v: Verifier<S>, txs: seq<Tx>, tx: Tx)
    requires v.encode(tx).Some?
    ensures TotalBytes(v, txs + [tx]) == TotalBytes(v, txs) + |v.encode(tx).value|
    ensures TotalGas(txs + [tx]) == TotalGas(txs) + GasLimit(tx)
  {
    var es, bz := Encodings(v.encode, txs), v.encode(tx).value;
    assert Encodings(v.encode, txs + [tx]) == es + [bz];
    assert Lengths(es + [bz]) == Lengths(es) + [|bz|];
    SumSnoc(Lengths(es), |bz|);
    assert Gases(txs + [tx]) == Gases(txs) + [GasLimit(tx)];
    SumSnoc(Gases(txs), GasLimit(tx));
  }

  lemma {:induction false} ModAdd(a: nat, b: nat)
    ensures (a % TWO64 + b) % TWO64 == (a + b) % TWO64
  {
    assert a == (a / TWO64) * TWO64 + a % TWO64;
    assert a + b == (a / TWO64) * TWO64 + (a % TWO64 + b);
  }

  /** Selecting by counters is selecting by true totals. */
  lemma {:induction false} SelectCounts<S>(
      v: Verifier<S>, lim: Limits, p: Picker<S>, h: History<S>, tx: Tx, branch: S, last: map<Address, Uint64>)
    requires Counts(v, lim, p, h) && v.encode(tx).Some?
    ensures var bz := v.encode(tx).value;
            var sel := Select(p.sel, lim, GasLimit(tx), bz);
            && (Fits(p.sel, lim, GasLimit(tx), bz) <==> HasRoom(v, lim, h, tx))
            && if HasRoom(v, lim, h, tx)
               then Counts(v, lim, Picker(branch, sel, last, p.chosen + [tx]),
                           h.(branch := branch, chosen := h.chosen + [tx]))
               else sel == p.sel
  {
    TotalsSnoc(v, h.chosen, tx);
    ModAdd(TotalBytes(v, h.chosen), |v.encode(tx).value|);
    ModAdd(TotalGas(h.chosen), GasLimit(tx));
  }

  lemma {:induction false} ExpectedAfter<S>(h: History<S>, tx: Tx, branch: S, a: Address)
    ensures var own := SeqOf(SigsOf(tx), a);
            && Expected(h.(branch := branch, chosen := h.chosen + [tx]), a)
               == (if own.Some? then Some(Succ(own.value)) else Expected(h, a))
            && Expected(h.(branch := branch, over := h.over + [tx]), a)
               == (if Expected(h, a).Some? then Expected(h, a) else own)
  {
    assert (h.chosen + [tx])[..|h.chosen|] == h.chosen;
    assert (h.over + [tx])[..|h.over|] == h.over;
  }

  /** The filter on recorded sequences is the filter on the history. */
  lemma {:induction false} ScanFollows<S>(last: map<Address, Uint64>, h: History<S>, tx: Tx)
    requires Remembers(last, h)
    ensures Scan(last, SigsOf(tx), map[]).Some? <==> Follows(h, tx)
  {
    ScanMeaning(last, SigsOf(tx), map[]);
    forall s | s in SigsOf(tx)
      ensures (s.signer in last ==> s.sequence == Succ(last[s.signer])) <==>
        (Expected(h, s.signer).Some? ==> s.sequence == Expected(h, s.signer).value)
    {
      assert Knows(last, s.signer, Expected(h, s.signer));
    }
  }

  lemma {:induction false} SuccPred(x: Uint64)
    ensures Succ(Pred(x)) == x
  {
    assert Pred(x) == if x == 0 then TWO64 - 1 else x - 1;
  }

  lemma {:induction false} RecordKnows(
      last: map<Address, Uint64>, a: Address, expected: Option<Uint64>, seqs: map<Address, Uint64>, own: Option<Uint64>)
    requires Knows(last, a, expected)
    requires (a in seqs <==> own.Some?) && (a in seqs ==> seqs[a] == own.value)
    ensures Knows(Record(last, seqs, true), a, if own.Some? then Some(Succ(own.value)) else expected)
    ensures Knows(Record(last, seqs, false), a, if expected.Some? then expected else own)
  {
    if a in seqs {
      SuccPred(seqs[a]);
    }
  }

  /** The record stays right when the transaction is selected, and when it only verified. */
  lemma {:induction false} RecordRemembers<S>(last: map<Address, Uint64>, h: History<S>, tx: Tx, branch: S)
    requires Remembers(last, h) && Scan(last, SigsOf(tx), map[]).Some?
    ensures var seqs := Scan(last, SigsOf(tx), map[]).value;
            && Remembers(Record(last, seqs, true), h.(branch := branch, chosen := h.chosen + [tx]))
            && Remembers(Record(last, seqs, false), h.(branch := branch, over := h.over + [tx]))
  {
    ScanMeaning(last, SigsOf(tx), map[]);
    var seqs := Scan(last, SigsOf(tx), map[]).value;
    var more, over := h.(branch := branch, chosen := h.chosen + [tx]), h.(branch := branch, over := h.over + [tx]);
    forall a
      ensures Knows(Record(last, seqs, true), a, Expected(more, a))
      ensures Knows(Record(last, seqs, false), a, Expected(over, a))
    {
      assert Knows(last, a, Expected(h, a));
      RecordKnows(last, a, Expected(h, a), seqs, SeqOf(SigsOf(tx), a));
      ExpectedAfter(h, tx, branch, a);
    }
  }

  /** A verified transaction is offered to the selector. */
  lemma {:induction false} VerifiedIsOffered<S>(
      v: Verifier<S>, lim: Limits, stuck: set<Tx>, p: Picker<S>, h: History<S>, tx: Tx)
    requires Counts(v, lim, p, h) && Remembers(p.last, h) && !Exhausted(v, lim, h)
    requires tx.sigs.Some? && Follows(h, tx) && Verifies(v, h, tx)
    ensures var t, h' := Turned(v, lim, stuck, p, tx), Offer(v, lim, h, tx);
            && !t.Panic? && Counts(v, lim, t.p, h')
            && (t.Halt? <==> Exhausted(v, lim, h'))
            && (t.Next? ==> Remembers(t.p.last, h'))
  {
    var bz := v.encode(tx).value;
    var branch := v.run(p.branch, bz).0;
    ScanFollows(p.last, h, tx);
    RecordRemembers(p.last, h, tx, branch);
    var last := Record(p.last, Scan(p.last, SigsOf(tx), map[]).value, HasRoom(v, lim, h, tx));
    SelectCounts(v, lim, p, h, tx, branch, last);
    SelectCounts(v, lim, p, h, tx, branch, p.last);
  }

  /** One turn of the loop offers the transaction, and halts exactly when the selection is exhausted. */
  lemma {:induction false} TurnIsOffer<S>(
      v: Verifier<S>, lim: Limits, stuck: set<Tx>, p: Picker<S>, h: History<S>, tx: Tx)
    requires Counts(v, lim, p, h) && Remembers(p.last, h) && !Exhausted(v, lim, h)
    ensures var t, h' := Turned(v, lim, stuck, p, tx), Offer(v, lim, h, tx);
            !t.Panic? ==>
              && Counts(v, lim, t.p, h')
              && (t.Halt? <==> Exhausted(v, lim, h'))
              && (t.Next? ==> Remembers(t.p.last, h'))
  {
    if tx.sigs.Some? {
      ScanFollows(p.last, h, tx);
      if Follows(h, tx) && Verifies(v, h, tx) {
        VerifiedIsOffered(v, lim, stuck, p, h, tx);
      } else {
        var h' := Offer(v, lim, h, tx);
        assert forall a :: Expected(h', a) == Expected(h, a);
        assert forall a :: Knows(p.last, a, Expected(h, a));
      }
    }
  }

  lemma {:induction false} ExhaustedStays<S>(v: Verifier<S>, lim: Limits, h: History<S>, txs: seq<Tx>)
    requires Exhausted(v, lim, h)
    ensures OfferAll(v, lim, h, txs) == h
    decreases |txs|
  {
    if txs != [] {
      ExhaustedStays(v, lim, h, txs[1..]);
    }
  }

  lemma {:induction false} PickAllOffers<S>(
      v: Verifier<S>, lim: Limits, stuck: set<Tx>, p: Picker<S>, h: History<S>, txs: seq<Tx>)
    requires Counts(v, lim, p, h) && Remembers(p.last, h) && !Exhausted(v, lim, h)
    ensures var r := PickAll(v, lim, stuck, p, txs);
            r.Done? ==> Counts(v, lim, r.p, OfferAll(v, lim, h, txs))
    decreases |txs|
  {
    if txs != [] {
      TurnIsOffer(v, lim, stuck, p, h, txs[0]);
      var t, h' := Turned(v, lim, stuck, p, txs[0]), Offer(v, lim, h, txs[0]);
      if t.Next? {
        PickAllOffers(v, lim, stuck, t.p, h', txs[1..]);
      } else if t.Halt? {
        ExhaustedStays(v, lim, h', txs[1..]);
      }
    }
  }

  lemma {:induction false} TurnRemoves<S>(
      v: Verifier<S>, lim: Limits, stuck: set<Tx>, p: Picker<S>, h: History<S>, tx: Tx)
    requires Counts(v, lim, p, h) && Remembers(p.last, h) && !Exhausted(v, lim, h)
    requires !Turned(v, lim, stuck, p, tx).Panic?
    ensures Offer(v, lim, h, tx).gone == h.gone + TurnEffect(v, p, tx).1
  {
    ScanFollows(p.last, h, tx);
    assert h.gone + [] == h.gone;
  }

  /** What the loop asks the mempool to remove is what did not verify. */
  lemma {:induction false} LeftIsGone<S>(
      v: Verifier<S>, lim: Limits, stuck: set<Tx>, p: Picker<S>, h: History<S>, txs: seq<Tx>)
    requires Counts(v, lim, p, h) && Remembers(p.last, h) && !Exhausted(v, lim, h)
    requires PickAll(v, lim, stuck, p, txs).Done?
    ensures OfferAll(v, lim, h, txs).gone == h.gone + Left(v, lim, stuck, p, txs).1
    decreases |txs|
  {
    if txs == [] {
      assert h.gone + [] == h.gone;
    } else {
      TurnIsOffer(v, lim, stuck, p, h, txs[0]);
      TurnRemoves(v, lim, stuck, p, h, txs[0]);
      var t, h' := Turned(v, lim, stuck, p, txs[0]), Offer(v, lim, h, txs[0]);
      if t.Next? {
        LeftIsGone(v, lim, stuck, t.p, h', txs[1..]);
        Associate(h.gone, TurnEffect(v, p, txs[0]).1, Left(v, lim, stuck, t.p, txs[1..]).1);
      } else {
        ExhaustedStays(v, lim, h', txs[1..]);
      }
    }
  }

  lemma Associate<T>(a: seq<T>, b: seq<T>, c: seq<T>)
    ensures (a + b) + c == a + (b + c)
  {
  }

  function Start<S>(branch: S): History<S> {
    History(branch, [], [], [])
  }

  lemma {:induction false} LoopRemoves<S>(v: Verifier<S>, lim: Limits, stuck: set<Tx>, branch: S, txs: seq<Tx>)
    requires PickAll(v, lim, stuck, Picker(branch, NOTHING, map[], []), txs).Done?
    ensures Left(v, lim, stuck, Picker(branch, NOTHING, map[], []), txs).1
         == OfferAll(v, lim, Start(branch), txs).gone
  {
    var start := Picker(branch, NOTHING, map[], []);
    LeftIsGone(v, lim, stuck, start, Start(branch), txs);
    var removed := Left(v, lim, stuck, start, txs).1;
    assert [] + removed == removed;
  }

  /** A finished loop has selected, and asked the mempool to remove, exactly what the history rules say. */
  lemma {:induction false} LoopIsGreedy<S>(v: Verifier<S>, lim: Limits, stuck: set<Tx>, branch: S, txs: seq<Tx>)
    ensures var r := PickAll(v, lim, stuck, Picker(branch, NOTHING, map[], []), txs);
            var h := OfferAll(v, lim, Start(branch), txs);
            r.Done? ==>
              && r.p.chosen == h.chosen && r.p.branch == h.branch && r.p.sel.txs == Encodings(v.encode, h.chosen)
              && Left(v, lim, stuck, Picker(branch, NOTHING, map[], []), txs) == (h.branch, h.gone)
  {
    var start := Picker(branch, NOTHING, map[], []);
    PickAllOffers(v, lim, stuck, start, Start(branch), txs);
    LeftBranch(v, lim, stuck, start, txs);
    if PickAll(v, lim, stuck, start, txs).Done? {
      LoopRemoves(v, lim, stuck, branch, txs);
    }
  }

  // ---- Maximality, transaction by transaction ----

  lemma {:induction false} OfferConcat<S>(v: Verifier<S>, lim: Limits, h: History<S>, a: seq<Tx>, b: seq<Tx>)
    ensures OfferAll(v, lim, h, a + b) == OfferAll(v, lim, OfferAll(v, lim, h, a), b)
    decreases |a|
  {
    if a == [] {
      assert a + b == b;
    } else {
      assert (a + b)[1..] == a[1..] + b;
      OfferConcat(v, lim, Offer(v, lim, h, a[0]), a[1..], b);
    }
  }

  lemma {:induction false} OfferAllGrows<S>(v: Verifier<S>, lim: Limits, h: History<S>, txs: seq<Tx>)
    ensures h.chosen <= OfferAll(v, lim, h, txs).chosen
    decreases |txs|
  {
    if txs != [] {
      OfferAllGrows(v, lim, Offer(v, lim, h, txs[0]), txs[1..]);
    }
  }

  lemma {:induction false} OfferOne<S>(v: Verifier<S>, lim: Limits, h: History<S>, tx: Tx)
    ensures OfferAll(v, lim, h, [tx]) == Offer(v, lim, h, tx)
  {
    assert [tx][1..] == [];
    assert OfferAll(v, lim, h, [tx]) == OfferAll(v, lim, Offer(v, lim, h, tx), []);
  }

  lemma {:induction false} OfferedNext<S>(v: Verifier<S>, lim: Limits, start: History<S>, txs: seq<Tx>, i: nat)
    requires i < |txs|
    ensures var h := OfferAll(v, lim, start, txs[..i]);
            var h' := OfferAll(v, lim, start, txs[..i + 1]);
            && h' == Offer(v, lim, h, txs[i])
            && h'.chosen <= OfferAll(v, lim, start, txs).chosen
  {
    var upTo, rest := txs[..i + 1], txs[i + 1..];
    assert upTo == txs[..i] + [txs[i]];
    OfferConcat(v, lim, start, txs[..i], [txs[i]]);
    OfferOne(v, lim, OfferAll(v, lim, start, txs[..i]), txs[i]);
    assert txs == upTo + rest;
    OfferConcat(v, lim, start, upTo, rest);
    OfferAllGrows(v, lim, OfferAll(v, lim, start, upTo), rest);
  }

  /**
    * Every transaction of the mempool is selected if and only if, at its turn, no limit has been reached, each of
    * its signatures follows, it encodes and verifies, and there is room for it. Nothing else keeps it out.
    */
  lemma {:induction false} SelectedExactly<S>(
      v: Verifier<S>, lim: Limits, stuck: set<Tx>, branch: S, txs: seq<Tx>, i: nat)
    requires i < |txs|
    ensures var r := PickAll(v, lim, stuck, Picker(branch, NOTHING, map[], []), txs);
            var h := OfferAll(v, lim, Start(branch), txs[..i]);
            var h' := OfferAll(v, lim, Start(branch), txs[..i + 1]);
            r.Done? ==>
              && h'.chosen <= r.p.chosen
              && h'.chosen == if Selects(v, lim, h, txs[i]) then h.chosen + [txs[i]] else h.chosen
  {
    LoopIsGreedy(v, lim, stuck, branch, txs);
    OfferedNext(v, lim, Start(branch), txs, i);
  }

  /** Budgets and sizes as they are below 2^63. */
  ghost predicate Ordinary<S>(v: Verifier<S>, lim: Limits, txs: seq<Tx>) {
    && lim.maxBytes < TWO63 && lim.maxGas < TWO63
    && forall tx :: tx in txs ==> GasLimit(tx) < TWO63 && (v.encode(tx).Some? ==> |v.encode(tx).value| < TWO63)
  }

  ghost predicate WithinLimits<S>(v: Verifier<S>, lim: Limits, h: History<S>) {
    TotalBytes(v, h.chosen) <= lim.maxBytes && (lim.maxGas > 0 ==> TotalGas(h.chosen) <= lim.maxGas)
  }

  lemma {:induction false} OfferStaysWithin<S>(v: Verifier<S>, lim: Limits, h: History<S>, tx: Tx)
    requires Ordinary(v, lim, [tx]) && WithinLimits(v, lim, h)
    ensures WithinLimits(v, lim, Offer(v, lim, h, tx))
  {
    if Selects(v, lim, h, tx) {
      ComparesTruly(v, lim, h, tx);
      TotalsSnoc(v, h.chosen, tx);
    }
  }

  lemma {:induction false} TotalsStayWithin<S>(v: Verifier<S>, lim: Limits, h: History<S>, txs: seq<Tx>)
    requires Ordinary(v, lim, txs) && WithinLimits(v, lim, h)
    ensures WithinLimits(v, lim, OfferAll(v, lim, h, txs))
    decreases |txs|
  {
    if txs != [] {
      assert txs[0] in txs && Ordinary(v, lim, [txs[0]]);
      OfferStaysWithin(v, lim, h, txs[0]);
      assert Ordinary(v, lim, txs[1..]);
      TotalsStayWithin(v, lim, Offer(v, lim, h, txs[0]), txs[1..]);
    }
  }

  /** Below 2^63 nothing wraps: the uint64 totals compare as the true ones. */
  lemma {:induction false} ComparesTruly<S>(v: Verifier<S>, lim: Limits, h: History<S>, tx: Tx)
    requires Ordinary(v, lim, [tx]) && WithinLimits(v, lim, h) && v.encode(tx).Some?
    ensures HasRoom(v, lim, h, tx) <==>
      && TotalBytes(v, h.chosen) + |v.encode(tx).value| <= lim.maxBytes
      && (lim.maxGas > 0 ==> TotalGas(h.chosen) + GasLimit(tx) <= lim.maxGas)
  {
    TotalsSnoc(v, h.chosen, tx);
    assert tx in [tx];
  }

  /**
    * In true totals: with ordinary sizes a transaction is left out only because a signature does not follow, it
    * does not encode or verify, it would exceed a limit, or the transactions selected before it reach one.
    */
  lemma {:induction false} LeftOutForAReason<S>(
      v: Verifier<S>, lim: Limits, stuck: set<Tx>, branch: S, txs: seq<Tx>, i: nat)
    requires i < |txs| && Ordinary(v, lim, txs)
    ensures var r := PickAll(v, lim, stuck, Picker(branch, NOTHING, map[], []), txs);
            var h := OfferAll(v, lim, Start(branch), txs[..i]);
            r.Done? ==>
              || h.chosen + [txs[i]] <= r.p.chosen
              || !Follows(h, txs[i])
              || !Verifies(v, h, txs[i])
              || TotalBytes(v, h.chosen) + |v.encode(txs[i]).value| > lim.maxBytes
              || (lim.maxGas > 0 && TotalGas(h.chosen) + GasLimit(txs[i]) > lim.maxGas)
              || TotalBytes(v, h.chosen) >= lim.maxBytes
              || (lim.maxGas > 0 && TotalGas(h.chosen) >= lim.maxGas)
  {
    SelectedExactly(v, lim, stuck, branch, txs, i);
    var h := OfferAll(v, lim, Start(branch), txs[..i]);
    assert txs[i] in txs && forall tx :: tx in txs[..i] ==> tx in txs;
    TotalsStayWithin(v, lim, Start(branch), txs[..i]);
    if Verifies(v, h, txs[i]) {
      ComparesTruly(v, lim, h, txs[i]);
      if Exhausted(v, lim, h) {
        ReachesTruly(v, lim, h);
      }
    }
  }

  lemma {:induction false} ReachesTruly<S>(v: Verifier<S>, lim: Limits, h: History<S>)
    requires lim.maxBytes < TWO63 && lim.maxGas < TWO63 && WithinLimits(v, lim, h) && Exhausted(v, lim, h)
    ensures TotalBytes(v, h.chosen) >= lim.maxBytes || (lim.maxGas > 0 && TotalGas(h.chosen) >= lim.maxGas)
  {
  }

  // ---- Everything that fits is proposed ----

  /** The branch once all the transactions have verified in turn; None when one does not encode or fails. */
  function VerifiedAll<S>(v: Verifier<S>, branch: S, txs: seq<Tx>): Option<S>
    decreases |txs|
  {
    if txs == [] then Some(branch)
    else
      var before := VerifiedAll(v, branch, txs[..|txs| - 1]);
      var bz := v.encode(txs[|txs| - 1]);
      if before.None? || bz.None? || !v.run(before.value, bz.value).1 then None
      else Some(v.run(before.value, bz.value).0)
  }

  lemma {:induction false} ChainedFollows<S>(txs: seq<Tx>, tx: Tx, branch: S)
    requires Chained(txs + [tx])
    ensures Chained(txs) && Follows(History(branch, txs, [], []), tx)
  {
    var more := txs + [tx];
    assert more[..|txs|] == txs && more[|txs|] == tx;
    forall j, s | 0 <= j < |txs| && s in SigsOf(txs[j]) && LastSeq(txs[..j], s.signer).Some?
      ensures s.sequence == Succ(LastSeq(txs[..j], s.signer).value)
    {
      assert more[..j] == txs[..j] && more[j] == txs[j];
    }
    forall s | s in SigsOf(tx) && LastSeq(txs, s.signer).Some?
      ensures s.sequence == Succ(LastSeq(txs, s.signer).value)
    {
      assert LastSeq(more[..|txs|], s.signer).Some? && s in SigsOf(more[|txs|]);
    }
  }

  ghost predicate Spacious<S>(v: Verifier<S>, lim: Limits, txs: seq<Tx>) {
    TotalBytes(v, txs) < lim.maxBytes && (lim.maxGas > 0 ==> TotalGas(txs) < lim.maxGas)
  }

  lemma {:induction false} OneMoreIsSelected<S>(v: Verifier<S>, lim: Limits, h: History<S>, tx: Tx)
    requires h.over == [] && Follows(h, tx) && Verifies(v, h, tx) && Spacious(v, lim, h.chosen + [tx])
    ensures OfferAll(v, lim, h, [tx]) == h.(branch := v.run(h.branch, v.encode(tx).value).0, chosen := h.chosen + [tx])
    ensures Spacious(v, lim, h.chosen)
  {
    TotalsSnoc(v, h.chosen, tx);
    OfferOne(v, lim, h, tx);
  }

  lemma {:induction false} AllAreOffered<S>(v: Verifier<S>, lim: Limits, branch: S, txs: seq<Tx>)
    requires Chained(txs) && VerifiedAll(v, branch, txs).Some? && Spacious(v, lim, txs)
    ensures OfferAll(v, lim, Start(branch), txs) == History(VerifiedAll(v, branch, txs).value, txs, [], [])
    decreases |txs|
  {
    if txs != [] {
      var init, tx := txs[..|txs| - 1], txs[|txs| - 1];
      assert txs == init + [tx];
      var h := History(VerifiedAll(v, branch, init).value, init, [], []);
      ChainedFollows(init, tx, h.branch);
      OneMoreIsSelected(v, lim, h, tx);
      AllAreOffered(v, lim, branch, init);
      OfferConcat(v, lim, Start(branch), init, [tx]);
    }
  }

  /** A mempool that verifies in turn with consecutive sequences, and stays below both limits, is proposed whole. */
  lemma {:induction false} WholeMempoolIsProposed<S>(
      v: Verifier<S>, lim: Limits, stuck: set<Tx>, branch: S, txs: seq<Tx>, reqTxs: seq<Bytes>)
    requires Chained(txs) && VerifiedAll(v, branch, txs).Some? && Spacious(v, lim, txs)
    requires Coherence.Readable(Pool(txs, stuck))
    ensures Prepared(v, lim, Pool(txs, stuck), branch, reqTxs) == Some(Encodings(v.encode, txs))
  {
    Coherence.ReadableFinishes(v, lim, stuck, Picker(branch, NOTHING, map[], []), txs);
    LoopIsGreedy(v, lim, stuck, branch, txs);
    AllAreOffered(v, lim, branch, txs);
  }

  // ---- Without a mempool ----

  /**
    * First come, first served: a requested transaction is taken if it fits beside those taken before it, until
    * these reach the byte limit.
    */
  function FirstFit(maxBytes: Uint64, txs: seq<Bytes>): seq<Bytes>
    decreases |txs|
  {
    if txs == [] then []
    else
      var init, bz := txs[..|txs| - 1], txs[|txs| - 1];
      var taken := FirstFit(maxBytes, init);
      if init != [] && Sum(Lengths(taken)) % TWO64 >= maxBytes then taken
      else if (Sum(Lengths(taken)) + |bz|) % TWO64 <= maxBytes then taken + [bz]
      else taken
  }

  lemma {:induction false} TakeSnoc(lim: Limits, sel: Selection, txs: seq<Bytes>, bz: Bytes)
    ensures var before := TakeAll(lim, sel, txs);
            TakeAll(lim, sel, txs + [bz])
            == if txs != [] && Full(before, lim) then before else Select(before, lim, 0, bz)
    decreases |txs|
  {
    if txs == [] {
      assert (txs + [bz])[1..] == [];
    } else {
      var sel' := Select(sel, lim, 0, txs[0]);
      assert (txs + [bz])[1..] == txs[1..] + [bz];
      if !Full(sel', lim) {
        TakeSnoc(lim, sel', txs[1..], bz);
      }
    }
  }

  /** The selector's counters while it forwards: the bytes as a uint64, and no gas. */
  ghost predicate Forwarding(sel: Selection) {
    sel.bytes == Sum(Lengths(sel.txs)) % TWO64 && sel.gas == 0
  }

  lemma {:induction false} ForwardOne(lim: Limits, sel: Selection, bz: Bytes)
    requires Forwarding(sel)
    ensures Forwarding(Select(sel, lim, 0, bz))
    ensures Select(sel, lim, 0, bz).txs
         == if (Sum(Lengths(sel.txs)) + |bz|) % TWO64 <= lim.maxBytes then sel.txs + [bz] else sel.txs
    ensures Full(sel, lim) <==> Sum(Lengths(sel.txs)) % TWO64 >= lim.maxBytes
  {
    assert Lengths(sel.txs + [bz]) == Lengths(sel.txs) + [|bz|];
    SumSnoc(Lengths(sel.txs), |bz|);
    ModAdd(Sum(Lengths(sel.txs)), |bz|);
  }

  lemma FirstFitSnoc(maxBytes: Uint64, txs: seq<Bytes>)
    requires txs != []
    ensures var init, bz := txs[..|txs| - 1], txs[|txs| - 1];
            var taken := FirstFit(maxBytes, init);
            FirstFit(maxBytes, txs) ==
              if init != [] && Sum(Lengths(taken)) % TWO64 >= maxBytes then taken
              else if (Sum(Lengths(taken)) + |bz|) % TWO64 <= maxBytes then taken + [bz]
              else taken
  {
  }

  lemma {:induction false} ForwardedIsFirstFit(lim: Limits, txs: seq<Bytes>)
    ensures var sel := TakeAll(lim, NOTHING, txs);
            sel.txs == FirstFit(lim.maxBytes, txs) && Forwarding(sel)
    decreases |txs|
  {
    if txs != [] {
      var init, bz := txs[..|txs| - 1], txs[|txs| - 1];
      assert txs == init + [bz];
      ForwardedIsFirstFit(lim, init);
      TakeSnoc(lim, NOTHING, init, bz);
      ForwardOne(lim, TakeAll(lim, NOTHING, init), bz);
      FirstFitSnoc(lim.maxBytes, txs);
    }
  }

  lemma {:induction false} FirstFitTakesAll(maxBytes: Uint64, txs: seq<Bytes>)
    requires Sum(Lengths(txs)) < maxBytes
    ensures FirstFit(maxBytes, txs) == txs
    decreases |txs|
  {
    if txs != [] {
      var init, bz := txs[..|txs| - 1], txs[|txs| - 1];
      assert txs == init + [bz];
      assert Lengths(txs) == Lengths(init) + [|bz|];
      SumSnoc(Lengths(init), |bz|);
      FirstFitTakesAll(maxBytes, init);
    }
  }

  /** A request whose bytes total less than the limit is forwarded whole. */
  lemma {:induction false} WholeRequestIsForwarded<S>(
      v: Verifier<S>, maxTxBytes: Int64, maxGas: Option<Int64>, branch: S, reqTxs: seq<Bytes>)
    requires Sum(Lengths(reqTxs)) < maxTxBytes
    ensures Prepared(v, PrepareLimits(maxTxBytes, maxGas), NoPool, branch, reqTxs) == Some(reqTxs)
  {
    var lim := PrepareLimits(maxTxBytes, maxGas);
    assert lim.maxBytes == maxTxBytes;
    ForwardedIsFirstFit(lim, reqTxs);
    FirstFitTakesAll(maxTxBytes, reqTxs);
  }
}
