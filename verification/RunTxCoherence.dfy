/** Prepare/process coherence with `runTx` itself as the verifier. */
module RunTxCoherence {
  import opened Words
  import opened Transactions
  import opened TxSelection
  import opened Proposal
  import ProposalProps
  import opened Coherence
  import opened Overlay
  import opened Gas
  import opened RunTx
  import opened RunTxProps

  /** BaseApp's `PrepareProposalVerifyTx` and `ProcessProposalVerifyTx` over a branch of `parent`. */
  function RunVerifier<M>(app: App<M>, encode: Tx -> Option<Bytes>, mode: Mode, parent: Store, pool: M)
    : Verifier<Branch>
  {
    Verifier(encode, app.decode,
             (br: Branch, bz: Bytes) => var x := Ran(app, mode, br, parent, pool, bz); (x.0, x.2.err.None?))
  }

  /**
    * Seen through `alpha`, the ante handler checks sequences and then the rest, and writes only when both pass;
    * the post handler, if there is one, refuses by what the ante handler left. Transactions decode back.
    */
  ghost predicate AnteModel<M, R(!new)>(app: App<M>, encode: Tx -> Option<Bytes>, alpha: Store -> AnteState<R>,
                                        c: Checks<R>, mode: Mode)
  {
    && (forall tx :: encode(tx).Some? ==> app.decode(encode(tx).value) == Some(tx))
    && (forall tx, h, g, view :: encode(tx).Some? ==> Models(app, alpha, c, mode, tx, h, g, view))
  }

  /** In a proposal mode the post handler runs right after the ante handler, no message being executed. */
  predicate PostPasses<M>(app: App<M>, mode: Mode, h: Header, view: Store, tx: Tx, m: Meter) {
    app.post.Some? ==> app.post.value(mode, h, view, tx, m).Passed?
  }

  ghost predicate Models<M, R>(app: App<M>, alpha: Store -> AnteState<R>, c: Checks<R>, mode: Mode,
                               tx: Tx, h: Header, g: Uint64, view: Store)
  {
    var s, o := alpha(view), Ante(app, mode, h, g, view, tx);
    && (Admits(c, s, tx) <==> BasicOk(app, tx) && o.AntePass?)
    && (Admits(c, s, tx) ==>
          var after := Apply(view, o.writes);
          && alpha(after) == AnteRun(c, s, tx).0
          && (PostPasses(app, mode, h, after, tx, MeterOf(o.meter, o.inherited)) <==> !c.refuse(alpha(after).rest, tx)))
  }

  /** The abstract verifier `runTx` simulates. */
  function AbstractVerifier<R>(encode: Tx -> Option<Bytes>, decode: Bytes -> Option<Tx>, c: Checks<R>)
    : Verifier<AnteState<R>>
  {
    Verifier(encode, decode,
             (s: AnteState<R>, bz: Bytes) => if decode(bz).None? then (s, false) else AnteRun(c, s, decode(bz).value))
  }

  /** Once the ante handler passes, verification succeeds in a proposal mode if and only if the post handler passes. */
  lemma {:induction false} PostDecides<M>(
      app: App<M>, encode: Tx -> Option<Bytes>, mode: Mode, br: Branch, parent: Store, pool: M, bz: Bytes)
    requires mode == PrepareProposal || mode == ProcessProposal
    requires AntePasses(app, mode, br, parent, bz)
    ensures var (br', ok) := RunVerifier(app, encode, mode, parent, pool).run(br, bz);
            var o := Ante(app, mode, br.header, ContextGas(app, br, parent), Apply(parent, br.writes),
                          app.decode(bz).value);
            && (ok <==> PostPasses(app, mode, br.header, Apply(parent, br'.writes), app.decode(bz).value,
                                   MeterOf(o.meter, o.inherited)))
            && br'.writes == br.writes + o.writes
  {
    var view, tx := Apply(parent, br.writes), app.decode(bz).value;
    var o := Ante(app, mode, br.header, ContextGas(app, br, parent), view, tx);
    OnlyDeliveryWritesMessages(app, mode, br, parent, pool, bz);
    ApplyCompose(parent, br.writes, o.writes);
    ApplyClean(Apply(view, o.writes));
    var m := MeterOf(o.meter, o.inherited);
    assert Messages(app, mode, br.header, Apply(view, o.writes), tx.msgs, CLEAN, m) == Passed(CLEAN, m);
  }

  /** In a proposal mode `runTx` does to the abstract state, and answers, what the ante and post handler do. */
  lemma {:induction false} RunAbstracts<M, R(!new)>(
      app: App<M>, encode: Tx -> Option<Bytes>, alpha: Store -> AnteState<R>, c: Checks<R>, mode: Mode, br: Branch,
      parent: Store, pool: M, tx: Tx)
    requires mode == PrepareProposal || mode == ProcessProposal
    requires AnteModel(app, encode, alpha, c, mode) && encode(tx).Some?
    ensures var (br', ok) := RunVerifier(app, encode, mode, parent, pool).run(br, encode(tx).value);
            AnteRun(c, alpha(Apply(parent, br.writes)), tx) == (alpha(Apply(parent, br'.writes)), ok)
  {
    var view, bz := Apply(parent, br.writes), encode(tx).value;
    var g := ContextGas(app, br, parent);
    assert app.decode(bz) == Some(tx);
    assert Models(app, alpha, c, mode, tx, br.header, g, view);
    var o := Ante(app, mode, br.header, g, view, tx);
    if BasicOk(app, tx) && o.AntePass? {
      PostDecides(app, encode, mode, br, parent, pool, bz);
      ApplyCompose(parent, br.writes, o.writes);
    } else {
      OnlyDeliveryWritesMessages(app, mode, br, parent, pool, bz);
    }
  }

  function Abstracted<R>(alpha: Store -> AnteState<R>, parent: Store, p: Picker<Branch>): Picker<AnteState<R>> {
    Picker(alpha(Apply(parent, p.branch.writes)), p.sel, p.last, p.chosen)
  }

  lemma {:induction false} TurnAbstracts<M, R(!new)>(
      app: App<M>, encode: Tx -> Option<Bytes>, alpha: Store -> AnteState<R>, c: Checks<R>, parent: Store, pool: M,
      lim: Limits, stuck: set<Tx>, p: Picker<Branch>, tx: Tx)
    requires AnteModel(app, encode, alpha, c, PrepareProposal)
    ensures var x := Turned(RunVerifier(app, encode, PrepareProposal, parent, pool), lim, stuck, p, tx);
            var y := Turned(AbstractVerifier(encode, app.decode, c), lim, stuck, Abstracted(alpha, parent, p), tx);
            y == match x
                 case Panic => Panic
                 case Next(q) => Next(Abstracted(alpha, parent, q))
                 case Halt(q) => Halt(Abstracted(alpha, parent, q))
  {
    if encode(tx).Some? {
      RunAbstracts(app, encode, alpha, c, PrepareProposal, p.branch, parent, pool, tx);
      assert app.decode(encode(tx).value) == Some(tx);
    }
    var v, a := RunVerifier(app, encode, PrepareProposal, parent, pool), AbstractVerifier(encode, app.decode, c);
    var x, y := PrepareVerify(v, p.branch, tx), PrepareVerify(a, alpha(Apply(parent, p.branch.writes)), tx);
    assert x.1 == y.1 && y.0 == alpha(Apply(parent, x.0.writes));
  }

  lemma {:induction false} PickAllAbstracts<M, R(!new)>(
      app: App<M>, encode: Tx -> Option<Bytes>, alpha: Store -> AnteState<R>, c: Checks<R>, parent: Store, pool: M,
      lim: Limits, stuck: set<Tx>, p: Picker<Branch>, txs: seq<Tx>)
    requires AnteModel(app, encode, alpha, c, PrepareProposal)
    ensures var x := PickAll(RunVerifier(app, encode, PrepareProposal, parent, pool), lim, stuck, p, txs);
            var y := PickAll(AbstractVerifier(encode, app.decode, c), lim, stuck, Abstracted(alpha, parent, p), txs);
            y == if x.Panicked? then Picked.Panicked else Done(Abstracted(alpha, parent, x.p))
    decreases |txs|
  {
    if txs != [] {
      TurnAbstracts(app, encode, alpha, c, parent, pool, lim, stuck, p, txs[0]);
      var t := Turned(RunVerifier(app, encode, PrepareProposal, parent, pool), lim, stuck, p, txs[0]);
      if t.Next? {
        PickAllAbstracts(app, encode, alpha, c, parent, pool, lim, stuck, t.p, txs[1..]);
      }
    }
  }

  lemma {:induction false} JudgeAbstracts<M, R(!new)>(
      app: App<M>, encode: Tx -> Option<Bytes>, alpha: Store -> AnteState<R>, c: Checks<R>, parent: Store, pool: M,
      maxGas: Int64, br: Branch, gas: Uint64, tx: Tx)
    requires AnteModel(app, encode, alpha, c, ProcessProposal) && encode(tx).Some?
    ensures var x := Judge(RunVerifier(app, encode, ProcessProposal, parent, pool), maxGas, br, gas, encode(tx).value);
            var y := Judge(AbstractVerifier(encode, app.decode, c), maxGas, alpha(Apply(parent, br.writes)), gas,
                           encode(tx).value);
            y == if x.Rejected? then Rejected else Passing(alpha(Apply(parent, x.branch.writes)), x.gas)
  {
    RunAbstracts(app, encode, alpha, c, ProcessProposal, br, parent, pool, tx);
    assert app.decode(encode(tx).value) == Some(tx);
  }

  lemma {:induction false} JudgeAllAbstracts<M, R(!new)>(
      app: App<M>, encode: Tx -> Option<Bytes>, alpha: Store -> AnteState<R>, c: Checks<R>, parent: Store, pool: M,
      maxGas: Int64, br: Branch, gas: Uint64, chosen: seq<Tx>, txs: seq<Bytes>)
    requires AnteModel(app, encode, alpha, c, ProcessProposal)
    requires |chosen| == |txs| && forall i :: 0 <= i < |txs| ==> encode(chosen[i]) == Some(txs[i])
    ensures JudgeAll(RunVerifier(app, encode, ProcessProposal, parent, pool), maxGas, br, gas, txs).Passing?
       <==> JudgeAll(AbstractVerifier(encode, app.decode, c), maxGas, alpha(Apply(parent, br.writes)), gas,
                     txs).Passing?
    decreases |txs|
  {
    if txs != [] {
      assert encode(chosen[0]) == Some(txs[0]);
      JudgeAbstracts(app, encode, alpha, c, parent, pool, maxGas, br, gas, chosen[0]);
      var j := Judge(RunVerifier(app, encode, ProcessProposal, parent, pool), maxGas, br, gas, txs[0]);
      if j.Passing? {
        JudgeAllAbstracts(app, encode, alpha, c, parent, pool, maxGas, j.branch, j.gas, chosen[1..], txs[1..]);
      }
    }
  }

  function CapOf(maxGas: Option<Int64>): Int64 {
    if maxGas.Some? then maxGas.value else 0
  }

  /** Built and judged through `runTx`, a proposal is what the abstract verifier builds and judges. */
  lemma {:induction false} ProposalAbstracts<M, N, R(!new)>(
      app: App<M>, other: App<N>, encode: Tx -> Option<Bytes>, alpha: Store -> AnteState<R>, c: Checks<R>,
      lim: Limits, maxGas: Option<Int64>, order: seq<Tx>, stuck: set<Tx>, store: Store, mine: Branch, yours: Branch,
      pool: M, pool': N)
    requires app.decode == other.decode && mine.writes == CLEAN && yours.writes == CLEAN
    requires AnteModel(app, encode, alpha, c, PrepareProposal) && AnteModel(other, encode, alpha, c, ProcessProposal)
    ensures var abs, s0 := AbstractVerifier(encode, app.decode, c), alpha(store);
            var x := PickAll(RunVerifier(app, encode, PrepareProposal, store, pool), lim, stuck,
                             Picker(mine, NOTHING, map[], []), order);
            var y := PickAll(abs, lim, stuck, Picker(s0, NOTHING, map[], []), order);
            && x.Done? == y.Done?
            && (x.Done? ==>
                  && x.p.sel == y.p.sel && x.p.chosen == y.p.chosen
                  && (Accepts(RunVerifier(other, encode, ProcessProposal, store, pool'), maxGas, Pool(order, stuck),
                              yours, x.p.sel.txs)
                      <==> JudgeAll(abs, CapOf(maxGas), s0, 0, y.p.sel.txs).Passing?))
  {
    ApplyClean(store);
    var abs, q := AbstractVerifier(encode, app.decode, c), Picker(alpha(store), NOTHING, map[], []);
    PickAllAbstracts(app, encode, alpha, c, store, pool, lim, stuck, Picker(mine, NOTHING, map[], []), order);
    ProposalProps.ProposalIsChained(abs, lim, stuck, q, order);
    var y := PickAll(abs, lim, stuck, q, order);
    if y.Done? {
      JudgeAllAbstracts(other, encode, alpha, c, store, pool', CapOf(maxGas), yours, 0, y.p.chosen, y.p.sel.txs);
    }
  }

  /**
    * Coherence through `runTx`: for an application whose ante handler checks sequences and otherwise only depletes,
    * and a mempool in which nothing the post handler could refuse shares a signer with anything later, the proposal
    * `runTx` builds in prepare mode on a fresh branch of the committed store is accepted by `runTx` in process mode
    * on a fresh branch of that store, by every process, whatever their headers, gas readings and mempools.
    */
  lemma {:induction false} RunTxIsCoherent<M, N, R(!new)>(
      app: App<M>, other: App<N>, encode: Tx -> Option<Bytes>, alpha: Store -> AnteState<R>, c: Checks<R>,
      below: (R, R) -> bool, maxTxBytes: Int64, maxGas: Option<Int64>, order: seq<Tx>, stuck: set<Tx>, theirs: Pool,
      store: Store, mine: Branch, yours: Branch, pool: M, pool': N, reqTxs: seq<Bytes>)
    requires app.decode == other.decode && mine.writes == CLEAN && yours.writes == CLEAN
    requires AnteModel(app, encode, alpha, c, PrepareProposal) && AnteModel(other, encode, alpha, c, ProcessProposal)
    requires Depleting(c, below) && below(alpha(store).rest, alpha(store).rest) && Untangled(c, order)
    ensures var proposal := Prepared(RunVerifier(app, encode, PrepareProposal, store, pool),
                                     PrepareLimits(maxTxBytes, maxGas), Pool(order, stuck), mine, reqTxs);
            proposal.Some? ==>
              Accepts(RunVerifier(other, encode, ProcessProposal, store, pool'), maxGas, theirs, yours, proposal.value)
  {
    var lim := PrepareLimits(maxTxBytes, maxGas);
    var abs := AbstractVerifier(encode, app.decode, c);
    PrepareProcessCoherence(abs, c, below, maxTxBytes, maxGas, Pool(order, stuck), alpha(store), []);
    ProposalAbstracts(app, other, encode, alpha, c, lim, maxGas, order, stuck, store, mine, yours, pool, pool');
  }

  /**
    * Exact coherence through `runTx`: the proposal is accepted if and only if nothing selected follows a refused
    * transaction of a signer of its own, and the other checks replay on what was selected.
    */
  lemma {:induction false} RunTxCoherenceExact<M, N, R(!new)>(
      app: App<M>, other: App<N>, encode: Tx -> Option<Bytes>, alpha: Store -> AnteState<R>, c: Checks<R>,
      maxTxBytes: Int64, maxGas: Option<Int64>, order: seq<Tx>, stuck: set<Tx>, store: Store, mine: Branch,
      yours: Branch, pool: M, pool': N)
    requires app.decode == other.decode && mine.writes == CLEAN && yours.writes == CLEAN && |order| < TWO64
    requires AnteModel(app, encode, alpha, c, PrepareProposal) && AnteModel(other, encode, alpha, c, ProcessProposal)
    ensures var lim := PrepareLimits(maxTxBytes, maxGas);
            var abs, start := AbstractVerifier(encode, app.decode, c), Picker(alpha(store), NOTHING, map[], []);
            var r := PickAll(RunVerifier(app, encode, PrepareProposal, store, pool), lim, stuck,
                             Picker(mine, NOTHING, map[], []), order);
            r.Done? ==>
              (Accepts(RunVerifier(other, encode, ProcessProposal, store, pool'), maxGas, Pool(order, stuck), yours,
                       r.p.sel.txs)
               <==> RestAfter(c, alpha(store).rest, r.p.chosen).Some? && !Tangled(abs, c, lim, stuck, start, {}, order))
  {
    var lim := PrepareLimits(maxTxBytes, maxGas);
    var abs, q := AbstractVerifier(encode, app.decode, c), Picker(alpha(store), NOTHING, map[], []);
    CoherenceExact(abs, c, lim, stuck, CapOf(maxGas), alpha(store), order);
    ProposalAbstracts(app, other, encode, alpha, c, lim, maxGas, order, stuck, store, mine, yours, pool, pool');
  }

  // ---- A post handler that refuses breaks coherence ----

  function Earlier(): Tx {
    Tx(Some([Sig("x", 0)]), None, [Msg("", [])], [1])
  }

  function Later(): Tx {
    Tx(Some([Sig("x", 1)]), None, [Msg("", [])], [])
  }

  function EncodeBoth(tx: Tx): Option<Bytes> {
    if tx == Earlier() || tx == Later() then Some(tx.memo) else None
  }

  function DecodeBoth(bz: Bytes): Option<Tx> {
    Some(if bz == [1] then Earlier() else Later())
  }

  /** Checks the one signer's sequence, which is 1 once the key is present, and increments it from 0. */
  function CheckSequence(mode: Mode, h: Header, g: Uint64, s: Store, tx: Tx): AnteOutcome {
    if tx == (if "x" in s then Later() else Earlier()) then AntePass(map["x" := Some("1")], None, g)
    else AnteFail(None, g)
  }

  function RefuseEarlier(mode: Mode, h: Header, s: Store, tx: Tx, m: Meter): Outcome {
    if tx == Earlier() then Failed(m) else Passed(CLEAN, m)
  }

  function RefusingApp(): App<bool> {
    App(DecodeBoth, msg => true, Some(CheckSequence), (mode, h, s, msg, m) => Passed(CLEAN, m), Some(RefuseEarlier),
        (p, tx) => (p, true), (p, tx) => (p, NotFound), (s, g) => g)
  }

  /** In a proposal mode such a refusal keeps the ante writes: the sequence is incremented all the same. */
  lemma {:induction false} RefusedStillWrites(mode: Mode, br: Branch)
    requires mode == PrepareProposal && br == Branch(CLEAN, Header(1, ""), Infinite(0), 0)
    ensures var (br', _, r) := Ran(RefusingApp(), mode, br, map[], false, [1]);
            br' == br.(writes := map["x" := Some("1")]) && r.err.Some?
  {
    var app, m := RefusingApp(), Infinite(0);
    var w: Writes := map["x" := Some("1")];
    ApplyClean(map[]);
    assert BasicOk(app, Earlier());
    var o := Ante(app, mode, br.header, 0, map[], Earlier());
    assert o == AntePass(w, None, 0);
    ApplyClean(Apply(map[], w));
    assert Messages(app, mode, br.header, Apply(map[], w), Earlier().msgs, CLEAN, m) == Passed(CLEAN, m);
    assert Body(app, mode, br.header, Apply(map[], w), Earlier(), m) == Failed(m);
    assert CLEAN + w == w;
  }

  /** The sequence of `Later` matches only after `Earlier` has run. */
  lemma {:induction false} LaterNeedsEarlier(mode: Mode, br: Branch)
    requires mode == PrepareProposal || mode == ProcessProposal
    requires br.header == Header(1, "") && br.blockGas == Infinite(0) && br.ctxGas == 0
    requires br.writes == CLEAN || br.writes == map["x" := Some("1")]
    ensures var (br', _, r) := Ran(RefusingApp(), mode, br, map[], false, []);
            && (r.err.None? <==> br.writes != CLEAN)
            && br' == br
  {
    var app, m := RefusingApp(), Infinite(0);
    var w: Writes := map["x" := Some("1")];
    var view := Apply(map[], br.writes);
    assert "x" in view <==> br.writes != CLEAN;
    assert BasicOk(app, Later());
    var o := Ante(app, mode, br.header, 0, view, Later());
    if br.writes != CLEAN {
      assert o == AntePass(w, None, 0);
      ApplyClean(Apply(view, w));
      assert Messages(app, mode, br.header, Apply(view, w), Later().msgs, CLEAN, m) == Passed(CLEAN, m);
      assert Body(app, mode, br.header, Apply(view, w), Later(), m).Passed?;
      assert w + w == w;
    } else {
      assert CLEAN + CLEAN == CLEAN;
    }
  }

  /**
    * Through `runTx`, for every application in the model: a transaction the ante handler admits and the post handler
    * refuses, followed by one that is admitted only after it, is a mempool whose proposal no node accepts.
    */
  lemma {:induction false} RefusalIsIncoherent<M, R(!new)>(
      app: App<M>, encode: Tx -> Option<Bytes>, alpha: Store -> AnteState<R>, c: Checks<R>, store: Store, pool: M,
      lim: Limits, maxGas: Option<Int64>, mine: Branch, yours: Branch, t: Tx, u: Tx)
    requires AnteModel(app, encode, alpha, c, PrepareProposal) && AnteModel(app, encode, alpha, c, ProcessProposal)
    requires mine.writes == CLEAN && yours.writes == CLEAN
    requires t.sigs.Some? && u.sigs.Some? && encode(t).Some? && encode(u).Some?
    requires var s0, s1 := alpha(store), AnteRun(c, alpha(store), t).0;
             && Admits(c, s0, t) && !AnteRun(c, s0, t).1
             && AnteRun(c, s1, u).1 && !AnteRun(c, s0, u).1
    requires Fits(NOTHING, lim, GasLimit(u), encode(u).value)
    ensures Prepared(RunVerifier(app, encode, PrepareProposal, store, pool), lim, Pool([t, u], {}), mine, [])
         == Some([encode(u).value])
    ensures !Accepts(RunVerifier(app, encode, ProcessProposal, store, pool), maxGas, Pool([t, u], {}), yours,
                     [encode(u).value])
  {
    ApplyClean(store);
    var v := RunVerifier(app, encode, PrepareProposal, store, pool);
    var w := RunVerifier(app, encode, ProcessProposal, store, pool);
    var x, y := encode(t).value, encode(u).value;
    RunAbstracts(app, encode, alpha, c, PrepareProposal, mine, store, pool, t);
    var br := v.run(mine, x).0;
    RunAbstracts(app, encode, alpha, c, PrepareProposal, br, store, pool, u);
    RunAbstracts(app, encode, alpha, c, PrepareProposal, mine, store, pool, u);
    RefusalBreaks(v, lim, maxGas, t, u, mine, br, x, y);
    RunAbstracts(app, encode, alpha, c, ProcessProposal, yours, store, pool, u);
    var cap: Int64 := if maxGas.Some? then maxGas.value else 0;
    assert Judge(w, cap, yours, 0, y) == Rejected;
  }

  /** Such an application: the one signer's sequence counts up from zero, and its first transaction is refused. */
  lemma {:induction false} RefusingIsIncoherent(br: Branch)
    requires br == Branch(CLEAN, Header(1, ""), Infinite(0), 0)
    ensures var v := RunVerifier(RefusingApp(), EncodeBoth, PrepareProposal, map[], false);
            Prepared(v, PrepareLimits(100, None), Pool([Earlier(), Later()], {}), br, []) == Some([[]])
    ensures var w := RunVerifier(RefusingApp(), EncodeBoth, ProcessProposal, map[], false);
            !Accepts(w, None, Pool([Earlier(), Later()], {}), br, [[]])
  {
    var v := RunVerifier(RefusingApp(), EncodeBoth, PrepareProposal, map[], false);
    var w := RunVerifier(RefusingApp(), EncodeBoth, ProcessProposal, map[], false);
    var br' := br.(writes := map["x" := Some("1")]);
    RefusedStillWrites(PrepareProposal, br);
    LaterNeedsEarlier(PrepareProposal, br);
    LaterNeedsEarlier(PrepareProposal, br');
    RefusalBreaks(v, PrepareLimits(100, None), None, Earlier(), Later(), br, br', [1], []);
    LaterNeedsEarlier(ProcessProposal, br);
    assert Judge(w, 0, br, 0, []) == Rejected;
  }
}
