/** One transaction on a plain store, stage by stage, and `runTx` over branches as a refinement of it. */
module Stages {
  import opened Words
  import opened Transactions
  import opened Overlay
  import opened Gas
  import opened RunTx
  import opened RunTxProps

  /**
    * A transaction before block gas is charged: the store the ante handler left, the store everything left (the
    * same on an error), the mempool, the last meter a handler reported, the gas wanted, and the context's reading.
    */
  datatype Staged<!M> = Staged(
    ante: Store, done: Store, pool: M, meter: Meter, wanted: Uint64, reading: Uint64, err: Option<TxError>)

  function Stopped<M>(s: Store, pool: M, m: Meter, wanted: Uint64, reading: Uint64, err: TxError): Staged<M> {
    Staged(s, s, pool, m, wanted, reading, Some(err))
  }

  function Stage<M>(app: App<M>, mode: Mode, h: Header, g: Uint64, s: Store, pool: M, bz: Bytes): Staged<M> {
    match app.decode(bz)
    case None => Stopped(s, pool, Infinite(g), 0, g, DecodeError)
    case Some(tx) =>
      if tx.msgs == [] || exists i :: 0 <= i < |tx.msgs| && !app.basic(tx.msgs[i])
      then Stopped(s, pool, Infinite(g), 0, g, BasicError)
      else if app.ante.None? then StageBody(app, mode, h, s, pool, tx, Infinite(g), 0, None)
      else
        match app.ante.value(mode, h, g, s, tx)
        case AntePanic(inh) => Stopped(s, pool, Infinite(inh), 0, inh, PanicError)
        case AnteFail(meter, inh) =>
          var pool' := if mode == ReCheck then app.remove(pool, tx).0 else pool;
          (match meter
           case None => Stopped(s, pool', Infinite(inh), MAX_GAS, inh, AnteError)
           case Some(m) => Stopped(s, pool', m, if m.Limited? then m.limit else MAX_GAS, inh, AnteError))
        case AntePass(w, meter, inh) =>
          (match meter
           case None => StageBody(app, mode, h, Apply(s, w), pool, tx, Infinite(inh), MAX_GAS, None)
           case Some(m) =>
             StageBody(app, mode, h, Apply(s, w), pool, tx, m, if m.Limited? then m.limit else MAX_GAS, Some(inh)))
  }

  /** The mempool, then messages and post handler; `own` is the context's reading when the meter is not shared. */
  function StageBody<M>(app: App<M>, mode: Mode, h: Header, s: Store, pool: M, tx: Tx, m: Meter, wanted: Uint64,
                        own: Option<Uint64>): Staged<M>
  {
    var (pool', refused) :=
      if mode == Check then (app.insert(pool, tx).0, !app.insert(pool, tx).1)
      else if mode == Deliver then (app.remove(pool, tx).0, app.remove(pool, tx).1 == Fault)
      else (pool, false);
    if refused then Stopped(s, pool', m, wanted, if own.Some? then own.value else m.consumed, MempoolError)
    else
      var o := PlainBody(app, mode, h, s, tx, m);
      var reading := if own.Some? then own.value else o.meter.consumed;
      match o
      case Kept(s', m') => Staged(s, s', pool', m', wanted, reading, None)
      case Refused(m') => Stopped(s, pool', m', wanted, reading, HandlerError)
      case Crashed(m') => Stopped(s, pool', m', wanted, reading, PanicError)
  }

  /**
    * The block meter once a transaction whose last meter is `m` has been charged, and whether that fails: the gas
    * used, but not more than its limit.
    */
  function Charged(block: Meter, m: Meter): (Meter, bool) {
    var due := match m case Infinite(c) => c case Limited(l, c) => if c <= l then c else l;
    var total := block.consumed + due;
    match block
    case Infinite(_) => if total <= MAX_GAS then (Infinite(total), false) else (Infinite(0), true)
    case Limited(limit, _) => (Limited(limit, if total <= MAX_GAS then total else MAX_GAS), total > limit)
  }

  // ---- `runTx` refines the stages ----

  lemma {:induction false} AdmittedIsStaged<M>(
      app: App<M>, mode: Mode, h: Header, view: Store, pool: M, tx: Tx, o: AnteOutcome)
    requires o.AntePass?
    ensures var a := Admitted(app, mode, h, view, pool, tx, o);
            var m := MeterOf(o.meter, o.inherited);
            var st := StageBody(app, mode, h, Apply(view, o.writes), pool, tx, m,
                                if app.ante.None? then 0 else Limit(m),
                                if o.meter.Some? then Some(o.inherited) else None);
            Tells(view, a, st)
  {
    BodyRefinesPlain(app, mode, h, Apply(view, o.writes), tx, MeterOf(o.meter, o.inherited));
    ApplyClean(Apply(view, o.writes));
  }

  /** An attempt on a branch over `view`, seen as a staged transaction. */
  ghost predicate Tells<M>(view: Store, a: Attempt<M>, st: Staged<M>) {
    && Apply(view, a.flushed) == st.ante && Apply(st.ante, a.pending) == st.done
    && a.pool == st.pool && a.meter == st.meter && a.wanted == st.wanted && a.ctxGas == st.reading && a.err == st.err
  }

  lemma {:induction false} AttemptIsStaged<M>(
      app: App<M>, mode: Mode, h: Header, g: Uint64, view: Store, pool: M, bz: Bytes)
    ensures Tells(view, Attempted(app, mode, h, g, view, pool, bz), Stage(app, mode, h, g, view, pool, bz))
  {
    ApplyClean(view);
    if app.decode(bz).Some? {
      var tx := app.decode(bz).value;
      assert BasicOk(app, tx) <==> !(tx.msgs == [] || exists i :: 0 <= i < |tx.msgs| && !app.basic(tx.msgs[i]));
      var o := Ante(app, mode, h, g, view, tx);
      if BasicOk(app, tx) && o.AntePass? {
        AdmittedIsStaged(app, mode, h, view, pool, tx, o);
      }
    }
  }

  /**
    * `runTx` in every mode, against the stages: which store the branch shows afterwards, what the block is charged,
    * the gas reported, the error and the mempool.
    */
  lemma {:induction false} RunRefinesStages<M>(app: App<M>, mode: Mode, br: Branch, parent: Store, pool: M, bz: Bytes)
    ensures var view := Apply(parent, br.writes);
            var g := app.readParams(view, br.ctxGas);
            var st := Stage(app, mode, br.header, g, view, pool, bz);
            var (br', pool', r) := Ran(app, mode, br, parent, pool, bz);
            var shown := Apply(parent, br'.writes);
            if mode == Deliver && br.blockGas.Limited? && br.blockGas.consumed >= br.blockGas.limit then
              br' == br.(ctxGas := g) && pool' == pool && r == TxResult(Some(NoBlockGas), 0, 0)
            else
              && br'.header == br.header && br'.ctxGas == st.reading && pool' == st.pool
              && r.gasWanted == st.wanted && r.gasUsed == st.meter.consumed
              && if mode == Deliver then
                   var (gas, over) := Charged(br.blockGas, st.meter);
                   && br'.blockGas == gas && r.err == (if over then Some(PanicError) else st.err)
                   && shown == if r.err.None? then st.done else st.ante
                 else
                   br'.blockGas == br.blockGas && r.err == st.err && shown == if mode == Simulate then view else st.ante
  {
    var view := Apply(parent, br.writes);
    var g := app.readParams(view, br.ctxGas);
    AttemptIsStaged(app, mode, br.header, g, view, pool, bz);
    var a := Attempted(app, mode, br.header, g, view, pool, bz);
    ApplyTwice(parent, br.writes, a.flushed, a.pending);
    ApplyCompose(parent, br.writes, a.flushed);
  }

  // ---- The block meter and the gas the results report ----

  /** The last meter a handler reports when the transaction is delivered to this branch. */
  function LastMeter<M>(app: App<M>, br: Branch, parent: Store, pool: M, bz: Bytes): Meter {
    var view := Apply(parent, br.writes);
    Stage(app, Deliver, br.header, app.readParams(view, br.ctxGas), view, pool, bz).meter
  }

  /** The transaction is refused for lack of block gas, or uses no more gas than its own limit. */
  predicate Thrifty<M>(app: App<M>, br: Branch, parent: Store, pool: M, bz: Bytes) {
    var m := LastMeter(app, br, parent, pool, bz);
    OutOfGas(br.blockGas) || m.Infinite? || m.consumed <= m.limit
  }

  ghost predicate AllThrifty<M>(app: App<M>, br: Branch, parent: Store, pool: M, txs: seq<Bytes>)
    decreases |txs|
  {
    txs == [] ||
    (var init := DeliverAll(app, br, parent, pool, txs[..|txs| - 1]);
     && AllThrifty(app, br, parent, pool, txs[..|txs| - 1])
     && Thrifty(app, init.branch, parent, init.pool, txs[|txs| - 1]))
  }

  function GasUsed(results: seq<TxResult>): (r: seq<nat>)
    ensures |r| == |results|
  {
    seq(|results|, i requires 0 <= i < |results| => results[i].gasUsed)
  }

  /**
    * A delivered transaction costs the block the gas it reports as used, or its limit when it went past it; the
    * refused one costs nothing and reports nothing.
    */
  lemma {:induction false} ChargeIsGasUsed<M>(app: App<M>, br: Branch, parent: Store, pool: M, bz: Bytes)
    ensures var charge, used := Charge(app, br, parent, pool, bz), Ran(app, Deliver, br, parent, pool, bz).2.gasUsed;
            var m := LastMeter(app, br, parent, pool, bz);
            && used == (if OutOfGas(br.blockGas) then 0 else m.consumed)
            && charge == (if m.Limited? && used > m.limit then m.limit else used)
            && (charge == used <==> Thrifty(app, br, parent, pool, bz))
  {
    var view := Apply(parent, br.writes);
    AttemptIsStaged(app, Deliver, br.header, app.readParams(view, br.ctxGas), view, pool, bz);
  }

  lemma {:induction false} ChargesAreGasUsed<M>(app: App<M>, br: Branch, parent: Store, pool: M, txs: seq<Bytes>)
    ensures var b := DeliverAll(app, br, parent, pool, txs);
            b.charges == GasUsed(b.results) <==> AllThrifty(app, br, parent, pool, txs)
    decreases |txs|
  {
    if txs != [] {
      var rest, bz := txs[..|txs| - 1], txs[|txs| - 1];
      var init := DeliverAll(app, br, parent, pool, rest);
      ChargesAreGasUsed(app, br, parent, pool, rest);
      ChargeIsGasUsed(app, init.branch, parent, init.pool, bz);
      var charge := Charge(app, init.branch, parent, init.pool, bz);
      var r := Ran(app, Deliver, init.branch, parent, init.pool, bz).2;
      assert GasUsed(init.results + [r]) == GasUsed(init.results) + [r.gasUsed];
      SnocEqual(init.charges, GasUsed(init.results), charge, r.gasUsed);
    }
  }

  lemma {:induction false} SnocEqual(a: seq<nat>, b: seq<nat>, x: nat, y: nat)
    ensures a + [x] == b + [y] <==> a == b && x == y
  {
    if a + [x] == b + [y] {
      assert |a + [x]| == |a| + 1 && |b + [y]| == |b| + 1;
      assert a == (a + [x])[..|a|] && b == (b + [y])[..|b|];
      assert x == (a + [x])[|a|] && y == (b + [y])[|b|];
    }
  }

  /** In a block whose transactions stay within their limits the block meter adds up the gas the results report. */
  lemma {:induction false} BlockGasIsGasUsed<M>(app: App<M>, br: Branch, parent: Store, pool: M, txs: seq<Bytes>)
    requires AllThrifty(app, br, parent, pool, txs)
    ensures var b := DeliverAll(app, br, parent, pool, txs);
            var total := br.blockGas.consumed + Sum(GasUsed(b.results));
            && (br.blockGas.Limited? ==>
                  b.branch.blockGas == Limited(br.blockGas.limit, if total <= MAX_GAS then total else MAX_GAS))
            && (br.blockGas.Infinite? && total <= MAX_GAS ==> b.branch.blockGas == Infinite(total))
  {
    ChargesAreGasUsed(app, br, parent, pool, txs);
    BlockGasIsSumOfCharges(app, br, parent, pool, txs);
  }
}
