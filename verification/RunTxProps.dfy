/** Atomicity of transactions and block-gas accounting. */
module RunTxProps {
  import opened Words
  import opened Transactions
  import opened Overlay
  import opened Gas
  import opened RunTx

  // ---- Branches refine plain execution ----

  /** What handlers make of a plain store: the store they leave, or a refusal or panic that leaves nothing. */
  datatype Plain = Kept(store: Store, meter: Meter) | Refused(meter: Meter) | Crashed(meter: Meter)

  /** One handler writing straight into the store. */
  function Direct(s: Store, o: Outcome): Plain {
    match o
    case Passed(w, m) => Kept(Apply(s, w), m)
    case Failed(m) => Refused(m)
    case Panicked(m) => Crashed(m)
  }

  /** The messages executed one after the other directly on a store, without branches. */
  function PlainMessages<M>(app: App<M>, mode: Mode, h: Header, s: Store, msgs: seq<Msg>, m: Meter): Plain
    decreases |msgs|
  {
    if msgs == [] then Kept(s, m)
    else
      match Direct(s, app.handler(mode, h, s, msgs[0], m))
      case Kept(s', m') => PlainMessages(app, mode, h, s', msgs[1..], m')
      case o => o
  }

  /** Messages when the mode executes them, and then the post handler on the store they left. */
  function PlainBody<M>(app: App<M>, mode: Mode, h: Header, s: Store, tx: Tx, m: Meter): Plain {
    match PlainMessages(app, mode, h, s, if mode == Deliver || mode == Simulate then tx.msgs else [], m)
    case Kept(s', m') => if app.post.None? then Kept(s', m') else Direct(s', app.post.value(mode, h, s', tx, m'))
    case o => o
  }

  /** Running messages on one branch is running them on the store: same outcome, same store, same gas. */
  lemma {:induction false} MessagesRefinePlain<M>(
      app: App<M>, mode: Mode, h: Header, view: Store, msgs: seq<Msg>, w: Writes, m: Meter)
    requires Executes(mode)
    ensures PlainMessages(app, mode, h, Apply(view, w), msgs, m)
         == Direct(view, Messages(app, mode, h, view, msgs, w, m))
    decreases |msgs|
  {
    if msgs != [] {
      match app.handler(mode, h, Apply(view, w), msgs[0], m)
      case Passed(w', m') =>
        ApplyCompose(view, w, w');
        MessagesRefinePlain(app, mode, h, view, msgs[1..], w + w', m');
      case Failed(_) =>
      case Panicked(_) =>
    }
  }

  /** So is running messages and post handler, in every mode. */
  lemma {:induction false} BodyRefinesPlain<M>(app: App<M>, mode: Mode, h: Header, view: Store, tx: Tx, m: Meter)
    ensures PlainBody(app, mode, h, view, tx, m) == Direct(view, Body(app, mode, h, view, tx, m))
  {
    ApplyClean(view);
    if mode == Deliver || mode == Simulate {
      MessagesRefinePlain(app, mode, h, view, tx.msgs, CLEAN, m);
    }
    var o := Messages(app, mode, h, view, tx.msgs, CLEAN, m);
    if o.Passed? && app.post.Some? {
      var p := app.post.value(mode, h, Apply(view, o.writes), tx, o.meter);
      if p.Passed? {
        ApplyCompose(view, o.writes, p.writes);
      }
    }
  }

  // ---- Atomicity ----

  /** The transaction decodes, is well-formed and passes the ante handler. */
  predicate AntePasses<M>(app: App<M>, mode: Mode, br: Branch, parent: Store, bz: Bytes) {
    var tx := app.decode(bz);
    && tx.Some? && BasicOk(app, tx.value)
    && Ante(app, mode, br.header, ContextGas(app, br, parent), Apply(parent, br.writes), tx.value).AntePass?
  }

  function AnteWrites<M>(app: App<M>, mode: Mode, br: Branch, parent: Store, bz: Bytes): Writes
    requires AntePasses(app, mode, br, parent, bz)
  {
    Ante(app, mode, br.header, ContextGas(app, br, parent), Apply(parent, br.writes), app.decode(bz).value).writes
  }

  /** Messages and post handler, run on the store the ante handler left. */
  function BodyAfterAnte<M>(app: App<M>, mode: Mode, br: Branch, parent: Store, bz: Bytes): Outcome
    requires AntePasses(app, mode, br, parent, bz)
  {
    var tx := app.decode(bz).value;
    var view := Apply(parent, br.writes);
    var ante := Ante(app, mode, br.header, ContextGas(app, br, parent), view, tx);
    Body(app, mode, br.header, Apply(view, ante.writes), tx, MeterOf(ante.meter, ante.inherited))
  }

  /** Every stage succeeds and the gas it used fits the block. */
  predicate Completes<M>(app: App<M>, br: Branch, parent: Store, pool: M, bz: Bytes) {
    && !OutOfGas(br.blockGas)
    && AntePasses(app, Deliver, br, parent, bz)
    && !app.remove(pool, app.decode(bz).value).1.Fault?
    && BodyAfterAnte(app, Deliver, br, parent, bz).Passed?
    && !Consume(br.blockGas, ConsumedToLimit(BodyAfterAnte(app, Deliver, br, parent, bz).meter)).1
  }

  /** What the attempt of a delivered transaction holds once the ante handler has passed. */
  lemma AttemptAfterAnte<M>(app: App<M>, br: Branch, parent: Store, pool: M, bz: Bytes)
    requires AntePasses(app, Deliver, br, parent, bz)
    ensures var a := Attempted(app, Deliver, br.header, ContextGas(app, br, parent), Apply(parent, br.writes), pool,
                               bz);
            var body := BodyAfterAnte(app, Deliver, br, parent, bz);
            && a.flushed == AnteWrites(app, Deliver, br, parent, bz)
            && (a.err.None? <==> !app.remove(pool, app.decode(bz).value).1.Fault? && body.Passed?)
            && (a.err.None? ==> a.pending == body.writes && a.meter == body.meter)
  {
  }

  /** A transaction that does not pass the ante handler flushes nothing. */
  lemma AttemptWithoutAnte<M>(app: App<M>, br: Branch, parent: Store, pool: M, bz: Bytes)
    requires !AntePasses(app, Deliver, br, parent, bz)
    ensures var a := Attempted(app, Deliver, br.header, ContextGas(app, br, parent), Apply(parent, br.writes), pool,
                               bz);
            a.err.Some? && a.flushed == CLEAN
  {
  }

  /** How an attempt ends up on the branch it was delivered to. */
  lemma DeliveredAttempt<M>(app: App<M>, br: Branch, parent: Store, pool: M, bz: Bytes)
    requires !OutOfGas(br.blockGas)
    ensures var a := Attempted(app, Deliver, br.header, ContextGas(app, br, parent), Apply(parent, br.writes), pool,
                               bz);
            var (br', _, r) := Ran(app, Deliver, br, parent, pool, bz);
            && (r.err.None? <==> a.err.None? && !Consume(br.blockGas, ConsumedToLimit(a.meter)).1)
            && br'.writes == br.writes + (if r.err.None? then a.flushed + a.pending else a.flushed)
  {
  }

  /**
    * On every exit path of a delivered transaction the deliver state is unchanged, or has the ante writes,
    * or has the ante writes and all writes of messages and post handler; the error is nil exactly in the third case.
    */
  lemma {:induction false} DeliverIsAtomic<M>(app: App<M>, br: Branch, parent: Store, pool: M, bz: Bytes)
    ensures var (br', _, r) := Ran(app, Deliver, br, parent, pool, bz);
            && (r.err.None? <==> Completes(app, br, parent, pool, bz))
            && (r.err.None? ==>
                  && br'.writes == br.writes + AnteWrites(app, Deliver, br, parent, bz)
                                   + BodyAfterAnte(app, Deliver, br, parent, bz).writes
                  && Apply(parent, br'.writes)
                     == Apply(Apply(Apply(parent, br.writes), AnteWrites(app, Deliver, br, parent, bz)),
                              BodyAfterAnte(app, Deliver, br, parent, bz).writes))
            && (r.err.Some? && !OutOfGas(br.blockGas) && AntePasses(app, Deliver, br, parent, bz) ==>
                  br'.writes == br.writes + AnteWrites(app, Deliver, br, parent, bz))
            && (OutOfGas(br.blockGas) || !AntePasses(app, Deliver, br, parent, bz) ==>
                  r.err.Some? && br'.writes == br.writes)
  {
    if !OutOfGas(br.blockGas) {
      DeliveredAttempt(app, br, parent, pool, bz);
      if AntePasses(app, Deliver, br, parent, bz) {
        AttemptAfterAnte(app, br, parent, pool, bz);
        var body := BodyAfterAnte(app, Deliver, br, parent, bz);
        if body.Passed? {
          ApplyTwice(parent, br.writes, AnteWrites(app, Deliver, br, parent, bz), body.writes);
        }
      } else {
        AttemptWithoutAnte(app, br, parent, pool, bz);
        WritesMonoid(br.writes, CLEAN, CLEAN);
      }
    }
  }

  /**
    * Outside delivery no message or post-handler write survives: a simulation leaves the branch's store
    * alone, and the other modes add the ante writes if and only if the ante handler passes.
    */
  lemma {:induction false} OnlyDeliveryWritesMessages<M>(
      app: App<M>, mode: Mode, br: Branch, parent: Store, pool: M, bz: Bytes)
    requires mode != Deliver
    ensures var (br', _, r) := Ran(app, mode, br, parent, pool, bz);
            && br'.header == br.header && br'.blockGas == br.blockGas
            && br'.writes == (if mode == Simulate || !AntePasses(app, mode, br, parent, bz) then br.writes
                              else br.writes + AnteWrites(app, mode, br, parent, bz))
            && (r.err.None? ==> AntePasses(app, mode, br, parent, bz))
  {
    WritesMonoid(br.writes, CLEAN, CLEAN);
  }

  // ---- Block gas ----

  /** What a delivered transaction charges to the block: nothing once the block is out of gas. */
  function Charge<M>(app: App<M>, br: Branch, parent: Store, pool: M, bz: Bytes): Uint64 {
    if OutOfGas(br.blockGas) then 0
    else ConsumedToLimit(Attempted(app, Deliver, br.header, ContextGas(app, br, parent), Apply(parent, br.writes),
                                   pool, bz).meter)
  }

  datatype BlockRun<!M> = BlockRun(branch: Branch, pool: M, charges: seq<nat>, results: seq<TxResult>)

  /** Delivering the transactions of a block in order. */
  function DeliverAll<M>(app: App<M>, br: Branch, parent: Store, pool: M, txs: seq<Bytes>): (b: BlockRun<M>)
    ensures |b.charges| == |b.results| == |txs|
    decreases |txs|
  {
    if txs == [] then BlockRun(br, pool, [], [])
    else
      var init := DeliverAll(app, br, parent, pool, txs[..|txs| - 1]);
      var bz := txs[|txs| - 1];
      var (br', pool', r) := Ran(app, Deliver, init.branch, parent, init.pool, bz);
      BlockRun(br', pool', init.charges + [Charge(app, init.branch, parent, init.pool, bz)], init.results + [r])
  }

  function Capped(n: nat): Uint64 {
    if n > MAX_GAS then MAX_GAS else n
  }

  /** The block meter after a total of charges: saturated when limited, exact while it fits when infinite. */
  ghost predicate Metered(before: Meter, after: Meter, sum: nat) {
    var total := before.consumed + sum;
    && after.Limited? == before.Limited?
    && (before.Limited? ==> after == Limited(before.limit, Capped(total)))
    && (before.Infinite? ==> (after.consumed == total <==> total <= MAX_GAS))
  }

  lemma {:induction false} MeteredNext(before: Meter, after: Meter, sum: nat, charge: Uint64)
    requires Metered(before, after, sum)
    ensures Metered(before, Consume(after, charge).0, sum + charge)
  {
  }

  /** A delivery moves the block meter by its charge. */
  lemma {:induction false} DeliveryCharges<M>(app: App<M>, br: Branch, parent: Store, pool: M, bz: Bytes)
    ensures var gas := Ran(app, Deliver, br, parent, pool, bz).0.blockGas;
            gas == if OutOfGas(br.blockGas) then br.blockGas
                   else Consume(br.blockGas, Charge(app, br, parent, pool, bz)).0
  {
  }

  /**
    * Each transaction that gets past the out-of-gas check is charged exactly once on every exit path, so the
    * block meter is the sum of the charges: saturated at the uint64 maximum for a limited meter, and exact for
    * an infinite meter if and only if the sum fits a uint64.
    */
  lemma {:induction false} BlockGasIsSumOfCharges<M>(app: App<M>, br: Branch, parent: Store, pool: M, txs: seq<Bytes>)
    ensures var b := DeliverAll(app, br, parent, pool, txs);
            var total := br.blockGas.consumed + Sum(b.charges);
            && b.branch.blockGas.Limited? == br.blockGas.Limited?
            && (br.blockGas.Limited? ==> b.branch.blockGas == Limited(br.blockGas.limit, Capped(total)))
            && (br.blockGas.Infinite? ==> (b.branch.blockGas.consumed == total <==> total <= MAX_GAS))
    decreases |txs|
  {
    if txs != [] {
      var rest, bz := txs[..|txs| - 1], txs[|txs| - 1];
      BlockGasIsSumOfCharges(app, br, parent, pool, rest);
      var init := DeliverAll(app, br, parent, pool, rest);
      var charge := Charge(app, init.branch, parent, init.pool, bz);
      DeliveryCharges(app, init.branch, parent, init.pool, bz);
      MeteredNext(br.blockGas, init.branch.blockGas, Sum(init.charges), charge);
      SumSnoc(init.charges, charge);
    }
  }

  /**
    * Once the meter has reached the limit every later transaction is refused uncharged: no write, no header and
    * no block gas changes. Only the context's own gas reading moves, by the parameter reads before each refusal.
    */
  lemma {:induction false} ExhaustedBlockIsFrozen<M>(app: App<M>, br: Branch, parent: Store, pool: M, txs: seq<Bytes>)
    requires OutOfGas(br.blockGas)
    ensures var b := DeliverAll(app, br, parent, pool, txs);
            && b.branch == br.(ctxGas := b.branch.ctxGas) && b.pool == pool
            && forall i :: 0 <= i < |txs| ==> b.results[i].err == Some(NoBlockGas) && b.charges[i] == 0
    decreases |txs|
  {
    if txs != [] {
      ExhaustedBlockIsFrozen(app, br, parent, pool, txs[..|txs| - 1]);
    }
  }

  /** The charges of the transactions whose effects were kept. */
  function KeptCharges(charges: seq<nat>, results: seq<TxResult>): nat
    requires |charges| == |results|
  {
    if charges == [] then 0
    else KeptCharges(charges[..|charges| - 1], results[..|results| - 1])
         + if results[|results| - 1].err.None? then charges[|charges| - 1] else 0
  }

  /** A limited meter only grows, by the charge, and a kept transaction fits under the limit. */
  lemma ChargeOfKept<M>(app: App<M>, br: Branch, parent: Store, pool: M, bz: Bytes)
    requires br.blockGas.Limited?
    ensures var (br', _, r) := Ran(app, Deliver, br, parent, pool, bz);
            var charge := Charge(app, br, parent, pool, bz);
            && br'.blockGas == Limited(br.blockGas.limit, Capped(br.blockGas.consumed + charge))
            && (r.err.None? ==> !OutOfGas(br.blockGas) && br.blockGas.consumed + charge <= br.blockGas.limit)
  {
  }

  /** The gas of successful transactions never exceeds the block limit, although the meter itself may. */
  lemma {:induction false} KeptGasWithinLimit<M>(app: App<M>, br: Branch, parent: Store, pool: M, txs: seq<Bytes>)
    requires br.blockGas.Limited? && br.blockGas.consumed == 0
    ensures var b := DeliverAll(app, br, parent, pool, txs);
            && KeptCharges(b.charges, b.results) <= br.blockGas.limit
            && (!OutOfGas(b.branch.blockGas) ==> KeptCharges(b.charges, b.results) <= b.branch.blockGas.consumed)
    decreases |txs|
  {
    if txs != [] {
      var rest := txs[..|txs| - 1];
      KeptGasWithinLimit(app, br, parent, pool, rest);
      BlockGasIsSumOfCharges(app, br, parent, pool, rest);
      var init := DeliverAll(app, br, parent, pool, rest);
      ChargeOfKept(app, init.branch, parent, init.pool, txs[|txs| - 1]);
      var b := DeliverAll(app, br, parent, pool, txs);
      assert b.charges[..|b.charges| - 1] == init.charges;
      assert b.results[..|b.results| - 1] == init.results;
    }
  }

  /** An infinite meter that overflows restarts at zero. */
  lemma InfiniteMeterResets()
    ensures Consume(Infinite(MAX_GAS), 1) == (Infinite(0), true)
  {
  }
}
