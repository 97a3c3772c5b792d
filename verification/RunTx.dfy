/** `BaseApp.runTx`: one transaction over nested store branches, with deferred block-gas accounting. */
module RunTx {
  import opened Words
  import opened Transactions
  import opened Overlay
  import opened Gas

  datatype Mode = Check | ReCheck | Simulate | Deliver | PrepareProposal | ProcessProposal

  datatype Header = Header(height: int, tag: string)

  datatype TxError =
    NoBlockGas | DecodeError | BasicError | AnteError | MempoolError | HandlerError | PanicError

  /**
    * Outcome of the ante handler on its branch. `meter` is the gas meter of the context it
    * returned, or None for the zero context; `inherited` is the reading of the meter it was given.
    */
  datatype AnteOutcome =
    | AntePass(writes: Writes, meter: Option<Meter>, inherited: Uint64)
    | AnteFail(meter: Option<Meter>, inherited: Uint64)
    | AntePanic(inherited: Uint64)

  /** Outcome of a message or post handler on its branch, with the transaction's gas meter afterwards. */
  datatype Outcome =
    | Passed(writes: Writes, meter: Meter)
    | Failed(meter: Meter)
    | Panicked(meter: Meter)

  datatype Removal = Removed | NotFound | Fault

  /**
    * The application plugged into BaseApp: handlers are functions of the store they see.
    * `ante` and `post` are None when not set. `M` is the state of the app-side mempool. `readParams` is what
    * reading the consensus parameters from a store makes of the reading of the context's gas meter.
    */
  datatype App<!M> = App(
    decode: Bytes -> Option<Tx>,
    basic: Msg -> bool,
    ante: Option<(Mode, Header, Uint64, Store, Tx) -> AnteOutcome>,
    handler: (Mode, Header, Store, Msg, Meter) -> Outcome,
    post: Option<(Mode, Header, Store, Tx, Meter) -> Outcome>,
    insert: (M, Tx) -> (M, bool),
    remove: (M, Tx) -> (M, Removal),
    readParams: (Store, Uint64) -> Uint64)

  /** A volatile state: its writes over the parent, header, block gas meter, and the context's own gas reading. */
  datatype Branch = Branch(writes: Writes, header: Header, blockGas: Meter, ctxGas: Uint64)

  datatype TxResult = TxResult(err: Option<TxError>, gasWanted: Uint64, gasUsed: Uint64)

  predicate Executes(mode: Mode) {
    mode == Deliver || mode == Simulate
  }

  predicate BasicOk<M>(app: App<M>, tx: Tx) {
    tx.msgs != [] && forall i :: 0 <= i < |tx.msgs| ==> app.basic(tx.msgs[i])
  }

  /** All messages in order, each seeing the writes of those before it. */
  function Messages<M>(app: App<M>, mode: Mode, h: Header, view: Store, msgs: seq<Msg>, w: Writes, m: Meter): Outcome
    decreases |msgs|
  {
    if msgs == [] || !Executes(mode) then Passed(w, m)
    else
      match app.handler(mode, h, Apply(view, w), msgs[0], m)
      case Passed(w', m') => Messages(app, mode, h, view, msgs[1..], w + w', m')
      case Failed(m') => Failed(m')
      case Panicked(m') => Panicked(m')
  }

  /** The messages followed by the post handler, on one branch. */
  function Body<M>(app: App<M>, mode: Mode, h: Header, view: Store, tx: Tx, m: Meter): Outcome {
    match Messages(app, mode, h, view, tx.msgs, CLEAN, m)
    case Failed(m') => Failed(m')
    case Panicked(m') => Panicked(m')
    case Passed(w, m') =>
      if app.post.None? then Passed(w, m')
      else
        match app.post.value(mode, h, Apply(view, w), tx, m')
        case Passed(w', m'') => Passed(w + w', m'')
        case Failed(m'') => Failed(m'')
        case Panicked(m'') => Panicked(m'')
  }

  function Ante<M>(app: App<M>, mode: Mode, h: Header, ctxGas: Uint64, view: Store, tx: Tx): AnteOutcome {
    if app.ante.None? then AntePass(CLEAN, None, ctxGas) else app.ante.value(mode, h, ctxGas, view, tx)
  }

  /**
    * Everything a transaction does before block gas is charged: the ante writes that reached the mode's branch,
    * the writes of messages and post handler waiting on the inner branch, the gas meter in force, and the error.
    */
  datatype Attempt<!M> = Attempt(flushed: Writes, pending: Writes, meter: Meter, wanted: Uint64, ctxGas: Uint64,
                                 pool: M, err: Option<TxError>)

  function MeterOf(meter: Option<Meter>, inherited: Uint64): Meter {
    if meter.Some? then meter.value else Infinite(inherited)
  }

  /** The context's own reading: shared with the transaction unless the ante handler installed a meter. */
  function Reading(installed: bool, inherited: Uint64, m: Meter): Uint64 {
    if installed then inherited else m.consumed
  }

  function Attempted<M>(app: App<M>, mode: Mode, h: Header, ctxGas: Uint64, view: Store, pool: M, bz: Bytes)
    : Attempt<M>
  {
    var idle := Infinite(ctxGas);
    var tx := app.decode(bz);
    if tx.None? then Attempt(CLEAN, CLEAN, idle, 0, ctxGas, pool, Some(DecodeError))
    else if !BasicOk(app, tx.value) then Attempt(CLEAN, CLEAN, idle, 0, ctxGas, pool, Some(BasicError))
    else Admitted(app, mode, h, view, pool, tx.value, Ante(app, mode, h, ctxGas, view, tx.value))
  }

  /** What follows the ante handler's outcome. */
  function Admitted<M>(app: App<M>, mode: Mode, h: Header, view: Store, pool: M, tx: Tx, ante: AnteOutcome)
    : (r: Attempt<M>)
    ensures r.flushed == if ante.AntePass? then ante.writes else CLEAN
  {
    match ante
    case AntePanic(inh) =>
      Attempt(CLEAN, CLEAN, Infinite(inh), 0, inh, pool, Some(PanicError))
    case AnteFail(meter, inh) =>
      var m := MeterOf(meter, inh);
      var pool' := if mode == ReCheck then app.remove(pool, tx).0 else pool;
      Attempt(CLEAN, CLEAN, m, Limit(m), Reading(meter.Some?, inh, m), pool', Some(AnteError))
    case AntePass(w, meter, inh) =>
      var m := MeterOf(meter, inh);
      var wanted := if app.ante.None? then 0 else Limit(m);
      var (pool', refused) := Pooled(app, mode, pool, tx);
      if refused then Attempt(w, CLEAN, m, wanted, Reading(meter.Some?, inh, m), pool', Some(MempoolError))
      else
        match Body(app, mode, h, Apply(view, w), tx, m)
        case Passed(b, m') => Attempt(w, b, m', wanted, Reading(meter.Some?, inh, m'), pool', None)
        case Failed(m') => Attempt(w, CLEAN, m', wanted, Reading(meter.Some?, inh, m'), pool', Some(HandlerError))
        case Panicked(m') => Attempt(w, CLEAN, m', wanted, Reading(meter.Some?, inh, m'), pool', Some(PanicError))
  }

  /** The mempool step after the ante handler: insert when checking, remove when delivering. */
  function Pooled<M>(app: App<M>, mode: Mode, pool: M, tx: Tx): (M, bool) {
    if mode == Check then
      var (pool', ok) := app.insert(pool, tx);
      (pool', !ok)
    else if mode == Deliver then
      var (pool', r) := app.remove(pool, tx);
      (pool', r == Fault)
    else (pool, false)
  }

  /** `getContextForTx`: the context's gas reading once the consensus parameters have been read through it. */
  function ContextGas<M>(app: App<M>, br: Branch, parent: Store): Uint64 {
    app.readParams(Apply(parent, br.writes), br.ctxGas)
  }

  /** `runTx` on the branch of its mode, over `parent`. */
  function Ran<M>(app: App<M>, mode: Mode, br: Branch, parent: Store, pool: M, bz: Bytes): (r: (Branch, M, TxResult))
    ensures r.0.header == br.header
  {
    var gas := ContextGas(app, br, parent);
    if mode == Deliver && OutOfGas(br.blockGas) then (br.(ctxGas := gas), pool, TxResult(Some(NoBlockGas), 0, 0))
    else
      var a := Attempted(app, mode, br.header, gas, Apply(parent, br.writes), pool, bz);
      if mode == Simulate then (br.(ctxGas := a.ctxGas), a.pool, TxResult(a.err, a.wanted, a.meter.consumed))
      else if mode != Deliver then
        (br.(writes := br.writes + a.flushed, ctxGas := a.ctxGas), a.pool, TxResult(a.err, a.wanted, a.meter.consumed))
      else
        var (gas, panicked) := Consume(br.blockGas, ConsumedToLimit(a.meter));
        var err := if panicked then Some(PanicError) else a.err;
        var kept := if err.None? then a.flushed + a.pending else a.flushed;
        (Branch(br.writes + kept, br.header, gas, a.ctxGas), a.pool, TxResult(err, a.wanted, a.meter.consumed))
  }
}
