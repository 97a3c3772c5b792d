/** BaseApp as an object: `runTx` and the life-cycle methods updating its fields in place. */
module BaseAppObject {
  import opened Words
  import opened Transactions
  import opened Overlay
  import opened Gas
  import opened RunTx
  import opened RunTxProps
  import opened Abci

  /** The three outcomes of a delivery: everything, the ante writes only, or nothing; no error exactly in the first. */
  ghost predicate OneOfThree<M>(app: App<M>, br: Branch, parent: Store, pool: M, bz: Bytes, w: Writes,
                                err: Option<TxError>) {
    if Completes(app, br, parent, pool, bz)
    then
      var body := BodyAfterAnte(app, Deliver, br, parent, bz);
      err.None? && w == br.writes + AnteWrites(app, Deliver, br, parent, bz) + body.writes
    else err.Some? && w == if !OutOfGas(br.blockGas) && AntePasses(app, Deliver, br, parent, bz)
                           then br.writes + AnteWrites(app, Deliver, br, parent, bz) else br.writes
  }

  class BaseApp<M> {
    const chain: Chain<M>
    var alive: bool
    var cms: Store
    var version: int
    var initialVersion: int
    var initialHeight: int
    var checkState: Option<Branch>
    var deliverState: Option<Branch>
    var prepareProposalState: Option<Branch>
    var processProposalState: Option<Branch>
    var mempool: M
    ghost var commits: seq<Committed>
    ghost var results: seq<TxResult>

    ghost function Value(): State<M>
      reads this
    {
      State(alive, cms, version, initialVersion, initialHeight,
            checkState, deliverState, prepareProposalState, processProposalState, mempool, commits, results)
    }

    constructor (ch: Chain<M>, store: Store, lastVersion: int, pool: M)
      ensures chain == ch
      ensures Value() == State(true, store, lastVersion, 0, 0, Some(NewBranch(Header(0, ""))), None, None, None,
                               pool, [], [])
    {
      chain, alive, cms, version := ch, true, store, lastVersion;
      initialVersion, initialHeight := 0, 0;
      checkState := Some(NewBranch(Header(0, "")));
      deliverState, prepareProposalState, processProposalState := None, None, None;
      mempool := pool;
      commits, results := [], [];
    }

    /** The state a mode runs on; check also serves re-check and simulation. */
    function GetState(mode: Mode): Option<Branch>
      reads this
    {
      match mode
      case Deliver => deliverState
      case PrepareProposal => prepareProposalState
      case ProcessProposal => processProposalState
      case _ => checkState
    }

    method PutState(mode: Mode, br: Branch)
      modifies this
      ensures Value() == WithState(old(Value()), mode, br)
      ensures GetState(mode) == Some(br)
      ensures mode.Deliver? || deliverState == old(deliverState)
      ensures mode.PrepareProposal? || prepareProposalState == old(prepareProposalState)
      ensures mode.ProcessProposal? || processProposalState == old(processProposalState)
      ensures mode.Check? || mode.ReCheck? || mode.Simulate? || checkState == old(checkState)
    {
      match mode {
        case Deliver => deliverState := Some(br);
        case PrepareProposal => prepareProposalState := Some(br);
        case ProcessProposal => processProposalState := Some(br);
        case _ => checkState := Some(br);
      }
    }

    /** `msCache.Write()` into the store of the transaction's context; a simulation's is itself thrown away. */
    method Flush(mode: Mode, w: Writes)
      requires GetState(mode).Some?
      modifies this
      ensures var br := old(GetState(mode)).value;
              Value() == WithState(old(Value()), mode, if mode.Simulate? then br else br.(writes := br.writes + w))
    {
      var br := GetState(mode).value;
      if !mode.Simulate? {
        PutState(mode, br.(writes := br.writes + w));
      }
    }

    method RunMsgs(mode: Mode, h: Header, view: Store, msgs: seq<Msg>, meter: Meter) returns (o: Outcome)
      ensures o == Messages(chain.app, mode, h, view, msgs, CLEAN, meter)
    {
      var branch, m, i := CLEAN, meter, 0;
      while i < |msgs|
        invariant 0 <= i <= |msgs|
        invariant Messages(chain.app, mode, h, view, msgs, CLEAN, meter)
               == Messages(chain.app, mode, h, view, msgs[i..], branch, m)
      {
        assert msgs[i..][1..] == msgs[i + 1..];
        if !mode.Deliver? && !mode.Simulate? {
          break;
        }
        match chain.app.handler(mode, h, Apply(view, branch), msgs[i], m) {
          case Passed(w, m') =>
            branch, m := branch + w, m';
          case Failed(m') =>
            return Failed(m');
          case Panicked(m') =>
            return Panicked(m');
        }
        i := i + 1;
      }
      o := Passed(branch, m);
    }

    /**
      * The body of `runTx` up to the block-gas charge: ante handler, mempool, messages, post handler.
      * Ante writes are flushed; the writes of messages and post handler are left pending on their branch.
      * Every `return` with an error also stands for a recovered panic.
      */
    method Execute(mode: Mode, base: Store, gas: Uint64, txBytes: Bytes)
      returns (pending: Writes, meter: Meter, gasWanted: Uint64, reading: Uint64, err: Option<TxError>)
      requires GetState(mode).Some?
      modifies this
      ensures var st := old(GetState(mode)).value;
              var a := Attempted(chain.app, mode, st.header, gas, Apply(base, st.writes), old(mempool), txBytes);
              var br := if mode.Simulate? then st else st.(writes := st.writes + a.flushed);
              && pending == a.pending && meter == a.meter && gasWanted == a.wanted
              && reading == a.ctxGas && err == a.err
              && Value() == WithState(old(Value()), mode, br).(pool := a.pool)
    {
      var st := GetState(mode).value;
      WritesMonoid(st.writes, CLEAN, CLEAN);
      assert WithState(Value(), mode, st) == Value();
      var view := Apply(base, st.writes);
      pending, meter, gasWanted, reading := CLEAN, Infinite(gas), 0, gas;
      var tx := chain.app.decode(txBytes);
      if tx.None? {
        err := Some(DecodeError);
        return;
      }
      var basic := ValidateBasicTxMsgs(tx.value);
      if !basic {
        err := Some(BasicError);
        return;
      }
      var ante := RunAnte(mode, gas, view, tx.value);
      ghost var mid := Value();
      ghost var a := Admitted(chain.app, mode, st.header, view, old(mempool), tx.value, ante);
      assert mid == WithState(old(Value()), mode, if mode.Simulate? then st else st.(writes := st.writes + a.flushed));
      pending, meter, gasWanted, reading, err := Proceed(mode, st.header, view, tx.value, ante);
    }

    /** The rest of the body once the ante handler has returned. */
    method Proceed(mode: Mode, h: Header, view: Store, tx: Tx, ante: AnteOutcome)
      returns (pending: Writes, meter: Meter, gasWanted: Uint64, reading: Uint64, err: Option<TxError>)
      requires chain.app.ante.None? ==> ante.AntePass?
      modifies this
      ensures var a := Admitted(chain.app, mode, h, view, old(mempool), tx, ante);
              && pending == a.pending && meter == a.meter && gasWanted == a.wanted
              && reading == a.ctxGas && err == a.err
              && Value() == old(Value()).(pool := a.pool)
    {
      pending, gasWanted := CLEAN, 0;
      if ante.AntePanic? {
        meter, reading, err := Infinite(ante.inherited), ante.inherited, Some(PanicError);
        return;
      }
      meter := MeterOf(ante.meter, ante.inherited);
      reading := Reading(ante.meter.Some?, ante.inherited, meter);
      if chain.app.ante.Some? {
        gasWanted := Limit(meter);
      }
      if ante.AnteFail? {
        if mode == ReCheck {
          mempool := chain.app.remove(mempool, tx).0;
        }
        err := Some(AnteError);
        return;
      }
      var refused := UpdateMempool(mode, tx);
      if refused {
        err := Some(MempoolError);
        return;
      }
      var o := RunBody(mode, h, Apply(view, ante.writes), tx, meter);
      meter := o.meter;
      reading := Reading(ante.meter.Some?, ante.inherited, meter);
      if o.Passed? {
        pending, err := o.writes, None;
      } else {
        err := Some(if o.Failed? then HandlerError else PanicError);
      }
    }

    method ValidateBasicTxMsgs(tx: Tx) returns (ok: bool)
      ensures ok == BasicOk(chain.app, tx)
    {
      if tx.msgs == [] {
        return false;
      }
      for i := 0 to |tx.msgs|
        invariant forall k :: 0 <= k < i ==> chain.app.basic(tx.msgs[k])
      {
        if !chain.app.basic(tx.msgs[i]) {
          return false;
        }
      }
      ok := true;
    }

    /** The ante handler on its own branch, flushed only when it passes. */
    method RunAnte(mode: Mode, gas: Uint64, view: Store, tx: Tx) returns (o: AnteOutcome)
      requires GetState(mode).Some?
      modifies this
      ensures var st := old(GetState(mode)).value;
              && o == Ante(chain.app, mode, st.header, gas, view, tx)
              && Value() == (if o.AntePass? && !mode.Simulate?
                             then WithState(old(Value()), mode, st.(writes := st.writes + o.writes)) else old(Value()))
    {
      var st := GetState(mode).value;
      WritesMonoid(st.writes, CLEAN, CLEAN);
      if chain.app.ante.None? {
        return AntePass(CLEAN, None, gas);
      }
      o := chain.app.ante.value(mode, st.header, gas, view, tx);
      if o.AntePass? {
        Flush(mode, o.writes);
      }
    }

    /** Insertion when checking, removal when delivering. */
    method UpdateMempool(mode: Mode, tx: Tx) returns (refused: bool)
      modifies this
      ensures var (pool, no) := Pooled(chain.app, mode, old(mempool), tx);
              refused == no && Value() == old(Value()).(pool := pool)
    {
      refused := false;
      if mode == Check {
        var (pool, ok) := chain.app.insert(mempool, tx);
        mempool := pool;
        refused := !ok;
      } else if mode == Deliver {
        var (pool, removal) := chain.app.remove(mempool, tx);
        mempool := pool;
        refused := removal == Fault;
      }
    }

    method RunBody(mode: Mode, h: Header, view: Store, tx: Tx, meter: Meter) returns (o: Outcome)
      ensures o == Body(chain.app, mode, h, view, tx, meter)
    {
      o := RunMsgs(mode, h, view, tx.msgs, meter);
      if o.Passed? && chain.app.post.Some? {
        var p := chain.app.post.value(mode, h, Apply(view, o.writes), tx, o.meter);
        o := if p.Passed? then Passed(o.writes + p.writes, p.meter) else p;
      }
    }

    /**
      * `runTx`. The consensus parameters are read through the context's gas meter first. `base` is the store under
      * the mode's branch: the committed store, or at the initial height the deliver branch for the proposal modes.
      * Block gas is charged before the pending writes are flushed on success, and by the deferred call otherwise.
      * With no state for the mode the source panics before any recovery is in place.
      */
    method RunTx(mode: Mode, base: Store, txBytes: Bytes) returns (r: TxResult)
      requires GetState(mode).Some?
      modifies this
      ensures var (br, pool, res) := Ran(chain.app, mode, old(GetState(mode)).value, base, old(mempool), txBytes);
              && r == res
              && Value() == WithState(old(Value()), mode, br).(pool := pool)
    {
      var st := GetState(mode).value;
      var gas := chain.app.readParams(Apply(base, st.writes), st.ctxGas);
      if mode == Deliver && OutOfGas(st.blockGas) {
        PutState(mode, st.(ctxGas := gas));
        return TxResult(Some(NoBlockGas), 0, 0);
      }
      var charged := false;
      var pending, meter, gasWanted, reading, err := Execute(mode, base, gas, txBytes);
      ghost var a := Attempted(chain.app, mode, st.header, gas, Apply(base, st.writes), old(mempool), txBytes);
      WritesMonoid(st.writes, a.flushed, a.pending);
      if mode == Deliver {
        var br := GetState(mode).value;
        if err.None? {
          charged := true;
          var (g, panicked) := Consume(br.blockGas, ConsumedToLimit(meter));
          br := br.(blockGas := g);
          PutState(mode, br);
          if panicked {
            err := Some(PanicError);
          } else {
            Flush(mode, pending);
          }
        }
        if !charged {
          var (g, panicked) := Consume(br.blockGas, ConsumedToLimit(meter));
          PutState(mode, br.(blockGas := g));
          if panicked {
            err := Some(PanicError);
          }
        }
      }
      var now := GetState(mode).value;
      PutState(mode, now.(ctxGas := reading));
      r := TxResult(err, gasWanted, meter.consumed);
    }

    method InitChain(height: int, genesis: string)
      requires alive
      modifies this
      ensures Value() == Step(chain, old(Value()), Call.InitChain(height, genesis))
      ensures cms == old(cms) && version == old(version) && commits == old(commits)
      ensures initialHeight == height && deliverState.Some?
      ensures checkState == Some(Branch(map[], Header(if height > 1 then height else 0, ""), Infinite(0), 0))
    {
      var h := Header(if height > 1 then height else 0, "");
      initialHeight := height;
      if height > 1 {
        initialVersion := height;
      }
      deliverState := Some(NewBranch(h));
      checkState := Some(NewBranch(h));
      var k := chain.init(cms, genesis);
      if k.None? {
        alive := false;
      } else {
        deliverState := Some(NewBranch(h).(writes := k.value.writes, ctxGas := k.value.ctxGas));
      }
    }

    method ValidateHeight(h: Header) returns (ok: bool)
      ensures ok <==> h.height >= 1 && h.height == ExpectedHeight(Value())
    {
      if h.height < 1 {
        return false;
      }
      var expected := if version == 0 && initialHeight > 1 then initialHeight else version + 1;
      ok := h.height == expected;
    }

    method BeginBlock(h: Header)
      requires alive
      modifies this
      ensures Value() == Step(chain, old(Value()), Call.BeginBlock(h))
      ensures cms == old(cms) && version == old(version) && commits == old(commits)
      ensures alive ==> h.height == old(ExpectedHeight(Value())) && deliverState.Some? && deliverState.value.header == h
    {
      var ok := ValidateHeight(h);
      if !ok {
        alive := false;
        return;
      }
      var br := if deliverState.None? then NewBranch(h) else deliverState.value.(header := h);
      deliverState := Some(br);
      var view := Apply(cms, br.writes);
      var gas := chain.app.readParams(view, br.ctxGas);
      if !MeterOk(chain.maxGas(view)) {
        alive := false;
        return;
      }
      gas := chain.app.readParams(view, gas);
      var k := chain.begin(h, view, gas);
      if k.None? {
        alive := false;
        return;
      }
      br := br.(writes := br.writes + k.value.writes);
      view := Apply(cms, br.writes);
      br := br.(ctxGas := chain.app.readParams(view, k.value.ctxGas));
      deliverState := Some(br);
      if !MeterOk(chain.maxGas(view)) {
        alive := false;
        return;
      }
      deliverState := Some(br.(blockGas := BlockMeter(chain.maxGas(view))));
    }

    /** Without a deliver state the process dies; otherwise one of the three outcomes, and nothing is committed. */
    method DeliverTx(txBytes: Bytes) returns (r: Option<TxResult>)
      requires alive
      modifies this
      ensures Value() == Step(chain, old(Value()), Call.DeliverTx(txBytes))
      ensures cms == old(cms) && version == old(version) && commits == old(commits)
      ensures alive == r.Some? == old(deliverState).Some?
      ensures r.Some? ==> results == old(results) + [r.value] && deliverState.Some?
      ensures r.Some? ==> OneOfThree(chain.app, old(deliverState).value, cms, old(mempool), txBytes,
                                     deliverState.value.writes, r.value.err)
    {
      if deliverState.None? {
        alive := false;
        return None;
      }
      DeliverIsAtomic(chain.app, deliverState.value, cms, mempool, txBytes);
      var res := RunTx(Deliver, cms, txBytes);
      results := results + [res];
      r := Some(res);
    }

    method EndBlock()
      requires alive
      modifies this
      ensures Value() == Step(chain, old(Value()), Call.EndBlock)
      ensures cms == old(cms) && version == old(version) && commits == old(commits)
      ensures alive ==> deliverState.Some? && deliverState.value.header == old(deliverState).value.header
    {
      if deliverState.None? {
        alive := false;
        return;
      }
      var br := deliverState.value;
      var k := chain.end(br.header, Apply(cms, br.writes), br.ctxGas);
      if k.None? {
        alive := false;
        return;
      }
      var w := br.writes + k.value.writes;
      deliverState := Some(br.(writes := w, ctxGas := chain.app.readParams(Apply(cms, w), k.value.ctxGas)));
    }

    /**
      * The committed store is what the deliver state showed, under the next version; checks start over from it,
      * under its header.
      */
    method Commit()
      requires alive
      modifies this
      ensures Value() == Step(chain, old(Value()), Call.Commit)
      ensures alive <==> old(deliverState).Some?
      ensures alive ==> cms == Apply(old(cms), old(deliverState).value.writes) && deliverState.None?
      ensures alive ==> version == old(NextVersion(Value()))
                        && commits == old(commits) + [Committed(version, old(deliverState).value.header, cms)]
      ensures alive ==> checkState == Some(Branch(map[], old(deliverState).value.header, Infinite(0), 0))
                        && Apply(cms, checkState.value.writes) == cms
    {
      if deliverState.None? {
        alive := false;
        return;
      }
      var header := deliverState.value.header;
      cms := Apply(cms, deliverState.value.writes);
      version := if version == 0 && initialVersion > 1 then initialVersion else version + 1;
      commits := commits + [Committed(version, header, cms)];
      checkState := Some(NewBranch(header));
      ApplyClean(cms);
      deliverState := None;
    }

    /** A check is invisible to consensus. */
    method CheckTx(txBytes: Bytes, recheck: bool) returns (r: Option<TxResult>)
      requires alive
      modifies this
      ensures Value() == Step(chain, old(Value()), Call.CheckTx(txBytes, recheck))
      ensures alive == r.Some? == old(checkState).Some?
      ensures alive ==> CoreOf(Value()) == CoreOf(old(Value()))
      ensures r.Some? && r.value.err.None? ==>
        AntePasses(chain.app, if recheck then ReCheck else Check, old(checkState).value, cms, txBytes)
    {
      if checkState.None? {
        alive := false;
        return None;
      }
      var mode := if recheck then ReCheck else Check;
      OnlyDeliveryWritesMessages(chain.app, mode, checkState.value, cms, mempool, txBytes);
      var res := RunTx(mode, cms, txBytes);
      r := Some(res);
    }

    /** A simulation is invisible to consensus and leaves the check state's writes as they were. */
    method Simulate(txBytes: Bytes) returns (r: Option<TxResult>)
      requires alive
      modifies this
      ensures Value() == Step(chain, old(Value()), Simulation(txBytes))
      ensures alive == r.Some? == old(checkState).Some?
      ensures alive ==> CoreOf(Value()) == CoreOf(old(Value()))
      ensures alive ==> checkState.Some? && checkState.value.writes == old(checkState).value.writes
    {
      if checkState.None? {
        alive := false;
        return None;
      }
      OnlyDeliveryWritesMessages(chain.app, Mode.Simulate, checkState.value, cms, mempool, txBytes);
      var res := RunTx(Mode.Simulate, cms, txBytes);
      r := Some(res);
    }

    /** `getContextForProposal` and the parameter reads after it; None when one of them panics. */
    method ContextForProposal(height: int) returns (ctx: Option<(Store, Uint64)>)
      ensures ctx == ProposalContext(chain, Value(), height)
    {
      if height < 1 || (height == initialHeight && deliverState.None?) {
        return None;
      }
      var view := if height == initialHeight then Apply(cms, deliverState.value.writes) else cms;
      var gas := if height == initialHeight then deliverState.value.ctxGas else 0;
      gas := chain.app.readParams(view, gas);
      gas := chain.app.readParams(view, gas);
      if !MeterOk(chain.maxGas(view)) {
        return None;
      }
      ctx := Some((view, gas));
    }

    /** What the shared gas meter shows after a proposal handler. */
    method ShareReading(height: int, gas: Uint64)
      modifies this`deliverState
      ensures Value() == WithReading(old(Value()), height, gas)
    {
      if height == initialHeight && deliverState.Some? {
        deliverState := Some(deliverState.value.(ctxGas := gas));
      }
    }

    /**
      * The handler's proposal, or the requested transactions when it panicked. Away from the initial height the
      * call is invisible to consensus; there it moves at most the deliver state's gas reading.
      */
    method PrepareProposal(height: int, req: Request) returns (resp: Option<seq<Bytes>>)
      requires alive
      modifies this
      ensures Value() == PrepareStep(chain, old(Value()), height, req)
      ensures resp == PrepareAnswer(chain, old(Value()), height, req) && (resp.Some? <==> alive)
      ensures alive && height != initialHeight ==> CoreOf(Value()) == CoreOf(old(Value()))
      ensures alive ==> cms == old(cms) && commits == old(commits)
    {
      prepareProposalState := Some(NewBranch(Header(0, "")));
      var ctx := ContextForProposal(height);
      if ctx.None? {
        alive := false;
        return None;
      }
      var (view, gas) := ctx.value;
      var k := chain.prepare(view, mempool, req, gas);
      mempool := k.pool;
      prepareProposalState := Some(Branch(k.writes, Header(height, ""), BlockMeter(chain.maxGas(view)), k.ctxGas));
      ShareReading(height, k.ctxGas);
      resp := Some(if k.answer.Some? then k.answer.value else req.txs);
    }

    /** The handler's verdict, or a rejection when it panicked, with the same effect on the state. */
    method ProcessProposal(height: int, req: Request) returns (accept: Option<bool>)
      requires alive
      modifies this
      ensures Value() == ProcessStep(chain, old(Value()), height, req)
      ensures accept == ProcessAnswer(chain, old(Value()), height, req) && (accept.Some? <==> alive)
      ensures alive && height != initialHeight ==> CoreOf(Value()) == CoreOf(old(Value()))
      ensures alive ==> cms == old(cms) && commits == old(commits)
    {
      if height < 1 {
        alive := false;
        return None;
      }
      processProposalState := Some(NewBranch(Header(0, "")));
      var ctx := ContextForProposal(height);
      if ctx.None? {
        alive := false;
        return None;
      }
      var (view, gas) := ctx.value;
      var k := chain.process(view, mempool, req, gas);
      mempool := k.pool;
      processProposalState := Some(Branch(k.writes, Header(height, ""), BlockMeter(chain.maxGas(view)), k.ctxGas));
      ShareReading(height, k.ctxGas);
      accept := Some(k.answer == Some(true));
    }
  }
}
