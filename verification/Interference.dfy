/** Whether calls outside consensus can be told from the run without them. */
module Interference {
  import opened Words
  import opened Transactions
  import opened Overlay
  import opened Gas
  import opened RunTx
  import opened RunTxProps
  import opened Abci

  // ---- One delivery over two mempools ----

  /** Removing the transaction fails for a reason other than not being found in both mempools or in neither. */
  predicate SameFault<M>(app: App<M>, p: M, q: M, tx: Tx) {
    app.remove(p, tx).1.Fault? == app.remove(q, tx).1.Fault?
  }

  /** The ante handler's outcome on a delivery. */
  function AnteOf<M>(app: App<M>, br: Branch, parent: Store, bz: Bytes): AnteOutcome
    requires AntePasses(app, Deliver, br, parent, bz)
  {
    Ante(app, Deliver, br.header, ContextGas(app, br, parent), Apply(parent, br.writes), app.decode(bz).value)
  }

  /** The gas meter it leaves. */
  function AnteMeter<M>(app: App<M>, br: Branch, parent: Store, bz: Bytes): Meter
    requires AntePasses(app, Deliver, br, parent, bz)
  {
    var o := AnteOf(app, br, parent, bz);
    MeterOf(o.meter, o.inherited)
  }

  /**
    * A fault cannot be told from its absence: the ante gas alone overruns the block, the rest of the transaction
    * uses no more and panics too, itself or on the same block meter.
    */
  predicate Masked<M>(app: App<M>, br: Branch, parent: Store, bz: Bytes)
    requires AntePasses(app, Deliver, br, parent, bz)
  {
    var m, body := AnteMeter(app, br, parent, bz), BodyAfterAnte(app, Deliver, br, parent, bz);
    var x, y := Consume(br.blockGas, ConsumedToLimit(m)), Consume(br.blockGas, ConsumedToLimit(body.meter));
    x.1 && (y.1 || body.Panicked?) && x.0 == y.0 && m.consumed == body.meter.consumed
  }

  /** The mempools agree, their difference is masked, or the delivery ends before it reaches the mempool. */
  predicate FaultsAgree<M>(app: App<M>, br: Branch, parent: Store, p: M, q: M, bz: Bytes) {
    || OutOfGas(br.blockGas)
    || !AntePasses(app, Deliver, br, parent, bz)
    || SameFault(app, p, q, app.decode(bz).value)
    || Masked(app, br, parent, bz)
  }

  /** What a delivery past the ante handler comes to, by whether the mempool faults. */
  lemma DeliveredPastAnte<M>(app: App<M>, br: Branch, parent: Store, p: M, bz: Bytes)
    requires !OutOfGas(br.blockGas) && AntePasses(app, Deliver, br, parent, bz)
    ensures var x := Ran(app, Deliver, br, parent, p, bz);
            var o, m := AnteOf(app, br, parent, bz), AnteMeter(app, br, parent, bz);
            var body := BodyAfterAnte(app, Deliver, br, parent, bz);
            var wanted := if app.ante.None? then 0 else Limit(m);
            if app.remove(p, app.decode(bz).value).1.Fault? then
              var (gas, panicked) := Consume(br.blockGas, ConsumedToLimit(m));
              && x.0 == Branch(br.writes + o.writes, br.header, gas, Reading(o.meter.Some?, o.inherited, m))
              && x.2 == TxResult(Some(if panicked then PanicError else MempoolError), wanted, m.consumed)
            else
              var (gas, panicked) := Consume(br.blockGas, ConsumedToLimit(body.meter));
              var err := if panicked || body.Panicked? then Some(PanicError)
                         else if body.Failed? then Some(HandlerError) else None;
              var kept := if err.None? then o.writes + body.writes else o.writes;
              && x.0 == Branch(br.writes + kept, br.header, gas, Reading(o.meter.Some?, o.inherited, body.meter))
              && x.2 == TxResult(err, wanted, body.meter.consumed)
  {
  }

  lemma AttemptIgnoresPool<M>(app: App<M>, br: Branch, parent: Store, p: M, q: M, bz: Bytes)
    requires AntePasses(app, Deliver, br, parent, bz) ==> SameFault(app, p, q, app.decode(bz).value)
    ensures var g, view := ContextGas(app, br, parent), Apply(parent, br.writes);
            var x := Attempted(app, Deliver, br.header, g, view, p, bz);
            var y := Attempted(app, Deliver, br.header, g, view, q, bz);
            x == y.(pool := x.pool)
  {
  }

  lemma {:induction false} DeliveryIgnoresPool<M>(app: App<M>, br: Branch, parent: Store, p: M, q: M, bz: Bytes)
    requires FaultsAgree(app, br, parent, p, q, bz)
    ensures var x, y := Ran(app, Deliver, br, parent, p, bz), Ran(app, Deliver, br, parent, q, bz);
            x.0 == y.0 && x.2 == y.2
  {
    if !OutOfGas(br.blockGas) {
      if AntePasses(app, Deliver, br, parent, bz) {
        DeliveredPastAnte(app, br, parent, p, bz);
        DeliveredPastAnte(app, br, parent, q, bz);
      } else {
        AttemptIgnoresPool(app, br, parent, p, q, bz);
      }
    }
  }

  /** The mempool error is returned exactly on a removal fault whose ante gas fits the block. */
  lemma {:induction false} FaultShows<M>(app: App<M>, br: Branch, parent: Store, p: M, bz: Bytes)
    requires !OutOfGas(br.blockGas) && AntePasses(app, Deliver, br, parent, bz)
    ensures Ran(app, Deliver, br, parent, p, bz).2.err == Some(MempoolError) <==>
      && app.remove(p, app.decode(bz).value).1.Fault?
      && !Consume(br.blockGas, ConsumedToLimit(AnteMeter(app, br, parent, bz))).1
  {
    DeliveredPastAnte(app, br, parent, p, bz);
  }

  /** Two mempools give the same deliver state and result if and only if they agree on the fault or it is masked. */
  lemma {:induction false} DeliveryExact<M>(app: App<M>, br: Branch, parent: Store, p: M, q: M, bz: Bytes)
    ensures var x, y := Ran(app, Deliver, br, parent, p, bz), Ran(app, Deliver, br, parent, q, bz);
            x.0 == y.0 && x.2 == y.2 <==> FaultsAgree(app, br, parent, p, q, bz)
  {
    if FaultsAgree(app, br, parent, p, q, bz) {
      DeliveryIgnoresPool(app, br, parent, p, q, bz);
    } else {
      DeliveredPastAnte(app, br, parent, p, bz);
      DeliveredPastAnte(app, br, parent, q, bz);
    }
  }

  // ---- One call ----

  /** A proposal call leaves the gas reading it shares with the deliver state, if it shares one, as it was. */
  predicate LeavesReading<M>(ch: Chain<M>, s: State<M>, c: Call)
    requires c.PrepareCall? || c.ProcessCall?
  {
    var k := ProposalContext(ch, s, c.height);
    SharesMeter(s, c.height) && k.Some? ==>
      s.deliver.value.ctxGas == if c.PrepareCall? then ch.prepare(k.value.0, s.pool, c.req, k.value.1).ctxGas
                                else ch.process(k.value.0, s.pool, c.req, k.value.1).ctxGas
  }

  /** What must hold of a call so that it keeps two states with one core together. */
  predicate Undisturbed<M>(ch: Chain<M>, s: State<M>, t: State<M>, c: Call) {
    match c
    case DeliverTx(bz) => s.deliver.Some? ==> FaultsAgree(ch.app, s.deliver.value, s.cms, s.pool, t.pool, bz)
    case PrepareCall(_, _) => LeavesReading(ch, s, c)
    case ProcessCall(_, _) => LeavesReading(ch, s, c)
    case _ => true
  }

  /** The other run: it makes the consensus calls only. */
  function Beside<M>(ch: Chain<M>, t: State<M>, c: Call): State<M> {
    if Consensus(c) then Step(ch, t, c) else t
  }

  lemma BlockStepDetermined<M>(ch: Chain<M>, s: State<M>, t: State<M>, c: Call)
    requires CoreOf(s) == CoreOf(t) && (c.BeginBlock? || c.EndBlock?)
    ensures CoreOf(Step(ch, s, c)) == CoreOf(Step(ch, t, c))
  {
  }

  /** Deliveries aside, a consensus call is determined by the core it starts from. */
  lemma {:induction false} ConsensusStepDetermined<M>(ch: Chain<M>, s: State<M>, t: State<M>, c: Call)
    requires CoreOf(s) == CoreOf(t) && Consensus(c) && Undisturbed(ch, s, t, c)
    ensures CoreOf(Step(ch, s, c)) == CoreOf(Step(ch, t, c))
  {
    if c.BeginBlock? || c.EndBlock? {
      BlockStepDetermined(ch, s, t, c);
    } else if c.DeliverTx? && s.alive && s.deliver.Some? {
      DeliveryIgnoresPool(ch.app, s.deliver.value, s.cms, s.pool, t.pool, c.tx);
    }
  }

  lemma {:induction false} DeliverStepExact<M>(ch: Chain<M>, s: State<M>, t: State<M>, bz: Bytes)
    requires s.alive && CoreOf(s) == CoreOf(t) && s.deliver.Some?
    ensures CoreOf(Step(ch, s, DeliverTx(bz))) == CoreOf(Step(ch, t, DeliverTx(bz)))
       <==> FaultsAgree(ch.app, s.deliver.value, s.cms, s.pool, t.pool, bz)
  {
    DeliveryExact(ch.app, s.deliver.value, s.cms, s.pool, t.pool, bz);
    var r := Ran(ch.app, Deliver, s.deliver.value, s.cms, s.pool, bz).2;
    assert (s.results + [r])[|s.results|] == r;
  }

  /** A call outside consensus changes nothing in the core but the deliver state's gas reading. */
  lemma OtherStepFrame<M>(ch: Chain<M>, s: State<M>, c: Call)
    requires !Consensus(c)
    ensures var u, v := CoreOf(Step(ch, s, c)), CoreOf(s);
            && u == v.(alive := u.alive, deliver := u.deliver)
            && (u.deliver.Some? <==> v.deliver.Some?)
            && (v.deliver.Some? ==> u.deliver.value == v.deliver.value.(ctxGas := u.deliver.value.ctxGas))
  {
  }

  /** Such a call is invisible to consensus if and only if it leaves that reading as it was. */
  lemma {:induction false} OtherStepExact<M>(ch: Chain<M>, s: State<M>, t: State<M>, c: Call)
    requires !Consensus(c) && Step(ch, s, c).alive
    ensures CoreOf(Step(ch, s, c)) == CoreOf(s) <==> Undisturbed(ch, s, t, c)
  {
    OtherStepFrame(ch, s, c);
  }

  /** In particular away from the initial height, and for CheckTx and Simulate always. */
  lemma OtherStepInvisible<M>(ch: Chain<M>, s: State<M>, c: Call)
    requires !Consensus(c) && Step(ch, s, c).alive
    requires c.PrepareCall? || c.ProcessCall? ==> c.height != s.initialHeight
    ensures CoreOf(Step(ch, s, c)) == CoreOf(s)
  {
  }

  // ---- Whole runs ----

  /** Each call of a run is undisturbed beside the run without the other calls. */
  predicate Quiet<M>(ch: Chain<M>, s: State<M>, t: State<M>, calls: seq<Call>)
    decreases |calls|
  {
    calls != [] ==>
      && Undisturbed(ch, s, t, calls[0])
      && Quiet(ch, Step(ch, s, calls[0]), Beside(ch, t, calls[0]), calls[1..])
  }

  /** The two runs have the same core all the way. */
  ghost predicate Together<M>(ch: Chain<M>, s: State<M>, t: State<M>, calls: seq<Call>)
    decreases |calls|
  {
    CoreOf(s) == CoreOf(t)
    && (calls != [] ==> Together(ch, Step(ch, s, calls[0]), Beside(ch, t, calls[0]), calls[1..]))
  }

  lemma {:induction false} DeadStaysDead<M>(ch: Chain<M>, s: State<M>, calls: seq<Call>)
    requires !s.alive
    ensures Run(ch, s, calls) == s
    decreases |calls|
  {
    if calls != [] {
      DeadStaysDead(ch, s, calls[1..]);
    }
  }

  /** A run that ends alive was alive all along. */
  lemma {:induction false} AliveAtFirst<M>(ch: Chain<M>, s: State<M>, calls: seq<Call>)
    requires Run(ch, s, calls).alive
    ensures s.alive
  {
    if !s.alive {
      DeadStaysDead(ch, s, calls);
    }
  }

  lemma {:induction false} StepTogether<M>(ch: Chain<M>, s: State<M>, t: State<M>, c: Call)
    requires CoreOf(s) == CoreOf(t) && Undisturbed(ch, s, t, c) && Step(ch, s, c).alive
    ensures CoreOf(Step(ch, s, c)) == CoreOf(Beside(ch, t, c))
  {
    if Consensus(c) {
      ConsensusStepDetermined(ch, s, t, c);
    } else {
      OtherStepExact(ch, s, t, c);
    }
  }

  /** One call keeps the two runs together if and only if it is undisturbed. */
  lemma {:induction false} StepExact<M>(ch: Chain<M>, s: State<M>, t: State<M>, c: Call)
    requires s.alive && CoreOf(s) == CoreOf(t) && Step(ch, s, c).alive
    ensures CoreOf(Step(ch, s, c)) == CoreOf(Beside(ch, t, c)) <==> Undisturbed(ch, s, t, c)
  {
    if c.DeliverTx? {
      DeliverStepExact(ch, s, t, c.tx);
    } else if Consensus(c) {
      ConsensusStepDetermined(ch, s, t, c);
    } else {
      OtherStepExact(ch, s, t, c);
    }
  }

  lemma {:induction false} QuietIsTogether<M>(ch: Chain<M>, s: State<M>, t: State<M>, calls: seq<Call>)
    requires CoreOf(s) == CoreOf(t) && Run(ch, s, calls).alive && Quiet(ch, s, t, calls)
    ensures Together(ch, s, t, calls)
    decreases |calls|
  {
    if calls != [] {
      AliveAtFirst(ch, Step(ch, s, calls[0]), calls[1..]);
      StepTogether(ch, s, t, calls[0]);
      QuietIsTogether(ch, Step(ch, s, calls[0]), Beside(ch, t, calls[0]), calls[1..]);
    }
  }

  lemma {:induction false} TogetherIsQuiet<M>(ch: Chain<M>, s: State<M>, t: State<M>, calls: seq<Call>)
    requires Run(ch, s, calls).alive && Together(ch, s, t, calls)
    ensures Quiet(ch, s, t, calls)
    decreases |calls|
  {
    if calls != [] {
      var c := calls[0];
      var s', t' := Step(ch, s, c), Beside(ch, t, c);
      AliveAtFirst(ch, s, calls);
      AliveAtFirst(ch, s', calls[1..]);
      assert Together(ch, s', t', calls[1..]);
      StepExact(ch, s, t, c);
      TogetherIsQuiet(ch, s', t', calls[1..]);
    }
  }

  /**
    * Exact non-interference: a run and the same run without CheckTx, Simulate, PrepareProposal and
    * ProcessProposal agree on the core after every call if and only if no such call at the initial height moves
    * the deliver state's gas reading and every delivery meets the same removal fault in both mempools, or a masked one.
    */
  lemma {:induction false} NonInterferenceExact<M>(ch: Chain<M>, s: State<M>, t: State<M>, calls: seq<Call>)
    requires CoreOf(s) == CoreOf(t) && Run(ch, s, calls).alive
    ensures Together(ch, s, t, calls) <==> Quiet(ch, s, t, calls)
  {
    if Quiet(ch, s, t, calls) {
      QuietIsTogether(ch, s, t, calls);
    }
    if Together(ch, s, t, calls) {
      TogetherIsQuiet(ch, s, t, calls);
    }
  }

  lemma {:induction false} TogetherEnds<M>(ch: Chain<M>, s: State<M>, t: State<M>, calls: seq<Call>)
    requires Together(ch, s, t, calls)
    ensures CoreOf(Run(ch, s, calls)) == CoreOf(Run(ch, t, ConsensusOnly(calls)))
    decreases |calls|
  {
    if calls != [] {
      var c, rest := calls[0], ConsensusOnly(calls[1..]);
      TogetherEnds(ch, Step(ch, s, c), Beside(ch, t, c), calls[1..]);
      if Consensus(c) {
        assert ConsensusOnly(calls)[1..] == rest;
      } else {
        assert ConsensusOnly(calls) == rest;
      }
    }
  }

  /** A quiet run leaves every committed state, every result and the deliver state those of the run without. */
  lemma {:induction false} NonInterference<M>(ch: Chain<M>, s: State<M>, t: State<M>, calls: seq<Call>)
    requires CoreOf(s) == CoreOf(t) && Run(ch, s, calls).alive && Quiet(ch, s, t, calls)
    ensures CoreOf(Run(ch, s, calls)) == CoreOf(Run(ch, t, ConsensusOnly(calls)))
  {
    QuietIsTogether(ch, s, t, calls);
    TogetherEnds(ch, s, t, calls);
  }

  // ---- What a caller can check beforehand ----

  /** Whether removing a transaction fails depends on the transaction only. */
  ghost predicate FaultFixed<M(!new)>(app: App<M>) {
    forall p, q, tx :: SameFault(app, p, q, tx)
  }

  /** The initial height is `h` throughout. */
  predicate StartsAt(calls: seq<Call>, h: int) {
    forall i :: 0 <= i < |calls| && calls[i].InitChain? ==> calls[i].initialHeight == h
  }

  /** No proposal is prepared or processed at height `h`. */
  predicate NoProposalAt(calls: seq<Call>, h: int) {
    forall i :: 0 <= i < |calls| && (calls[i].PrepareCall? || calls[i].ProcessCall?) ==> calls[i].height != h
  }

  lemma StepKeepsStart<M>(ch: Chain<M>, s: State<M>, c: Call, h: int)
    requires s.initialHeight == h && (c.InitChain? ==> c.initialHeight == h)
    ensures Step(ch, s, c).initialHeight == h
  {
  }

  /** With faults that depend on the transaction only, a run without proposals at the initial height is quiet. */
  lemma {:induction false} AwayIsQuiet<M(!new)>(ch: Chain<M>, s: State<M>, t: State<M>, calls: seq<Call>, h: int)
    requires FaultFixed(ch.app) && s.initialHeight == h && StartsAt(calls, h) && NoProposalAt(calls, h)
    ensures Quiet(ch, s, t, calls)
    decreases |calls|
  {
    if calls != [] {
      var c := calls[0];
      StepKeepsStart(ch, s, c, h);
      assert forall i :: 0 <= i < |calls[1..]| ==> calls[1..][i] == calls[i + 1];
      AwayIsQuiet(ch, Step(ch, s, c), Beside(ch, t, c), calls[1..], h);
      if c.DeliverTx? && s.deliver.Some? && ch.app.decode(c.tx).Some? {
        assert SameFault(ch.app, s.pool, t.pool, ch.app.decode(c.tx).value);
      }
    }
  }
}
