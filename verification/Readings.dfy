/** When the deliver state's own gas reading, which proposals at the initial height may move, cannot reach a commit. */
module Readings {
  import opened Words
  import opened Transactions
  import opened Overlay
  import opened Gas
  import opened RunTx
  import opened RunTxProps
  import opened Abci
  import opened Interference

  // ---- Hooks and ante handlers that do not look at the reading ----

  predicate SameHooked(x: Option<Hooked>, y: Option<Hooked>) {
    x.Some? == y.Some? && (x.Some? ==> x.value.writes == y.value.writes)
  }

  ghost predicate HooksIgnoreReading<M>(ch: Chain<M>) {
    forall h, view, g, g' ::
      SameHooked(ch.begin(h, view, g), ch.begin(h, view, g')) && SameHooked(ch.end(h, view, g), ch.end(h, view, g'))
  }

  /** Outcomes that differ at most in what they inherited, with a gas meter of the ante handler's own. */
  predicate SameAnte(o: AnteOutcome, o': AnteOutcome) {
    match o
    case AntePass(w, m, _) => o'.AntePass? && o'.writes == w && o'.meter == m && m.Some?
    case AnteFail(m, _) => o'.AnteFail? && o'.meter == m && m.Some?
    case AntePanic(_) => o'.AntePanic?
  }

  ghost predicate AnteIgnoresReading<M>(app: App<M>) {
    app.ante.Some?
    && forall h, view, tx, g, g' :: SameAnte(Ante(app, Deliver, h, g, view, tx), Ante(app, Deliver, h, g', view, tx))
  }

  /** A transaction that reaches the ante handler, which then does not panic: its charge is that of the ante's meter. */
  ghost predicate Shielded<M>(app: App<M>, bz: Bytes) {
    && app.decode(bz).Some? && BasicOk(app, app.decode(bz).value)
    && forall h, view, g :: !Ante(app, Deliver, h, g, view, app.decode(bz).value).AntePanic?
  }

  /** The same attempt up to the reading, the mempool and, for unshielded transactions, the meter charged. */
  lemma {:induction false} AttemptIgnoresReading<M>(
      app: App<M>, h: Header, g: Uint64, g': Uint64, view: Store, p: M, q: M, bz: Bytes)
    requires AnteIgnoresReading(app) && (app.decode(bz).Some? ==> SameFault(app, p, q, app.decode(bz).value))
    ensures var x, y := Attempted(app, Deliver, h, g, view, p, bz), Attempted(app, Deliver, h, g', view, q, bz);
            && x.flushed == y.flushed && x.pending == y.pending && x.err == y.err
            && (Shielded(app, bz) ==> x.meter == y.meter && x.wanted == y.wanted)
  {
    if app.decode(bz).Some? && BasicOk(app, app.decode(bz).value) {
      var tx := app.decode(bz).value;
      var o, o' := Ante(app, Deliver, h, g, view, tx), Ante(app, Deliver, h, g', view, tx);
      AdmittedIgnoresReading(app, h, view, p, q, tx, o, o');
    }
  }

  lemma AdmittedIgnoresReading<M>(app: App<M>, h: Header, view: Store, p: M, q: M, tx: Tx, o: AnteOutcome,
                                  o': AnteOutcome)
    requires app.ante.Some? && SameAnte(o, o') && SameFault(app, p, q, tx)
    ensures var x, y := Admitted(app, Deliver, h, view, p, tx, o), Admitted(app, Deliver, h, view, q, tx, o');
            && x.flushed == y.flushed && x.pending == y.pending && x.err == y.err
            && (!o.AntePanic? ==> x.meter == y.meter && x.wanted == y.wanted)
  {
  }

  // ---- States that differ in readings only ----

  /** `free` also leaves the consumption of an infinite block meter open. */
  predicate AlikeMeters(m: Meter, n: Meter, free: bool) {
    m == n || (free && m.Infinite? && n.Infinite?)
  }

  predicate AlikeBranches(b: Branch, c: Branch, free: bool) {
    b.writes == c.writes && b.header == c.header && AlikeMeters(b.blockGas, c.blockGas, free)
  }

  predicate SameErrors(x: seq<TxResult>, y: seq<TxResult>) {
    |x| == |y| && forall i :: 0 <= i < |x| ==> x[i].err == y[i].err
  }

  ghost predicate Alike<M>(s: State<M>, t: State<M>, free: bool) {
    && s.alive == t.alive && s.cms == t.cms && s.version == t.version
    && s.initialVersion == t.initialVersion && s.initialHeight == t.initialHeight
    && s.commits == t.commits && SameErrors(s.results, t.results)
    && s.deliver.Some? == t.deliver.Some?
    && (s.deliver.Some? ==> AlikeBranches(s.deliver.value, t.deliver.value, free))
  }

  /** What the next delivery charges to the block. */
  function NextCharge<M>(ch: Chain<M>, s: State<M>, bz: Bytes): Uint64
    requires s.deliver.Some?
  {
    var br := s.deliver.value;
    var gas, view := ContextGas(ch.app, br, s.cms), Apply(s.cms, br.writes);
    ConsumedToLimit(Attempted(ch.app, Deliver, br.header, gas, view, s.pool, bz).meter)
  }

  /** The block has no gas limit and the delivery does not overflow its meter. */
  predicate Room<M>(ch: Chain<M>, s: State<M>, c: Call) {
    c.DeliverTx? && s.deliver.Some? ==>
      s.deliver.value.blockGas.Infinite? && !Consume(s.deliver.value.blockGas, NextCharge(ch, s, c.tx)).1
  }

  predicate Roomy<M>(ch: Chain<M>, s: State<M>, calls: seq<Call>)
    decreases |calls|
  {
    calls == [] || (Room(ch, s, calls[0]) && Roomy(ch, Step(ch, s, calls[0]), calls[1..]))
  }

  ghost predicate AllShielded<M>(app: App<M>, calls: seq<Call>) {
    forall i :: 0 <= i < |calls| && calls[i].DeliverTx? ==> Shielded(app, calls[i].tx)
  }

  /** One delivery on branches that differ in their reading. */
  lemma {:induction false} DeliveryAlike<M>(
      app: App<M>, b: Branch, c: Branch, parent: Store, p: M, q: M, bz: Bytes, free: bool)
    requires AnteIgnoresReading(app) && (app.decode(bz).Some? ==> SameFault(app, p, q, app.decode(bz).value))
    requires AlikeBranches(b, c, free)
    requires !free ==> Shielded(app, bz)
    requires free ==>
      var view := Apply(parent, b.writes);
      var x, y := Attempted(app, Deliver, b.header, ContextGas(app, b, parent), view, p, bz),
                  Attempted(app, Deliver, c.header, ContextGas(app, c, parent), view, q, bz);
      && b.blockGas.Infinite? && !Consume(b.blockGas, ConsumedToLimit(x.meter)).1
      && c.blockGas.Infinite? && !Consume(c.blockGas, ConsumedToLimit(y.meter)).1
    ensures var x, y := Ran(app, Deliver, b, parent, p, bz), Ran(app, Deliver, c, parent, q, bz);
            AlikeBranches(x.0, y.0, free) && x.2.err == y.2.err
  {
    AttemptIgnoresReading(app, b.header, ContextGas(app, b, parent), ContextGas(app, c, parent),
                          Apply(parent, b.writes), p, q, bz);
  }

  lemma {:induction false} BeginAlike<M>(ch: Chain<M>, cms: Store, b: Branch, c: Branch, free: bool)
    requires HooksIgnoreReading(ch) && AlikeBranches(b, c, free)
    ensures var x, y := BeginBranch(ch, cms, b), BeginBranch(ch, cms, c);
            AlikeBranches(x.0, y.0, free) && x.1 == y.1
  {
    var view := Apply(cms, b.writes);
    var g, g' := ReadTwice(ch, view, b.ctxGas), ReadTwice(ch, view, c.ctxGas);
    assert SameHooked(ch.begin(b.header, view, g), ch.begin(b.header, view, g'));
  }

  lemma {:induction false} EndAlike<M>(ch: Chain<M>, s: State<M>, t: State<M>, free: bool)
    requires HooksIgnoreReading(ch) && s.alive && Alike(s, t, free)
    ensures Alike(Step(ch, s, EndBlock), Step(ch, t, EndBlock), free)
  {
    if s.deliver.Some? {
      var b, c := s.deliver.value, t.deliver.value;
      var view := Apply(s.cms, b.writes);
      assert SameHooked(ch.end(b.header, view, b.ctxGas), ch.end(b.header, view, c.ctxGas));
    }
  }

  lemma {:induction false} DeliverAlike<M>(ch: Chain<M>, s: State<M>, t: State<M>, bz: Bytes, free: bool)
    requires AnteIgnoresReading(ch.app) && s.alive && Alike(s, t, free)
    requires ch.app.decode(bz).Some? ==> SameFault(ch.app, s.pool, t.pool, ch.app.decode(bz).value)
    requires if free then Room(ch, s, DeliverTx(bz)) && Room(ch, t, DeliverTx(bz)) else Shielded(ch.app, bz)
    ensures Alike(Step(ch, s, DeliverTx(bz)), Step(ch, t, DeliverTx(bz)), free)
  {
    if s.deliver.Some? {
      DeliveryAlike(ch.app, s.deliver.value, t.deliver.value, s.cms, s.pool, t.pool, bz, free);
    }
  }

  lemma {:induction false} InitOrCommitAlike<M>(ch: Chain<M>, s: State<M>, t: State<M>, c: Call, free: bool)
    requires Alike(s, t, free) && s.alive && (c.InitChain? || c.Commit?) && Step(ch, s, c).alive
    ensures Alike(Step(ch, s, c), Step(ch, t, c), free)
  {
  }

  lemma {:induction false} BeginStepAlike<M(!new)>(ch: Chain<M>, s: State<M>, t: State<M>, h: Header, free: bool)
    requires HooksIgnoreReading(ch) && Alike(s, t, free) && s.alive && Step(ch, s, BeginBlock(h)).alive
    requires free ==> Room(ch, s, BeginBlock(h)) && Room(ch, t, BeginBlock(h))
    ensures Alike(Step(ch, s, BeginBlock(h)), Step(ch, t, BeginBlock(h)), free)
  {
    BeginAlike(ch, s.cms, if s.deliver.None? then NewBranch(h) else s.deliver.value.(header := h),
               if t.deliver.None? then NewBranch(h) else t.deliver.value.(header := h), free);
  }

  lemma {:induction false} OtherAlike<M>(ch: Chain<M>, s: State<M>, t: State<M>, c: Call, free: bool)
    requires Alike(s, t, free) && !Consensus(c) && Step(ch, s, c).alive
    ensures Alike(Step(ch, s, c), t, free)
  {
    OtherStepFrame(ch, s, c);
  }

  lemma {:induction false} StepAlike<M(!new)>(ch: Chain<M>, s: State<M>, t: State<M>, c: Call, free: bool)
    requires FaultFixed(ch.app) && HooksIgnoreReading(ch) && AnteIgnoresReading(ch.app)
    requires Alike(s, t, free) && Step(ch, s, c).alive
    requires free ==> Room(ch, s, c) && (Consensus(c) ==> Room(ch, t, c))
    requires !free && c.DeliverTx? ==> Shielded(ch.app, c.tx)
    ensures Alike(Step(ch, s, c), Beside(ch, t, c), free)
  {
    if !Consensus(c) {
      OtherAlike(ch, s, t, c, free);
    } else if s.alive {
      match c
      case BeginBlock(h) => BeginStepAlike(ch, s, t, h, free);
      case DeliverTx(bz) =>
        if ch.app.decode(bz).Some? {
          assert SameFault(ch.app, s.pool, t.pool, ch.app.decode(bz).value);
        }
        DeliverAlike(ch, s, t, bz, free);
      case EndBlock => EndAlike(ch, s, t, free);
      case InitChain(_, _) => InitOrCommitAlike(ch, s, t, c, free);
      case Commit => InitOrCommitAlike(ch, s, t, c, free);
    }
  }

  lemma {:induction false} RunAlike<M(!new)>(ch: Chain<M>, s: State<M>, t: State<M>, calls: seq<Call>, free: bool)
    requires FaultFixed(ch.app) && HooksIgnoreReading(ch) && AnteIgnoresReading(ch.app)
    requires Alike(s, t, free) && Run(ch, s, calls).alive
    requires if free then Roomy(ch, s, calls) && Roomy(ch, t, ConsensusOnly(calls)) else AllShielded(ch.app, calls)
    ensures Alike(Run(ch, s, calls), Run(ch, t, ConsensusOnly(calls)), free)
    decreases |calls|
  {
    if calls != [] {
      var c, rest := calls[0], ConsensusOnly(calls[1..]);
      AliveAtFirst(ch, Step(ch, s, c), calls[1..]);
      assert forall i :: 0 <= i < |calls[1..]| ==> calls[1..][i] == calls[i + 1];
      if Consensus(c) {
        assert ConsensusOnly(calls) == [c] + rest;
        assert ConsensusOnly(calls)[1..] == rest;
      } else {
        assert ConsensusOnly(calls) == rest;
      }
      StepAlike(ch, s, t, c, free);
      RunAlike(ch, Step(ch, s, c), Beside(ch, t, c), calls[1..], free);
    }
  }

  /**
    * Proposals at the initial height cannot reach a committed store when the hooks ignore the reading, the ante
    * handler installs its own meter without looking at it, and every delivered transaction gets as far as that
    * meter: commits, versions and errors are those of the run without, whatever the block gas limit.
    */
  lemma {:induction false} CommitsIgnoreProposals<M(!new)>(ch: Chain<M>, s: State<M>, calls: seq<Call>)
    requires FaultFixed(ch.app) && HooksIgnoreReading(ch) && AnteIgnoresReading(ch.app)
    requires AllShielded(ch.app, calls) && Run(ch, s, calls).alive
    ensures var x, y := Run(ch, s, calls), Run(ch, s, ConsensusOnly(calls));
            x.commits == y.commits && x.cms == y.cms && x.version == y.version && SameErrors(x.results, y.results)
  {
    RunAlike(ch, s, s, calls, false);
  }

  /** Without a block gas limit nor overflow the same holds whatever is delivered. */
  lemma {:induction false} UnlimitedCommitsIgnoreProposals<M(!new)>(ch: Chain<M>, s: State<M>, calls: seq<Call>)
    requires FaultFixed(ch.app) && HooksIgnoreReading(ch) && AnteIgnoresReading(ch.app)
    requires Roomy(ch, s, calls) && Roomy(ch, s, ConsensusOnly(calls)) && Run(ch, s, calls).alive
    ensures var x, y := Run(ch, s, calls), Run(ch, s, ConsensusOnly(calls));
            x.commits == y.commits && x.cms == y.cms && x.version == y.version && SameErrors(x.results, y.results)
  {
    RunAlike(ch, s, s, calls, true);
  }
}
