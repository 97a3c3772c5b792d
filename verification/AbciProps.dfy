/** Whole-run properties of the ABCI life cycle. */
module AbciProps {
  import opened Words
  import opened Overlay
  import opened Gas
  import opened RunTx
  import opened Stages
  import opened Abci
  import opened Interference
  import opened Readings

  // ---- Heights ----

  /** A store just loaded at `base`, before InitChain. */
  predicate Fresh<M>(s: State<M>, base: int) {
    && s.alive && base >= 0 && s.version == base
    && s.initialVersion == 0 && s.initialHeight == 0
    && s.deliver.None? && s.commits == [] && s.results == []
  }

  predicate NoInit(calls: seq<Call>) {
    forall i :: 0 <= i < |calls| ==> !calls[i].InitChain?
  }

  /** The versions committed so far count up from `first`, and each commit carries the header of its height. */
  predicate Counting<M>(s: State<M>, base: int, first: int) {
    && s.version == (if s.commits == [] then base else first + |s.commits| - 1)
    && (forall i :: 0 <= i < |s.commits| ==>
          && s.commits[i].version == first + i
          && (s.commits[i].header.height == 0 || s.commits[i].header.height == first + i))
    && NextVersion(s) == ExpectedHeight(s) == first + |s.commits|
    && (s.deliver.Some? ==> s.deliver.value.header.height == 0 || s.deliver.value.header.height == first + |s.commits|)
  }

  lemma {:induction false} StepKeepsCounting<M>(ch: Chain<M>, s: State<M>, c: Call, base: int, first: int)
    requires base >= 0 && first >= 1 && Counting(s, base, first) && !c.InitChain?
    ensures Counting(Step(ch, s, c), base, first)
  {
    if !Consensus(c) {
      OtherStepFrame(ch, s, c);
    }
  }

  lemma {:induction false} RunKeepsCounting<M>(ch: Chain<M>, s: State<M>, calls: seq<Call>, base: int, first: int)
    requires base >= 0 && first >= 1 && Counting(s, base, first) && NoInit(calls)
    ensures Counting(Run(ch, s, calls), base, first)
    decreases |calls|
  {
    if calls != [] {
      StepKeepsCounting(ch, s, calls[0], base, first);
      assert NoInit(calls[1..]);
      RunKeepsCounting(ch, Step(ch, s, calls[0]), calls[1..], base, first);
    }
  }

  /**
    * On a new chain the committed heights are consecutive from the initial height (1 when it is not above 1),
    * whatever calls follow InitChain in whatever order, and a committed header of a begun block has its own height.
    */
  lemma {:induction false} HeightsFromInitialHeight<M>(
      ch: Chain<M>, s: State<M>, h: int, genesis: string, calls: seq<Call>)
    requires Fresh(s, 0) && NoInit(calls)
    ensures Counting(Run(ch, s, [InitChain(h, genesis)] + calls), 0, if h > 1 then h else 1)
  {
    var all := [InitChain(h, genesis)] + calls;
    assert all[1..] == calls;
    RunKeepsCounting(ch, Step(ch, s, all[0]), calls, 0, if h > 1 then h else 1);
  }

  /** After a restart at `base` the heights continue from `base + 1`. */
  lemma {:induction false} HeightsAfterRestart<M>(ch: Chain<M>, s: State<M>, base: int, calls: seq<Call>)
    requires Fresh(s, base) && NoInit(calls)
    ensures Counting(Run(ch, s, calls), base, base + 1)
  {
    RunKeepsCounting(ch, s, calls, base, base + 1);
  }

  // ---- The branches refine a plain ledger ----

  datatype Block = Block(header: Header, txs: seq<Bytes>)

  /** A ledger without branches: handlers write straight into the store, stage by stage. */
  datatype Ledger<!M> = Ledger(store: Store, gas: Meter, ctxGas: Uint64, pool: M)

  function PlainTx<M>(app: App<M>, h: Header, l: Ledger<M>, bz: Bytes): Ledger<M> {
    var g := app.readParams(l.store, l.ctxGas);
    if l.gas.Limited? && l.gas.consumed >= l.gas.limit then l.(ctxGas := g)
    else
      var st := Stage(app, Deliver, h, g, l.store, l.pool, bz);
      var (gas, over) := Charged(l.gas, st.meter);
      Ledger(if st.err.None? && !over then st.done else st.ante, gas, st.reading, st.pool)
  }

  function PlainTxs<M>(app: App<M>, h: Header, l: Ledger<M>, txs: seq<Bytes>): Ledger<M>
    decreases |txs|
  {
    if txs == [] then l else PlainTxs(app, h, PlainTx(app, h, l, txs[0]), txs[1..])
  }

  /** The meter of a block: none for a parameter that panics, unlimited unless positive. */
  function PlainMeter(maxGas: int): Option<Meter> {
    if maxGas < -1 || maxGas >= TWO63 then None else Some(if maxGas > 0 then Limited(maxGas, 0) else Infinite(0))
  }

  /**
    * The ledger after the begin blocker, with the block's gas meter; None when a parameter or the hook panics. The
    * parameters are read twice before the hook and once after it.
    */
  function Begun<M>(ch: Chain<M>, l: Ledger<M>, h: Header): Option<Ledger<M>> {
    if PlainMeter(ch.maxGas(l.store)).None? then None
    else
      match ch.begin(h, l.store, ch.app.readParams(l.store, ch.app.readParams(l.store, l.ctxGas)))
      case None => None
      case Some(k) =>
        var s := Apply(l.store, k.writes);
        match PlainMeter(ch.maxGas(s))
        case None => None
        case Some(m) => Some(Ledger(s, m, ch.app.readParams(s, k.ctxGas), l.pool))
  }

  /** One block on the plain store; None when a hook panics. */
  function PlainBlock<M>(ch: Chain<M>, l: Ledger<M>, b: Block): Option<Ledger<M>> {
    match Begun(ch, l, b.header)
    case None => None
    case Some(begun) =>
      var l' := PlainTxs(ch.app, b.header, begun, b.txs);
      match ch.end(b.header, l'.store, l'.ctxGas)
      case None => None
      case Some(e) => Some(Ledger(Apply(l'.store, e.writes), Infinite(0), 0, l'.pool))
  }

  function DeliverCalls(txs: seq<Bytes>): seq<Call> {
    seq(|txs|, i requires 0 <= i < |txs| => DeliverTx(txs[i]))
  }

  function BlockCalls(b: Block): seq<Call> {
    [BeginBlock(b.header)] + DeliverCalls(b.txs) + [EndBlock, Commit]
  }

  function ChainCalls(blocks: seq<Block>): seq<Call> {
    if blocks == [] then [] else BlockCalls(blocks[0]) + ChainCalls(blocks[1..])
  }

  function PlainChain<M>(ch: Chain<M>, l: Ledger<M>, blocks: seq<Block>): Option<Ledger<M>>
    decreases |blocks|
  {
    if blocks == [] then Some(l)
    else
      match PlainBlock(ch, l, blocks[0])
      case None => None
      case Some(l') => PlainChain(ch, l', blocks[1..])
  }

  lemma {:induction false} RunConcat<M>(ch: Chain<M>, s: State<M>, a: seq<Call>, b: seq<Call>)
    ensures Run(ch, s, a + b) == Run(ch, Run(ch, s, a), b)
    decreases |a|
  {
    if a == [] {
      assert a + b == b;
    } else {
      assert (a + b)[1..] == a[1..] + b;
      RunConcat(ch, Step(ch, s, a[0]), a[1..], b);
    }
  }

  /** What the deliver branch shows is the ledger in the middle of a block. */
  ghost predicate Shows<M>(s: State<M>, h: Header, l: Ledger<M>) {
    && s.alive && s.deliver.Some? && s.pool == l.pool
    && var br := s.deliver.value;
       br.header == h && br.blockGas == l.gas && br.ctxGas == l.ctxGas && Apply(s.cms, br.writes) == l.store
  }

  /** Between blocks: the genesis branch if there is one, and otherwise the committed store. */
  function Resting<M>(s: State<M>): Ledger<M> {
    if s.deliver.None? then Ledger(s.cms, Infinite(0), 0, s.pool)
    else Ledger(Apply(s.cms, s.deliver.value.writes), Infinite(0), s.deliver.value.ctxGas, s.pool)
  }

  lemma {:induction false} DeliverShows<M>(ch: Chain<M>, s: State<M>, h: Header, l: Ledger<M>, bz: Bytes)
    requires Shows(s, h, l)
    ensures Shows(Step(ch, s, DeliverTx(bz)), h, PlainTx(ch.app, h, l, bz))
    ensures Step(ch, s, DeliverTx(bz)).cms == s.cms
  {
    RunRefinesStages(ch.app, Deliver, s.deliver.value, s.cms, s.pool, bz);
  }

  lemma {:induction false} TxsShow<M>(ch: Chain<M>, s: State<M>, h: Header, l: Ledger<M>, txs: seq<Bytes>)
    requires Shows(s, h, l)
    ensures var calls := DeliverCalls(txs);
            && Shows(Run(ch, s, calls), h, PlainTxs(ch.app, h, l, txs))
            && Run(ch, s, calls).version == s.version
    decreases |txs|
  {
    var calls := DeliverCalls(txs);
    if txs != [] {
      DeliverShows(ch, s, h, l, txs[0]);
      var rest := txs[1..];
      assert calls[1..] == DeliverCalls(rest);
      TxsShow(ch, Step(ch, s, calls[0]), h, PlainTx(ch.app, h, l, txs[0]), rest);
    }
  }

  lemma {:induction false} BeginShows<M>(ch: Chain<M>, s: State<M>, h: Header)
    requires s.alive && h.height >= 1 && h.height == ExpectedHeight(s)
    ensures var l := Begun(ch, Resting(s), h);
            var s' := Step(ch, s, BeginBlock(h));
            if l.None? then !s'.alive else Shows(s', h, l.value) && s'.version == s.version
  {
    ApplyClean(s.cms);
    var l := Resting(s);
    var k := ch.begin(h, l.store, ReadTwice(ch, l.store, l.ctxGas));
    if k.Some? {
      ApplyCompose(s.cms, if s.deliver.None? then CLEAN else s.deliver.value.writes, k.value.writes);
    }
  }

  /** A whole block through the branches is the block on the plain ledger, crashes included. */
  lemma {:induction false} BlockRefinesLedger<M>(ch: Chain<M>, s: State<M>, b: Block)
    requires s.alive && b.header.height >= 1 && b.header.height == ExpectedHeight(s)
    ensures var s' := Run(ch, s, BlockCalls(b));
            var l' := PlainBlock(ch, Resting(s), b);
            && (s'.alive <==> l'.Some?)
            && (l'.Some? ==> Resting(s') == l'.value && s'.deliver.None? && s'.cms == l'.value.store
                             && s'.version == NextVersion(s)
                             && s'.initialHeight == s.initialHeight && s'.initialVersion == s.initialVersion)
  {
    var begin, txs, tail := [BeginBlock(b.header)], DeliverCalls(b.txs), [EndBlock, Commit];
    assert BlockCalls(b) == begin + (txs + tail);
    RunConcat(ch, s, begin, txs + tail);
    assert begin[1..] == [];
    var s1 := Step(ch, s, begin[0]);
    assert Run(ch, s, begin) == s1;
    BeginShows(ch, s, b.header);
    if !s1.alive {
      DeadStaysDead(ch, s1, txs + tail);
    } else {
      var l1 := Begun(ch, Resting(s), b.header).value;
      TxsShow(ch, s1, b.header, l1, b.txs);
      RunConcat(ch, s1, txs, tail);
      var s2, l2 := Run(ch, s1, txs), PlainTxs(ch.app, b.header, l1, b.txs);
      TailShows(ch, s2, b.header, l2);
      RunKeepsInit(ch, s1, txs);
    }
  }

  lemma {:induction false} RunKeepsInit<M>(ch: Chain<M>, s: State<M>, calls: seq<Call>)
    requires NoInit(calls)
    ensures var s' := Run(ch, s, calls);
            s'.initialHeight == s.initialHeight && s'.initialVersion == s.initialVersion
    decreases |calls|
  {
    if calls != [] {
      assert NoInit(calls[1..]);
      RunKeepsInit(ch, Step(ch, s, calls[0]), calls[1..]);
    }
  }

  lemma {:induction false} TailShows<M>(ch: Chain<M>, s: State<M>, h: Header, l: Ledger<M>)
    requires Shows(s, h, l)
    ensures var s' := Run(ch, s, [EndBlock, Commit]);
            var e := ch.end(h, l.store, l.ctxGas);
            && (s'.alive <==> e.Some?)
            && (e.Some? ==> s'.deliver.None? && s'.cms == Apply(l.store, e.value.writes) && s'.pool == l.pool
                            && s'.version == NextVersion(s)
                            && s'.initialHeight == s.initialHeight && s'.initialVersion == s.initialVersion)
  {
    var tail := [EndBlock, Commit];
    assert tail[1..] == [Commit] && [Commit][1..] == [];
    var s1 := Step(ch, s, EndBlock);
    assert Run(ch, s, tail) == Run(ch, s1, [Commit]);
    assert Run(ch, s1, [Commit]) == Run(ch, Step(ch, s1, Commit), []);
    var e := ch.end(h, l.store, l.ctxGas);
    if e.Some? {
      ApplyCompose(s.cms, s.deliver.value.writes, e.value.writes);
    }
  }

  /** The store a proposal is about: at the initial height genesis is not committed and still in the deliver state. */
  function Seen<M>(s: State<M>, height: int): Store
    requires height == s.initialHeight ==> s.deliver.Some?
  {
    if height == s.initialHeight then Apply(s.cms, s.deliver.value.writes) else s.cms
  }

  /** The handler is reached: a positive height, a deliver state where one is needed, and a sane gas parameter. */
  predicate Reaches<M>(ch: Chain<M>, s: State<M>, height: int) {
    && height >= 1 && (height == s.initialHeight ==> s.deliver.Some?)
    && -1 <= ch.maxGas(Seen(s, height)) < TWO63
  }

  /** The gas reading the handler starts from: the deliver state's at the initial height, after two parameter reads. */
  function Started<M>(ch: Chain<M>, s: State<M>, height: int): Uint64
    requires Reaches(ch, s, height)
  {
    var view := Seen(s, height);
    ch.app.readParams(view, ch.app.readParams(view, if height == s.initialHeight then s.deliver.value.ctxGas else 0))
  }

  /** What a proposal leaves in the deliver state: nothing but the reading of a meter it shared. */
  function Shared<M>(s: State<M>, height: int, gas: Uint64): Option<Branch> {
    if height == s.initialHeight && s.deliver.Some? then Some(s.deliver.value.(ctxGas := gas)) else s.deliver
  }

  /**
    * PrepareProposal: the process survives exactly when the handler is reached; a recovered panic answers with the
    * requested transactions, any other answer is the handler's; and the whole state it leaves.
    */
  lemma {:induction false} PrepareExactly<M>(ch: Chain<M>, s: State<M>, height: int, req: Request)
    requires s.alive
    ensures var s', answer := Step(ch, s, PrepareCall(height, req)), PrepareAnswer(ch, s, height, req);
            && (s'.alive <==> Reaches(ch, s, height)) && (answer.Some? <==> s'.alive)
            && (s'.alive ==>
                  var view, gas := Seen(s, height), Started(ch, s, height);
                  var k := ch.prepare(view, s.pool, req, gas);
                  && answer.value == (if k.answer.None? then req.txs else k.answer.value)
                  && s' == s.(pool := k.pool, deliver := Shared(s, height, k.ctxGas), prepare := s'.prepare)
                  && var meter := PlainMeter(ch.maxGas(view)).value;
                     s'.prepare == Some(Branch(k.writes, Header(height, ""), meter, k.ctxGas)))
  {
  }

  /** ProcessProposal likewise; a recovered panic rejects. */
  lemma {:induction false} ProcessExactly<M>(ch: Chain<M>, s: State<M>, height: int, req: Request)
    requires s.alive
    ensures var s', verdict := Step(ch, s, ProcessCall(height, req)), ProcessAnswer(ch, s, height, req);
            && (s'.alive <==> Reaches(ch, s, height)) && (verdict.Some? <==> s'.alive)
            && (s'.alive ==>
                  var view, gas := Seen(s, height), Started(ch, s, height);
                  var k := ch.process(view, s.pool, req, gas);
                  && (verdict.value <==> k.answer.Some? && k.answer.value)
                  && s' == s.(pool := k.pool, deliver := Shared(s, height, k.ctxGas), process := s'.process)
                  && var meter := PlainMeter(ch.maxGas(view)).value;
                     s'.process == Some(Branch(k.writes, Header(height, ""), meter, k.ctxGas)))
  {
  }

  /** A proposal right after InitChain, at its height, is about the genesis store, although nothing is committed. */
  lemma {:induction false} FirstProposalSeesGenesis<M>(ch: Chain<M>, s: State<M>, h: int, genesis: string)
    requires s.alive && Step(ch, s, InitChain(h, genesis)).alive
    ensures var t := Step(ch, s, InitChain(h, genesis));
            && t.cms == s.cms && t.deliver.Some? && t.initialHeight == h
            && Seen(t, h) == Apply(s.cms, ch.init(s.cms, genesis).value.writes)
            && ProposalView(t, h) == Some(Seen(t, h))
  {
  }

  /** Block heights as CometBFT numbers them. */
  predicate Numbered(blocks: seq<Block>, first: int) {
    forall i :: 0 <= i < |blocks| ==> blocks[i].header.height == first + i
  }

  /**
    * Running blocks through deliver branches and commits is running them on a plain store: the committed
    * store at the end is that of the plain chain, and the process dies exactly when a hook panics there.
    */
  lemma {:induction false} ChainRefinesLedger<M>(ch: Chain<M>, s: State<M>, blocks: seq<Block>)
    requires s.alive && ExpectedHeight(s) >= 1 && s.version >= 0 && NextVersion(s) == ExpectedHeight(s)
    requires Numbered(blocks, ExpectedHeight(s))
    ensures var s' := Run(ch, s, ChainCalls(blocks));
            var l' := PlainChain(ch, Resting(s), blocks);
            && (s'.alive <==> l'.Some?)
            && (l'.Some? && blocks != [] ==> s'.cms == l'.value.store)
    decreases |blocks|
  {
    if blocks != [] {
      var b, rest := blocks[0], blocks[1..];
      BlockRefinesLedger(ch, s, b);
      RunConcat(ch, s, BlockCalls(b), ChainCalls(rest));
      var s1 := Run(ch, s, BlockCalls(b));
      if s1.alive {
        assert forall i :: 0 <= i < |rest| ==> rest[i] == blocks[i + 1];
        ChainRefinesLedger(ch, s1, rest);
      } else {
        DeadStaysDead(ch, s1, ChainCalls(rest));
      }
    }
  }

  /**
    * Genesis included: after InitChain, any blocks and any interleaved CheckTx, Simulate, PrepareProposal and
    * ProcessProposal calls that make a quiet run, the committed store is the genesis store run through the plain
    * ledger.
    */
  lemma {:induction false} GenesisChainRefinesLedger<M>(
      ch: Chain<M>, s: State<M>, h: int, genesis: string, blocks: seq<Block>, calls: seq<Call>)
    requires Fresh(s, 0) && ch.init(s.cms, genesis).Some?
    requires blocks != [] && Numbered(blocks, if h > 1 then h else 1)
    requires ConsensusOnly(calls) == [InitChain(h, genesis)] + ChainCalls(blocks)
    requires Run(ch, s, calls).alive && Quiet(ch, s, s, calls)
    ensures var k := ch.init(s.cms, genesis).value;
            var l := PlainChain(ch, Ledger(Apply(s.cms, k.writes), Infinite(0), k.ctxGas, s.pool), blocks);
            l.Some? && Run(ch, s, calls).cms == l.value.store
  {
    NonInterference(ch, s, s, calls);
    var all := [InitChain(h, genesis)] + ChainCalls(blocks);
    assert all[1..] == ChainCalls(blocks);
    ChainRefinesLedger(ch, Step(ch, s, InitChain(h, genesis)), blocks);
  }

  /**
    * The same without asking for a quiet run, proposals at the initial height included: it is enough that hooks and
    * ante handler ignore the gas reading and every delivered transaction reaches the ante handler's own meter.
    */
  lemma {:induction false} InsulatedChainRefinesLedger<M(!new)>(
      ch: Chain<M>, s: State<M>, h: int, genesis: string, blocks: seq<Block>, calls: seq<Call>)
    requires Fresh(s, 0) && ch.init(s.cms, genesis).Some?
    requires blocks != [] && Numbered(blocks, if h > 1 then h else 1)
    requires ConsensusOnly(calls) == [InitChain(h, genesis)] + ChainCalls(blocks)
    requires FaultFixed(ch.app) && HooksIgnoreReading(ch) && AnteIgnoresReading(ch.app) && AllShielded(ch.app, calls)
    requires Run(ch, s, calls).alive
    ensures var k := ch.init(s.cms, genesis).value;
            var l := PlainChain(ch, Ledger(Apply(s.cms, k.writes), Infinite(0), k.ctxGas, s.pool), blocks);
            l.Some? && Run(ch, s, calls).cms == l.value.store
  {
    RunAlike(ch, s, s, calls, false);
    var all := [InitChain(h, genesis)] + ChainCalls(blocks);
    assert all[1..] == ChainCalls(blocks);
    ChainRefinesLedger(ch, Step(ch, s, InitChain(h, genesis)), blocks);
  }
}
