/** Two runs in which a call outside consensus changes what is committed. */
module Interfering {
  import opened Words
  import opened Transactions
  import opened Overlay
  import opened Gas
  import opened RunTx
  import opened Abci

  lemma {:induction false} RunCons<M>(ch: Chain<M>, s: State<M>, c: Call, rest: seq<Call>)
    ensures Run(ch, s, [c] + rest) == Run(ch, Step(ch, s, c), rest)
  {
    assert ([c] + rest)[1..] == rest;
  }

  lemma {:induction false} OnlyCons(c: Call, rest: seq<Call>)
    ensures ConsensusOnly([c] + rest) == if Consensus(c) then [c] + ConsensusOnly(rest) else ConsensusOnly(rest)
  {
    assert ([c] + rest)[1..] == rest;
  }

  /** A run with one other call after InitChain, and the run without it. */
  lemma {:induction false} WithAndWithout<M>(ch: Chain<M>, s: State<M>, init: Call, other: Call, block: seq<Call>)
    requires Consensus(init) && !Consensus(other) && ConsensusOnly(block) == block
    ensures var calls := [init] + ([other] + block);
            var s1 := Step(ch, s, init);
            && Run(ch, s, calls) == Run(ch, Step(ch, s1, other), block)
            && Run(ch, s, ConsensusOnly(calls)) == Run(ch, s1, block)
  {
    RunCons(ch, s, init, [other] + block);
    RunCons(ch, Step(ch, s, init), other, block);
    OnlyCons(other, block);
    OnlyCons(init, [other] + block);
    RunCons(ch, s, init, block);
  }

  /** A new chain over an empty store. */
  function Newborn(): State<bool> {
    State(true, map[], 0, 0, 0, None, None, None, None, false, [], [])
  }

  const BLOCK: Header := Header(1, "")
  const WRITTEN: Writes := map["k" := Some("v")]

  lemma Seen()
    ensures Apply(map[], CLEAN) == map[] && Apply(map[], WRITTEN) == map["k" := "v"]
  {
  }

  function Entry(bz: Bytes): Tx {
    Tx(Some([]), None, [Msg("", [])], bz)
  }

  function Keep(h: Header, s: Store, g: Uint64): Option<Hooked> {
    Some(Hooked(CLEAN, g))
  }

  function Start(s: Store, genesis: string): Option<Hooked> {
    Some(Hooked(CLEAN, 0))
  }

  function Propose(s: Store, p: bool, req: Request, g: Uint64): Handled<bool, seq<Bytes>> {
    Handled(CLEAN, p, g, Some([]))
  }

  function Approve(s: Store, p: bool, req: Request, g: Uint64): Handled<bool, bool> {
    Handled(CLEAN, p, g, Some(true))
  }

  function Execute(mode: Mode, h: Header, s: Store, msg: Msg, m: Meter): Outcome {
    Passed(WRITTEN, m)
  }

  // ---- A proposal at the initial height ----

  /** Reading the parameters costs one unit of gas. */
  function CountRead(s: Store, g: Uint64): Uint64 {
    if g < 100 then g + 1 else g
  }

  function DecodeNonEmpty(bz: Bytes): Option<Tx> {
    if bz == [] then None else Some(Entry(bz))
  }

  function FreeOfCharge(mode: Mode, h: Header, g: Uint64, s: Store, tx: Tx): AnteOutcome {
    AntePass(CLEAN, Some(Limited(0, 0)), g)
  }

  function GaugeApp(): App<bool> {
    App(DecodeNonEmpty, msg => true, Some(FreeOfCharge), Execute, None, (p, tx) => (p, true),
        (p, tx) => (p, NotFound), CountRead)
  }

  /** A block gas limit of five. */
  function GaugeChain(): Chain<bool> {
    Chain(GaugeApp(), Start, Keep, Keep, Propose, Approve, s => 5)
  }

  /** The deliver state at genesis or in the block, with a given gas reading. */
  function Gauge(s: State<bool>, w: Writes, h: Header, m: Meter, r: Uint64): bool {
    s.alive && s.cms == map[] && s.version == 0 && s.initialHeight == 1 && s.deliver == Some(Branch(w, h, m, r))
  }

  lemma GaugeInit()
    ensures Gauge(Step(GaugeChain(), Newborn(), InitChain(1, "")), CLEAN, Header(0, ""), Infinite(0), 0)
  {
  }

  lemma {:induction false} GaugePrepare(s: State<bool>, r: Uint64, req: Request)
    requires Gauge(s, CLEAN, Header(0, ""), Infinite(0), r) && r < 50
    ensures Gauge(Step(GaugeChain(), s, PrepareCall(1, req)), CLEAN, Header(0, ""), Infinite(0), r + 2)
  {
    assert ReadTwice(GaugeChain(), Apply(map[], CLEAN), r) == r + 2;
  }

  lemma {:induction false} GaugeBegin(s: State<bool>, r: Uint64)
    requires Gauge(s, CLEAN, Header(0, ""), Infinite(0), r) && r < 50
    ensures Gauge(Step(GaugeChain(), s, BeginBlock(BLOCK)), CLEAN, BLOCK, Limited(5, 0), r + 3)
  {
    assert ReadTwice(GaugeChain(), Apply(map[], CLEAN), r) == r + 2;
    assert CLEAN + CLEAN == CLEAN;
  }

  /** Bytes that do not decode are charged the reading. */
  lemma {:induction false} GaugeBad(s: State<bool>, r: Uint64)
    requires Gauge(s, CLEAN, BLOCK, Limited(5, 0), r) && r < 50
    ensures Gauge(Step(GaugeChain(), s, DeliverTx([])), CLEAN, BLOCK, Limited(5, r + 1), r + 1)
  {
    assert CLEAN + CLEAN == CLEAN;
  }

  lemma {:induction false} GaugeGood(s: State<bool>, c: Uint64, r: Uint64)
    requires Gauge(s, CLEAN, BLOCK, Limited(5, c), r) && r < 50 && c < 50
    ensures Gauge(Step(GaugeChain(), s, DeliverTx([1])), if c < 5 then WRITTEN else CLEAN, BLOCK, Limited(5, c), r + 1)
  {
    var app, tx, m := GaugeApp(), Entry([1]), Limited(0, 0);
    ApplyClean(map[]);
    WritesMonoid(WRITTEN, CLEAN, CLEAN);
    assert BasicOk(app, tx);
    assert tx.msgs[1..] == [];
    assert Messages(app, Deliver, BLOCK, map[], [], WRITTEN, m) == Passed(WRITTEN, m);
    assert Body(app, Deliver, BLOCK, map[], tx, m) == Passed(WRITTEN, m);
  }

  lemma {:induction false} GaugeTail(s: State<bool>, w: Writes, m: Meter, r: Uint64)
    requires Gauge(s, w, BLOCK, m, r)
    ensures Run(GaugeChain(), s, [EndBlock, Commit]).cms == Apply(map[], w)
  {
    var s' := Step(GaugeChain(), s, EndBlock);
    assert [EndBlock, Commit] == [EndBlock] + ([Commit] + []);
    RunCons(GaugeChain(), s, EndBlock, [Commit] + []);
    RunCons(GaugeChain(), s', Commit, []);
    WritesMonoid(w, CLEAN, CLEAN);
  }

  function GaugeBlock(): seq<Call> {
    [BeginBlock(BLOCK)] + ([DeliverTx([])] + ([DeliverTx([1])] + [EndBlock, Commit]))
  }

  /** The block from genesis, started with a given reading. */
  lemma {:induction false} GaugeRun(s: State<bool>, r: Uint64)
    requires Gauge(s, CLEAN, Header(0, ""), Infinite(0), r) && r < 40
    ensures Run(GaugeChain(), s, GaugeBlock()).cms == if r == 0 then map["k" := "v"] else map[]
  {
    Seen();
    var ch, tail := GaugeChain(), [EndBlock, Commit];
    GaugeBegin(s, r);
    var s1 := Step(ch, s, BeginBlock(BLOCK));
    GaugeBad(s1, r + 3);
    var s2 := Step(ch, s1, DeliverTx([]));
    GaugeGood(s2, r + 4, r + 4);
    var s3 := Step(ch, s2, DeliverTx([1]));
    GaugeTail(s3, if r + 4 < 5 then WRITTEN else CLEAN, Limited(5, r + 4), r + 5);
    RunCons(ch, s, BeginBlock(BLOCK), [DeliverTx([])] + ([DeliverTx([1])] + tail));
    RunCons(ch, s1, DeliverTx([]), [DeliverTx([1])] + tail);
    RunCons(ch, s2, DeliverTx([1]), tail);
  }

  /**
    * One PrepareProposal at the initial height reads the parameters through the deliver state's gas meter. Bytes that
    * do not decode are then charged more, the block runs out of gas, and the next transaction is not committed.
    */
  lemma {:induction false} ProposalInterferes(req: Request)
    ensures var calls := [InitChain(1, "")] + ([PrepareCall(1, req)] + GaugeBlock());
            && Run(GaugeChain(), Newborn(), calls).cms == map[]
            && Run(GaugeChain(), Newborn(), ConsensusOnly(calls)).cms == map["k" := "v"]
  {
    var ch, prepare := GaugeChain(), PrepareCall(1, req);
    var s1 := Step(ch, Newborn(), InitChain(1, ""));
    var s2 := Step(ch, s1, prepare);
    OnlyBlock();
    WithAndWithout(ch, Newborn(), InitChain(1, ""), prepare, GaugeBlock());
    GaugeInit();
    GaugePrepare(s1, 0, req);
    GaugeRun(s2, 2);
    GaugeRun(s1, 0);
  }

  lemma {:induction false} OnlyBlock()
    ensures ConsensusOnly(GaugeBlock()) == GaugeBlock()
  {
    var tail := [EndBlock, Commit];
    assert tail == [EndBlock] + ([Commit] + []);
    OnlyCons(Commit, []);
    OnlyCons(EndBlock, [Commit] + []);
    OnlyCons(DeliverTx([1]), tail);
    OnlyCons(DeliverTx([]), [DeliverTx([1])] + tail);
    OnlyCons(BeginBlock(BLOCK), [DeliverTx([])] + ([DeliverTx([1])] + tail));
  }

  // ---- A mempool whose removal faults depend on its contents ----

  function Insert(p: bool, tx: Tx): (bool, bool) {
    (true, true)
  }

  /** Removal fails once anything was inserted. */
  function TouchyRemove(p: bool, tx: Tx): (bool, Removal) {
    (p, if p then Fault else NotFound)
  }

  function TouchyApp(): App<bool> {
    App(bz => Some(Entry(bz)), msg => true, None, Execute, None, Insert, TouchyRemove, (s, g) => g)
  }

  function TouchyChain(): Chain<bool> {
    Chain(TouchyApp(), Start, Keep, Keep, Propose, Approve, s => 0)
  }

  predicate Touchy(s: State<bool>, w: Writes, h: Header, p: bool) {
    && s.alive && s.cms == map[] && s.version == 0 && s.initialHeight == 1 && s.pool == p
    && s.deliver == Some(Branch(w, h, Infinite(0), 0)) && s.check == Some(NewBranch(Header(0, "")))
  }

  lemma TouchyInit()
    ensures Touchy(Step(TouchyChain(), Newborn(), InitChain(1, "")), CLEAN, Header(0, ""), false)
  {
  }

  lemma {:induction false} TouchyCheck(s: State<bool>)
    requires Touchy(s, CLEAN, Header(0, ""), false)
    ensures Touchy(Step(TouchyChain(), s, CheckTx([], false)), CLEAN, Header(0, ""), true)
  {
    var app, tx := TouchyApp(), Entry([]);
    assert BasicOk(app, tx);
    assert Pooled(app, Check, false, tx) == (true, false);
    ApplyClean(map[]);
    assert CLEAN + CLEAN == CLEAN;
    assert Body(app, Check, Header(0, ""), map[], tx, Infinite(0)) == Passed(CLEAN, Infinite(0));
  }

  lemma {:induction false} TouchyBegin(s: State<bool>, p: bool)
    requires Touchy(s, CLEAN, Header(0, ""), p)
    ensures Touchy(Step(TouchyChain(), s, BeginBlock(BLOCK)), CLEAN, BLOCK, p)
  {
    assert CLEAN + CLEAN == CLEAN;
  }

  lemma {:induction false} TouchyDeliver(s: State<bool>, p: bool)
    requires Touchy(s, CLEAN, BLOCK, p)
    ensures Touchy(Step(TouchyChain(), s, DeliverTx([])), if p then CLEAN else WRITTEN, BLOCK, p)
  {
    var app, tx, m := TouchyApp(), Entry([]), Infinite(0);
    assert BasicOk(app, tx);
    ApplyClean(map[]);
    WritesMonoid(WRITTEN, CLEAN, CLEAN);
    assert tx.msgs[1..] == [];
    assert Messages(app, Deliver, BLOCK, map[], [], WRITTEN, m) == Passed(WRITTEN, m);
    assert Body(app, Deliver, BLOCK, map[], tx, m) == Passed(WRITTEN, m);
    assert Pooled(app, Deliver, p, tx) == (p, p);
  }

  lemma {:induction false} TouchyTail(s: State<bool>, w: Writes, p: bool)
    requires Touchy(s, w, BLOCK, p)
    ensures Run(TouchyChain(), s, [EndBlock, Commit]).cms == Apply(map[], w)
  {
    var s' := Step(TouchyChain(), s, EndBlock);
    assert [EndBlock, Commit] == [EndBlock] + ([Commit] + []);
    RunCons(TouchyChain(), s, EndBlock, [Commit] + []);
    RunCons(TouchyChain(), s', Commit, []);
    WritesMonoid(w, CLEAN, CLEAN);
  }

  function TouchyBlock(): seq<Call> {
    [BeginBlock(BLOCK)] + ([DeliverTx([])] + [EndBlock, Commit])
  }

  lemma {:induction false} TouchyRun(s: State<bool>, p: bool)
    requires Touchy(s, CLEAN, Header(0, ""), p)
    ensures Run(TouchyChain(), s, TouchyBlock()).cms == if p then map[] else map["k" := "v"]
  {
    Seen();
    var ch, tail := TouchyChain(), [EndBlock, Commit];
    TouchyBegin(s, p);
    var s1 := Step(ch, s, BeginBlock(BLOCK));
    TouchyDeliver(s1, p);
    var s2 := Step(ch, s1, DeliverTx([]));
    TouchyTail(s2, if p then CLEAN else WRITTEN, p);
    RunCons(ch, s, BeginBlock(BLOCK), [DeliverTx([])] + tail);
    RunCons(ch, s1, DeliverTx([]), tail);
  }

  /** One CheckTx fills the mempool, the delivery then faults on removal, and its writes are not committed. */
  lemma {:induction false} TouchyMempoolInterferes()
    ensures var calls := [InitChain(1, "")] + ([CheckTx([], false)] + TouchyBlock());
            && Run(TouchyChain(), Newborn(), calls).cms == map[]
            && Run(TouchyChain(), Newborn(), ConsensusOnly(calls)).cms == map["k" := "v"]
  {
    var ch, check := TouchyChain(), CheckTx([], false);
    var s1 := Step(ch, Newborn(), InitChain(1, ""));
    var s2 := Step(ch, s1, check);
    OnlyTouchyBlock();
    WithAndWithout(ch, Newborn(), InitChain(1, ""), check, TouchyBlock());
    TouchyInit();
    TouchyCheck(s1);
    TouchyRun(s2, true);
    TouchyRun(s1, false);
  }

  lemma {:induction false} OnlyTouchyBlock()
    ensures ConsensusOnly(TouchyBlock()) == TouchyBlock()
  {
    var tail := [EndBlock, Commit];
    assert tail == [EndBlock] + ([Commit] + []);
    OnlyCons(Commit, []);
    OnlyCons(EndBlock, [Commit] + []);
    OnlyCons(DeliverTx([]), tail);
    OnlyCons(BeginBlock(BLOCK), [DeliverTx([])] + tail);
  }
}
