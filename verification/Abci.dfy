/** BaseApp's ABCI life cycle: four volatile branches over one committed store. */
module Abci {
  import opened Words
  import opened Overlay
  import opened Gas
  import opened RunTx

  /** Writes of a begin or end blocker and the context's gas reading afterwards. */
  datatype Hooked = Hooked(writes: Writes, ctxGas: Uint64)

  /** A proposal request: the transactions of the engine and everything else in it. */
  datatype Request = Request(txs: seq<Bytes>, info: string)

  /** What a proposal handler did to its branch, the mempool and its gas meter, and its answer; None is a panic. */
  datatype Handled<!M, +A> = Handled(writes: Writes, pool: M, ctxGas: Uint64, answer: Option<A>)

  /**
    * The application: transaction handling, InitChain (consensus parameters and initChainer),
    * begin and end blockers, the two proposal handlers, and the MaxGas consensus parameter as read
    * from a store. A hook returning None panicked.
    */
  datatype Chain<!M> = Chain(
    app: App<M>,
    init: (Store, string) -> Option<Hooked>,
    begin: (Header, Store, Uint64) -> Option<Hooked>,
    end: (Header, Store, Uint64) -> Option<Hooked>,
    prepare: (Store, M, Request, Uint64) -> Handled<M, seq<Bytes>>,
    process: (Store, M, Request, Uint64) -> Handled<M, bool>,
    maxGas: Store -> int)

  datatype Committed = Committed(version: int, header: Header, store: Store)

  /**
    * The fields of BaseApp, plus a history of commits and DeliverTx results.
    * `alive` is false once a call panicked outside every recover.
    */
  datatype State<!M> = State(
    alive: bool,
    cms: Store, version: int, initialVersion: int,
    initialHeight: int,
    check: Option<Branch>, deliver: Option<Branch>, prepare: Option<Branch>, process: Option<Branch>,
    pool: M,
    commits: seq<Committed>, results: seq<TxResult>)

  datatype Call =
    | InitChain(initialHeight: int, genesis: string)
    | BeginBlock(header: Header)
    | DeliverTx(tx: Bytes)
    | EndBlock
    | Commit
    | CheckTx(tx: Bytes, recheck: bool)
    | Simulation(tx: Bytes)
    | PrepareCall(height: int, req: Request)
    | ProcessCall(height: int, req: Request)

  predicate Consensus(c: Call) {
    c.InitChain? || c.BeginBlock? || c.DeliverTx? || c.EndBlock? || c.Commit?
  }

  /** Replacing the state a mode runs on. */
  function WithState<M>(s: State<M>, mode: Mode, br: Branch): State<M> {
    match mode
    case Deliver => s.(deliver := Some(br))
    case PrepareProposal => s.(prepare := Some(br))
    case ProcessProposal => s.(process := Some(br))
    case _ => s.(check := Some(br))
  }

  function Crash<M>(s: State<M>): State<M> {
    s.(alive := false)
  }

  /** A fresh branch of the committed store. */
  function NewBranch(h: Header): Branch {
    Branch(CLEAN, h, Infinite(0), 0)
  }

  function BlockMeter(maxGas: int): Meter
    requires -1 <= maxGas < TWO63
  {
    if maxGas > 0 then Limited(maxGas, 0) else Infinite(0)
  }

  predicate MeterOk(maxGas: int) {
    -1 <= maxGas < TWO63
  }

  /** The gas reading after the consensus parameters have been read twice. */
  function ReadTwice<M>(ch: Chain<M>, view: Store, gas: Uint64): Uint64 {
    ch.app.readParams(view, ch.app.readParams(view, gas))
  }

  function InitStep<M>(ch: Chain<M>, s: State<M>, height: int, genesis: string): State<M> {
    var h := Header(if height > 1 then height else 0, "");
    var s1 := s.(initialHeight := height,
                 initialVersion := if height > 1 then height else s.initialVersion,
                 deliver := Some(NewBranch(h)), check := Some(NewBranch(h)));
    match ch.init(s.cms, genesis)
    case None => Crash(s1)
    case Some(k) => s1.(deliver := Some(NewBranch(h).(writes := k.writes, ctxGas := k.ctxGas)))
  }

  /** The height `validateHeight` expects. */
  function ExpectedHeight<M>(s: State<M>): int {
    if s.version == 0 && s.initialHeight > 1 then s.initialHeight else s.version + 1
  }

  /**
    * The begin blocker between two readings of the MaxGas parameter; false when one of them panics. The
    * parameters are read twice before it and once after.
    */
  function BeginBranch<M>(ch: Chain<M>, cms: Store, br: Branch): (r: (Branch, bool))
    ensures r.0.header == br.header
  {
    var view := Apply(cms, br.writes);
    if !MeterOk(ch.maxGas(view)) then (br, false)
    else
      match ch.begin(br.header, view, ReadTwice(ch, view, br.ctxGas))
      case None => (br, false)
      case Some(k) =>
        var view' := Apply(cms, br.writes + k.writes);
        var br' := br.(writes := br.writes + k.writes, ctxGas := ch.app.readParams(view', k.ctxGas));
        var maxGas := ch.maxGas(view');
        if !MeterOk(maxGas) then (br', false) else (br'.(blockGas := BlockMeter(maxGas)), true)
  }

  function BeginStep<M>(ch: Chain<M>, s: State<M>, h: Header): State<M> {
    if h.height < 1 || h.height != ExpectedHeight(s) then Crash(s)
    else
      var (br, ok) := BeginBranch(ch, s.cms, if s.deliver.None? then NewBranch(h) else s.deliver.value.(header := h));
      s.(deliver := Some(br), alive := ok)
  }

  function DeliverStep<M>(ch: Chain<M>, s: State<M>, bz: Bytes): State<M> {
    if s.deliver.None? then Crash(s)
    else
      var (br, pool, r) := Ran(ch.app, Deliver, s.deliver.value, s.cms, s.pool, bz);
      s.(deliver := Some(br), pool := pool, results := s.results + [r])
  }

  function EndStep<M>(ch: Chain<M>, s: State<M>): State<M> {
    if s.deliver.None? then Crash(s)
    else
      var br := s.deliver.value;
      match ch.end(br.header, Apply(s.cms, br.writes), br.ctxGas)
      case None => Crash(s)
      case Some(k) =>
        var w := br.writes + k.writes;
        s.(deliver := Some(br.(writes := w, ctxGas := ch.app.readParams(Apply(s.cms, w), k.ctxGas))))
  }

  /** The version the multistore gives its next commit. */
  function NextVersion<M>(s: State<M>): int {
    if s.version == 0 && s.initialVersion > 1 then s.initialVersion else s.version + 1
  }

  function CommitStep<M>(s: State<M>): State<M> {
    if s.deliver.None? then Crash(s)
    else
      var br := s.deliver.value;
      var store := Apply(s.cms, br.writes);
      s.(cms := store, version := NextVersion(s),
         commits := s.commits + [Committed(NextVersion(s), br.header, store)],
         check := Some(NewBranch(br.header)), deliver := None)
  }

  /** CheckTx and Simulate both run on the check state. */
  function CheckStep<M>(ch: Chain<M>, s: State<M>, mode: Mode, bz: Bytes): State<M> {
    if s.check.None? then Crash(s)
    else
      var (br, pool, _) := Ran(ch.app, mode, s.check.value, s.cms, s.pool, bz);
      s.(check := Some(br), pool := pool)
  }

  /** The store a proposal handler works on; None when the deliver state it needs is nil. */
  function ProposalView<M>(s: State<M>, height: int): Option<Store> {
    if height != s.initialHeight then Some(s.cms)
    else if s.deliver.None? then None
    else Some(Apply(s.cms, s.deliver.value.writes))
  }

  /** At the initial height a proposal's context is a copy of the deliver state's and shares its gas meter. */
  predicate SharesMeter<M>(s: State<M>, height: int) {
    height == s.initialHeight && s.deliver.Some?
  }

  /**
    * What a proposal handler is given: a view of the store, and its gas reading once the parameters have been
    * read twice. None when the process dies before the handler, and before any recovery, is reached.
    */
  function ProposalContext<M>(ch: Chain<M>, s: State<M>, height: int): (r: Option<(Store, Uint64)>)
    ensures r.Some? ==> MeterOk(ch.maxGas(r.value.0))
  {
    var view := ProposalView(s, height);
    if height < 1 || view.None? || !MeterOk(ch.maxGas(view.value)) then None
    else Some((view.value, ReadTwice(ch, view.value, if SharesMeter(s, height) then s.deliver.value.ctxGas else 0)))
  }

  /** A handler's gas reading, written back to the deliver state when the meter is shared. */
  function WithReading<M>(s: State<M>, height: int, gas: Uint64): State<M> {
    if SharesMeter(s, height) then s.(deliver := Some(s.deliver.value.(ctxGas := gas))) else s
  }

  /** PrepareProposal resets its state before it looks at the height. */
  function PrepareStep<M>(ch: Chain<M>, s: State<M>, height: int, req: Request): State<M> {
    var s1 := s.(prepare := Some(NewBranch(Header(0, ""))));
    match ProposalContext(ch, s, height)
    case None => Crash(s1)
    case Some((view, gas)) =>
      var k := ch.prepare(view, s.pool, req, gas);
      var br := Branch(k.writes, Header(height, ""), BlockMeter(ch.maxGas(view)), k.ctxGas);
      WithReading(s1.(prepare := Some(br), pool := k.pool), height, k.ctxGas)
  }

  function ProcessStep<M>(ch: Chain<M>, s: State<M>, height: int, req: Request): State<M> {
    var s1 := if height < 1 then s else s.(process := Some(NewBranch(Header(0, ""))));
    match ProposalContext(ch, s, height)
    case None => Crash(s1)
    case Some((view, gas)) =>
      var k := ch.process(view, s.pool, req, gas);
      var br := Branch(k.writes, Header(height, ""), BlockMeter(ch.maxGas(view)), k.ctxGas);
      WithReading(s1.(process := Some(br), pool := k.pool), height, k.ctxGas)
  }

  /** The response of PrepareProposal: a recovered panic answers with the requested transactions. */
  function PrepareAnswer<M>(ch: Chain<M>, s: State<M>, height: int, req: Request): Option<seq<Bytes>> {
    match ProposalContext(ch, s, height)
    case None => None
    case Some((view, gas)) =>
      match ch.prepare(view, s.pool, req, gas).answer
      case None => Some(req.txs)
      case Some(txs) => Some(txs)
  }

  /** The verdict of ProcessProposal: a recovered panic rejects. */
  function ProcessAnswer<M>(ch: Chain<M>, s: State<M>, height: int, req: Request): Option<bool> {
    match ProposalContext(ch, s, height)
    case None => None
    case Some((view, gas)) => Some(ch.process(view, s.pool, req, gas).answer == Some(true))
  }

  function Step<M>(ch: Chain<M>, s: State<M>, c: Call): State<M> {
    if !s.alive then s
    else
      match c
      case InitChain(h, g) => InitStep(ch, s, h, g)
      case BeginBlock(h) => BeginStep(ch, s, h)
      case DeliverTx(bz) => DeliverStep(ch, s, bz)
      case EndBlock => EndStep(ch, s)
      case Commit => CommitStep(s)
      case CheckTx(bz, re) => CheckStep(ch, s, if re then ReCheck else Check, bz)
      case Simulation(bz) => CheckStep(ch, s, Simulate, bz)
      case PrepareCall(h, req) => PrepareStep(ch, s, h, req)
      case ProcessCall(h, req) => ProcessStep(ch, s, h, req)
  }

  function Run<M>(ch: Chain<M>, s: State<M>, calls: seq<Call>): State<M>
    decreases |calls|
  {
    if calls == [] then s else Run(ch, Step(ch, s, calls[0]), calls[1..])
  }

  function ConsensusOnly(calls: seq<Call>): seq<Call>
    decreases |calls|
  {
    if calls == [] then []
    else (if Consensus(calls[0]) then [calls[0]] else []) + ConsensusOnly(calls[1..])
  }

  /** The part of the state that consensus is about. */
  datatype Core = Core(alive: bool, cms: Store, version: int, initialVersion: int, initialHeight: int,
                       deliver: Option<Branch>, commits: seq<Committed>, results: seq<TxResult>)

  function CoreOf<M>(s: State<M>): Core {
    Core(s.alive, s.cms, s.version, s.initialVersion, s.initialHeight, s.deliver, s.commits, s.results)
  }
}
