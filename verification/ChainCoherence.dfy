/** Coherence of the engine's two proposal calls, from one node's answer to another node's verdict. */
module ChainCoherence {
  import opened Words
  import opened Transactions
  import TxSelection
  import Proposal
  import opened Coherence
  import opened Overlay
  import opened Gas
  import opened RunTx
  import opened RunTxCoherence
  import opened Abci

  /** How a mempool's state is iterated. */
  type Iteration<!M> = M -> Proposal.Pool

  /** The branch a default handler verifies on. */
  function HandlerBranch(h: Header, gas: Uint64): Branch {
    Branch(CLEAN, h, Infinite(0), gas)
  }

  /** The block gas limit as a handler reads it; one out of range kills the process before. */
  function GasCap(maxGas: int): Option<Int64> {
    if MeterOk(maxGas) then Some(maxGas) else None
  }

  /** A chain whose PrepareProposal handler is the default one. */
  ghost predicate DefaultPrepare<M(!new)>(ch: Chain<M>, encode: Tx -> Option<Bytes>, pools: Iteration<M>,
                                          maxTxBytes: Int64, h: Header) {
    forall view, pool, req, gas ::
      ch.prepare(view, pool, req, gas).answer
      == Proposal.Prepared(RunVerifier(ch.app, encode, PrepareProposal, view, pool),
                           Proposal.PrepareLimits(maxTxBytes, GasCap(ch.maxGas(view))), pools(pool),
                           HandlerBranch(h, gas), req.txs)
  }

  /** A chain whose ProcessProposal handler is the default one. */
  ghost predicate DefaultProcess<M(!new)>(ch: Chain<M>, encode: Tx -> Option<Bytes>, pools: Iteration<M>, h: Header) {
    forall view, pool, req, gas ::
      ch.process(view, pool, req, gas).answer
      == Some(Proposal.Accepts(RunVerifier(ch.app, encode, ProcessProposal, view, pool),
                               GasCap(ch.maxGas(view)), pools(pool), HandlerBranch(h, gas), req.txs))
  }

  /** Two nodes that see the same store at a height: the committed one, or at the initial height that of genesis. */
  predicate SameView<M, N>(s: State<M>, t: State<N>, height: int) {
    ProposalView(s, height) == ProposalView(t, height)
  }

  /** The handler panics on this request. */
  predicate PreparePanics<M>(ch: Chain<M>, s: State<M>, height: int, req: Request)
    requires ProposalContext(ch, s, height).Some?
  {
    var k := ProposalContext(ch, s, height).value;
    ch.prepare(k.0, s.pool, req, k.1).answer.None?
  }

  /**
    * Whatever a node with a readable, untangled mempool answers to PrepareProposal, a node that sees the same store
    * accepts in ProcessProposal, with any mempool, gas reading and request data of its own. Without readability the
    * handler may panic, in which case the answer is the request, and the verdict that on the request.
    */
  lemma {:induction false} AnswerIsAccepted<M(!new), N(!new), R(!new)>(
      ch: Chain<M>, other: Chain<N>, encode: Tx -> Option<Bytes>, alpha: Store -> AnteState<R>, c: Checks<R>,
      below: (R, R) -> bool, maxTxBytes: Int64, pools: Iteration<M>, pools': Iteration<N>, h: Header, h': Header,
      s: State<M>, t: State<N>, height: int, req: Request, info: string)
    requires ch.app.decode == other.app.decode && ch.maxGas == other.maxGas
    requires DefaultPrepare(ch, encode, pools, maxTxBytes, h) && DefaultProcess(other, encode, pools', h')
    requires AnteModel(ch.app, encode, alpha, c, PrepareProposal)
    requires AnteModel(other.app, encode, alpha, c, ProcessProposal)
    requires Depleting(c, below) && forall r :: below(r, r)
    requires SameView(s, t, height) && pools(s.pool).Pool? && Untangled(c, pools(s.pool).order)
    requires ProposalContext(ch, s, height).Some?
    ensures var answer := PrepareAnswer(ch, s, height, req);
            && answer.Some?
            && (Readable(pools(s.pool)) ==> !PreparePanics(ch, s, height, req))
            && (PreparePanics(ch, s, height, req) ==> answer.value == req.txs)
            && (!PreparePanics(ch, s, height, req) ==>
                  ProcessAnswer(other, t, height, Request(answer.value, info)) == Some(true))
  {
    var (view, gas) := ProposalContext(ch, s, height).value;
    var gas' := ProposalContext(other, t, height).value.1;
    var pool, cap := pools(s.pool), GasCap(ch.maxGas(view));
    var v := RunVerifier(ch.app, encode, PrepareProposal, view, s.pool);
    var mine := HandlerBranch(h, gas);
    RunTxIsCoherent(ch.app, other.app, encode, alpha, c, below, maxTxBytes, cap, pool.order, pool.stuck,
                    pools'(t.pool), view, mine, HandlerBranch(h', gas'), s.pool, t.pool, req.txs);
    if Readable(pool) {
      var start := Proposal.Picker(mine, TxSelection.NOTHING, map[], []);
      ReadableFinishes(v, Proposal.PrepareLimits(maxTxBytes, cap), pool.stuck, start, pool.order);
    }
    var answer := ch.prepare(view, s.pool, req, gas).answer;
    assert answer == Proposal.Prepared(v, Proposal.PrepareLimits(maxTxBytes, cap), pool, mine, req.txs);
    if answer.Some? {
      var verdict := other.process(view, t.pool, Request(answer.value, info), gas').answer;
      var w := RunVerifier(other.app, encode, ProcessProposal, view, t.pool);
      assert verdict == Some(Proposal.Accepts(w, cap, pools'(t.pool), HandlerBranch(h', gas'), answer.value));
    }
  }
}
