/** `DefaultProposalHandler`: building a proposal from the mempool and re-verifying one. */
module Proposal {
  import opened Words
  import opened Transactions
  import opened TxSelection

  /**
    * What BaseApp offers the handlers. `run` is `runTx` in a proposal mode on the
    * bytes of a transaction: it maps the proposal branch to the branch afterwards and
    * says whether the error was nil.
    */
  datatype Verifier<!S> = Verifier(
    encode: Tx -> Option<Bytes>,
    decode: Bytes -> Option<Tx>,
    run: (S, Bytes) -> (S, bool))

  function PrepareVerify<S>(v: Verifier<S>, s: S, tx: Tx): (S, Option<Bytes>) {
    var bz := v.encode(tx);
    if bz.None? then (s, None)
    else
      var (s', ok) := v.run(s, bz.value);
      (s', if ok then bz else None)
  }

  function ProcessVerify<S>(v: Verifier<S>, s: S, bz: Bytes): (S, Option<Tx>) {
    var tx := v.decode(bz);
    if tx.None? then (s, None)
    else
      var (s', ok) := v.run(s, bz);
      (s', if ok then tx else None)
  }

  /** The app-side mempool: absent or no-op, or an iteration order together with the txs `Remove` cannot drop. */
  datatype Pool = NoPool | Pool(order: seq<Tx>, stuck: set<Tx>)

  /** The loop state of the handler; `chosen` records the transactions behind `sel.txs`. */
  datatype Picker<!S> = Picker(branch: S, sel: Selection, last: map<Address, Uint64>, chosen: seq<Tx>)

  datatype Turn<!S> = Panic | Next(p: Picker<S>) | Halt(p: Picker<S>)

  datatype Picked<!S> = Panicked | Done(p: Picker<S>)

  function Succ(x: Uint64): Uint64 {
    ToU64(x + 1)
  }

  /** `seq - 1` on a uint64: 0 wraps to the largest value. */
  function Pred(x: Uint64): Uint64 {
    ToU64(x + (TWO64 - 1))
  }

  /** Collects this transaction's signer sequences, or None when one does not follow the recorded sequence. */
  function Scan(last: map<Address, Uint64>, sigs: seq<Sig>, acc: map<Address, Uint64>): Option<map<Address, Uint64>>
    decreases |sigs|
  {
    if sigs == [] then Some(acc)
    else
      var s := sigs[0];
      if s.signer in last && Succ(last[s.signer]) != s.sequence then None
      else Scan(last, sigs[1..], acc[s.signer := s.sequence])
  }

  /** Updates the recorded sequences after a verified transaction. */
  function Record(last: map<Address, Uint64>, seqs: map<Address, Uint64>, added: bool): map<Address, Uint64> {
    map a | a in last.Keys + seqs.Keys ::
      if a !in seqs then last[a]
      else if added then seqs[a]
      else if a in last then last[a]
      else Pred(seqs[a])
  }

  function Turned<S>(v: Verifier<S>, lim: Limits, stuck: set<Tx>, p: Picker<S>, tx: Tx): Turn<S> {
    if tx.sigs.None? then Panic
    else
      var seqs := Scan(p.last, tx.sigs.value, map[]);
      if seqs.None? then Next(p)
      else
        var (branch, bz) := PrepareVerify(v, p.branch, tx);
        if bz.None? then
          if tx in stuck then Panic else Next(p.(branch := branch))
        else
          var sel := Select(p.sel, lim, GasLimit(tx), bz.value);
          var added := |sel.txs| != |p.sel.txs|;
          var chosen := if added then p.chosen + [tx] else p.chosen;
          if Full(sel, lim) then Halt(Picker(branch, sel, p.last, chosen))
          else Next(Picker(branch, sel, Record(p.last, seqs.value, added), chosen))
  }

  function PickAll<S>(v: Verifier<S>, lim: Limits, stuck: set<Tx>, p: Picker<S>, txs: seq<Tx>): Picked<S>
    decreases |txs|
  {
    if txs == [] then Done(p)
    else
      match Turned(v, lim, stuck, p, txs[0])
      case Panic => Panicked
      case Halt(q) => Done(q)
      case Next(q) => PickAll(v, lim, stuck, q, txs[1..])
  }

  /** One turn's effect besides the selection: the branch it leaves, and what it asks the mempool to remove. */
  function TurnEffect<S>(v: Verifier<S>, p: Picker<S>, tx: Tx): (S, seq<Tx>) {
    if tx.sigs.None? || Scan(p.last, tx.sigs.value, map[]).None? then (p.branch, [])
    else
      var (branch, bz) := PrepareVerify(v, p.branch, tx);
      (branch, if bz.None? then [tx] else [])
  }

  /** The branch the whole loop leaves behind, panics included, and the transactions it asks the mempool to remove. */
  function Left<S>(v: Verifier<S>, lim: Limits, stuck: set<Tx>, p: Picker<S>, txs: seq<Tx>): (S, seq<Tx>)
    decreases |txs|
  {
    if txs == [] then (p.branch, [])
    else
      var (branch, gone) := TurnEffect(v, p, txs[0]);
      match Turned(v, lim, stuck, p, txs[0])
      case Next(q) =>
        (var (last, more) := Left(v, lim, stuck, q, txs[1..]);
         (last, gone + more))
      case _ => (branch, gone)
  }

  /** The loop after `i` transactions: what is still to come from `p` completes what was asked for from the start. */
  ghost predicate Onward<S>(v: Verifier<S>, lim: Limits, stuck: set<Tx>, start: Picker<S>, order: seq<Tx>,
                            p: Picker<S>, removed: seq<Tx>, i: int)
  {
    && 0 <= i <= |order|
    && PickAll(v, lim, stuck, start, order) == PickAll(v, lim, stuck, p, order[i..])
    && var rest := Left(v, lim, stuck, p, order[i..]);
       Left(v, lim, stuck, start, order) == (rest.0, removed + rest.1)
  }

  lemma {:induction false} OnwardStart<S>(v: Verifier<S>, lim: Limits, stuck: set<Tx>, start: Picker<S>, order: seq<Tx>)
    ensures Onward(v, lim, stuck, start, order, start, [], 0)
  {
    assert order[0..] == order;
    var rest := Left(v, lim, stuck, start, order);
    assert [] + rest.1 == rest.1;
  }

  lemma {:induction false} OnwardNext<S>(
      v: Verifier<S>, lim: Limits, stuck: set<Tx>, start: Picker<S>, order: seq<Tx>, p: Picker<S>, removed: seq<Tx>,
      i: int, q: Picker<S>)
    requires Onward(v, lim, stuck, start, order, p, removed, i) && i < |order|
    requires Turned(v, lim, stuck, p, order[i]) == Next(q)
    ensures Onward(v, lim, stuck, start, order, q, removed + TurnEffect(v, p, order[i]).1, i + 1)
  {
    assert order[i..][1..] == order[i + 1..];
    var gone, more := TurnEffect(v, p, order[i]).1, Left(v, lim, stuck, q, order[i + 1..]).1;
    assert removed + (gone + more) == (removed + gone) + more;
  }

  lemma OnwardStop<S>(v: Verifier<S>, lim: Limits, stuck: set<Tx>, start: Picker<S>, order: seq<Tx>,
                      p: Picker<S>, removed: seq<Tx>, i: int)
    requires Onward(v, lim, stuck, start, order, p, removed, i) && i < |order|
    requires !Turned(v, lim, stuck, p, order[i]).Next?
    ensures PickAll(v, lim, stuck, start, order) ==
      match Turned(v, lim, stuck, p, order[i]) case Halt(q) => Done(q) case _ => Panicked
    ensures Left(v, lim, stuck, start, order) ==
      (TurnEffect(v, p, order[i]).0, removed + TurnEffect(v, p, order[i]).1)
  {
  }

  lemma {:induction false} OnwardDone<S>(
      v: Verifier<S>, lim: Limits, stuck: set<Tx>, start: Picker<S>, order: seq<Tx>, p: Picker<S>, removed: seq<Tx>)
    requires Onward(v, lim, stuck, start, order, p, removed, |order|)
    ensures PickAll(v, lim, stuck, start, order) == Done(p) && Left(v, lim, stuck, start, order) == (p.branch, removed)
  {
    assert removed + [] == removed;
  }

  /** Without a panic the branch left behind is that of the finished loop. */
  lemma {:induction false} LeftBranch<S>(v: Verifier<S>, lim: Limits, stuck: set<Tx>, p: Picker<S>, txs: seq<Tx>)
    ensures var r := PickAll(v, lim, stuck, p, txs);
            r.Done? ==> Left(v, lim, stuck, p, txs).0 == r.p.branch
    decreases |txs|
  {
    if txs != [] {
      var t := Turned(v, lim, stuck, p, txs[0]);
      if t.Next? {
        LeftBranch(v, lim, stuck, t.p, txs[1..]);
      }
    }
  }

  /** The first-come selection used without a mempool. */
  function TakeAll(lim: Limits, sel: Selection, txs: seq<Bytes>): Selection
    decreases |txs|
  {
    if txs == [] then sel
    else
      var sel' := Select(sel, lim, 0, txs[0]);
      if Full(sel', lim) then sel' else TakeAll(lim, sel', txs[1..])
  }

  /** `uint64(b.MaxGas)`, or 0 without block parameters. */
  function PrepareLimits(maxTxBytes: Int64, maxGas: Option<Int64>): Limits {
    Limits(ToU64(maxTxBytes), if maxGas.Some? then ToU64(maxGas.value) else 0)
  }

  /** None when the handler panics. */
  function Prepared<S>(v: Verifier<S>, lim: Limits, pool: Pool, branch: S, reqTxs: seq<Bytes>): Option<seq<Bytes>> {
    if pool.NoPool? then Some(TakeAll(lim, NOTHING, reqTxs).txs)
    else
      match PickAll(v, lim, pool.stuck, Picker(branch, NOTHING, map[], []), pool.order)
      case Panicked => None
      case Done(p) => Some(p.sel.txs)
  }

  datatype Verdict<!S> = Rejected | Passing(branch: S, gas: Uint64)

  function Judge<S>(v: Verifier<S>, maxGas: Int64, branch: S, gas: Uint64, bz: Bytes): Verdict<S> {
    var (branch', tx) := ProcessVerify(v, branch, bz);
    if tx.None? then Rejected
    else if maxGas <= 0 then Passing(branch', gas)
    else
      var gas' := ToU64(gas + GasLimit(tx.value));
      if gas' > maxGas then Rejected else Passing(branch', gas')
  }

  function JudgeAll<S>(v: Verifier<S>, maxGas: Int64, branch: S, gas: Uint64, txs: seq<Bytes>): Verdict<S>
    decreases |txs|
  {
    if txs == [] then Passing(branch, gas)
    else
      match Judge(v, maxGas, branch, gas, txs[0])
      case Rejected => Rejected
      case Passing(branch', gas') => JudgeAll(v, maxGas, branch', gas', txs[1..])
  }

  predicate Accepts<S>(v: Verifier<S>, maxGas: Option<Int64>, pool: Pool, branch: S, txs: seq<Bytes>) {
    pool.NoPool? || JudgeAll(v, if maxGas.Some? then maxGas.value else 0, branch, 0, txs).Passing?
  }

  class DefaultProposalHandler<S> {
    const verifier: Verifier<S>
    const selector: TxSelector

    /** Between calls the selector is empty, so a call that timed out leaves nothing behind. */
    ghost predicate Valid()
      reads this, selector
    {
      selector.Value() == NOTHING
    }

    constructor (v: Verifier<S>)
      ensures Valid() && fresh(selector) && verifier == v
    {
      verifier := v;
      selector := new TxSelector();
    }

    /**
      * PrepareProposal over a branch of the committed state. `proposal` is None when the
      * handler panicked; `branch'` is the proposal branch left behind and `removed` what the
      * mempool was asked to remove.
      */
    method PrepareProposal(maxTxBytes: Int64, maxGas: Option<Int64>, pool: Pool, branch: S, reqTxs: seq<Bytes>)
      returns (proposal: Option<seq<Bytes>>, branch': S, removed: seq<Tx>)
      requires Valid()
      modifies selector
      ensures Valid()
      ensures proposal == Prepared(verifier, PrepareLimits(maxTxBytes, maxGas), pool, branch, reqTxs)
      ensures (branch', removed) ==
        if pool.NoPool? then (branch, [])
        else Left(verifier, PrepareLimits(maxTxBytes, maxGas), pool.stuck, Picker(branch, NOTHING, map[], []),
                  pool.order)
    {
      branch', removed := branch, [];
      var maxBlockGas: Uint64 := 0;
      if maxGas.Some? {
        maxBlockGas := ToU64(maxGas.value);
      }
      ghost var lim := PrepareLimits(maxTxBytes, maxGas);
      if pool.NoPool? {
        var i := 0;
        while i < |reqTxs|
          invariant 0 <= i <= |reqTxs|
          invariant TakeAll(lim, NOTHING, reqTxs) == TakeAll(lim, selector.Value(), reqTxs[i..])
        {
          var stop := selector.SelectTxForProposal(ToU64(maxTxBytes), maxBlockGas, None, reqTxs[i]);
          assert reqTxs[i..][1..] == reqTxs[i + 1..];
          if stop {
            proposal := Some(selector.selectedTxs);
            selector.Clear();
            return;
          }
          i := i + 1;
        }
        proposal := Some(selector.selectedTxs);
        selector.Clear();
        return;
      }
      proposal, branch', removed := PickFromPool(ToU64(maxTxBytes), maxBlockGas, pool, branch);
      selector.Clear();
    }

    /** The mempool loop. */
    method PickFromPool(maxTxBytes: Uint64, maxBlockGas: Uint64, pool: Pool, branch: S)
      returns (proposal: Option<seq<Bytes>>, branch': S, removed: seq<Tx>)
      requires Valid() && pool.Pool?
      modifies selector
      ensures var lim, start := Limits(maxTxBytes, maxBlockGas), Picker(branch, NOTHING, map[], []);
              && proposal == (match PickAll(verifier, lim, pool.stuck, start, pool.order)
                              case Panicked => None
                              case Done(p) => Some(p.sel.txs))
              && (branch', removed) == Left(verifier, lim, pool.stuck, start, pool.order)
    {
      ghost var lim, start := Limits(maxTxBytes, maxBlockGas), Picker(branch, NOTHING, map[], []);
      branch', removed := branch, [];
      var last: map<Address, Uint64> := map[];
      var selectedTxsNums := 0;
      ghost var chosen: seq<Tx> := [];
      OnwardStart(verifier, lim, pool.stuck, start, pool.order);
      var i := 0;
      while i < |pool.order|
        invariant 0 <= i <= |pool.order|
        invariant selectedTxsNums == |selector.selectedTxs|
        invariant Onward(verifier, lim, pool.stuck, start, pool.order,
                         Picker(branch', selector.Value(), last, chosen), removed, i)
      {
        var memTx := pool.order[i];
        ghost var before := Picker(branch', selector.Value(), last, chosen);
        ghost var turn := Turned(verifier, lim, pool.stuck, before, memTx);
        if turn.Next? {
          OnwardNext(verifier, lim, pool.stuck, start, pool.order, before, removed, i, turn.p);
        } else {
          OnwardStop(verifier, lim, pool.stuck, start, pool.order, before, removed, i);
        }
        assert removed + [] == removed;
        i := i + 1;
        if memTx.sigs.None? {
          return None, branch', removed;
        }
        var seqs := ScanSignatures(last, memTx.sigs.value);
        if seqs.None? {
          continue;
        }
        var (b, bz) := PrepareVerify(verifier, branch', memTx);
        branch' := b;
        if bz.None? {
          removed := removed + [memTx];
          if memTx in pool.stuck {
            return None, branch', removed;
          }
          continue;
        }
        var stop := selector.SelectTxForProposal(maxTxBytes, maxBlockGas, Some(memTx), bz.value);
        var txsLen := |selector.selectedTxs|;
        if txsLen != selectedTxsNums {
          chosen := chosen + [memTx];
        }
        if stop {
          return Some(selector.selectedTxs), branch', removed;
        }
        last := RecordSequences(last, seqs.value, txsLen != selectedTxsNums);
        selectedTxsNums := txsLen;
        assert turn == Next(Picker(branch', selector.Value(), last, chosen));
      }
      OnwardDone(verifier, lim, pool.stuck, start, pool.order, Picker(branch', selector.Value(), last, chosen),
                 removed);
      proposal := Some(selector.selectedTxs);
    }

    /** ProcessProposal over a branch of the committed state. */
    method ProcessProposal(maxGas: Option<Int64>, pool: Pool, branch: S, txs: seq<Bytes>) returns (accept: bool)
      ensures accept == Accepts(verifier, maxGas, pool, branch, txs)
    {
      if pool.NoPool? {
        return true;
      }
      var maxBlockGas: Int64 := if maxGas.Some? then maxGas.value else 0;
      var totalTxGas: Uint64 := 0;
      var state := branch;
      var i := 0;
      while i < |txs|
        invariant 0 <= i <= |txs|
        invariant JudgeAll(verifier, maxBlockGas, branch, 0, txs)
               == JudgeAll(verifier, maxBlockGas, state, totalTxGas, txs[i..])
      {
        assert txs[i..][1..] == txs[i + 1..];
        var (s, tx) := ProcessVerify(verifier, state, txs[i]);
        if tx.None? {
          return false;
        }
        state := s;
        if maxBlockGas > 0 {
          totalTxGas := ToU64(totalTxGas + GasLimit(tx.value));
          if totalTxGas > maxBlockGas {
            return false;
          }
        }
        i := i + 1;
      }
      accept := true;
    }
  }

  method ScanSignatures(last: map<Address, Uint64>, sigs: seq<Sig>) returns (r: Option<map<Address, Uint64>>)
    ensures r == Scan(last, sigs, map[])
  {
    var seqs: map<Address, Uint64> := map[];
    var i := 0;
    while i < |sigs|
      invariant 0 <= i <= |sigs|
      invariant Scan(last, sigs, map[]) == Scan(last, sigs[i..], seqs)
    {
      var sig := sigs[i];
      assert sigs[i..][1..] == sigs[i + 1..];
      if sig.signer in last && Succ(last[sig.signer]) != sig.sequence {
        return None;
      }
      seqs := seqs[sig.signer := sig.sequence];
      i := i + 1;
    }
    r := Some(seqs);
  }

  /** The map is walked in no particular order; the outcome does not depend on it. */
  method RecordSequences(last: map<Address, Uint64>, seqs: map<Address, Uint64>, added: bool)
    returns (r: map<Address, Uint64>)
    ensures r == Record(last, seqs, added)
  {
    r := last;
    var todo := seqs.Keys;
    while todo != {}
      invariant todo <= seqs.Keys
      invariant r.Keys == last.Keys + (seqs.Keys - todo)
      invariant forall a :: a in last && (a !in seqs || a in todo) ==> r[a] == last[a]
      invariant forall a :: a in seqs && a !in todo ==> r[a] == Record(last, seqs, added)[a]
      decreases todo
    {
      var sender :| sender in todo;
      if added {
        r := r[sender := seqs[sender]];
      } else if sender !in r {
        r := r[sender := Pred(seqs[sender])];
      }
      todo := todo - {sender};
    }
  }
}
