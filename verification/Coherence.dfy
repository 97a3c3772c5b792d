/**
  * Prepare/process coherence: a proposal built by a correct proposer is accepted by
  * every correct process that starts from the same committed state.
  */
module Coherence {
  import opened Words
  import opened Transactions
  import opened TxSelection
  import opened Proposal
  import ProposalProps

  /** A proposal branch: account sequences, and everything else the ante handler reads or writes. */
  datatype AnteState<R> = AnteState(seqs: map<Address, Uint64>, rest: R)

  predicate SeqsMatch(seqs: map<Address, Uint64>, sigs: seq<Sig>) {
    forall s :: s in sigs ==> s.signer in seqs && seqs[s.signer] == s.sequence
  }

  predicate Signed(sigs: seq<Sig>, a: Address) {
    SeqOf(sigs, a).Some?
  }

  /** Each signer's account sequence goes up by one, once per transaction. */
  function Bump(seqs: map<Address, Uint64>, sigs: seq<Sig>): map<Address, Uint64> {
    map a | a in seqs :: if Signed(sigs, a) then Succ(seqs[a]) else seqs[a]
  }

  /**
    * What a proposal mode checks besides sequences: `rest` are the other ante checks and what they leave of the
    * state, `refuse` is the post handler's refusal, after the ante writes have been made.
    */
  datatype Checks<!R> = Checks(rest: (R, Tx) -> Option<R>, refuse: (R, Tx) -> bool)

  /** The ante handler passes. */
  predicate Admits<R>(c: Checks<R>, s: AnteState<R>, tx: Tx) {
    SeqsMatch(s.seqs, SigsOf(tx)) && c.rest(s.rest, tx).Some?
  }

  /** The ante handler writes when it passes, whatever the post handler says then. */
  function AnteRun<R>(c: Checks<R>, s: AnteState<R>, tx: Tx): (AnteState<R>, bool) {
    if Admits(c, s, tx)
    then
      var s' := AnteState(Bump(s.seqs, SigsOf(tx)), c.rest(s.rest, tx).value);
      (s', !c.refuse(s'.rest, tx))
    else (s, false)
  }

  /** The verifier decodes what it encoded and runs such a handler. */
  ghost predicate SequenceChecked<R(!new)>(v: Verifier<AnteState<R>>, c: Checks<R>) {
    forall tx, s :: v.encode(tx).Some? ==>
      && v.decode(v.encode(tx).value) == Some(tx)
      && v.run(s, v.encode(tx).value) == AnteRun(c, s, tx)
  }

  /** Account sequences after replaying only the selected transactions. */
  function SeqsAfter(seqs: map<Address, Uint64>, txs: seq<Tx>): map<Address, Uint64> {
    if txs == [] then seqs else Bump(SeqsAfter(seqs, txs[..|txs| - 1]), SigsOf(txs[|txs| - 1]))
  }

  /** One transaction of the replay, sequences aside. */
  function Replayed<R>(c: Checks<R>, r: R, tx: Tx): Option<R> {
    var after := c.rest(r, tx);
    if after.Some? && c.refuse(after.value, tx) then None else after
  }

  /** The other checks replayed over only the selected transactions. */
  function RestAfter<R>(c: Checks<R>, r: R, txs: seq<Tx>): Option<R> {
    if txs == [] then Some(r)
    else
      var before := RestAfter(c, r, txs[..|txs| - 1]);
      if before.None? then None else Replayed(c, before.value, txs[|txs| - 1])
  }

  // ---- Sequences of the proposer and of the replay ----

  function Signers(tx: Tx): set<Address> {
    set s | s in SigsOf(tx) :: s.signer
  }

  /**
    * How the proposer's account sequences relate to those of a replay, for signers that are not `tainted` by a
    * refused transaction: equal for signers not yet recorded, and otherwise equal or one ahead, with the record
    * naming the next acceptable one.
    */
  ghost predicate InStep(prep: map<Address, Uint64>, replay: map<Address, Uint64>, last: map<Address, Uint64>,
                         tainted: set<Address>)
  {
    && prep.Keys == replay.Keys
    && forall a :: a in replay && a !in tainted ==>
         && (a !in last ==> prep[a] == replay[a])
         && (a in last ==> Succ(last[a]) == replay[a] && (prep[a] == replay[a] || prep[a] == Succ(replay[a])))
  }

  lemma {:induction false} ScanAgrees(last: map<Address, Uint64>, tx: Tx)
    requires Scan(last, SigsOf(tx), map[]).Some?
    ensures forall s :: s in SigsOf(tx) && s.signer in last ==> s.sequence == Succ(last[s.signer])
    ensures forall a :: a in Scan(last, SigsOf(tx), map[]).value <==> Signed(SigsOf(tx), a)
    ensures forall a :: Signed(SigsOf(tx), a) ==> Sig(a, Scan(last, SigsOf(tx), map[]).value[a]) in SigsOf(tx)
    ensures forall a :: a in Signers(tx) <==> Signed(SigsOf(tx), a)
  {
    var sigs := SigsOf(tx);
    ProposalProps.ScanMeaning(last, sigs, map[]);
    forall a
      ensures Signed(sigs, a) ==> Sig(a, Scan(last, sigs, map[]).value[a]) in sigs
      ensures a in Signers(tx) <==> Signed(sigs, a)
    {
      SeqOfFinds(sigs, a);
    }
  }

  /**
    * The heart of the argument: a transaction of untainted signers that passes the sequence filter and verifies on
    * the proposer's branch has exactly the sequences a replay expects. Selected, not selected or refused by the
    * post handler, it keeps the relation, a refusal tainting its signers.
    */
  lemma {:induction false} VerifiedMatchesReplay(
      prep: map<Address, Uint64>, replay: map<Address, Uint64>, last: map<Address, Uint64>, tainted: set<Address>,
      tx: Tx)
    requires InStep(prep, replay, last, tainted)
    requires Scan(last, SigsOf(tx), map[]).Some? && SeqsMatch(prep, SigsOf(tx))
    ensures Signers(tx) !! tainted ==> SeqsMatch(replay, SigsOf(tx))
    ensures var seqs, bumped := Scan(last, SigsOf(tx), map[]).value, Bump(prep, SigsOf(tx));
            && (Signers(tx) !! tainted ==> InStep(bumped, Bump(replay, SigsOf(tx)), Record(last, seqs, true), tainted))
            && InStep(bumped, replay, Record(last, seqs, false), tainted)
            && InStep(bumped, replay, last, tainted + Signers(tx))
  {
    ScanAgrees(last, tx);
    var sigs := SigsOf(tx);
    var seqs := Scan(last, sigs, map[]).value;
    forall a | a in replay && a !in tainted && Signed(sigs, a)
      ensures prep[a] == replay[a] == seqs[a]
      ensures Succ(Pred(seqs[a])) == seqs[a]
    {
      assert Sig(a, seqs[a]) in sigs;
    }
  }

  // ---- What processing the selected transactions yields ----

  /** The verdict on the proposal so far, at each point of the proposer's loop. */
  ghost predicate Mirrored<R(!new)>(v: Verifier<AnteState<R>>, c: Checks<R>, maxGas: Int64,
                                    s0: AnteState<R>, p: Picker<AnteState<R>>)
  {
    var after := RestAfter(c, s0.rest, p.chosen);
    JudgeAll(v, maxGas, s0, 0, p.sel.txs) ==
      if after.None? then Rejected
      else Passing(AnteState(SeqsAfter(s0.seqs, p.chosen), after.value), if maxGas > 0 then p.sel.gas else 0)
  }

  lemma {:induction false} JudgeSnoc<S>(
      v: Verifier<S>, maxGas: Int64, branch: S, gas: Uint64, txs: seq<Bytes>, bz: Bytes)
    ensures JudgeAll(v, maxGas, branch, gas, txs + [bz]) ==
            match JudgeAll(v, maxGas, branch, gas, txs)
            case Rejected => Rejected
            case Passing(b, g) => Judge(v, maxGas, b, g, bz)
    decreases |txs|
  {
    if txs == [] {
      assert [bz][1..] == [];
    } else {
      assert (txs + [bz])[1..] == txs[1..] + [bz];
      match Judge(v, maxGas, branch, gas, txs[0])
      case Rejected =>
      case Passing(b, g) => JudgeSnoc(v, maxGas, b, g, txs[1..], bz);
    }
  }

  /** The gas cap the two handlers read from the same consensus parameters. */
  predicate SameCap(lim: Limits, maxGas: Int64) {
    lim.maxGas == ToU64(maxGas)
  }

  /** One more selected transaction: its sequences decide, and then the other checks. */
  lemma {:induction false} SelectedIsJudged<R(!new)>(
      v: Verifier<AnteState<R>>, c: Checks<R>, lim: Limits, maxGas: Int64, s0: AnteState<R>, p: Picker<AnteState<R>>,
      tx: Tx, q: Picker<AnteState<R>>)
    requires SequenceChecked(v, c) && SameCap(lim, maxGas)
    requires Mirrored(v, c, maxGas, s0, p)
    requires v.encode(tx).Some? && Fits(p.sel, lim, GasLimit(tx), v.encode(tx).value)
    requires q.chosen == p.chosen + [tx] && q.sel == Select(p.sel, lim, GasLimit(tx), v.encode(tx).value)
    ensures SeqsMatch(SeqsAfter(s0.seqs, p.chosen), SigsOf(tx)) ==> Mirrored(v, c, maxGas, s0, q)
    ensures !SeqsMatch(SeqsAfter(s0.seqs, p.chosen), SigsOf(tx)) ==> JudgeAll(v, maxGas, s0, 0, q.sel.txs) == Rejected
  {
    var bz := v.encode(tx).value;
    JudgeSnoc(v, maxGas, s0, 0, p.sel.txs, bz);
    assert q.chosen[..|q.chosen| - 1] == p.chosen;
    var after := RestAfter(c, s0.rest, p.chosen);
    if after.Some? {
      var mid := AnteState(SeqsAfter(s0.seqs, p.chosen), after.value);
      assert v.run(mid, bz) == AnteRun(c, mid, tx);
    }
  }

  // ---- One turn of the proposer's loop ----

  /** The post handler refuses what the ante handler has passed and written. */
  predicate RefusedTurn<R>(v: Verifier<AnteState<R>>, c: Checks<R>, p: Picker<AnteState<R>>, tx: Tx) {
    && tx.sigs.Some? && Scan(p.last, tx.sigs.value, map[]).Some? && v.encode(tx).Some?
    && Admits(c, p.branch, tx) && c.refuse(c.rest(p.branch.rest, tx).value, tx)
  }

  /** The signers tainted after the turn. */
  function Tainted<R>(v: Verifier<AnteState<R>>, c: Checks<R>, p: Picker<AnteState<R>>, tx: Tx,
                      tainted: set<Address>): set<Address> {
    if RefusedTurn(v, c, p, tx) then tainted + Signers(tx) else tainted
  }

  /** The turn selects a transaction with a tainted signer. */
  ghost predicate Hit<S>(v: Verifier<S>, lim: Limits, stuck: set<Tx>, p: Picker<S>, tx: Tx, tainted: set<Address>) {
    var t := Turned(v, lim, stuck, p, tx);
    !t.Panic? && t.p.chosen != p.chosen && !(Signers(tx) !! tainted)
  }

  /** What a turn without panic does, by the outcome of verification. */
  lemma {:induction false} TurnCases<R(!new)>(
      v: Verifier<AnteState<R>>, c: Checks<R>, lim: Limits, stuck: set<Tx>, p: Picker<AnteState<R>>, tx: Tx)
    requires SequenceChecked(v, c) && !Turned(v, lim, stuck, p, tx).Panic?
    ensures var t := Turned(v, lim, stuck, p, tx);
            var reached := tx.sigs.Some? && Scan(p.last, SigsOf(tx), map[]).Some? && v.encode(tx).Some?;
            if !reached || !Admits(c, p.branch, tx) then t == Next(p) && !RefusedTurn(v, c, p, tx)
            else
              var branch := AnteRun(c, p.branch, tx).0;
              var seqs := Scan(p.last, SigsOf(tx), map[]).value;
              var sel := Select(p.sel, lim, GasLimit(tx), v.encode(tx).value);
              if RefusedTurn(v, c, p, tx) then t == Next(p.(branch := branch))
              else
                && t.p.branch == branch && t.p.sel == sel
                && (Fits(p.sel, lim, GasLimit(tx), v.encode(tx).value) ==> t.p.chosen == p.chosen + [tx])
                && (!Fits(p.sel, lim, GasLimit(tx), v.encode(tx).value) ==> t.p.chosen == p.chosen && sel == p.sel)
                && (t.Next? ==> t.p.last == Record(p.last, seqs, t.p.chosen != p.chosen))
  {
    if tx.sigs.Some? && v.encode(tx).Some? {
      assert v.run(p.branch, v.encode(tx).value) == AnteRun(c, p.branch, tx);
    }
  }

  /** One turn of the proposer's loop keeps both relations, unless it selects a transaction with a tainted signer. */
  lemma {:induction false} TurnIsMirrored<R(!new)>(
      v: Verifier<AnteState<R>>, c: Checks<R>, lim: Limits, stuck: set<Tx>, maxGas: Int64, s0: AnteState<R>,
      p: Picker<AnteState<R>>, tainted: set<Address>, tx: Tx)
    requires SequenceChecked(v, c) && SameCap(lim, maxGas)
    requires InStep(p.branch.seqs, SeqsAfter(s0.seqs, p.chosen), p.last, tainted)
    requires Mirrored(v, c, maxGas, s0, p)
    requires !Turned(v, lim, stuck, p, tx).Panic? && !Hit(v, lim, stuck, p, tx, tainted)
    ensures var t := Turned(v, lim, stuck, p, tx);
            && Mirrored(v, c, maxGas, s0, t.p)
            && (t.Next? ==> InStep(t.p.branch.seqs, SeqsAfter(s0.seqs, t.p.chosen), t.p.last,
                                   Tainted(v, c, p, tx, tainted)))
  {
    TurnCases(v, c, lim, stuck, p, tx);
    var t := Turned(v, lim, stuck, p, tx);
    if tx.sigs.None? || Scan(p.last, tx.sigs.value, map[]).None? || v.encode(tx).None? || !Admits(c, p.branch, tx) {
      return;
    }
    VerifiedMatchesReplay(p.branch.seqs, SeqsAfter(s0.seqs, p.chosen), p.last, tainted, tx);
    if t.p.chosen != p.chosen {
      SelectedIsJudged(v, c, lim, maxGas, s0, p, tx, t.p);
      assert t.p.chosen[..|t.p.chosen| - 1] == p.chosen;
    }
  }

  // ---- Whole loops ----

  /** Some transaction is selected after a refused one of a signer of its own. */
  ghost predicate Tangled<R(!new)>(v: Verifier<AnteState<R>>, c: Checks<R>, lim: Limits, stuck: set<Tx>,
                                   p: Picker<AnteState<R>>, tainted: set<Address>, txs: seq<Tx>)
    decreases |txs|
  {
    txs != []
    && (Hit(v, lim, stuck, p, txs[0], tainted)
        || var t := Turned(v, lim, stuck, p, txs[0]);
           t.Next? && Tangled(v, c, lim, stuck, t.p, Tainted(v, c, p, txs[0], tainted), txs[1..]))
  }

  lemma {:induction false} UntangledIsMirrored<R(!new)>(
      v: Verifier<AnteState<R>>, c: Checks<R>, lim: Limits, stuck: set<Tx>, maxGas: Int64, s0: AnteState<R>,
      p: Picker<AnteState<R>>, tainted: set<Address>, txs: seq<Tx>)
    requires SequenceChecked(v, c) && SameCap(lim, maxGas)
    requires InStep(p.branch.seqs, SeqsAfter(s0.seqs, p.chosen), p.last, tainted)
    requires Mirrored(v, c, maxGas, s0, p)
    requires !Tangled(v, c, lim, stuck, p, tainted, txs)
    ensures var r := PickAll(v, lim, stuck, p, txs);
            r.Done? ==> Mirrored(v, c, maxGas, s0, r.p)
    decreases |txs|
  {
    if txs != [] {
      var t := Turned(v, lim, stuck, p, txs[0]);
      if !t.Panic? {
        TurnIsMirrored(v, c, lim, stuck, maxGas, s0, p, tainted, txs[0]);
        if t.Next? {
          UntangledIsMirrored(v, c, lim, stuck, maxGas, s0, t.p, Tainted(v, c, p, txs[0], tainted), txs[1..]);
        }
      }
    }
  }

  // ---- A tangled proposal is rejected ----

  /** How far the proposer's account sequence is ahead of the replay's. */
  function Lead(prep: Uint64, replay: Uint64): Uint64 {
    if prep >= replay then prep - replay else prep - replay + TWO64
  }

  /** No sequence is further ahead than the `n` turns so far, and those of tainted signers are ahead. */
  ghost predicate Ahead(prep: map<Address, Uint64>, replay: map<Address, Uint64>, tainted: set<Address>, n: nat) {
    && prep.Keys == replay.Keys
    && forall a :: a in replay ==>
         Lead(prep[a], replay[a]) <= n && (a in tainted ==> Lead(prep[a], replay[a]) >= 1)
  }

  lemma {:induction false} AheadBumps(
      prep: map<Address, Uint64>, replay: map<Address, Uint64>, tainted: set<Address>, n: nat, tx: Tx)
    requires Ahead(prep, replay, tainted, n) && n + 1 < TWO64
    ensures Ahead(prep, replay, tainted, n + 1)
    ensures Ahead(Bump(prep, SigsOf(tx)), replay, tainted + Signers(tx), n + 1)
    ensures Ahead(Bump(prep, SigsOf(tx)), Bump(replay, SigsOf(tx)), tainted, n + 1)
  {
    var sigs := SigsOf(tx);
    forall a | a in replay
      ensures Lead(Succ(prep[a]), replay[a]) == Lead(prep[a], replay[a]) + 1
      ensures Lead(Succ(prep[a]), Succ(replay[a])) == Lead(prep[a], replay[a])
      ensures a in Signers(tx) ==> Signed(sigs, a)
    {
      SeqOfFinds(sigs, a);
    }
  }

  lemma {:induction false} TurnStaysAhead<R(!new)>(
      v: Verifier<AnteState<R>>, c: Checks<R>, lim: Limits, stuck: set<Tx>, s0: AnteState<R>, p: Picker<AnteState<R>>,
      tainted: set<Address>, n: nat, tx: Tx)
    requires SequenceChecked(v, c) && n + 1 < TWO64
    requires Ahead(p.branch.seqs, SeqsAfter(s0.seqs, p.chosen), tainted, n)
    requires !Turned(v, lim, stuck, p, tx).Panic?
    ensures var q := Turned(v, lim, stuck, p, tx).p;
            Ahead(q.branch.seqs, SeqsAfter(s0.seqs, q.chosen), Tainted(v, c, p, tx, tainted), n + 1)
  {
    TurnCases(v, c, lim, stuck, p, tx);
    AheadBumps(p.branch.seqs, SeqsAfter(s0.seqs, p.chosen), tainted, n, tx);
    var q := Turned(v, lim, stuck, p, tx).p;
    if q.chosen != p.chosen {
      assert q.chosen[..|q.chosen| - 1] == p.chosen;
    }
  }

  /** A selected transaction of a tainted signer has a sequence the replay does not expect. */
  lemma {:induction false} HitIsRejected<R(!new)>(
      v: Verifier<AnteState<R>>, c: Checks<R>, lim: Limits, stuck: set<Tx>, maxGas: Int64, s0: AnteState<R>,
      p: Picker<AnteState<R>>, tainted: set<Address>, n: nat, tx: Tx)
    requires SequenceChecked(v, c) && SameCap(lim, maxGas)
    requires Ahead(p.branch.seqs, SeqsAfter(s0.seqs, p.chosen), tainted, n)
    requires Mirrored(v, c, maxGas, s0, p) && Hit(v, lim, stuck, p, tx, tainted)
    ensures JudgeAll(v, maxGas, s0, 0, Turned(v, lim, stuck, p, tx).p.sel.txs) == Rejected
  {
    TurnCases(v, c, lim, stuck, p, tx);
    var t := Turned(v, lim, stuck, p, tx);
    var a :| a in Signers(tx) && a in tainted;
    var s :| s in SigsOf(tx) && s.signer == a;
    assert s.signer in p.branch.seqs && p.branch.seqs[a] == s.sequence;
    assert SeqsAfter(s0.seqs, p.chosen)[a] != s.sequence;
    SelectedIsJudged(v, c, lim, maxGas, s0, p, tx, t.p);
  }

  /** A rejected prefix stays rejected, and the loop only ever extends the proposal. */
  lemma {:induction false} RejectedStays<S, T>(
      v: Verifier<S>, w: Verifier<T>, lim: Limits, stuck: set<Tx>, maxGas: Int64, s0: T, p: Picker<S>, txs: seq<Tx>)
    requires JudgeAll(w, maxGas, s0, 0, p.sel.txs) == Rejected
    ensures var r := PickAll(v, lim, stuck, p, txs);
            r.Done? ==> JudgeAll(w, maxGas, s0, 0, r.p.sel.txs) == Rejected
    decreases |txs|
  {
    if txs != [] {
      var t := Turned(v, lim, stuck, p, txs[0]);
      if !t.Panic? {
        if t.p.sel.txs != p.sel.txs {
          var bz := t.p.sel.txs[|p.sel.txs|];
          assert t.p.sel.txs == p.sel.txs + [bz];
          JudgeSnoc(w, maxGas, s0, 0, p.sel.txs, bz);
        }
        if t.Next? {
          RejectedStays(v, w, lim, stuck, maxGas, s0, t.p, txs[1..]);
        }
      }
    }
  }

  lemma {:induction false} TangledIsRejected<R(!new)>(
      v: Verifier<AnteState<R>>, c: Checks<R>, lim: Limits, stuck: set<Tx>, maxGas: Int64, s0: AnteState<R>,
      p: Picker<AnteState<R>>, tainted: set<Address>, n: nat, txs: seq<Tx>)
    requires SequenceChecked(v, c) && SameCap(lim, maxGas) && n + |txs| < TWO64
    requires InStep(p.branch.seqs, SeqsAfter(s0.seqs, p.chosen), p.last, tainted)
    requires Ahead(p.branch.seqs, SeqsAfter(s0.seqs, p.chosen), tainted, n)
    requires Mirrored(v, c, maxGas, s0, p)
    requires Tangled(v, c, lim, stuck, p, tainted, txs)
    ensures var r := PickAll(v, lim, stuck, p, txs);
            r.Done? ==> JudgeAll(v, maxGas, s0, 0, r.p.sel.txs) == Rejected
    decreases |txs|
  {
    var t := Turned(v, lim, stuck, p, txs[0]);
    if Hit(v, lim, stuck, p, txs[0], tainted) {
      HitIsRejected(v, c, lim, stuck, maxGas, s0, p, tainted, n, txs[0]);
      if t.Next? {
        RejectedStays(v, v, lim, stuck, maxGas, s0, t.p, txs[1..]);
      }
    } else {
      TurnIsMirrored(v, c, lim, stuck, maxGas, s0, p, tainted, txs[0]);
      TurnStaysAhead(v, c, lim, stuck, s0, p, tainted, n, txs[0]);
      TangledIsRejected(v, c, lim, stuck, maxGas, s0, t.p, Tainted(v, c, p, txs[0], tainted), n + 1, txs[1..]);
    }
  }

  /**
    * Exact coherence. From any committed state, with any mempool order of fewer than 2^64 transactions and any MaxGas,
    * the finished proposal is accepted if and only if no selected transaction follows a refused one of a signer of its
    * own, and the other checks pass when replayed over the selected transactions alone; gas never causes a rejection.
    */
  lemma {:induction false} CoherenceExact<R(!new)>(
      v: Verifier<AnteState<R>>, c: Checks<R>, lim: Limits, stuck: set<Tx>, maxGas: Int64, s0: AnteState<R>,
      txs: seq<Tx>)
    requires SequenceChecked(v, c) && SameCap(lim, maxGas) && |txs| < TWO64
    ensures var start := Picker(s0, NOTHING, map[], []);
            var r := PickAll(v, lim, stuck, start, txs);
            r.Done? ==>
              (JudgeAll(v, maxGas, s0, 0, r.p.sel.txs).Passing? <==>
                 RestAfter(c, s0.rest, r.p.chosen).Some? && !Tangled(v, c, lim, stuck, start, {}, txs))
  {
    var start := Picker(s0, NOTHING, map[], []);
    if Tangled(v, c, lim, stuck, start, {}, txs) {
      TangledIsRejected(v, c, lim, stuck, maxGas, s0, start, {}, 0, txs);
    } else {
      UntangledIsMirrored(v, c, lim, stuck, maxGas, s0, start, {}, txs);
    }
  }

  // ---- Conditions that can be established beforehand ----

  /**
    * `below(p, q)`: a check that passes at `p` passes at `q`. Running a check only depletes,
    * and depletion is inherited. Fee balances are the standard example.
    */
  ghost predicate Depleting<R(!new)>(c: Checks<R>, below: (R, R) -> bool) {
    forall p, q, tx :: below(p, q) && c.rest(p, tx).Some? ==>
      && below(c.rest(p, tx).value, q)
      && c.rest(q, tx).Some?
      && below(c.rest(p, tx).value, c.rest(q, tx).value)
      && (c.refuse(c.rest(q, tx).value, tx) ==> c.refuse(c.rest(p, tx).value, tx))
  }

  /** Checks without a post handler that refuses. */
  function Unrefused<R>(rest: (R, Tx) -> Option<R>): Checks<R> {
    Checks(rest, (r: R, tx: Tx) => false)
  }

  ghost predicate Refusable<R(!new)>(c: Checks<R>, tx: Tx) {
    exists r :: c.refuse(r, tx)
  }

  /** No transaction that the post handler could refuse shares a signer with a later one. */
  ghost predicate Untangled<R(!new)>(c: Checks<R>, txs: seq<Tx>) {
    forall i, j :: 0 <= i < j < |txs| && Refusable(c, txs[i]) ==> Signers(txs[i]) !! Signers(txs[j])
  }

  lemma {:induction false} UntangledPool<R(!new)>(
      v: Verifier<AnteState<R>>, c: Checks<R>, lim: Limits, stuck: set<Tx>, p: Picker<AnteState<R>>,
      tainted: set<Address>, txs: seq<Tx>)
    requires Untangled(c, txs) && forall i :: 0 <= i < |txs| ==> Signers(txs[i]) !! tainted
    ensures !Tangled(v, c, lim, stuck, p, tainted, txs)
    decreases |txs|
  {
    if txs != [] {
      var t := Turned(v, lim, stuck, p, txs[0]);
      if t.Next? {
        var rest, more := txs[1..], Tainted(v, c, p, txs[0], tainted);
        assert forall i :: 0 <= i < |rest| ==> rest[i] == txs[i + 1];
        forall i | 0 <= i < |rest|
          ensures Signers(rest[i]) !! more
        {
          if RefusedTurn(v, c, p, txs[0]) {
            assert Refusable(c, txs[0]);
          }
        }
        UntangledPool(v, c, lim, stuck, t.p, more, rest);
      }
    }
  }

  /** The proposer's branch, depleted by verified but unselected transactions, stays below the replay. */
  ghost predicate StaysBelow<R>(c: Checks<R>, below: (R, R) -> bool, r0: R, p: Picker<AnteState<R>>) {
    var after := RestAfter(c, r0, p.chosen);
    after.Some? && below(p.branch.rest, after.value)
  }

  lemma {:induction false} TurnStaysBelow<R(!new)>(
      v: Verifier<AnteState<R>>, c: Checks<R>, below: (R, R) -> bool, lim: Limits, stuck: set<Tx>, r0: R,
      p: Picker<AnteState<R>>, tx: Tx)
    requires SequenceChecked(v, c) && Depleting(c, below)
    requires StaysBelow(c, below, r0, p)
    ensures var t := Turned(v, lim, stuck, p, tx);
            !t.Panic? ==> StaysBelow(c, below, r0, t.p)
  {
    var t := Turned(v, lim, stuck, p, tx);
    if !t.Panic? {
      TurnCases(v, c, lim, stuck, p, tx);
      if t.p.chosen != p.chosen {
        assert t.p.chosen[..|t.p.chosen| - 1] == p.chosen;
      }
    }
  }

  lemma {:induction false} ReplaySucceeds<R(!new)>(
      v: Verifier<AnteState<R>>, c: Checks<R>, below: (R, R) -> bool, lim: Limits, stuck: set<Tx>, r0: R,
      p: Picker<AnteState<R>>, txs: seq<Tx>)
    requires SequenceChecked(v, c) && Depleting(c, below)
    requires StaysBelow(c, below, r0, p)
    ensures var r := PickAll(v, lim, stuck, p, txs);
            r.Done? ==> StaysBelow(c, below, r0, r.p)
    decreases |txs|
  {
    if txs != [] {
      TurnStaysBelow(v, c, below, lim, stuck, r0, p, txs[0]);
      var t := Turned(v, lim, stuck, p, txs[0]);
      if t.Next? {
        ReplaySucceeds(v, c, below, lim, stuck, r0, t.p, txs[1..]);
      }
    }
  }

  /** A mempool whose order is untangled, or none. */
  ghost predicate UntangledIn<R(!new)>(c: Checks<R>, pool: Pool) {
    pool.Pool? ==> Untangled(c, pool.order)
  }

  /**
    * Coherence for the two handlers: whatever PrepareProposal returns from a committed state, ProcessProposal
    * accepts from that state, for every untangled mempool order, size limit and gas limit.
    */
  lemma {:induction false} PrepareProcessCoherence<R(!new)>(
      v: Verifier<AnteState<R>>, c: Checks<R>, below: (R, R) -> bool, maxTxBytes: Int64, maxGas: Option<Int64>,
      pool: Pool, s0: AnteState<R>, reqTxs: seq<Bytes>)
    requires SequenceChecked(v, c) && Depleting(c, below) && below(s0.rest, s0.rest) && UntangledIn(c, pool)
    ensures var proposal := Prepared(v, PrepareLimits(maxTxBytes, maxGas), pool, s0, reqTxs);
            proposal.Some? ==> Accepts(v, maxGas, pool, s0, proposal.value)
  {
    if pool.Pool? {
      var lim := PrepareLimits(maxTxBytes, maxGas);
      var start := Picker(s0, NOTHING, map[], []);
      var cap: Int64 := if maxGas.Some? then maxGas.value else 0;
      UntangledPool(v, c, lim, pool.stuck, start, {}, pool.order);
      UntangledIsMirrored(v, c, lim, pool.stuck, cap, s0, start, {}, pool.order);
      ReplaySucceeds(v, c, below, lim, pool.stuck, s0.rest, start, pool.order);
    }
  }

  // ---- Panics ----

  /** Every transaction has readable signatures and none resists removal. */
  predicate Readable(pool: Pool) {
    pool.Pool? ==> forall i :: 0 <= i < |pool.order| ==> pool.order[i].sigs.Some? && pool.order[i] !in pool.stuck
  }

  /** From a readable mempool the loop never panics, whatever the verifier, limits and branch. */
  lemma {:induction false} ReadableFinishes<S>(v: Verifier<S>, lim: Limits, stuck: set<Tx>, p: Picker<S>, txs: seq<Tx>)
    requires Readable(Pool(txs, stuck))
    ensures PickAll(v, lim, stuck, p, txs).Done?
    decreases |txs|
  {
    if txs != [] {
      assert txs[0].sigs.Some? && txs[0] !in stuck;
      var t := Turned(v, lim, stuck, p, txs[0]);
      if t.Next? {
        assert forall i :: 0 <= i < |txs[1..]| ==> txs[1..][i] == txs[i + 1];
        ReadableFinishes(v, lim, stuck, t.p, txs[1..]);
      }
    }
  }

  lemma {:induction false} ScanOfNone(sigs: seq<Sig>)
    ensures Scan(map[], sigs, map[]).Some?
  {
    ProposalProps.ScanMeaning(map[], sigs, map[]);
  }

  /** From any other it panics with a verifier that encodes nothing, so the condition cannot be weakened. */
  lemma {:induction false} UnreadablePanics<S>(v: Verifier<S>, lim: Limits, stuck: set<Tx>, p: Picker<S>, txs: seq<Tx>)
    requires !Readable(Pool(txs, stuck)) && p.last == map[] && forall tx :: v.encode(tx).None?
    ensures PickAll(v, lim, stuck, p, txs).Panicked?
    decreases |txs|
  {
    if txs[0].sigs.Some? && txs[0] !in stuck {
      ScanOfNone(txs[0].sigs.value);
      assert v.encode(txs[0]).None?;
      assert Turned(v, lim, stuck, p, txs[0]) == Next(p);
      var i :| 0 <= i < |txs| && !(txs[i].sigs.Some? && txs[i] !in stuck);
      assert txs[1..][i - 1] == txs[i];
      UnreadablePanics(v, lim, stuck, p, txs[1..]);
    } else if txs[0].sigs.Some? {
      ScanOfNone(txs[0].sigs.value);
      assert v.encode(txs[0]).None?;
    }
  }

  /** What the engine is answered: a recovered panic returns the requested transactions. */
  function Answered<S>(v: Verifier<S>, lim: Limits, pool: Pool, branch: S, reqTxs: seq<Bytes>): seq<Bytes> {
    var proposal := Prepared(v, lim, pool, branch, reqTxs);
    if proposal.Some? then proposal.value else reqTxs
  }

  /**
    * What is answered from a readable mempool is accepted. In general it is if and only if the handler did not panic
    * or the requested transactions verify themselves.
    */
  lemma {:induction false} AnswerCoherence<R(!new)>(
      v: Verifier<AnteState<R>>, c: Checks<R>, below: (R, R) -> bool, maxTxBytes: Int64, maxGas: Option<Int64>,
      pool: Pool, s0: AnteState<R>, reqTxs: seq<Bytes>)
    requires SequenceChecked(v, c) && Depleting(c, below) && below(s0.rest, s0.rest) && UntangledIn(c, pool)
    ensures var lim := PrepareLimits(maxTxBytes, maxGas);
            var accepted := Accepts(v, maxGas, pool, s0, Answered(v, lim, pool, s0, reqTxs));
            && (Readable(pool) ==> accepted)
            && (accepted <==> Prepared(v, lim, pool, s0, reqTxs).Some? || Accepts(v, maxGas, pool, s0, reqTxs))
  {
    PrepareProcessCoherence(v, c, below, maxTxBytes, maxGas, pool, s0, reqTxs);
    if pool.Pool? && Readable(pool) {
      ReadableFinishes(v, PrepareLimits(maxTxBytes, maxGas), pool.stuck, Picker(s0, NOTHING, map[], []), pool.order);
    }
  }

  /** After a panic the node rejects its own answer when the request holds bytes that do not decode. */
  lemma {:induction false} PanicAnswerIsRejected<S>(
      v: Verifier<S>, maxTxBytes: Int64, maxGas: Option<Int64>, pool: Pool, s0: S, bz: Bytes)
    requires v.decode(bz).None? && !Readable(pool)
    requires pool.order[0].sigs.None? || forall tx :: v.encode(tx).None?
    ensures var lim := PrepareLimits(maxTxBytes, maxGas);
            Answered(v, lim, pool, s0, [bz]) == [bz] && !Accepts(v, maxGas, pool, s0, [bz])
  {
    var cap: Int64 := if maxGas.Some? then maxGas.value else 0;
    if pool.order[0].sigs.Some? {
      UnreadablePanics(v, PrepareLimits(maxTxBytes, maxGas), pool.stuck, Picker(s0, NOTHING, map[], []), pool.order);
    }
    assert Judge(v, cap, s0, 0, bz) == Rejected;
  }

  // ---- A refused transaction breaks coherence ----

  /**
    * For every verifier: a transaction that fails but moves the branch to where a second one passes, which does not
    * pass without it, makes a mempool of the two incoherent.
    */
  lemma {:induction false} RefusalBreaks<S>(
      v: Verifier<S>, lim: Limits, maxGas: Option<Int64>, t: Tx, u: Tx, s0: S, s1: S, x: Bytes, y: Bytes)
    requires t.sigs.Some? && u.sigs.Some? && v.encode(t) == Some(x) && v.encode(u) == Some(y)
    requires v.run(s0, x) == (s1, false) && v.run(s1, y).1 && !v.run(s0, y).1
    requires Fits(NOTHING, lim, GasLimit(u), y)
    ensures Prepared(v, lim, Pool([t, u], {}), s0, []) == Some([y])
    ensures !Accepts(v, maxGas, Pool([t, u], {}), s0, [y])
  {
    var start, order := Picker(s0, NOTHING, map[], []), [t, u];
    ScanOfNone(t.sigs.value);
    ScanOfNone(u.sigs.value);
    var one := Turned(v, lim, {}, start, t);
    assert one == Next(Picker(s1, NOTHING, map[], []));
    var two := Turned(v, lim, {}, one.p, u);
    assert !two.Panic? && two.p.sel.txs == [y];
    assert order[1..] == [u] && [u][1..] == [];
    if two.Next? {
      assert PickAll(v, lim, {}, two.p, []) == Done(two.p);
    }
    assert PickAll(v, lim, {}, one.p, [u]) == Done(two.p);
    var cap: Int64 := if maxGas.Some? then maxGas.value else 0;
    assert Judge(v, cap, s0, 0, y) == Rejected;
  }

  // ---- Fee deduction depletes ----

  /** An amount of every denomination. */
  type Purse = string -> nat

  type Balances = map<Address, Purse>

  ghost predicate Affords(purse: Purse, fee: Purse) {
    forall d :: fee(d) <= purse(d)
  }

  function Without(purse: Purse, fee: Purse): Purse {
    d => if fee(d) <= purse(d) then purse(d) - fee(d) else 0
  }

  function With(purse: Purse, fee: Purse): Purse {
    d => purse(d) + fee(d)
  }

  /** Deducting a fee, of any denominations, from the payer and crediting the fee collector. */
  ghost function DeductFee(collector: Address, payer: Tx -> Address, fee: Tx -> Purse, balances: Balances, tx: Tx)
    : Option<Balances>
  {
    var a := payer(tx);
    if a == collector || a !in balances || !Affords(balances[a], fee(tx)) || collector !in balances then None
    else Some(balances[a := Without(balances[a], fee(tx))][collector := With(balances[collector], fee(tx))])
  }

  /** No account but the collector has more of anything at `p` than at `q`. */
  ghost predicate NoRicher(collector: Address, p: Balances, q: Balances) {
    p.Keys == q.Keys && forall a :: a in p && a != collector ==> Affords(q[a], p[a])
  }

  lemma {:induction false} FeeDepletes(
      collector: Address, payer: Tx -> Address, fee: Tx -> Purse, p: Balances, q: Balances, tx: Tx)
    requires NoRicher(collector, p, q) && DeductFee(collector, payer, fee, p, tx).Some?
    ensures var p' := DeductFee(collector, payer, fee, p, tx).value;
            var q' := DeductFee(collector, payer, fee, q, tx);
            NoRicher(collector, p', q) && q'.Some? && NoRicher(collector, p', q'.value)
  {
    var a, f := payer(tx), fee(tx);
    PursesDeplete(p[a], q[a], f);
  }

  lemma {:induction false} PursesDeplete(p: Purse, q: Purse, f: Purse)
    requires Affords(q, p) && Affords(p, f)
    ensures Affords(q, f) && Affords(q, Without(p, f)) && Affords(Without(q, f), Without(p, f))
  {
    forall d
      ensures f(d) <= q(d) && Without(p, f)(d) <= q(d) && Without(p, f)(d) <= Without(q, f)(d)
    {
      assert f(d) <= p(d) <= q(d);
    }
  }

  /** Fee deduction only depletes: what is affordable to a poorer state is affordable to a richer one. */
  lemma {:induction false} FeesDeplete(collector: Address, payer: Tx -> Address, fee: Tx -> Purse)
    ensures Depleting(Unrefused((b: Balances, tx: Tx) => DeductFee(collector, payer, fee, b, tx)),
                      (p: Balances, q: Balances) => NoRicher(collector, p, q))
  {
    forall p, q, tx | NoRicher(collector, p, q) && DeductFee(collector, payer, fee, p, tx).Some?
      ensures NoRicher(collector, DeductFee(collector, payer, fee, p, tx).value, q)
      ensures DeductFee(collector, payer, fee, q, tx).Some?
      ensures NoRicher(collector, DeductFee(collector, payer, fee, p, tx).value,
                       DeductFee(collector, payer, fee, q, tx).value)
    {
      FeeDepletes(collector, payer, fee, p, q, tx);
    }
  }

  // ---- Without depletion coherence can fail ----

  /** An ante handler where the first transaction enables the second. */
  function Unlocking(open: bool, tx: Tx): Option<bool> {
    if tx.memo == [1] then Some(true) else if open then Some(true) else None
  }

  function Opener(): Tx {
    Tx(Some([]), Some(50), [], [1])
  }

  function Follower(): Tx {
    Tx(Some([]), Some(1), [], [])
  }

  function UnlockingVerifier(): Verifier<AnteState<bool>> {
    Verifier((tx: Tx) => if tx == Opener() || tx == Follower() then Some(tx.memo) else None,
             bz => Some(if bz == [1] then Opener() else Follower()),
             (s: AnteState<bool>, bz) => AnteRun(Unrefused(Unlocking), s, if bz == [1] then Opener() else Follower()))
  }

  /**
    * The opener is verified but over the gas cap, so only the follower is proposed, and it does not
    * verify without the opener: the proposal is rejected.
    */
  lemma {:induction false} UnlockingIsIncoherent()
    ensures var v := UnlockingVerifier();
            var pool := Pool([Opener(), Follower()], {});
            var s0 := AnteState(map[], false);
            && SequenceChecked(v, Unrefused(Unlocking))
            && Prepared(v, PrepareLimits(100, Some(10)), pool, s0, []) == Some([[]])
            && !Accepts(v, Some(10), pool, s0, [[]])
  {
    var v := UnlockingVerifier();
    var s0 := AnteState(map[], false);
    var lim := PrepareLimits(100, Some(10));
    var start := Picker(s0, NOTHING, map[], []);
    var order := [Opener(), Follower()];
    assert Scan(map[], [], map[]) == Some(map[]);
    assert Record(map[], map[], true) == map[] && Record(map[], map[], false) == map[];
    assert Bump(s0.seqs, []) == s0.seqs;
    assert AnteRun(Unrefused(Unlocking), s0, Opener()) == (AnteState(map[], true), true);
    assert AnteRun(Unrefused(Unlocking), s0, Follower()) == (s0, false);
    var one := Turned(v, lim, {}, start, Opener());
    assert one == Next(Picker(AnteState(map[], true), NOTHING, map[], []));
    var two := Turned(v, lim, {}, one.p, Follower());
    assert two == Next(Picker(AnteState(map[], true), Selection(0, 1, [[]]), map[], [Follower()]));
    assert order[1..] == [Follower()] && [Follower()][1..] == [];
    assert PickAll(v, lim, {}, two.p, []) == Done(two.p);
    assert PickAll(v, lim, {}, one.p, [Follower()]) == Done(two.p);
    assert Judge(v, 10, s0, 0, []) == Rejected;
  }
}
