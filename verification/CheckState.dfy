/** What transactions are checked against: the committed store, and the checks that passed since. */
module CheckState {
  import opened Words
  import opened Overlay
  import opened Gas
  import opened RunTx
  import opened RunTxProps
  import opened Abci
  import AbciProps
  import Interference

  predicate Resets(c: Call) {
    c.Commit? || c.InitChain?
  }

  ghost predicate NoReset(calls: seq<Call>) {
    forall i :: 0 <= i < |calls| ==> !Resets(calls[i])
  }

  /** The writes of the ante handler when this call is a check that passes it, and nothing otherwise. */
  function CheckedWrites<M>(ch: Chain<M>, s: State<M>, c: Call): Writes {
    if c.CheckTx? && s.check.Some? then
      var mode := if c.recheck then ReCheck else Check;
      if AntePasses(ch.app, mode, s.check.value, s.cms, c.tx)
      then AnteWrites(ch.app, mode, s.check.value, s.cms, c.tx) else CLEAN
    else CLEAN
  }

  /** The writes of all the passing checks of a run, in order. */
  function AllChecked<M>(ch: Chain<M>, s: State<M>, calls: seq<Call>): Writes
    decreases |calls|
  {
    if calls == [] then CLEAN
    else
      var init := calls[..|calls| - 1];
      AllChecked(ch, s, init) + CheckedWrites(ch, Run(ch, s, init), calls[|calls| - 1])
  }

  lemma {:induction false} StepChecks<M>(ch: Chain<M>, s: State<M>, c: Call)
    requires s.check.Some? && !Resets(c)
    ensures var s' := Step(ch, s, c);
            && s'.cms == s.cms && s'.commits == s.commits && s'.check.Some?
            && s'.check.value.header == s.check.value.header && s'.check.value.blockGas == s.check.value.blockGas
            && (s'.alive ==> s'.check.value.writes == s.check.value.writes + CheckedWrites(ch, s, c))
            && (s'.alive ==> s.alive)
  {
    var br := s.check.value;
    WritesMonoid(br.writes, CLEAN, CLEAN);
    if c.CheckTx? {
      OnlyDeliveryWritesMessages(ch.app, if c.recheck then ReCheck else Check, br, s.cms, s.pool, c.tx);
    } else if c.Simulation? {
      OnlyDeliveryWritesMessages(ch.app, Simulate, br, s.cms, s.pool, c.tx);
    }
  }

  lemma {:induction false} RunSnoc<M>(ch: Chain<M>, s: State<M>, calls: seq<Call>)
    requires calls != []
    ensures Run(ch, s, calls) == Step(ch, Run(ch, s, calls[..|calls| - 1]), calls[|calls| - 1])
  {
    var init, c := calls[..|calls| - 1], calls[|calls| - 1];
    assert calls == init + [c];
    AbciProps.RunConcat(ch, s, init, [c]);
    var t := Run(ch, s, init);
    assert [c][1..] == [];
    assert Run(ch, t, [c]) == Run(ch, Step(ch, t, c), []);
  }

  /** Until the next commit the check state gathers the ante writes of the checks that pass, and nothing else. */
  lemma {:induction false} RunChecks<M>(ch: Chain<M>, s: State<M>, calls: seq<Call>)
    requires s.check.Some? && NoReset(calls)
    ensures var t := Run(ch, s, calls);
            && t.cms == s.cms && t.commits == s.commits && t.check.Some?
            && t.check.value.header == s.check.value.header && t.check.value.blockGas == s.check.value.blockGas
            && (t.alive ==> t.check.value.writes == s.check.value.writes + AllChecked(ch, s, calls))
    decreases |calls|
  {
    if calls == [] {
      WritesMonoid(s.check.value.writes, CLEAN, CLEAN);
    } else {
      var init, c := calls[..|calls| - 1], calls[|calls| - 1];
      RunSnoc(ch, s, calls);
      RunChecks(ch, s, init);
      var t := Run(ch, s, init);
      StepChecks(ch, t, c);
      WritesMonoid(s.check.value.writes, AllChecked(ch, s, init), CheckedWrites(ch, t, c));
    }
  }

  /** A check state that shows the committed store. */
  predicate Anew<M>(s: State<M>, h: Header) {
    s.check == Some(Branch(map[], h, Infinite(0), 0))
  }

  /** A surviving commit, and every InitChain, starts the check state anew. */
  lemma {:induction false} ResetIsAnew<M>(ch: Chain<M>, s: State<M>, c: Call)
    requires Resets(c) && Step(ch, s, c).alive
    ensures var s' := Step(ch, s, c);
            && s'.check.Some? && Apply(s'.cms, s'.check.value.writes) == s'.cms
            && (c.Commit? ==>
                  && s.deliver.Some? && Anew(s', s.deliver.value.header)
                  && s'.commits == s.commits + [Committed(s'.version, s.deliver.value.header, s'.cms)])
            && (c.InitChain? ==>
                  Anew(s', Header(if c.initialHeight > 1 then c.initialHeight else 0, "")) && s'.cms == s.cms)
  {
    ApplyClean(Step(ch, s, c).cms);
  }

  /**
    * Over whole runs: transactions are checked against the store of the last commit under that commit's header,
    * with the ante writes of the checks that passed since then, in order, and of no other call.
    */
  lemma {:induction false} ChecksSinceCommit<M>(ch: Chain<M>, s: State<M>, calls: seq<Call>, k: nat)
    requires k < |calls| && calls[k].Commit? && NoReset(calls[k + 1..])
    requires Run(ch, s, calls).alive
    ensures var t := Run(ch, s, calls);
            && t.check.Some? && t.commits != []
            && t.commits[|t.commits| - 1].store == t.cms
            && t.check.value.header == t.commits[|t.commits| - 1].header
            && t.check.value.writes == AllChecked(ch, Run(ch, s, calls[..k + 1]), calls[k + 1..])
  {
    Resumed(ch, s, calls, k);
    var before := Run(ch, s, calls[..k]);
    ResetIsAnew(ch, before, calls[k]);
    RunChecks(ch, Run(ch, s, calls[..k + 1]), calls[k + 1..]);
    WritesMonoid(AllChecked(ch, Run(ch, s, calls[..k + 1]), calls[k + 1..]), CLEAN, CLEAN);
  }

  /** The same from genesis: before the first commit transactions are checked against the empty branch of InitChain. */
  lemma {:induction false} ChecksSinceInit<M>(ch: Chain<M>, s: State<M>, calls: seq<Call>, k: nat)
    requires k < |calls| && calls[k].InitChain? && NoReset(calls[k + 1..])
    requires Run(ch, s, calls).alive
    ensures var t, h := Run(ch, s, calls), calls[k].initialHeight;
            && t.check.Some? && t.cms == Run(ch, s, calls[..k]).cms
            && t.check.value.header == Header(if h > 1 then h else 0, "")
            && t.check.value.writes == AllChecked(ch, Run(ch, s, calls[..k + 1]), calls[k + 1..])
  {
    Resumed(ch, s, calls, k);
    var before := Run(ch, s, calls[..k]);
    ResetIsAnew(ch, before, calls[k]);
    RunChecks(ch, Run(ch, s, calls[..k + 1]), calls[k + 1..]);
    WritesMonoid(AllChecked(ch, Run(ch, s, calls[..k + 1]), calls[k + 1..]), CLEAN, CLEAN);
  }

  /** A run seen from its call number `k` on. */
  lemma {:induction false} Resumed<M>(ch: Chain<M>, s: State<M>, calls: seq<Call>, k: nat)
    requires k < |calls|
    ensures var t := Run(ch, s, calls[..k + 1]);
            && t == Step(ch, Run(ch, s, calls[..k]), calls[k])
            && Run(ch, s, calls) == Run(ch, t, calls[k + 1..])
            && (Run(ch, s, calls).alive ==> t.alive)
  {
    var first := calls[..k + 1];
    assert first[..|first| - 1] == calls[..k];
    RunSnoc(ch, s, first);
    assert calls == first + calls[k + 1..];
    AbciProps.RunConcat(ch, s, first, calls[k + 1..]);
    if !Run(ch, s, first).alive {
      Interference.DeadStaysDead(ch, Run(ch, s, first), calls[k + 1..]);
    }
  }
}
