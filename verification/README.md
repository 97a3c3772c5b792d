# Verified model of the Zytherion chain core

A Dafny model of the hard parts of a Cosmos-SDK application and of the chain's own block anchor, with proofs about every
input, every run or every reachable state:

- **Block proposals and transaction execution.** `TxSelection`, `Proposal`, `ProposalProps` and `Coherence` hold the
  default proposal handlers and prove the selection bounds and prepare/process coherence (Requirements 2 and 3 of
  CometBFT's ABCI++ "Formal Requirements"). `Greedy` says exactly which transactions are selected, from the history of the
  loop alone, and `Verdicts` exactly which proposals are accepted, honest or not. `Overlay`, `Gas`, `RunTx` and `RunTxProps`
  hold `runTx` over nested store branches, its atomicity and block-gas accounting, and `Stages` ties all of it to a
  transaction on a plain store. `Abci`, `BaseAppObject` and `AbciProps` hold the ABCI life cycle as a state machine with four
  volatile branches, and prove consecutive heights and refinement of a plain ledger; `CheckState` says over whole runs what
  transactions are checked against. `Interference` and
  `Readings` say exactly when calls outside consensus can be told from the run without them, and `Interfering` holds the two
  runs in which they can. `RunTxCoherence` and `ChainCoherence` join proposals and execution: coherence through `runTx`
  itself, and from one node's answer to another node's verdict.
- **State-sync snapshots.** `Chunks` (splitter and joiner), `SnapshotKeys` and `SnapshotStore` (key order, saving, pruning) and
  `RestoreManager` (the restore state machine).
- **Protobuf wire codec.** `Wire` and `WireCode` (varints, skipping, the decoding loop), `WireGrammar` (the decoder accepts
  exactly a grammar on positions of the input), and `AbciCodec`, `AbciNoise` and
  `AbciMarshal` (message logs, logs with unknown fields at every level, back-to-front marshalling). The format is that of
  the "Base 128 Varints" and "Message Structure" sections of the Protocol Buffers encoding documentation.
- **Coin sets.** `CoinSets` and `CoinAlgebra` (what a coin set denotes and the laws), `CoinOps` and `DecCoins` (the
  operations as the program performs them).
- **The PoVL sentinel** in `PoVL` and **store-key safety** in `StoreKeys`.

`Words`, `Lex`, `Sorting` and `Transactions` are shared vocabulary. `dafny verify dfyconfig.toml` checks the whole project.

## How to read it

Code that updates things step by step is imperative here too: classes with the program's fields, loops with invariants, buffers as
arrays. Each such method is proved against a function of its inputs, and the lemmas are about that function. Panics and
error returns are values (`Option`, `Result`, outcome datatypes), never preconditions. Unsigned 64-bit arithmetic wraps
explicitly. Handlers, hash functions, the mempool order and the multistore restore are parameters; a `map` iteration or
a library sort promises only what Go promises.
Lemmas with a proof switch automatic induction off: every induction is written out.

Where the code and its documentation disagree the model follows the code, and the difference is a theorem:

- `Coins.Add` promises a valid result unconditionally. `PlusCanBeInvalid` is an input that breaks this and
  `PlusValidExactly` the exact condition.
- The selector promises to respect the gas limit. With per-transaction gas of 2^63 and more the sum wraps:
  `WrappedGasExceedsCap`, with the exact condition in `ProposalWithinGas`.
- Coherence is said to need only identical validation on both sides. `UnlockingIsIncoherent` shows that a check enabled by an
  unselected transaction breaks it. `CoherenceExact` gives the exact condition, evaluated along the loop;
  `Depleting` and `Untangled` are the conditions on checks and mempool that can be established beforehand.
- A post handler that refuses a transaction breaks coherence too, because its ante writes stay: `RefusalBreaks`, with the
  example `RefusingIsIncoherent`. It does so if and only if something selected follows a refused transaction of one of its
  signers: `CoherenceExact` and, through `runTx`, `RunTxCoherenceExact`.
- After a recovered panic the engine is answered with its own request, which a node may reject: `PanicAnswerIsRejected`. The
  handler cannot panic on a `Readable` mempool, and on any other it can: `ReadableFinishes`, `UnreadablePanics`.
- Calls outside consensus are meant to be harmless. At the initial height a proposal shares the deliver state's gas meter, and
  its parameter reads move what undecodable bytes are charged later: `ProposalInterferes`. A mempool's removal error that
  depends on its contents does the same for CheckTx: `TouchyMempoolInterferes`. `NonInterferenceExact` is the exact condition on
  runs, `AwayIsQuiet` and `CommitsIgnoreProposals` are conditions that can be established beforehand.
- Pruning is meant to succeed when nothing is being saved. A snapshot without chunks has no directory, and pruning it fails
  after its record is gone: `EmptySnapshotIsNotPruned`, with the exact condition in `Prune`.
- Iteration over snapshots excludes its upper bound, so the snapshot of maximal height and format is never listed or pruned:
  `VisibleUnlessLast`.
- `Restore` compares the chunk count with a truncated number of hashes: `HashCountIsTruncated`, with the exact condition in
  `AcceptedCountExactly`.
- A chunk reader drops bytes that arrive together with an end of file: the condition in `ReadAll`.
- An infinite gas meter that overflows restarts at zero: `InfiniteMeterResets` and the exact condition in `BlockGasIsSumOfCharges`.
- The sentinel commits to the concatenation of the other transactions, not to where one ends: `EndorsementSeesConcatenation`.
- The sentinel's version, its step count and whatever follows its proof may be anything, as long as the chain root is the one
  for that many steps: `SentinelIsEndorsed`. `LWRProcessProposal` states acceptance exactly.

## Model

| member | source | states |
|---|---|---|
| `Transactions.SeqOfFinds` | cosmos-sdk/x/auth/ante/sigverify.go:330-347 | looking up a signer among a transaction's signatures succeeds exactly for the addresses that signed |
| `TxSelection.TxSelector.Clear` | cosmos-sdk/baseapp/abci_utils.go:274-278 | the selector forgets its counters and transactions |
| `TxSelection.TxSelector.SelectTxForProposal` | cosmos-sdk/baseapp/abci_utils.go:280-308 | the selector's counters and list after one offer, with uint64 wrap-around, and whether the caller must stop |
| `TxSelection.SelectKeepsBytes` | cosmos-sdk/baseapp/abci_utils.go:290-307 | with a non-negative byte budget the byte counter never wraps: it stays the true total and within the budget |
| `Proposal.ScanSignatures` | cosmos-sdk/baseapp/abci_utils.go:108-128 | the per-transaction signature loop accepts exactly when every signer already seen continues its sequence, and collects the last sequence per signer |
| `Proposal.RecordSequences` | cosmos-sdk/baseapp/abci_utils.go:150-165 | walking the map of signers in any order gives one result: the selected sequence, or seq-1 modulo 2^64 for a first-seen signer of an unselected transaction |
| `Proposal.DefaultProposalHandler.PrepareProposal` | cosmos-sdk/baseapp/abci_utils.go:70-173 | the whole handler, with and without a mempool: the proposal or the panic, the verification branch left behind, what the mempool was asked to remove, and a cleared selector |
| `Proposal.DefaultProposalHandler.PickFromPool` | cosmos-sdk/baseapp/abci_utils.go:98-171 | the mempool loop: its selection, the branch it leaves and its removals, panics included |
| `Proposal.LeftBranch` | cosmos-sdk/baseapp/abci_utils.go:134-168 | without a panic the branch left behind is that of the finished loop |
| `Proposal.DefaultProposalHandler.ProcessProposal` | cosmos-sdk/baseapp/abci_utils.go:186-222 | accepts exactly when every transaction verifies in turn and the wrapped running gas never exceeds a positive MaxGas; always accepts without a mempool |
| `ProposalProps.ScanMeaning` | cosmos-sdk/baseapp/abci_utils.go:110-128 | a transaction passes the sequence filter exactly when each signature of an already selected signer carries the recorded sequence plus one modulo 2^64 |
| `ProposalProps.ChosenChained` | cosmos-sdk/baseapp/abci_utils.go:112-164 | selecting one more transaction that passed the filter keeps every signer's sequences chained |
| `ProposalProps.TurnKeepsSound` | cosmos-sdk/baseapp/abci_utils.go:101-168 | one turn of the mempool loop, whatever its branch, keeps the proposal an encoded, chained list with a record that matches it |
| `ProposalProps.ProposalIsChained` | cosmos-sdk/baseapp/abci_utils.go:98-169 | for any verifier and mempool order the proposal is a subsequence of the mempool, encoded, and each signer's sequences in it grow by exactly one modulo 2^64 |
| `ProposalProps.ProposalWithinBytes` | cosmos-sdk/baseapp/abci_utils.go:280-308 | for any verifier the proposed transactions total at most MaxTxBytes |
| `ProposalProps.ForwardedWithinBytes` | cosmos-sdk/baseapp/abci_utils.go:84-96 | the same budget when the requested transactions are forwarded without a mempool |
| `ProposalProps.PreparedWithinBytes` | cosmos-sdk/baseapp/abci_utils.go:70-173 | whatever PrepareProposal returns, with or without a mempool, totals at most a non-negative MaxTxBytes |
| `ProposalProps.GasCounter` | cosmos-sdk/baseapp/abci_utils.go:294-299 | the selector's gas counter never exceeds the cap, and is the exact total as long as each selected transaction fits the cap |
| `ProposalProps.ProposalWithinGas` | cosmos-sdk/baseapp/abci_utils.go:290-307 | the true gas of a proposal is within a positive MaxGas if and only if every proposed transaction is on its own, which holds whenever per-transaction gas is below 2^63 |
| `ProposalProps.SmallGas` | cosmos-sdk/baseapp/abci_utils.go:294-299 | without wrap-around the capacity test bounds every selected transaction by the cap |
| `ProposalProps.WrappedGasExceedsCap` | cosmos-sdk/baseapp/abci_utils.go:294-299 | a concrete mempool whose proposal exceeds MaxGas because the uint64 sum wraps |
| `Greedy.ScanFollows` | cosmos-sdk/baseapp/abci_utils.go:110-128 | the filter on recorded sequences passes exactly when each signature uses the sequence expected of its signer: one more than in its last selected transaction, or before any that of its first verified one |
| `Greedy.RecordRemembers` | cosmos-sdk/baseapp/abci_utils.go:150-165 | the record stays right when the transaction is selected and when it only verified |
| `Greedy.TurnIsOffer` | cosmos-sdk/baseapp/abci_utils.go:101-168 | one turn with counters and record is one offer judged by the history of selected and verified transactions, and halts exactly when their totals reach a limit |
| `Greedy.LeftIsGone` | cosmos-sdk/baseapp/abci_utils.go:136-143 | the mempool is asked to remove exactly the transactions that did not encode or verify at their turn |
| `Greedy.LoopIsGreedy` | cosmos-sdk/baseapp/abci_utils.go:98-171 | the finished loop refines a selection defined on the history alone, without counters or record: same transactions, branch and removals |
| `Greedy.SelectedExactly` | cosmos-sdk/baseapp/abci_utils.go:98-169 | every mempool transaction is selected if and only if at its turn no limit has been reached, its signatures follow, it encodes and verifies, and its bytes and gas added to those selected stay within the limits, as uint64 totals |
| `Greedy.LeftOutForAReason` | cosmos-sdk/baseapp/abci_utils.go:280-308 | in true totals, for sizes below 2^63: nothing is left out for any other reason |
| `Greedy.WholeMempoolIsProposed` | cosmos-sdk/baseapp/abci_utils.go:98-171 | a mempool that verifies in turn with consecutive sequences and totals less than both limits is proposed whole |
| `Greedy.ForwardedIsFirstFit` | cosmos-sdk/baseapp/abci_utils.go:84-96 | without a mempool the answer is first come, first served: each transaction that fits beside those taken, until these reach the limit |
| `Greedy.WholeRequestIsForwarded` | cosmos-sdk/baseapp/abci_utils.go:84-96 | a request totalling less than MaxTxBytes is forwarded whole |
| `Verdicts.JudgedExactly` | cosmos-sdk/baseapp/abci_utils.go:194-221 | the validator's loop passes if and only if every transaction decodes and runs in turn and, under a positive cap, every running total of declared gas modulo 2^64 is within it |
| `Verdicts.AcceptedExactly` | cosmos-sdk/baseapp/abci_utils.go:186-222 | ProcessProposal accepts exactly this, for every verifier and every list of transactions, honest or not |
| `Verdicts.AcceptedWithinGas` | cosmos-sdk/baseapp/abci_utils.go:207-217 | with gas below 2^63 each, acceptance is running in turn and a true total within MaxGas; an accepted proposal of any gas is within MaxGas if and only if each of its transactions is |
| `Coherence.VerifiedMatchesReplay` | cosmos-sdk/x/auth/ante/sigverify.go:235-309 | if the filter passes and the signatures match the proposer's accounts, they also match the replayed accounts unless a signer was seen on a refused transaction; the two stay in step whether the transaction is selected, passed over or refused |
| `Coherence.SelectedIsJudged` | cosmos-sdk/baseapp/abci_utils.go:145-165 | a selected transaction extends the validator's replay when its sequences match the replayed accounts, and makes the whole proposal rejected when they do not |
| `Coherence.TurnIsMirrored` | cosmos-sdk/baseapp/abci_utils.go:101-168 | one turn of the proposer's loop keeps the replay of the proposal so far in step, also when a verified transaction is not selected or a refused one leaves its ante writes |
| `Coherence.UntangledIsMirrored` | cosmos-sdk/baseapp/abci_utils.go:98-169 | so does the whole loop, when nothing selected follows a refused transaction of one of its signers |
| `Coherence.HitIsRejected` | cosmos-sdk/baseapp/abci_utils.go:136-165 | selecting a transaction after a refused one of the same signer makes the proposal rejected: the proposer's account is ahead of the replayed one by a number that cannot wrap to zero |
| `Coherence.TangledIsRejected` | cosmos-sdk/baseapp/abci_utils.go:98-221 | once that happens anywhere in the loop, the finished proposal is rejected, whatever is selected afterwards |
| `Coherence.CoherenceExact` | cosmos-sdk/baseapp/abci_utils.go:98-221 | for every mempool order of fewer than 2^64 transactions, MaxGas, gas values and refusals, a finished proposal is accepted if and only if the other ante checks succeed when replayed on the selected transactions and none of these follows a refused transaction of one of its signers |
| `Coherence.UntangledPool` | cosmos-sdk/baseapp/abci_utils.go:98-169 | the second half holds beforehand when no transaction that could be refused shares a signer with a later one in the mempool |
| `Coherence.ReplaySucceeds` | cosmos-sdk/baseapp/abci_utils.go:98-221 | ante checks that only deplete succeed on the selected transactions alone |
| `Coherence.PrepareProcessCoherence` | cosmos-sdk/baseapp/abci_utils.go:70-222 | whatever PrepareProposal returns from a committed state ProcessProposal accepts from the same state, for sequence-checking verifiers whose other checks only deplete and a mempool as in the row above: conditions on checks and mempool alone; no bound on gas or length, no distinct-signer assumption |
| `Coherence.RefusalBreaks` | cosmos-sdk/baseapp/abci_utils.go:136-165 | for every verifier: a failing transaction whose writes make a later one pass, which fails without them, gives a proposal that its own verifier rejects, under any MaxGas |
| `Coherence.ReadableFinishes` | cosmos-sdk/baseapp/abci_utils.go:103-106 | the loop finishes on every mempool whose transactions have readable signatures and can be removed |
| `Coherence.UnreadablePanics` | cosmos-sdk/baseapp/abci_utils.go:103-143 | on every other mempool it panics when nothing can be encoded, so the condition is exact over all verifiers |
| `Coherence.AnswerCoherence` | cosmos-sdk/baseapp/abci.go:279-293 | what the engine is answered is accepted whenever the mempool is readable; in general if and only if the handler did not panic or the requested transactions themselves verify |
| `Coherence.PanicAnswerIsRejected` | cosmos-sdk/baseapp/abci.go:279-290 | over a mempool that is not readable, a node answers with the request after the recovered panic and rejects that answer when it holds bytes that do not decode |
| `Coherence.FeesDeplete` | cosmos-sdk/x/auth/ante/fee.go:70-136 | fee deduction in any denominations is such a depleting check |
| `Coherence.UnlockingIsIncoherent` | cosmos-sdk/baseapp/abci_utils.go:134-165 | without depletion coherence fails: a verified but unselected transaction enables a selected one, and the proposal is rejected |
| `RunTxCoherence.RunAbstracts` | cosmos-sdk/baseapp/baseapp.go:887-918 | in a proposal mode runTx over store branches is the abstract verifier, post handler refusals included: same verdict, and the abstract ante state moves alike |
| `RunTxCoherence.PostDecides` | cosmos-sdk/baseapp/baseapp.go:755-772 | once the ante handler has passed, a proposal mode succeeds if and only if the post handler passes, and keeps the ante writes either way |
| `RunTxCoherence.PickAllAbstracts` | cosmos-sdk/baseapp/abci_utils.go:98-169 | the proposer's loop over runTx and over the abstract verifier pick the same transactions |
| `RunTxCoherence.JudgeAllAbstracts` | cosmos-sdk/baseapp/abci_utils.go:194-221 | the validator's loop over runTx and over the abstract verifier give the same verdict |
| `RunTxCoherence.ProposalAbstracts` | cosmos-sdk/baseapp/abci_utils.go:98-221 | proposing and judging over runTx agree with proposing and judging over the abstract verifier, on different headers, gas readings and mempools |
| `RunTxCoherence.RunTxIsCoherent` | cosmos-sdk/baseapp/baseapp.go:629-788 | coherence through runTx itself: what one node prepares with runTx another accepts with runTx, over different headers, gas readings and mempools, when nothing the post handler could refuse shares a signer with a later transaction |
| `RunTxCoherence.RunTxCoherenceExact` | cosmos-sdk/baseapp/baseapp.go:629-788 | and without that condition: accepted if and only if the other ante checks replay and nothing selected follows a refused transaction of one of its signers |
| `RunTxCoherence.RefusedStillWrites` | cosmos-sdk/baseapp/baseapp.go:728-772 | in prepare mode a post handler's refusal leaves the incremented sequence on the branch |
| `RunTxCoherence.RefusalIsIncoherent` | cosmos-sdk/baseapp/baseapp.go:755-772 | for every application whose ante handler checks sequences: a post handler refusal that makes the signer's next transaction pass breaks coherence |
| `RunTxCoherence.RefusingIsIncoherent` | cosmos-sdk/baseapp/baseapp.go:755-772 | an application and two transactions where it does: the second is proposed alone and rejected |
| `ChainCoherence.AnswerIsAccepted` | cosmos-sdk/baseapp/abci.go:254-352 | at the level of the engine's calls: the answer of one node to PrepareProposal is accepted by ProcessProposal on any node that sees the same store, at the initial height too; the handler panics on no readable mempool, and where it does panic the answer is the request |
| `Overlay.ApplyCompose` | cosmos-sdk/store/cachekv/store.go:97-145 | flushing a branch into its parent and reading the parent equals reading through both branches |
| `Overlay.ApplyTwice` | cosmos-sdk/store/cachekv/store.go:97-145 | two nested branches flushed in order read as their writes applied one after the other |
| `RunTxProps.MessagesRefinePlain` | cosmos-sdk/baseapp/baseapp.go:795-853 | running messages on one branch is running them directly on the store: same outcome, same store, same gas, failures included |
| `RunTxProps.BodyRefinesPlain` | cosmos-sdk/baseapp/baseapp.go:747-785 | so is running messages and then the post handler, which sees the store the messages left, in every mode |
| `Stages.AttemptIsStaged` | cosmos-sdk/baseapp/baseapp.go:677-785 | everything up to the block charge over nested branches is the same sequence of stages on a plain store |
| `Stages.RunRefinesStages` | cosmos-sdk/baseapp/baseapp.go:629-788 | runTx in every mode against those stages: the store the branch shows, the mempool, the error, the gas reported, and the block meter grown by the gas used but not more than the transaction's limit |
| `Stages.ChargeIsGasUsed` | cosmos-sdk/store/types/gas.go:89-94 | a delivered transaction costs the block the gas its result reports, or its limit when it went past it; these agree if and only if it stayed within its limit |
| `Stages.ChargesAreGasUsed` | cosmos-sdk/baseapp/baseapp.go:655-663 | over a block the charges are the reported gas if and only if every transaction stayed within its limit |
| `Stages.BlockGasIsGasUsed` | cosmos-sdk/baseapp/baseapp.go:638-675 | and then the block meter is the sum of the gas the results report |
| `RunTxProps.DeliverIsAtomic` | cosmos-sdk/baseapp/baseapp.go:629-788 | on every exit path of a delivered transaction the state is unchanged, or has the ante writes, or has ante, message and post-handler writes; the error is nil exactly in the third case, which is characterised by all stages succeeding and the block gas fitting |
| `RunTxProps.OnlyDeliveryWritesMessages` | cosmos-sdk/baseapp/baseapp.go:629-788 | in every other mode no message or post-handler write survives; ante writes survive exactly when the ante handler passes outside simulation |
| `RunTxProps.BlockGasIsSumOfCharges` | cosmos-sdk/baseapp/baseapp.go:638-675 | every transaction past the out-of-gas check is charged exactly once on every exit path: over a block a limited meter is the saturated sum of charges, and an infinite one the exact sum if and only if it fits a uint64 |
| `RunTxProps.ExhaustedBlockIsFrozen` | cosmos-sdk/baseapp/baseapp.go:635-641 | once the block meter has reached its limit every later transaction is refused uncharged: writes, header, block meter and mempool stay, and only the context's gas reading moves, by the parameter read before the refusal |
| `RunTxProps.KeptGasWithinLimit` | cosmos-sdk/baseapp/baseapp.go:774-779 | the gas charged by transactions whose effects were kept never exceeds the block limit, although the meter may |
| `RunTxProps.ChargeOfKept` | cosmos-sdk/store/types/gas.go:107-124 | a limited block meter grows by exactly the charge, saturating, and a kept transaction fits under the limit |
| `RunTxProps.InfiniteMeterResets` | cosmos-sdk/store/types/gas.go:182-195 | an overflowing infinite meter restarts at zero |
| `BaseAppObject.BaseApp.PutState` | cosmos-sdk/baseapp/baseapp.go:422-446 | setState replaces the state of one mode and leaves each of the others as it was |
| `BaseAppObject.BaseApp.Flush` | cosmos-sdk/baseapp/baseapp.go:774-779 | a branch written into the store of the mode's context; a simulation's writes are thrown away |
| `BaseAppObject.BaseApp.ValidateBasicTxMsgs` | cosmos-sdk/baseapp/baseapp.go:538-551 | passes exactly on a non-empty list of messages that each validate |
| `BaseAppObject.BaseApp.RunMsgs` | cosmos-sdk/baseapp/baseapp.go:795-853 | the message loop computes the specified outcome: every message on the writes of those before it, only when delivering or simulating |
| `BaseAppObject.BaseApp.RunAnte` | cosmos-sdk/baseapp/baseapp.go:687-732 | the ante handler on its own branch: its writes reach the mode's state exactly when it passes |
| `BaseAppObject.BaseApp.UpdateMempool` | cosmos-sdk/baseapp/baseapp.go:734-745 | insertion when checking, removal when delivering, nothing otherwise, and when the transaction is refused |
| `BaseAppObject.BaseApp.RunBody` | cosmos-sdk/baseapp/baseapp.go:747-785 | messages and then the post handler on one branch |
| `BaseAppObject.BaseApp.Proceed` | cosmos-sdk/baseapp/baseapp.go:717-785 | everything after the ante handler has returned, in every mode |
| `BaseAppObject.BaseApp.Execute` | cosmos-sdk/baseapp/baseapp.go:677-785 | the body of runTx up to the block-gas charge equals the specified attempt, including what has already been flushed when a later stage fails |
| `BaseAppObject.BaseApp.RunTx` | cosmos-sdk/baseapp/baseapp.go:581-788 | the imperative runTx, the metered parameter read before it included, equals its specification on the mode's state and leaves the other modes alone |
| `BaseAppObject.BaseApp.InitChain` | cosmos-sdk/baseapp/abci.go:37-120 | the states after InitChain: the initial height is set, genesis writes are in the deliver state, the check state is a clean branch under the initial header, nothing is committed, or the process is dead |
| `BaseAppObject.BaseApp.ValidateHeight` | cosmos-sdk/baseapp/baseapp.go:508-535 | accepts exactly the expected height: the initial height before the first commit and the next height afterwards |
| `BaseAppObject.BaseApp.BeginBlock` | cosmos-sdk/baseapp/abci.go:154-214 | survives only at the expected height; the deliver state, that of genesis at the initial height, carries the header and a block meter; nothing is committed |
| `BaseAppObject.BaseApp.DeliverTx` | cosmos-sdk/baseapp/abci.go:394-426 | one of three outcomes on the deliver state, with no error exactly when everything was written; nothing is committed; without a deliver state the process dies |
| `BaseAppObject.BaseApp.EndBlock` | cosmos-sdk/baseapp/abci.go:217-239 | the end blocker on the deliver state, then a parameter read; nothing is committed |
| `BaseAppObject.BaseApp.Commit` | cosmos-sdk/baseapp/abci.go:435-494 | the committed store is what the deliver state showed, under the next version; the check state starts over from it under its header and the deliver state is gone |
| `BaseAppObject.BaseApp.CheckTx` | cosmos-sdk/baseapp/abci.go:360-387 | the consensus part of the state is unchanged, and no error means the ante handler passed |
| `BaseAppObject.BaseApp.Simulate` | cosmos-sdk/baseapp/test_helpers.go:24-27 | neither the consensus part of the state nor the check state's writes change |
| `BaseAppObject.BaseApp.ContextForProposal` | cosmos-sdk/baseapp/abci.go:993-1003 | the view and gas reading a proposal starts from: the committed store and zero, or at the initial height the deliver state's store and its own reading, after two parameter reads |
| `BaseAppObject.BaseApp.PrepareProposal` | cosmos-sdk/baseapp/abci.go:254-294 | the response, the requested transactions after a recovered panic, and the state: consensus sees nothing away from the initial height and at most a moved gas reading there |
| `BaseAppObject.BaseApp.ProcessProposal` | cosmos-sdk/baseapp/abci.go:311-352 | the verdict, a rejection after a recovered panic, and the same effect on the state |
| `Interference.DeliveryIgnoresPool` | cosmos-sdk/baseapp/baseapp.go:739-745 | a delivered transaction gives the same state and result over two mempools that agree on its removal fault, or where the fault is masked: running the messages ends in the same panic with the same gas |
| `Interference.DeliveredPastAnte` | cosmos-sdk/baseapp/baseapp.go:739-788 | the branch and the result of a delivery past the ante handler, with and without a removal fault, given by the ante handler and the messages alone |
| `Interference.DeliveryExact` | cosmos-sdk/baseapp/baseapp.go:739-745 | for every branch and transaction it does so if and only if they agree, the fault is masked, or the mempool is not reached |
| `Interference.FaultShows` | cosmos-sdk/baseapp/baseapp.go:739-745 | past the ante handler the mempool error is returned if and only if the removal fails and the ante gas fits the block |
| `Interference.ConsensusStepDetermined` | cosmos-sdk/baseapp/abci.go:154-494 | each consensus call is determined by the consensus part of the state, up to removal faults |
| `Interference.OtherStepFrame` | cosmos-sdk/baseapp/abci.go:254-387 | CheckTx, Simulate, PrepareProposal and ProcessProposal change nothing in the consensus part of the state but the deliver state's gas reading |
| `Interference.OtherStepExact` | cosmos-sdk/baseapp/abci.go:993-1003 | and are invisible to consensus if and only if they are not proposals at the initial height or leave that reading as it was |
| `Interference.OtherStepInvisible` | cosmos-sdk/baseapp/abci.go:254-387 | so CheckTx, Simulate and proposals away from the initial height always are |
| `Interference.StepExact` | cosmos-sdk/baseapp/abci.go:154-494 | one call keeps a run and the run without the other calls together if and only if it is undisturbed |
| `Interference.NonInterferenceExact` | cosmos-sdk/baseapp/abci.go:254-494 | over whole runs that the process survives, a run and the run without those four calls agree on the consensus part after every call if and only if no proposal at the initial height moves the shared reading and every delivery meets the same removal fault or one that is masked |
| `Interference.NonInterference` | cosmos-sdk/baseapp/abci.go:254-494 | then the committed stores, versions, deliver state and results are those of the run without |
| `Interference.AwayIsQuiet` | cosmos-sdk/baseapp/abci.go:254-494 | which holds beforehand when faults depend on the transaction only and no proposal is made at the initial height |
| `Readings.CommitsIgnoreProposals` | cosmos-sdk/baseapp/abci.go:254-494 | with proposals at the initial height, commits, versions and errors are still those of the run without when hooks and ante handler ignore the reading and every delivered transaction reaches the ante handler's own meter, whatever the block gas limit |
| `Readings.UnlimitedCommitsIgnoreProposals` | cosmos-sdk/baseapp/abci.go:254-494 | and whatever is delivered when the block has no gas limit and its meter does not overflow |
| `Interfering.ProposalInterferes` | cosmos-sdk/baseapp/abci.go:993-1003 | a run in which one PrepareProposal at the initial height changes the committed store, through the shared gas meter |
| `Interfering.TouchyMempoolInterferes` | cosmos-sdk/baseapp/baseapp.go:739-745 | a run in which one CheckTx changes the committed store, through a removal fault that depends on the mempool's contents |
| `AbciProps.StepKeepsCounting` | cosmos-sdk/baseapp/abci.go:154-471 | every call keeps the relation between committed versions, the expected height and the block in progress |
| `AbciProps.RunKeepsCounting` | cosmos-sdk/baseapp/abci.go:154-471 | and so does every run |
| `AbciProps.HeightsFromInitialHeight` | cosmos-sdk/baseapp/baseapp.go:508-535 | from genesis, whatever calls follow, committed heights are consecutive from the initial height |
| `AbciProps.HeightsAfterRestart` | cosmos-sdk/baseapp/baseapp.go:508-535 | after a restart heights continue from the last committed one |
| `AbciProps.BlockRefinesLedger` | cosmos-sdk/baseapp/abci.go:154-471 | a whole block through branches, flushes and commit equals the block executed on a plain store, crashes included |
| `AbciProps.ChainRefinesLedger` | cosmos-sdk/baseapp/abci.go:154-471 | so does any sequence of numbered blocks |
| `AbciProps.GenesisChainRefinesLedger` | cosmos-sdk/baseapp/abci.go:37-471 | genesis writes land in the first commit, and any blocks with interleaved non-consensus calls that make a quiet run commit what the plain ledger computes |
| `AbciProps.InsulatedChainRefinesLedger` | cosmos-sdk/baseapp/abci.go:37-471 | the same for any such calls when the gas reading cannot matter |
| `AbciProps.PrepareExactly` | cosmos-sdk/baseapp/abci.go:254-294 | the process survives exactly when the handler is reached; the answer is the handler's, or the request after a recovered panic; the store and gas reading the handler is given, and the whole state it leaves |
| `AbciProps.ProcessExactly` | cosmos-sdk/baseapp/abci.go:311-352 | the same for ProcessProposal, where a recovered panic rejects |
| `AbciProps.FirstProposalSeesGenesis` | cosmos-sdk/baseapp/abci.go:993-1003 | a proposal at the initial height is about the genesis store although nothing is committed |
| `CheckState.ResetIsAnew` | cosmos-sdk/baseapp/abci.go:464-468 | a surviving commit, and every InitChain, leaves a check state that shows exactly the committed store under the right header |
| `CheckState.StepChecks` | cosmos-sdk/baseapp/abci.go:354-387 | between commits each call adds to the check state the ante writes of a passing check, and nothing otherwise |
| `CheckState.RunChecks` | cosmos-sdk/baseapp/abci.go:354-494 | and so does every run without a commit |
| `CheckState.ChecksSinceCommit` | cosmos-sdk/baseapp/abci.go:464-468 | in every run transactions are checked against the store of the last commit, under its header, with the ante writes of the checks that passed since, in order |
| `CheckState.ChecksSinceInit` | cosmos-sdk/baseapp/abci.go:60-62 | the same since genesis |
| `Wire.VarintRoundTrip` | cosmos-sdk/types/abci.pb.go:1248-1258 | every uint64 is read back from its varint, whatever bytes follow |
| `Wire.SovIsLength` | cosmos-sdk/types/abci.pb.go:1505-1507 | the predicted varint size is the length of the encoding |
| `Wire.Skip` | cosmos-sdk/types/abci.pb.go:3195-3272 | a successful skip consumes at least one byte |
| `Wire.SkipLocal` | cosmos-sdk/types/abci.pb.go:3195-3272 | what a skip consumes does not depend on the bytes after it |
| `Wire.SkipEmitted` | cosmos-sdk/types/abci.pb.go:3195-3272 | skipping any well-formed field, with any nesting of groups, consumes exactly that field at any group depth |
| `Wire.UnmarshalConcat` | cosmos-sdk/types/abci.pb.go:2026-2160 | decoding a concatenation is decoding the second part into the message the first part gave |
| `Wire.UnknownIsSkipped` | cosmos-sdk/types/abci.pb.go:2369-2389 | a well-formed field with an unknown number is read as unknown, whole |
| `Wire.UnknownThen` | cosmos-sdk/types/abci.pb.go:2369-2389 | a well-formed unknown field in front of any bytes at all does not change the decoded result, error results included |
| `Wire.UnknownFieldTransparent` | cosmos-sdk/types/abci.pb.go:2369-2389 | inserting a well-formed unknown field between any decodable bytes and any bytes at all does not change the decoded result |
| `WireCode.DecodeVarint` | cosmos-sdk/types/abci.pb.go:2031-2045 | the shift-and-or loop equals reading the varint and truncating to 64 bits, with the overflow and end-of-input errors |
| `WireCode.SkipElement` | cosmos-sdk/types/abci.pb.go:3195-3268 | one turn of the skip loop: index and group depth, every wire type and every error |
| `WireCode.SkipAbci` | cosmos-sdk/types/abci.pb.go:3195-3272 | the skip loop equals its specification on every input |
| `WireCode.DecodePayload` | cosmos-sdk/types/abci.pb.go:2078-2105 | a length-delimited value with its negative-length and overflow checks |
| `WireCode.DecodeField` | cosmos-sdk/types/abci.pb.go:2026-2160 | tag, field-number and wire-type checks, then the value or the skip |
| `WireCode.UnmarshalField` | cosmos-sdk/types/abci.pb.go:2026-2160 | one field applied to the message |
| `WireCode.UnmarshalMessage` | cosmos-sdk/types/abci.pb.go:2026-2390 | the Unmarshal loop terminates and equals its specification on every input |
| `WireGrammar.VarintExactly` | cosmos-sdk/types/abci.pb.go:2031-2045 | a varint is read, with this value and length, if and only if at most ten bytes with the right continuation bits are there; overflow and end of input have their own exact conditions |
| `WireGrammar.SkipExactly` | cosmos-sdk/types/abci.pb.go:3195-3272 | skipping succeeds within the input exactly on elements whose groups are balanced |
| `WireGrammar.FieldExactly` | cosmos-sdk/types/abci.pb.go:2026-2160 | a field is read as this item if and only if the grammar puts it there: a tag with a positive number that ends no group, and the wire type the schema wants or a skippable unknown |
| `WireGrammar.MessageExactly` | cosmos-sdk/types/abci.pb.go:2026-2390 | decoding succeeds with this message exactly when the input is a sequence of grammatical fields that builds it: nothing else is accepted |
| `AbciCodec.AttributeFields` | cosmos-sdk/types/abci.pb.go:933-961 | an attribute is encoded as fields 1 (key) and 2 (value) of the wire format, empty ones left out |
| `AbciCodec.EventFields` | cosmos-sdk/types/abci.pb.go:889-926 | an event as field 1 (type) and one field 2 per attribute |
| `AbciCodec.LogFields` | cosmos-sdk/types/abci.pb.go:840-882 | a message log as fields 1 (index) and 2 (text) and one field 3 per event |
| `AbciCodec.GasFields` | cosmos-sdk/types/abci.pb.go:970-988 | a gas record as fields 1 (wanted) and 2 (used) |
| `AbciCodec.AttributeRoundTrip` | cosmos-sdk/types/abci.pb.go:2277-2390 | every attribute decodes from its encoding |
| `AbciCodec.EventRoundTrip` | cosmos-sdk/types/abci.pb.go:2161-2276 | every event, with any list of attributes, decodes from its encoding |
| `AbciCodec.LogRoundTrip` | cosmos-sdk/types/abci.pb.go:2026-2160 | every message log, with any events and attributes, decodes from its encoding into an empty message |
| `AbciCodec.GasRoundTrip` | cosmos-sdk/types/abci.pb.go:2391-2478 | every gas record decodes from its encoding |
| `AbciCodec.LogIgnoresUnknownField` | cosmos-sdk/types/abci.pb.go:2369-2389 | an unknown field inserted after any decodable prefix of an encoded log leaves the decoded log unchanged |
| `AbciNoise.NoiseThen` | cosmos-sdk/types/abci.pb.go:2369-2389 | any sequence of unknown fields in front of any bytes is transparent |
| `AbciNoise.SpacedDecodes` | cosmos-sdk/types/abci.pb.go:2106-2139 | a repeated field decodes to all its elements in order with unknown fields after each of them |
| `AbciNoise.NoisyAttributeDecodes` | cosmos-sdk/types/abci.pb.go:2277-2390 | an attribute decodes the same with unknown fields anywhere between its fields |
| `AbciNoise.NoisyEventDecodes` | cosmos-sdk/types/abci.pb.go:2161-2276 | so does an event, with unknown fields between its fields and inside each attribute |
| `AbciNoise.NoisyLogDecodes` | cosmos-sdk/types/abci.pb.go:2026-2160 | and a message log, with unknown fields at all three levels at once |
| `AbciMarshal.AttributeSize` | cosmos-sdk/types/abci.pb.go:1361-1376 | Size of an attribute is the length of its encoding |
| `AbciMarshal.EventSize` | cosmos-sdk/types/abci.pb.go:1342-1359 | Size of an event is the length of its encoding |
| `AbciMarshal.LogSize` | cosmos-sdk/types/abci.pb.go:1320-1340 | Size of a log is the length of its encoding |
| `AbciMarshal.GasSize` | cosmos-sdk/types/abci.pb.go:1378-1390 | Size of a gas record is the length of its encoding |
| `AbciMarshal.EncodeVarintAbci` | cosmos-sdk/types/abci.pb.go:1248-1258 | the buffer gets the varint right before the offset and is otherwise untouched |
| `AbciMarshal.MarshalAttribute` | cosmos-sdk/types/abci.pb.go:933-953 | writes the attribute's encoding so that it ends where told and touches nothing else |
| `AbciMarshal.MarshalAttributes` | cosmos-sdk/types/abci.pb.go:894-907 | the backward loop over the attributes, each length-delimited |
| `AbciMarshal.MarshalEvent` | cosmos-sdk/types/abci.pb.go:889-916 | writes the event's encoding backward |
| `AbciMarshal.MarshalEvents` | cosmos-sdk/types/abci.pb.go:845-858 | the backward loop over the events |
| `AbciMarshal.MarshalLog` | cosmos-sdk/types/abci.pb.go:840-872 | writes the log's encoding backward |
| `AbciMarshal.MarshalGas` | cosmos-sdk/types/abci.pb.go:970-986 | writes the gas record's encoding backward |
| `AbciMarshal.Marshal` | cosmos-sdk/types/abci.pb.go:825-872 | back-to-front marshalling fills exactly Size() bytes with the encoding, and decoding them returns the log |
| `Chunks.SplitShape` | cosmos-sdk/snapshots/chunk.go:72-104 | no chunk is empty and, for a positive size, all but the last have exactly the chunk size |
| `Chunks.SplitJoins` | cosmos-sdk/snapshots/chunk.go:72-104 | the chunks joined are the stream |
| `Chunks.ChunkWriter.Emit` | cosmos-sdk/snapshots/chunk.go:30-42 | bytes go to a new pipe when there is none or the current one is full |
| `Chunks.ChunkWriter.Write` | cosmos-sdk/snapshots/chunk.go:72-104 | the chunks sent depend only on the whole stream written so far, however it was cut into writes; writing after closing fails |
| `Chunks.ChunkWriter.Close` | cosmos-sdk/snapshots/chunk.go:45-56 | closing adds no chunk and keeps the stream |
| `Chunks.WriteAll` | cosmos-sdk/snapshots/chunk.go:72-104 | any cutting of a stream into writes sends the canonical chunks of the stream |
| `Chunks.ChunkReader.Read` | cosmos-sdk/snapshots/chunk.go:143-160 | what one read returns and leaves, bytes that arrive together with the end of a chunk being dropped |
| `Chunks.ChunkReader.ReadAll` | cosmos-sdk/snapshots/chunk.go:143-160 | reading to the end with any positive buffer sizes returns the concatenated chunks if and only if no non-empty source reports its end together with its last bytes |
| `Chunks.RoundTrip` | cosmos-sdk/snapshots/chunk.go:72-160 | splitting any stream in any writes and reading the chunks back returns the stream |
| `SnapshotKeys.KeyRoundTrip` | cosmos-sdk/snapshots/store.go:342-361 | decoding a key inverts encoding it, so keys are injective |
| `SnapshotKeys.KeyCanonical` | cosmos-sdk/snapshots/store.go:342-361 | every key that decodes is the encoding of what it decodes to |
| `SnapshotKeys.KeyOrder` | cosmos-sdk/snapshots/store.go:355-361 | keys compare as byte strings by height and then format |
| `SnapshotStore.VisibleUnlessLast` | cosmos-sdk/snapshots/store.go:184-190 | every key but that of the maximal height and format lies inside the iterated range |
| `SnapshotStore.ReverseIterator` | cosmos-sdk/snapshots/store.go:184-190 | the iterator visits each visible key once, greatest first |
| `SnapshotStore.Store.Delete` | cosmos-sdk/snapshots/store.go:53-69 | deletes a snapshot, its chunks and its directory unless its height is being saved; the directory of the height stays |
| `SnapshotStore.Store.GetLatest` | cosmos-sdk/snapshots/store.go:94-111 | returns a visible snapshot of the greatest height, or none exactly when there is none |
| `SnapshotStore.Store.List` | cosmos-sdk/snapshots/store.go:114-132 | exactly the visible snapshots, newest first |
| `SnapshotStore.Store.Save` | cosmos-sdk/snapshots/store.go:224-278 | success and each error case exactly, a record whose hashes describe the chunks, each of the last 2^32 chunks in the file of its index modulo 2^32, and a directory exactly when there is a chunk |
| `SnapshotStore.Store.SaveChunks` | cosmos-sdk/snapshots/store.go:262-308 | one hash per chunk in order, one hash over everything, and one file per chunk until the 32-bit index wraps, when newer chunks replace older ones |
| `SnapshotStore.Store.Prune` | cosmos-sdk/snapshots/store.go:184-221 | keeps every format of the `retain` greatest distinct heights and deletes every other visible snapshot with its chunk files; returns how many if and only if no pruned height is being saved and each has a directory that holds nothing else |
| `SnapshotStore.Store.PruneRecords` | cosmos-sdk/snapshots/store.go:191-208 | the deletion loop: it completes if and only if no pruned height is being saved |
| `SnapshotStore.Store.RemoveHeightDirs` | cosmos-sdk/snapshots/store.go:209-218 | removes the directories of the pruned heights in any order, and fails exactly when one is missing or not empty |
| `SnapshotStore.ClearableExactly` | cosmos-sdk/snapshots/store.go:209-218 | when those directories are removable, in terms of the store before the call |
| `SnapshotStore.HousedIsClearable` | cosmos-sdk/snapshots/store.go:209-218 | they always are when every snapshot has chunks and the directories are those of the snapshots |
| `SnapshotStore.SaveKeepsHoused` | cosmos-sdk/snapshots/store.go:262-277 | saving keeps the directories those of the snapshots |
| `SnapshotStore.DeleteKeepsHoused` | cosmos-sdk/snapshots/store.go:61-68 | so does deleting |
| `SnapshotStore.PruneKeepsHoused` | cosmos-sdk/snapshots/store.go:184-221 | and so does pruning, when it succeeds |
| `SnapshotStore.EmptySnapshotIsNotPruned` | cosmos-sdk/snapshots/store.go:209-218 | a snapshot without chunks has no directory: pruning it deletes the record and then fails |
| `SnapshotStore.Store.PruneKey` | cosmos-sdk/snapshots/store.go:193-208 | one turn of the pruning loop: the key is spared or deleted with its directory, or its pruned height is being saved |
| `SnapshotStore.NewestIsRank` | cosmos-sdk/snapshots/store.go:191-202 | a height is among the `retain` newest exactly when fewer than `retain` distinct heights are above it |
| `SnapshotStore.PruneStep` | cosmos-sdk/snapshots/store.go:193-208 | the skip set after one more key in descending order |
| `SnapshotStore.KeptIsRetained` | cosmos-sdk/snapshots/store.go:184-221 | what the loop keeps is what the rank definition retains |
| `SnapshotStore.HeightsNeverSplit` | cosmos-sdk/snapshots/store.go:184-221 | a height is kept or dropped with all its formats |
| `RestoreManager.Manager.BeginLocked` | cosmos-sdk/snapshots/manager.go:113-122 | an operation begins if and only if it is one and none is running, and a refusal changes nothing |
| `RestoreManager.Manager.EndLocked` | cosmos-sdk/snapshots/manager.go:132-141 | ending closes an open chunk channel once and clears the restore |
| `RestoreManager.Manager.Restore` | cosmos-sdk/snapshots/manager.go:265-319 | accepts an offered snapshot if and only if it passes every check and the manager is idle; otherwise the reply is the first failing check and nothing changes |
| `RestoreManager.Manager.RestoreChunk` | cosmos-sdk/snapshots/manager.go:401-461 | a chunk is refused outside a restore or on a hash mismatch, and otherwise sent on, finishing the restore with the last one |
| `RestoreManager.StepKeepsInv` | cosmos-sdk/snapshots/manager.go:113-461 | every event keeps the invariant: restoring if and only if a snapshot is set and its channel open, ids 0..index-1 sent in order, index below the chunk count, every other channel closed exactly once |
| `RestoreManager.RunKeepsInv` | cosmos-sdk/snapshots/manager.go:113-461 | and so does every run |
| `RestoreManager.RefusalChangesNothing` | cosmos-sdk/snapshots/manager.go:113-122 | a refused call never disturbs the running operation, and a chunk with the wrong hash leaves the state unchanged |
| `RestoreManager.OfferedExactly` | cosmos-sdk/snapshots/manager.go:265-319 | the condition of every reply to an offered snapshot, in the order of the checks, and the state after each |
| `RestoreManager.ChunkExactly` | cosmos-sdk/snapshots/manager.go:401-461 | every outcome of a chunk with its condition and the state it leaves: channel, files, record and index |
| `RestoreManager.OperationsExactly` | cosmos-sdk/snapshots/manager.go:99-141 | when an operation begins, which one can be ended from outside, and that a local restore leaves the manager as it was |
| `RestoreManager.ClosedStaysClosed` | cosmos-sdk/snapshots/manager.go:132-141 | a closed channel is never closed again nor sent on |
| `RestoreManager.GoodChunk` | cosmos-sdk/snapshots/manager.go:401-461 | the next chunk moves the restore on or finishes it |
| `RestoreManager.OffersComplete` | cosmos-sdk/snapshots/manager.go:401-461 | feeding the chunks in order with any bad chunks in between accepts each once and ends the restore |
| `RestoreManager.SavedSnapshotRestores` | cosmos-sdk/snapshots/manager.go:265-461 | every non-empty snapshot described by its chunks, in the current format and at a height Restore allows, is accepted and completes, with any bad chunks interleaved |
| `RestoreManager.HashCountIsTruncated` | cosmos-sdk/snapshots/manager.go:265-273 | the count check sees 32 bits of the number of hashes: 2^32+1 hashes pass for one chunk |
| `RestoreManager.AcceptedCountExactly` | cosmos-sdk/snapshots/manager.go:265-319 | an accepted restore has as many hashes as chunks, and keeps the manager's invariant, if and only if the hashes are fewer than 2^32 |
| `CoinSets.CanonicalUnique` | cosmos-sdk/types/coin.go:229-270 | two sorted, duplicate-free, zero-free sets with the same amounts are the same set |
| `CoinAlgebra.PlusMeaning` | cosmos-sdk/types/coin.go:319-350 | the sum has exactly the pointwise summed amounts in canonical form |
| `CoinAlgebra.MinusMeaning` | cosmos-sdk/types/coin.go:390-393 | the difference has exactly the pointwise differences in canonical form |
| `CoinAlgebra.PlusCommutes` | cosmos-sdk/types/coin.go:319-350 | addition commutes, on all lists of coins |
| `CoinAlgebra.PlusAssociates` | cosmos-sdk/types/coin.go:319-350 | addition is associative, on all lists of coins |
| `CoinAlgebra.PlusNothing` | cosmos-sdk/types/coin.go:319-350 | the empty set is neutral |
| `CoinAlgebra.MinusUndoesPlus` | cosmos-sdk/types/coin.go:378-393 | (a+b)-b = a and (a-b)+b = a |
| `CoinAlgebra.PlusValid` | cosmos-sdk/types/coin.go:295-311 | the sum of valid sets is valid |
| `CoinAlgebra.PlusValidExactly` | cosmos-sdk/types/coin.go:295-311 | the sum of any lists is valid if and only if every summed amount is non-negative and every positive one has a well-formed denomination |
| `CoinAlgebra.PlusCanBeInvalid` | cosmos-sdk/types/coin.go:295-311 | the unconditional promise of validity fails on a negative input |
| `CoinAlgebra.MinusNegativeExactly` | cosmos-sdk/types/coin.go:390-393 | the difference has a negative entry exactly when some amount of b exceeds that of a |
| `CoinAlgebra.MinusValid` | cosmos-sdk/types/coin.go:366-386 | the difference of valid sets is valid exactly when a covers b |
| `CoinAlgebra.PointwiseCanonical` | cosmos-sdk/types/coin.go:475-506 | a two-pointer walk over strictly sorted lists gives a canonical set |
| `CoinAlgebra.PointwiseAmount` | cosmos-sdk/types/coin.go:475-506 | whose amounts are the operation applied pointwise |
| `CoinAlgebra.MaxMeaning` | cosmos-sdk/types/coin.go:460-506 | the maximum of valid sets is valid and pointwise maximal |
| `CoinAlgebra.MinMeaning` | cosmos-sdk/types/coin.go:508-545 | the minimum of valid sets is valid and pointwise minimal |
| `CoinAlgebra.MaxIsLeastUpperBound` | cosmos-sdk/types/coin.go:460-474 | the maximum is the least upper bound |
| `CoinAlgebra.MinIsGreatestLowerBound` | cosmos-sdk/types/coin.go:508-522 | the minimum is the greatest lower bound |
| `CoinAlgebra.SumOfMinAndMax` | cosmos-sdk/types/coin.go:466-469 | a+b equals min(a,b)+max(a,b) |
| `CoinAlgebra.MergedIsPlus` | cosmos-sdk/types/dec_coin.go:246-292 | on strictly sorted lists the two-pointer sum is the grouping sum |
| `CoinOps.Sort` | cosmos-sdk/types/coin.go:829-837 | a sorted permutation |
| `CoinOps.IsSorted` | cosmos-sdk/types/coin.go:273-280 | true exactly on lists sorted by denomination |
| `CoinOps.RemoveZeroCoins` | cosmos-sdk/types/coin.go:791-812 | the non-zero coins in order |
| `CoinOps.Validate` | cosmos-sdk/types/coin.go:229-270 | accepts exactly strictly sorted lists of positive coins with well-formed denominations |
| `CoinOps.NewCoins` | cosmos-sdk/types/coin.go:180-198 | panics exactly unless the non-zero coins are positive, well-formed and of distinct denominations, and otherwise returns the valid set with the same amounts |
| `CoinOps.PermutationKeeps` | cosmos-sdk/types/coin.go:829-837 | amounts and counts do not depend on the order of entries |
| `CoinOps.Group` | cosmos-sdk/types/coin.go:330-336 | the map groups every coin under its denomination and loses no amount |
| `CoinOps.Combine` | cosmos-sdk/types/coin.go:338-342 | one group added up |
| `CoinOps.SafeAdd` | cosmos-sdk/types/coin.go:319-350 | panics exactly on unsorted input and otherwise returns the sum, whatever order the map is visited in, for duplicates and negative amounts too |
| `CoinOps.Negative` | cosmos-sdk/types/coin.go:777-788 | every amount negated |
| `CoinOps.IsAnyNegative` | cosmos-sdk/types/coin.go:751-759 | true exactly when an entry is negative |
| `CoinOps.SafeSub` | cosmos-sdk/types/coin.go:390-393 | panics exactly on unsorted or unpresentable input, returns the difference, and reports a negative exactly when a does not cover b |
| `CoinOps.Sub` | cosmos-sdk/types/coin.go:378-386 | the difference, panicking exactly when it would be negative |
| `CoinOps.FindAgrees` | cosmos-sdk/types/coin.go:689-723 | binary search finds exactly what a linear scan finds |
| `CoinOps.CoversExactly` | cosmos-sdk/types/coin.go:575-603 | on valid sets comparing the entries of b compares all denominations |
| `CoinOps.IsAllGTE` | cosmos-sdk/types/coin.go:575-591 | on valid sets true exactly when a covers b |
| `CoinOps.IsEqual` | cosmos-sdk/types/coin.go:659-674 | on valid sets true exactly on equal sets, and a panic exactly when the first difference is one of denomination |
| `CoinOps.Max` | cosmos-sdk/types/coin.go:475-506 | on valid sets never panics and returns the maximum |
| `CoinOps.Min` | cosmos-sdk/types/coin.go:523-545 | on valid sets never panics and returns the minimum |
| `DecCoins.RemoveZeroDecCoins` | cosmos-sdk/types/dec_coin.go:586-596 | the non-zero coins in order |
| `DecCoins.SafeAdd` | cosmos-sdk/types/dec_coin.go:246-292 | the two-index loop is the pointwise walk on any two lists |
| `DecCoins.SumOfValid` | cosmos-sdk/types/dec_coin.go:230-292 | on valid sets the sum is valid, pointwise and equal to the grouping sum |
| `DecCoins.SafeSub` | cosmos-sdk/types/dec_coin.go:318-321 | on strictly sorted sets the difference, with a negative reported exactly when a does not cover b |
| `DecCoins.Validate` | cosmos-sdk/types/dec_coin.go:516-560 | accepts exactly the valid sets; the duplicate check refuses nothing the order would not |
| `DecCoins.Intersect` | cosmos-sdk/types/dec_coin.go:329-339 | panics exactly on an ill-formed denomination of the first set and otherwise clips every entry and drops zeros |
| `DecCoins.IntersectionIsMinimum` | cosmos-sdk/types/dec_coin.go:323-339 | on valid sets the intersection is the pointwise minimum |
| `DecCoins.TruncatesTowardZero` | cosmos-sdk/types/dec_coin.go:112-116 | truncation leaves less than one unit, with the sign of the amount |
| `DecCoins.TruncateCoin` | cosmos-sdk/types/dec_coin.go:112-116 | whole part and change add up, the change is in [0,1), and a negative amount or ill-formed denomination panics |
| `DecCoins.TruncateDecimal` | cosmos-sdk/types/dec_coin.go:216-228 | panics exactly when some coin cannot be split, and otherwise sums the whole parts and the changes, for any order and with repeats |
| `DecCoins.TruncationConserves` | cosmos-sdk/types/dec_coin.go:216-228 | for every list and denomination whole coins plus change is the original amount, with no zero entries |
| `DecCoins.TruncationExact` | cosmos-sdk/types/dec_coin.go:213-228 | a valid set splits into valid sets: the integer quotients and the remainders below one |
| `PoVL.ComputePoVLChain` | x/privacy/pqc/povl.go:38-44 | the loop is the n-fold iteration of the clock step |
| `PoVL.ChainIsRun` | x/privacy/pqc/povl.go:19-44 | a root is the chain's if and only if some run of the clock with that many steps, each hashing the block hash of the state before and that state, ends in it |
| `PoVL.ParseLayout` | app/lwr_proposal.go:103-133 | parsing inverts the layout of a sentinel |
| `PoVL.LayoutParse` | app/lwr_proposal.go:103-133 | whatever parses is the layout of what it parses to |
| `PoVL.BuildPoVLSentinel` | app/lwr_proposal.go:193-216 | the buffer filled at a moving offset is the layout, with hash and root cut or zero-padded to size |
| `PoVL.BuildTxPayload` | app/lwr_proposal.go:218-228 | the concatenation of the transactions |
| `PoVL.LWRApp.LWRPrepareProposal` | app/lwr_proposal.go:40-83 | the sentinel committing to the transactions, with the fallback hash on failure, and then the transactions |
| `PoVL.LWRApp.LWRProcessProposal` | app/lwr_proposal.go:87-186 | accepts exactly endorsed proposals, panics exactly on a sentinel that ends inside its proof length, and records the hash exactly on acceptance |
| `PoVL.LWRApp.Verify` | app/lwr_proposal.go:135-174 | the checks on what was read, in the order of the program |
| `PoVL.LWRApp.ProcessProposal` | cosmos-sdk/baseapp/abci.go:337-351 | a recovered panic is a rejection, so acceptance is endorsement |
| `PoVL.EndorsedByParsed` | app/lwr_proposal.go:98-171 | endorsement is decided by the one sentinel the first transaction parses to |
| `PoVL.SentinelIsEndorsed` | app/lwr_proposal.go:98-171 | for every version, step count and trailing bytes, a sentinel whose chain root is that of its own hash and steps is accepted if and only if its hash is the block hash of the other transactions and is valid |
| `PoVL.ProposedIsEndorsed` | app/lwr_proposal.go:40-186 | so what a node proposes is accepted under the same previous hash if and only if the block hash succeeds and is valid |
| `PoVL.EndorsementBinds` | app/lwr_proposal.go:135-171 | for any sentinel the first transaction lays out, acceptance forces hash, validity, proof and chain root to match the remaining transactions |
| `PoVL.EndorsedExactly` | app/lwr_proposal.go:98-171 | acceptance as a condition on the bytes of the first transaction: marker, block hash, a clock run to the root, proof length and proof, each at its position |
| `PoVL.CutShortExactly` | app/lwr_proposal.go:115-131 | the transactions on which the handler panics are exactly the sentinels cut inside their proof length |
| `PoVL.EndorsementSeesConcatenation` | app/lwr_proposal.go:218-228 | acceptance depends on the remaining transactions only through their concatenation |
| `StoreKeys.PrefixBetween` | cosmos-sdk/types/store.go:61-70 | what lies in byte order between a name and an extension of it extends it too |
| `StoreKeys.NeighboursSuffice` | cosmos-sdk/types/store.go:61-70 | in sorted order no neighbour is a prefix of the next if and only if no name is a prefix of any other |
| `StoreKeys.FreePermuted` | cosmos-sdk/types/store.go:61-70 | prefix freedom does not depend on the order of names |
| `StoreKeys.SortStrings` | cosmos-sdk/types/store.go:62-64 | a sorted permutation |
| `StoreKeys.AssertNoPrefix` | cosmos-sdk/types/store.go:59-70 | returns normally if and only if no name at one position is a prefix of a name at another |
| `StoreKeys.NewKVStoreKeys` | cosmos-sdk/types/store.go:78-86 | panics exactly on a conflict, and otherwise returns one new key per name under its own name |

## Left out

- Events, logs, responses and telemetry of transactions and blocks, the recovery middleware chain, tracing and halt heights: they do not feed back into state.
- The iterators and sorted cache of the cache store: a branch is a map of dirty entries over its parent.
- Signature cryptography: signature checks beyond the sequence are part of the ante handler's other checks.
- Coherence.FeesDeplete: fee grants and their allowances are left out; a granter is just another payer.
- A gas meter overflow or undecodable parameters during a read of the consensus parameters: a read is any function of the store and the gas reading.
- A signature without a public key is treated like unreadable signatures, although the program panics on it only once its loop gets there.
- The priority and sender-nonce mempools: a mempool is an iteration order and the set of transactions whose removal fails, or an abstract state.
- Concurrency inside snapshot creation and restore, disk faults, and the extension payload loop: the multistore restore is assumed to succeed.
- Manager.Create, Manager.Prune and the body of RestoreLocalSnapshot beyond begin and end: they add calls to the modelled operations.
- The remaining generated protobuf messages: they repeat the same pattern.
- WireCode.SkipElement: an index beyond the largest int is not reported as an invalid length.
- WireCode.SkipAbci: likewise, so that such a length is returned and its caller reports the end of input.
- WireCode.DecodePayload: unexpected end of input and index overflow are one error class.
- WireCode.DecodeField: unexpected end of input and index overflow are one error class, and or-ing disjoint bits is written as an addition.
- AbciMarshal.Marshal: requires an encoding below 2^63 bytes, the range of Go's int.
- The 256-bit limit of integer amounts, and denomination patterns other than the default one: amounts are mathematical integers.
- CoinOps.IsAllGTE: stated on valid sets, which is what the documented laws are about.
- CoinOps.IsEqual: stated on valid sets, likewise.
- CoinOps.Max: stated on valid sets, likewise.
- CoinOps.Min: stated on valid sets, likewise.
- Coin parsing, scalar multiplication and division, decimal rounding, and the remaining comparison wrappers: easy members or library behaviour.
- The cryptography of the block anchor: the block hash, its validity check and SHA3 are parameters of fixed output size, and the proof is the program's placeholder.
- PoVL.LWRApp.LWRProcessProposal: transactions are slices whose capacity is their length, so reading past the end panics; the recorded hash goes to a branch that is never flushed.
- Oracle, stablecoin, collateral and privacy keepers, the command line, the server and the client: plumbing, or logic in files that are not part of this model.
