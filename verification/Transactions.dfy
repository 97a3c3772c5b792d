/** Transactions as the proposal handlers and `runTx` see them. */
module Transactions {
  import opened Words

  type Address = string

  datatype Sig = Sig(signer: Address, sequence: Uint64)

  datatype Msg = Msg(url: string, body: Bytes)

  /**
    * `sigs` is None when `GetSignaturesV2` fails or a signature has no public key, both of which make
    * PrepareProposal panic; `gas` is None when the transaction does not implement `GasTx`.
    */
  datatype Tx = Tx(sigs: Option<seq<Sig>>, gas: Option<Uint64>, msgs: seq<Msg>, memo: Bytes)

  function GasLimit(tx: Tx): Uint64 {
    if tx.gas.Some? then tx.gas.value else 0
  }

  function SigsOf(tx: Tx): seq<Sig> {
    if tx.sigs.Some? then tx.sigs.value else []
  }

  /** The sequence a signer used: that of its last signature in the list. */
  function SeqOf(sigs: seq<Sig>, a: Address): Option<Uint64> {
    if sigs == [] then None
    else if SeqOf(sigs[1..], a).Some? then SeqOf(sigs[1..], a)
    else if sigs[0].signer == a then Some(sigs[0].sequence)
    else None
  }

  /** `SeqOf` finds an entry exactly for the addresses that signed. */
  lemma {:induction false} SeqOfFinds(sigs: seq<Sig>, a: Address)
    ensures SeqOf(sigs, a).Some? <==> exists k :: 0 <= k < |sigs| && sigs[k].signer == a
    ensures SeqOf(sigs, a).Some? ==> Sig(a, SeqOf(sigs, a).value) in sigs
  {
    if sigs != [] {
      SeqOfFinds(sigs[1..], a);
      if SeqOf(sigs[1..], a).Some? {
        var k :| 0 <= k < |sigs[1..]| && sigs[1..][k].signer == a;
        assert sigs[k + 1].signer == a;
      } else if exists k :: 0 <= k < |sigs| && sigs[k].signer == a {
        var k :| 0 <= k < |sigs| && sigs[k].signer == a;
        if k > 0 {
          assert sigs[1..][k - 1].signer == a;
        }
      }
    }
  }
}
