/** The default `TxSelector`: capacity accounting for a block proposal. */
module TxSelection {
  import opened Words
  import opened Transactions

  datatype Limits = Limits(maxBytes: Uint64, maxGas: Uint64)

  datatype Selection = Selection(bytes: Uint64, gas: Uint64, txs: seq<Bytes>)

  const NOTHING := Selection(0, 0, [])

  /** Capacity test; both sums are uint64 sums and may wrap. */
  predicate Fits(sel: Selection, lim: Limits, gas: Uint64, bz: Bytes) {
    && ToU64(|bz| + sel.bytes) <= lim.maxBytes
    && (lim.maxGas > 0 ==> ToU64(gas + sel.gas) <= lim.maxGas)
  }

  function Select(sel: Selection, lim: Limits, gas: Uint64, bz: Bytes): Selection {
    if !Fits(sel, lim, gas, bz) then sel
    else Selection(ToU64(sel.bytes + |bz|),
                   if lim.maxGas > 0 then ToU64(sel.gas + gas) else sel.gas,
                   sel.txs + [bz])
  }

  predicate Full(sel: Selection, lim: Limits) {
    sel.bytes >= lim.maxBytes || (lim.maxGas > 0 && sel.gas >= lim.maxGas)
  }

  class TxSelector {
    var totalTxBytes: Uint64
    var totalTxGas: Uint64
    var selectedTxs: seq<Bytes>

    ghost function Value(): Selection
      reads this
    {
      Selection(totalTxBytes, totalTxGas, selectedTxs)
    }

    constructor ()
      ensures Value() == NOTHING
    {
      totalTxBytes, totalTxGas, selectedTxs := 0, 0, [];
    }

    method Clear()
      modifies this
      ensures Value() == NOTHING
    {
      totalTxBytes := 0;
      totalTxGas := 0;
      selectedTxs := [];
    }

    /** `memTx` is None for transactions CometBFT passed as bytes only. */
    method SelectTxForProposal(maxTxBytes: Uint64, maxBlockGas: Uint64, memTx: Option<Tx>, txBz: Bytes)
      returns (stop: bool)
      modifies this
      ensures var lim := Limits(maxTxBytes, maxBlockGas);
              var gas := if memTx.Some? then GasLimit(memTx.value) else 0;
              && Value() == Select(old(Value()), lim, gas, txBz)
              && (stop <==> Full(Value(), lim))
    {
      var txGasLimit: Uint64 := 0;
      if memTx.Some? && memTx.value.gas.Some? {
        txGasLimit := memTx.value.gas.value;
      }
      if ToU64(|txBz| + totalTxBytes) <= maxTxBytes {
        if maxBlockGas > 0 {
          if ToU64(txGasLimit + totalTxGas) <= maxBlockGas {
            totalTxGas := ToU64(totalTxGas + txGasLimit);
            totalTxBytes := ToU64(totalTxBytes + |txBz|);
            selectedTxs := selectedTxs + [txBz];
          }
        } else {
          totalTxBytes := ToU64(totalTxBytes + |txBz|);
          selectedTxs := selectedTxs + [txBz];
        }
      }
      stop := totalTxBytes >= maxTxBytes || (maxBlockGas > 0 && totalTxGas >= maxBlockGas);
    }
  }

  function Lengths(txs: seq<Bytes>): (r: seq<nat>)
    ensures |r| == |txs|
  {
    seq(|txs|, i requires 0 <= i < |txs| => |txs[i]|)
  }

  /** No Go slice is longer than 2^63 - 1. */
  predicate Addressable(txs: seq<Bytes>) {
    forall i :: 0 <= i < |txs| ==> |txs[i]| < TWO63
  }

  /** What the byte counter means while nothing has wrapped. */
  predicate BytesExact(sel: Selection, lim: Limits) {
    sel.bytes == Sum(Lengths(sel.txs)) && sel.bytes <= lim.maxBytes
  }

  /** With a non-negative int64 budget the byte counter never wraps: it is the true total, within budget. */
  lemma {:induction false} SelectKeepsBytes(sel: Selection, lim: Limits, gas: Uint64, bz: Bytes)
    requires lim.maxBytes < TWO63 && |bz| < TWO63
    requires BytesExact(sel, lim)
    ensures BytesExact(Select(sel, lim, gas, bz), lim)
  {
    assert Lengths(sel.txs + [bz]) == Lengths(sel.txs) + [|bz|];
    SumSnoc(Lengths(sel.txs), |bz|);
  }
}
