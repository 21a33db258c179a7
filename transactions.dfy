/**
 * The value types of the ledger: outpoints, inputs, outputs, transactions,
 * the ownership bit flags and the history record, with the predicates that
 * classify a transaction (scripts/mempool.js:10-171).
 */
module Transactions {
  import opened Text

  type TxId = string

  /** Output `n` of transaction `txid`. A coinbase input has no txid, written "" here (JavaScript's falsy id). */
  datatype Outpoint = Outpoint(txid: TxId, n: nat)

  /** An output: its own outpoint, its redeem script in hex, and its value in satoshis. */
  datatype TxOut = TxOut(outpoint: Outpoint, script: string, value: nat)

  /** An input: the outpoint it spends and its signature script in hex. */
  datatype TxIn = TxIn(outpoint: Outpoint, scriptSig: string)

  /** A transaction; `blockHeight` is PENDING_HEIGHT while it is unconfirmed. */
  datatype Transaction = Transaction(txid: TxId, blockHeight: int, vin: seq<TxIn>, vout: seq<TxOut>, blockTime: int)

  const PENDING_HEIGHT: int := -1

  /** The script of the empty marker output that opens a coinstake. */
  const EMPTY_MARKER_SCRIPT: string := "f8"

  predicate IsEmpty(o: TxOut)
  {
    o.value == 0 && o.script == EMPTY_MARKER_SCRIPT
  }

  predicate IsConfirmed(tx: Transaction)
  {
    tx.blockHeight != PENDING_HEIGHT
  }

  predicate IsCoinStake(tx: Transaction)
  {
    |tx.vout| >= 2 && IsEmpty(tx.vout[0])
  }

  predicate IsCoinBase(tx: Transaction)
  {
    |tx.vin| == 1 && tx.vin[0].outpoint.txid == ""
  }

  /**
   * Whether the outputs of `tx` may be spent at chain height `chainHeight`,
   * the network's cached block count, which is a parameter here.
   */
  predicate IsMature(tx: Transaction, chainHeight: int, coinbaseMaturity: nat)
  {
    !(IsCoinBase(tx) || IsCoinStake(tx)) || chainHeight - tx.blockHeight > coinbaseMaturity
  }

  /** Ordinary transactions are mature at every height; minted ones become mature exactly one block past the maturity window. */
  lemma MaturityBoundary(tx: Transaction, coinbaseMaturity: nat)
    ensures !(IsCoinBase(tx) || IsCoinStake(tx)) ==> forall h :: IsMature(tx, h, coinbaseMaturity)
    ensures IsCoinBase(tx) || IsCoinStake(tx) ==>
      && !IsMature(tx, tx.blockHeight + coinbaseMaturity, coinbaseMaturity)
      && IsMature(tx, tx.blockHeight + coinbaseMaturity + 1, coinbaseMaturity)
      && forall h :: IsMature(tx, h, coinbaseMaturity) <==> h > tx.blockHeight + coinbaseMaturity
  {
  }

  /** The set key of an outpoint: its txid followed by the decimal index. */
  function ToUnique(op: Outpoint): string
  {
    op.txid + NatToString(op.n)
  }

  /** With transaction ids of one fixed length (64 hex digits on chain), the set key identifies the outpoint. */
  lemma ToUniqueInjective(a: Outpoint, b: Outpoint)
    requires |a.txid| == |b.txid|
    requires ToUnique(a) == ToUnique(b)
    ensures a == b
  {
    var k := |a.txid|;
    assert ToUnique(a)[..k] == a.txid;
    assert ToUnique(b)[..k] == b.txid;
    assert ToUnique(a)[k..] == NatToString(a.n);
    assert ToUnique(b)[k..] == NatToString(b.n);
    NatToStringInjective(a.n, b.n);
  }

  /** Without the fixed length the key is ambiguous: two distinct outpoints share one key. */
  lemma ToUniqueCollidesAcrossLengths()
    ensures Outpoint("a1", 1) != Outpoint("a", 11)
    ensures ToUnique(Outpoint("a1", 1)) == ToUnique(Outpoint("a", 11))
  {
    assert NatToString(1) == "1";
    assert NatToString(11) == NatToString(1) + "1";
  }

  /** UTXO_WALLET_STATE: bit flags compared with JavaScript's 32-bit `&`. */
  type Flags = bv32

  const NOT_MINE: Flags := 0
  const SPENDABLE: Flags := 1
  const SPENDABLE_COLD: Flags := 2
  const COLD_RECEIVED: Flags := 4
  const SPENDABLE_TOTAL: Flags := 3
  const IMMATURE: Flags := 8
  const LOCKED: Flags := 16

  /** JavaScript's `state & filter` test: the two share a bit. */
  predicate Meets(state: Flags, filter: Flags)
  {
    state & filter != 0
  }

  /** `f` selects a subset of the bits `g` selects. */
  predicate FlagsWithin(f: Flags, g: Flags)
  {
    f & g == f
  }

  lemma SpendableWithinImmatureFilter()
    ensures FlagsWithin(SPENDABLE, SPENDABLE | IMMATURE)
    ensures SPENDABLE_TOTAL == SPENDABLE | SPENDABLE_COLD
  {
  }

  /** HistoricalTxType. */
  datatype HistoricalTxType = Unknown | Stake | Delegation | Undelegation | Received | Sent

  /** A history entry; `amount` is in satoshis (the source divides it by COIN for display). */
  datatype HistoricalTx = HistoricalTx(
    kind: HistoricalTxType,
    id: TxId,
    receivers: seq<string>,
    shieldedOutputs: bool,
    time: int,
    blockHeight: int,
    amount: nat)

  /** An output as the explorer reports it; `value` is its decimal value string, already parsed. */
  datatype RawVout = RawVout(n: nat, hex: string, value: nat)

  /** An input as the explorer reports it; a coinbase input has txid "" and no vout. */
  datatype RawVin = RawVin(txid: TxId, vout: nat, hasVout: bool, hex: string)

  datatype RawTx = RawTx(txid: TxId, blockHeight: int, vin: seq<RawVin>, vout: seq<RawVout>, blockTime: int)

  /** The outpoint an explorer input spends; a missing (or zero) vout index reads as 0. */
  function RawVinOutpoint(r: RawVin): Outpoint
  {
    Outpoint(r.txid, if r.hasVout then r.vout else 0)
  }

  /** Convert an explorer record into a Transaction, output by output and input by input. */
  method ParseTransaction(raw: RawTx) returns (tx: Transaction)
    ensures tx.txid == raw.txid && tx.blockHeight == raw.blockHeight && tx.blockTime == raw.blockTime
    ensures |tx.vout| == |raw.vout| && |tx.vin| == |raw.vin|
    ensures forall i :: 0 <= i < |tx.vout| ==>
      tx.vout[i] == TxOut(Outpoint(raw.txid, raw.vout[i].n), raw.vout[i].hex, raw.vout[i].value)
    ensures forall i :: 0 <= i < |tx.vin| ==>
      tx.vin[i] == TxIn(RawVinOutpoint(raw.vin[i]), raw.vin[i].hex)
  {
    var vout: seq<TxOut> := [];
    var vin: seq<TxIn> := [];
    for i := 0 to |raw.vout|
      invariant |vout| == i
      invariant forall k :: 0 <= k < i ==>
        vout[k] == TxOut(Outpoint(raw.txid, raw.vout[k].n), raw.vout[k].hex, raw.vout[k].value)
    {
      var out := raw.vout[i];
      vout := vout + [TxOut(Outpoint(raw.txid, out.n), out.hex, out.value)];
    }
    for i := 0 to |raw.vin|
      invariant |vin| == i
      invariant forall k :: 0 <= k < i ==> vin[k] == TxIn(RawVinOutpoint(raw.vin[k]), raw.vin[k].hex)
    {
      var inp := raw.vin[i];
      var op := Outpoint(inp.txid, if inp.hasVout then inp.vout else 0);
      vin := vin + [TxIn(op, inp.hex)];
    }
    tx := Transaction(raw.txid, raw.blockHeight, vin, vout, raw.blockTime);
  }
}
