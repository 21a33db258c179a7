/**
 * The per-transaction sums and the history classification of the Wallet
 * (scripts/wallet.js): getCredit, getDebit, checkForUndelegations,
 * checkForDelegations, getOutAddress and toHistoricalTXs. Amounts are in
 * satoshis; the division by COIN for display is left out.
 */
module History {
  import opened Wrappers
  import opened Transactions
  import opened Ownership
  import opened Scans

  /** The ledger's txmap as the wallet reads it. */
  type TxMap = map<TxId, Transaction>

  /** The output an input spends: its transaction is unknown, or known but without output n (the source then throws), or the output. */
  datatype Prevout = Unrecorded | OutOfRange | Recorded(out: TxOut)

  function PrevoutOf(txmap: TxMap, op: Outpoint): Prevout
  {
    if op.txid !in txmap then Unrecorded
    else if op.n < |txmap[op.txid].vout| then Recorded(txmap[op.txid].vout[op.n])
    else OutOfRange
  }

  /** Some input names an output its known transaction does not have. */
  ghost predicate HasDanglingInput(txmap: TxMap, vins: seq<TxIn>)
  {
    exists k :: 0 <= k < |vins| && PrevoutOf(txmap, vins[k].outpoint).OutOfRange?
  }

  /** getCredit(tx, filter): the outputs whose state meets the filter. */
  function Credit(classify: Classifier, filter: Flags, vouts: seq<TxOut>, memo: Memo): (s: Scan<nat>)
    ensures s.value <= SumValues(vouts)
  {
    if |vouts| == 0 then Scan(0, memo)
    else
      var c := classify(memo, vouts[0].script);
      var rest := Credit(classify, filter, vouts[1..], c.memo);
      Scan((if Meets(c.value, filter) then vouts[0].value else 0) + rest.value, rest.memo)
  }

  /**
   * getCredit is monotone in the filter: a filter within a wider one never
   * credits more, and both scans leave the same memo (classifying does not
   * depend on the filter).
   */
  lemma {:induction false} CreditMonotone(classify: Classifier, f1: Flags, f2: Flags, vouts: seq<TxOut>, memo: Memo)
    requires FlagsWithin(f1, f2)
    ensures Credit(classify, f1, vouts, memo).value <= Credit(classify, f2, vouts, memo).value
    ensures Credit(classify, f1, vouts, memo).memo == Credit(classify, f2, vouts, memo).memo
    decreases |vouts|
  {
    if |vouts| > 0 {
      var c := classify(memo, vouts[0].script);
      WithinKeepsBits(f1, f2, c.value);
      CreditMonotone(classify, f1, f2, vouts[1..], c.memo);
    }
  }

  /** Under a memoised lookup, getCredit only adds to the memo. */
  lemma {:induction false} CreditGrows(classify: Classifier, filter: Flags, vouts: seq<TxOut>, memo: Memo)
    requires Coherent(classify)
    ensures Extends(Credit(classify, filter, vouts, memo).memo, memo)
    decreases |vouts|
  {
    if |vouts| > 0 {
      var c := classify(memo, vouts[0].script);
      CreditGrows(classify, filter, vouts[1..], c.memo);
      ExtendsTransitive(Credit(classify, filter, vouts, memo).memo, c.memo, memo);
    }
  }

  /**
   * Under a memoised lookup, getCredit run again from any memo holding what
   * the first run memoised gives the same credit and adds nothing.
   */
  lemma {:induction false} CreditUnderExtension(classify: Classifier, filter: Flags, vouts: seq<TxOut>, memo: Memo, big: Memo)
    requires Coherent(classify) && Extends(big, Credit(classify, filter, vouts, memo).memo)
    ensures Credit(classify, filter, vouts, big) == Scan(Credit(classify, filter, vouts, memo).value, big)
    decreases |vouts|
  {
    if |vouts| > 0 {
      var c := classify(memo, vouts[0].script);
      CreditGrows(classify, filter, vouts[1..], c.memo);
      ExtendsTransitive(big, Credit(classify, filter, vouts[1..], c.memo).memo, c.memo);
      assert classify(big, vouts[0].script) == Scan(c.value, big);
      CreditUnderExtension(classify, filter, vouts[1..], c.memo, big);
    }
  }

  /**
   * getDebit(tx): the spent outputs, among those the ledger knows, whose state
   * is SPENDABLE or SPENDABLE_COLD; None where the source throws because a known
   * transaction lacks the spent index.
   */
  function Debit(classify: Classifier, txmap: TxMap, vins: seq<TxIn>, memo: Memo): (s: Scan<Option<nat>>)
    ensures s.value.None? <==> HasDanglingInput(txmap, vins)
  {
    if |vins| == 0 then Scan(Some(0), memo)
    else
      match PrevoutOf(txmap, vins[0].outpoint)
      case Unrecorded =>
        var rest := Debit(classify, txmap, vins[1..], memo);
        assert HasDanglingInput(txmap, vins[1..]) ==> HasDanglingInput(txmap, vins) by {
          if HasDanglingInput(txmap, vins[1..]) {
            var k :| 0 <= k < |vins[1..]| && PrevoutOf(txmap, vins[1..][k].outpoint).OutOfRange?;
            assert vins[k + 1] == vins[1..][k];
          }
        }
        rest
      case OutOfRange => Scan(None, memo)
      case Recorded(o) =>
        var c := classify(memo, o.script);
        var rest := Debit(classify, txmap, vins[1..], c.memo);
        assert HasDanglingInput(txmap, vins[1..]) ==> HasDanglingInput(txmap, vins) by {
          if HasDanglingInput(txmap, vins[1..]) {
            var k :| 0 <= k < |vins[1..]| && PrevoutOf(txmap, vins[1..][k].outpoint).OutOfRange?;
            assert vins[k + 1] == vins[1..][k];
          }
        }
        if rest.value.None? then Scan(None, rest.memo)
        else Scan(Some((if Meets(c.value, SPENDABLE_TOTAL) then o.value else 0) + rest.value.value), rest.memo)
  }

  /** checkForUndelegations(tx): some known spent output is SPENDABLE_COLD; None where the source throws. */
  function Undelegations(classify: Classifier, txmap: TxMap, vins: seq<TxIn>, memo: Memo): (s: Scan<Option<bool>>)
    ensures s.value.None? ==> HasDanglingInput(txmap, vins)
  {
    if |vins| == 0 then Scan(Some(false), memo)
    else
      match PrevoutOf(txmap, vins[0].outpoint)
      case Unrecorded =>
        var rest := Undelegations(classify, txmap, vins[1..], memo);
        assert HasDanglingInput(txmap, vins[1..]) ==> HasDanglingInput(txmap, vins) by {
          if HasDanglingInput(txmap, vins[1..]) {
            var k :| 0 <= k < |vins[1..]| && PrevoutOf(txmap, vins[1..][k].outpoint).OutOfRange?;
            assert vins[k + 1] == vins[1..][k];
          }
        }
        rest
      case OutOfRange => Scan(None, memo)
      case Recorded(o) =>
        var c := classify(memo, o.script);
        if Meets(c.value, SPENDABLE_COLD) then Scan(Some(true), c.memo)
        else
          var rest := Undelegations(classify, txmap, vins[1..], c.memo);
          assert HasDanglingInput(txmap, vins[1..]) ==> HasDanglingInput(txmap, vins) by {
            if HasDanglingInput(txmap, vins[1..]) {
              var k :| 0 <= k < |vins[1..]| && PrevoutOf(txmap, vins[1..][k].outpoint).OutOfRange?;
              assert vins[k + 1] == vins[1..][k];
            }
          }
          rest
  }

  /** checkForDelegations(tx): some output is SPENDABLE_COLD; the scan stops at the first. */
  function Delegations(classify: Classifier, vouts: seq<TxOut>, memo: Memo): (s: Scan<bool>)
    ensures !s.value ==> Credit(classify, SPENDABLE_COLD, vouts, memo) == Scan(0, s.memo)
  {
    if |vouts| == 0 then Scan(false, memo)
    else
      var c := classify(memo, vouts[0].script);
      if Meets(c.value, SPENDABLE_COLD) then Scan(true, c.memo)
      else Delegations(classify, vouts[1..], c.memo)
  }

  /** getOutAddress(tx): the decoded addresses of every output, in order. */
  function OutAddresses(decode: Decoder, vouts: seq<TxOut>, memo: Memo): Scan<seq<string>>
  {
    if |vouts| == 0 then Scan([], memo)
    else
      var d := decode(memo, vouts[0].script);
      var rest := OutAddresses(decode, vouts[1..], d.memo);
      Scan(d.value + rest.value, rest.memo)
  }

  /** The receivers of a delegation: the addresses whose first character is the network's staking prefix. */
  function StakingReceivers(addresses: seq<string>, prefix: char): (r: seq<string>)
    ensures forall a :: a in r <==> a in addresses && |a| > 0 && a[0] == prefix
    ensures |r| <= |addresses|
  {
    if |addresses| == 0 then []
    else
      var rest := StakingReceivers(addresses[1..], prefix);
      if |addresses[0]| > 0 && addresses[0][0] == prefix then [addresses[0]] + rest else rest
  }

  function Abs(x: int): nat
  {
    if x < 0 then -x else x
  }

  function Entry(kind: HistoricalTxType, tx: Transaction, receivers: seq<string>, amount: nat): HistoricalTx
  {
    HistoricalTx(kind, tx.txid, receivers, false, tx.blockTime, tx.blockHeight, amount)
  }

  /** The type toHistoricalTXs gives a transaction that is neither a stake nor touches cold staking: by the sign of the net change. */
  function NetKind(net: int): (k: HistoricalTxType)
    ensures k == Received <==> net > 0
    ensures k == Sent <==> net < 0
    ensures k == Unknown <==> net == 0
  {
    if net > 0 then Received else if net < 0 then Sent else Unknown
  }

  /**
   * One step of toHistoricalTXs, calling the wallet's scans in the source's
   * order: credit, debit, receivers, then the type checks, with `classify`
   * the wallet's isMyVout (WalletClassifier) and `decode` its script decoding (WalletDecoder).
   * None where the source throws.
   */
  function HistoryEntry(decode: Decoder, classify: Classifier, txmap: TxMap, tx: Transaction, prefix: char, memo: Memo): Scan<Option<HistoricalTx>>
  {
    var credit := Credit(classify, SPENDABLE_TOTAL, tx.vout, memo);
    var debit := Debit(classify, txmap, tx.vin, credit.memo);
    if debit.value.None? then Scan(None, debit.memo)
    else
      var net := credit.value - debit.value.value;
      var receivers := OutAddresses(decode, tx.vout, debit.memo);
      if IsCoinStake(tx) then Scan(Some(Entry(Stake, tx, receivers.value, Abs(net))), receivers.memo)
      else
        var und := Undelegations(classify, txmap, tx.vin, receivers.memo);
        if und.value.None? then Scan(None, und.memo)
        else if und.value.value then Scan(Some(Entry(Undelegation, tx, receivers.value, Abs(net))), und.memo)
        else
          var del := Delegations(classify, tx.vout, und.memo);
          if del.value then
            var cold := Credit(classify, SPENDABLE_COLD, tx.vout, del.memo);
            Scan(Some(Entry(Delegation, tx, StakingReceivers(receivers.value, prefix), cold.value)), cold.memo)
          else
            Scan(Some(Entry(NetKind(net), tx, receivers.value, Abs(net))), del.memo)
  }

  /**
   * The type priority of toHistoricalTXs: STAKE for a coinstake, else
   * UNDELEGATION, else DELEGATION (amount = cold credit, receivers filtered to
   * the staking prefix), else RECEIVED, SENT or UNKNOWN by the sign of
   * credit - debit, reported as an absolute amount. The entry fails exactly
   * when getDebit throws.
   */
  lemma HistoryEntryKinds(decode: Decoder, classify: Classifier, txmap: TxMap, tx: Transaction, prefix: char, memo: Memo)
    ensures var credit := Credit(classify, SPENDABLE_TOTAL, tx.vout, memo);
      var debit := Debit(classify, txmap, tx.vin, credit.memo);
      var receivers := OutAddresses(decode, tx.vout, debit.memo);
      var und := Undelegations(classify, txmap, tx.vin, receivers.memo);
      var del := Delegations(classify, tx.vout, und.memo);
      var cold := Credit(classify, SPENDABLE_COLD, tx.vout, del.memo);
      var r := HistoryEntry(decode, classify, txmap, tx, prefix, memo).value;
      var plain := !IsCoinStake(tx) && und.value == Some(false) && !del.value;
      && (r.None? <==> HasDanglingInput(txmap, tx.vin))
      && (r.Some? ==>
        && r.value.id == tx.txid && r.value.time == tx.blockTime && r.value.blockHeight == tx.blockHeight
        && (r.value.kind == Stake <==> IsCoinStake(tx))
        && (r.value.kind == Undelegation <==> !IsCoinStake(tx) && und.value == Some(true))
        && (r.value.kind == Delegation <==> !IsCoinStake(tx) && und.value == Some(false) && del.value)
        && (r.value.kind == Delegation ==>
              r.value.amount == cold.value && r.value.receivers == StakingReceivers(receivers.value, prefix))
        && (r.value.kind != Delegation ==>
              r.value.amount == Abs(credit.value - debit.value.value) && r.value.receivers == receivers.value)
        && (r.value.kind == Received <==> plain && credit.value > debit.value.value)
        && (r.value.kind == Sent <==> plain && credit.value < debit.value.value)
        && (r.value.kind == Unknown <==> plain && credit.value == debit.value.value))
  {
  }

  /** A decoder that only ever adds to the memo, as #getAddressesFromScript does. */
  ghost predicate DecoderGrows(decode: Decoder)
  {
    forall memo: Memo, script: string :: Extends(decode(memo, script).memo, memo)
  }

  lemma WalletDecoderGrows(codec: Codec)
    ensures DecoderGrows(WalletDecoder(codec))
  {
    forall memo: Memo, script: string
      ensures Extends(WalletDecoder(codec)(memo, script).memo, memo)
    {
      var _ := AddressesFromScript(codec, memo, script);
    }
  }

  lemma {:induction false} DebitGrows(classify: Classifier, txmap: TxMap, vins: seq<TxIn>, memo: Memo)
    requires Coherent(classify)
    ensures Extends(Debit(classify, txmap, vins, memo).memo, memo)
    decreases |vins|
  {
    if |vins| > 0 {
      match PrevoutOf(txmap, vins[0].outpoint)
      case Unrecorded => DebitGrows(classify, txmap, vins[1..], memo);
      case OutOfRange =>
      case Recorded(o) =>
        var c := classify(memo, o.script);
        DebitGrows(classify, txmap, vins[1..], c.memo);
        ExtendsTransitive(Debit(classify, txmap, vins, memo).memo, c.memo, memo);
    }
  }

  lemma {:induction false} UndelegationsGrows(classify: Classifier, txmap: TxMap, vins: seq<TxIn>, memo: Memo)
    requires Coherent(classify)
    ensures Extends(Undelegations(classify, txmap, vins, memo).memo, memo)
    decreases |vins|
  {
    if |vins| > 0 {
      match PrevoutOf(txmap, vins[0].outpoint)
      case Unrecorded => UndelegationsGrows(classify, txmap, vins[1..], memo);
      case OutOfRange =>
      case Recorded(o) =>
        var c := classify(memo, o.script);
        if !Meets(c.value, SPENDABLE_COLD) {
          UndelegationsGrows(classify, txmap, vins[1..], c.memo);
          ExtendsTransitive(Undelegations(classify, txmap, vins, memo).memo, c.memo, memo);
        }
    }
  }

  lemma {:induction false} DelegationsGrows(classify: Classifier, vouts: seq<TxOut>, memo: Memo)
    requires Coherent(classify)
    ensures Extends(Delegations(classify, vouts, memo).memo, memo)
    decreases |vouts|
  {
    if |vouts| > 0 {
      var c := classify(memo, vouts[0].script);
      if !Meets(c.value, SPENDABLE_COLD) {
        DelegationsGrows(classify, vouts[1..], c.memo);
        ExtendsTransitive(Delegations(classify, vouts, memo).memo, c.memo, memo);
      }
    }
  }

  lemma {:induction false} OutAddressesGrows(decode: Decoder, vouts: seq<TxOut>, memo: Memo)
    requires DecoderGrows(decode)
    ensures Extends(OutAddresses(decode, vouts, memo).memo, memo)
    decreases |vouts|
  {
    if |vouts| > 0 {
      var d := decode(memo, vouts[0].script);
      OutAddressesGrows(decode, vouts[1..], d.memo);
      ExtendsTransitive(OutAddresses(decode, vouts, memo).memo, d.memo, memo);
    }
  }

  /**
   * A DELEGATION entry's amount, the SPENDABLE_COLD credit taken after the
   * other scans, never exceeds the transaction's SPENDABLE_TOTAL credit.
   */
  lemma DelegationWithinCredit(decode: Decoder, classify: Classifier, txmap: TxMap, tx: Transaction, prefix: char, memo: Memo)
    requires Coherent(classify) && DecoderGrows(decode)
    ensures var r := HistoryEntry(decode, classify, txmap, tx, prefix, memo).value;
      r.Some? && r.value.kind == Delegation ==> r.value.amount <= Credit(classify, SPENDABLE_TOTAL, tx.vout, memo).value
  {
    var credit := Credit(classify, SPENDABLE_TOTAL, tx.vout, memo);
    var debit := Debit(classify, txmap, tx.vin, credit.memo);
    var receivers := OutAddresses(decode, tx.vout, debit.memo);
    var und := Undelegations(classify, txmap, tx.vin, receivers.memo);
    var del := Delegations(classify, tx.vout, und.memo);
    var cc := Credit(classify, SPENDABLE_COLD, tx.vout, memo);
    assert FlagsWithin(SPENDABLE_COLD, SPENDABLE_TOTAL);
    CreditMonotone(classify, SPENDABLE_COLD, SPENDABLE_TOTAL, tx.vout, memo);
    DebitGrows(classify, txmap, tx.vin, credit.memo);
    OutAddressesGrows(decode, tx.vout, debit.memo);
    UndelegationsGrows(classify, txmap, tx.vin, receivers.memo);
    DelegationsGrows(classify, tx.vout, und.memo);
    ExtendsTransitive(receivers.memo, debit.memo, credit.memo);
    ExtendsTransitive(und.memo, receivers.memo, credit.memo);
    ExtendsTransitive(del.memo, und.memo, credit.memo);
    CreditUnderExtension(classify, SPENDABLE_COLD, tx.vout, memo, del.memo);
  }

  /** toHistoricalTXs: one entry per transaction, in order; None where the source throws. */
  function HistoryOf(decode: Decoder, classify: Classifier, txmap: TxMap, txs: seq<Transaction>, prefix: char, memo: Memo): (s: Scan<Option<seq<HistoricalTx>>>)
    ensures s.value.Some? ==> |s.value.value| == |txs| && forall i :: 0 <= i < |txs| ==> s.value.value[i].id == txs[i].txid
  {
    if |txs| == 0 then Scan(Some([]), memo)
    else
      var e := HistoryEntry(decode, classify, txmap, txs[0], prefix, memo);
      if e.value.None? then Scan(None, e.memo)
      else
        var rest := HistoryOf(decode, classify, txmap, txs[1..], prefix, e.memo);
        if rest.value.None? then Scan(None, rest.memo)
        else Scan(Some([e.value.value] + rest.value.value), rest.memo)
  }

  /** A history scan's entries listed after the entries `before`. */
  function Prefixed(before: seq<HistoricalTx>, s: Scan<Option<seq<HistoricalTx>>>): Scan<Option<seq<HistoricalTx>>>
  {
    if s.value.None? then s else Scan(Some(before + s.value.value), s.memo)
  }

  /** One transaction of toHistoricalTXs' loop, with the entries listed before it. */
  lemma {:induction false} HistoryOfCarry(decode: Decoder, classify: Classifier, txmap: TxMap, txs: seq<Transaction>, prefix: char,
                                          before: seq<HistoricalTx>, memo: Memo)
    requires |txs| > 0
    ensures var e := HistoryEntry(decode, classify, txmap, txs[0], prefix, memo);
      Prefixed(before, HistoryOf(decode, classify, txmap, txs, prefix, memo))
      == if e.value.None? then Scan(None, e.memo)
         else Prefixed(before + [e.value.value], HistoryOf(decode, classify, txmap, txs[1..], prefix, e.memo))
  {
    var e := HistoryEntry(decode, classify, txmap, txs[0], prefix, memo);
    if e.value.Some? {
      var rest := HistoryOf(decode, classify, txmap, txs[1..], prefix, e.memo);
      if rest.value.Some? {
        assert (before + [e.value.value]) + rest.value.value == before + ([e.value.value] + rest.value.value);
      }
    }
  }
}
