/**
 * The read-only scans of the wallet core: getBalance and getUTXOs of the
 * Mempool (scripts/mempool.js), and getDebit, getCredit, checkForUndelegations,
 * checkForDelegations, getOutAddress and toHistoricalTXs of the Wallet
 * (scripts/wallet.js).
 *
 * Each scan classifies outputs with the wallet's isMyVout, and every such call
 * may add entries to the wallet's hash-to-address memo. So each specification
 * below threads the memo through the scan in the order the source visits
 * outputs, and returns the memo it leaves together with its value. The scans
 * take isMyVout as a `Classifier`; `WalletClassifier` is the wallet's own.
 */
module Scans {
  import opened Wrappers
  import opened Transactions
  import opened Ownership

  type Memo = map<string, string>

  /** The `spent` multimap: the txid of a spent outpoint to the outpoints recorded under it, duplicates kept. */
  type SpentIndex = map<TxId, seq<Outpoint>>

  /** A scan's value together with the memo it leaves behind. */
  datatype Scan<T> = Scan(value: T, memo: Memo)

  /** isMyVout as the scans see it: the state of a script, read through a memo, and the memo the call leaves. */
  type Classifier = (Memo, string) -> Scan<Flags>

  /** The wallet's isMyVout over its own-address map. */
  /** isMyVout(script) under `memo`: the ownership state and the memo the decoding leaves. */
  function Classify(codec: Codec, own: map<string, Path>, memo: Memo, script: string): Scan<Flags>
  {
    Scan(IsMyVout(codec, own, memo, script), AddressesFromScript(codec, memo, script).memo)
  }

  function WalletClassifier(codec: Codec, own: map<string, Path>): Classifier
  {
    (memo: Memo, script: string) => Classify(codec, own, memo, script)
  }

  /** #getAddressesFromScript(script) as a scan: the addresses it names, and the memo it leaves. */
  type Decoder = (Memo, string) -> Scan<seq<string>>

  function Decode(codec: Codec, memo: Memo, script: string): Scan<seq<string>>
  {
    var d := AddressesFromScript(codec, memo, script);
    Scan(d.addresses, d.memo)
  }

  function WalletDecoder(codec: Codec): Decoder
  {
    (memo: Memo, script: string) => Decode(codec, memo, script)
  }

  /**
   * A classifier behaves like a memoised lookup: it only ever adds to the memo,
   * and under a memo that already holds what a call added, the same call
   * gives the same state and adds nothing.
   */
  ghost predicate Coherent(classify: Classifier)
  {
    && (forall memo: Memo, script: string :: Extends(classify(memo, script).memo, memo))
    && (forall memo: Memo, big: Memo, script: string {:trigger Extends(big, classify(memo, script).memo)} ::
          Extends(big, classify(memo, script).memo) ==> classify(big, script) == Scan(classify(memo, script).value, big))
  }

  lemma WalletClassifierCoherent(codec: Codec, own: map<string, Path>)
    ensures Coherent(WalletClassifier(codec, own))
  {
    var classify := WalletClassifier(codec, own);
    forall memo: Memo, big: Memo, script: string | Extends(big, classify(memo, script).memo)
      ensures classify(big, script) == Scan(classify(memo, script).value, big)
    {
      DecodeUnderExtension(codec, memo, big, script);
    }
  }

  /** What getBalance and getUTXOs read of the wallet and the ledger besides the memo. */
  datatype View = View(
    classify: Classifier,
    locked: set<string>,
    spent: SpentIndex,
    chainHeight: int,
    maturity: nat)

  /** isSpent: some outpoint recorded under op's txid has op's index. */
  predicate IsSpent(spent: SpentIndex, op: Outpoint)
  {
    op.txid in spent && exists k :: 0 <= k < |spent[op.txid]| && spent[op.txid][k].n == op.n
  }

  /** isCoinLocked. */
  predicate IsLocked(locked: set<string>, op: Outpoint)
  {
    ToUnique(op) in locked
  }

  lemma ExtendsTransitive(a: Memo, b: Memo, c: Memo)
    requires Extends(a, b) && Extends(b, c)
    ensures Extends(a, c)
  {
  }

  function SumValues(outs: seq<TxOut>): nat
  {
    if |outs| == 0 then 0 else outs[0].value + SumValues(outs[1..])
  }

  lemma {:induction false} SumValuesAppend(a: seq<TxOut>, b: seq<TxOut>)
    ensures SumValues(a + b) == SumValues(a) + SumValues(b)
  {
    if |a| > 0 {
      assert (a + b)[1..] == a[1..] + b;
      SumValuesAppend(a[1..], b);
    } else {
      assert a + b == b;
    }
  }

  /** The memo after a scan visits `o`: unchanged when `o` is skipped as spent, else what isMyVout left. */
  function Visit(v: View, memo: Memo, o: TxOut): (m: Memo)
    requires Coherent(v.classify)
    ensures Extends(m, memo)
  {
    if IsSpent(v.spent, o.outpoint) then memo else v.classify(memo, o.script).memo
  }

  // ---------------------------------------------------------------- getBalance

  /** getBalance(filter) adds the output `o`: unspent, its state meets the filter, unlocked unless LOCKED is in the filter. */
  predicate Counts(v: View, filter: Flags, memo: Memo, o: TxOut)
  {
    && !IsSpent(v.spent, o.outpoint)
    && Meets(v.classify(memo, o.script).value, filter)
    && (Meets(filter, LOCKED) || !IsLocked(v.locked, o.outpoint))
  }

  /** The inner loop of getBalance over the outputs of one transaction. */
  function VoutsBalance(v: View, filter: Flags, vouts: seq<TxOut>, memo: Memo): (s: Scan<nat>)
    requires Coherent(v.classify)
    ensures Extends(s.memo, memo)
    ensures s.value <= SumValues(vouts)
  {
    if |vouts| == 0 then Scan(0, memo)
    else
      var rest := VoutsBalance(v, filter, vouts[1..], Visit(v, memo, vouts[0]));
      Scan((if Counts(v, filter, memo, vouts[0]) then vouts[0].value else 0) + rest.value, rest.memo)
  }

  /** One step of VoutsBalance, for the loop that computes it. */
  lemma {:induction false} VoutsBalanceStep(v: View, filter: Flags, vouts: seq<TxOut>, memo: Memo)
    requires Coherent(v.classify) && |vouts| > 0
    ensures VoutsBalance(v, filter, vouts, memo)
      == var rest := VoutsBalance(v, filter, vouts[1..], Visit(v, memo, vouts[0]));
         Scan((if Counts(v, filter, memo, vouts[0]) then vouts[0].value else 0) + rest.value, rest.memo)
  {
  }

  /** A transaction getBalance(filter) looks into: mature, or any when IMMATURE is in the filter. */
  predicate InBalance(v: View, filter: Flags, tx: Transaction)
  {
    IsMature(tx, v.chainHeight, v.maturity) || Meets(filter, IMMATURE)
  }

  /** getBalance(filter) over the transactions in txmap order. */
  function TxsBalance(v: View, filter: Flags, txs: seq<Transaction>, memo: Memo): (s: Scan<nat>)
    requires Coherent(v.classify)
    ensures Extends(s.memo, memo)
  {
    if |txs| == 0 then Scan(0, memo)
    else if !InBalance(v, filter, txs[0]) then TxsBalance(v, filter, txs[1..], memo)
    else
      var a := VoutsBalance(v, filter, txs[0].vout, memo);
      var b := TxsBalance(v, filter, txs[1..], a.memo);
      Scan(a.value + b.value, b.memo)
  }

  /** One step of TxsBalance, for the loop that computes it. */
  lemma {:induction false} TxsBalanceStep(v: View, filter: Flags, txs: seq<Transaction>, memo: Memo)
    requires Coherent(v.classify) && |txs| > 0
    ensures TxsBalance(v, filter, txs, memo)
      == if !InBalance(v, filter, txs[0]) then TxsBalance(v, filter, txs[1..], memo)
         else
           var a := VoutsBalance(v, filter, txs[0].vout, memo);
           var b := TxsBalance(v, filter, txs[1..], a.memo);
           Scan(a.value + b.value, b.memo)
  {
  }

  lemma WithinKeepsBits(f1: Flags, f2: Flags, state: Flags)
    requires FlagsWithin(f1, f2)
    ensures Meets(state, f1) ==> Meets(state, f2)
    ensures Meets(f1, LOCKED) ==> Meets(f2, LOCKED)
    ensures Meets(f1, IMMATURE) ==> Meets(f2, IMMATURE)
  {
  }

  /** An output counted under a filter and a memo is counted under any wider filter and any memo extending what its visit left. */
  lemma CountsWiden(v: View, f1: Flags, f2: Flags, memo: Memo, big: Memo, o: TxOut)
    requires Coherent(v.classify) && FlagsWithin(f1, f2)
    requires Extends(big, Visit(v, memo, o))
    ensures Counts(v, f1, memo, o) ==> Counts(v, f2, big, o)
    ensures Visit(v, big, o) == big
  {
    WithinKeepsBits(f1, f2, v.classify(memo, o.script).value);
  }

  /**
   * A wider filter never yields less, even when its scan starts from a memo
   * that has grown since (as in setBalance, whose three scans run one after another).
   */
  lemma {:induction false} VoutsBalanceMonotone(v: View, f1: Flags, f2: Flags, vouts: seq<TxOut>, m: Memo, big: Memo)
    requires Coherent(v.classify) && FlagsWithin(f1, f2)
    requires Extends(big, VoutsBalance(v, f1, vouts, m).memo)
    ensures VoutsBalance(v, f1, vouts, m).value <= VoutsBalance(v, f2, vouts, big).value
  {
    if |vouts| > 0 {
      var m1 := Visit(v, m, vouts[0]);
      ExtendsTransitive(big, VoutsBalance(v, f1, vouts[1..], m1).memo, m1);
      CountsWiden(v, f1, f2, m, big, vouts[0]);
      VoutsBalanceMonotone(v, f1, f2, vouts[1..], m1, big);
    }
  }

  /** getBalance is monotone in the filter: setBalance's immature part is never negative. */
  lemma {:induction false} TxsBalanceMonotone(v: View, f1: Flags, f2: Flags, txs: seq<Transaction>, m: Memo, big: Memo)
    requires Coherent(v.classify) && FlagsWithin(f1, f2)
    requires Extends(big, TxsBalance(v, f1, txs, m).memo)
    ensures TxsBalance(v, f1, txs, m).value <= TxsBalance(v, f2, txs, big).value
  {
    if |txs| > 0 {
      WithinKeepsBits(f1, f2, 0);
      if !InBalance(v, f1, txs[0]) && !InBalance(v, f2, txs[0]) {
        TxsBalanceMonotone(v, f1, f2, txs[1..], m, big);
      } else if !InBalance(v, f1, txs[0]) {
        var a2 := VoutsBalance(v, f2, txs[0].vout, big);
        ExtendsTransitive(a2.memo, big, TxsBalance(v, f1, txs[1..], m).memo);
        TxsBalanceMonotone(v, f1, f2, txs[1..], m, a2.memo);
      } else {
        var a1 := VoutsBalance(v, f1, txs[0].vout, m);
        var final1 := TxsBalance(v, f1, txs[1..], a1.memo).memo;
        ExtendsTransitive(big, final1, a1.memo);
        VoutsBalanceMonotone(v, f1, f2, txs[0].vout, m, big);
        var a2 := VoutsBalance(v, f2, txs[0].vout, big);
        ExtendsTransitive(a2.memo, big, final1);
        TxsBalanceMonotone(v, f1, f2, txs[1..], a1.memo, a2.memo);
      }
    }
  }

  // ---------------------------------------------------------------- getUTXOs

  /** The options of getUTXOs; a target of 0 stands for no target (null, undefined or 0 in the source). */
  datatype Query = Query(filter: Flags, target: nat, onlyConfirmed: bool, includeLocked: bool)

  /** Outputs picked so far, their running total, whether the early return fired, and the memo. */
  datatype Pick = Pick(utxos: seq<TxOut>, found: nat, stop: bool, memo: Memo)

  /** The running total exceeds 11/10 of a non-zero target. */
  predicate Enough(q: Query, found: nat)
  {
    q.target > 0 && 10 * found > 11 * q.target
  }

  /** getUTXOs keeps `o`: unspent, its state (read through `memo`) meets the filter, unlocked unless locked coins are included. */
  predicate Takes(v: View, q: Query, memo: Memo, o: TxOut)
  {
    && !IsSpent(v.spent, o.outpoint)
    && Meets(v.classify(memo, o.script).value, q.filter)
    && (q.includeLocked || !IsLocked(v.locked, o.outpoint))
  }

  /** The inner loop of getUTXOs over the outputs of one transaction, starting from the running total `found`. */
  function VoutsPick(v: View, q: Query, vouts: seq<TxOut>, found: nat, memo: Memo): (p: Pick)
    requires Coherent(v.classify)
    ensures p.found == found + SumValues(p.utxos)
    ensures Extends(p.memo, memo)
    ensures p.stop <==> Enough(q, p.found) && |p.utxos| > 0
    ensures !p.stop && !Enough(q, found) ==> !Enough(q, p.found)
  {
    if |vouts| == 0 then Pick([], found, false, memo)
    else
      var o := vouts[0];
      var m1 := Visit(v, memo, o);
      if !Takes(v, q, memo, o) then VoutsPick(v, q, vouts[1..], found, m1)
      else if Enough(q, found + o.value) then Pick([o], found + o.value, true, m1)
      else
        var rest := VoutsPick(v, q, vouts[1..], found + o.value, m1);
        Pick([o] + rest.utxos, rest.found, rest.stop, rest.memo)
  }

  /** One step of VoutsPick, for the loop that computes it. */
  lemma {:induction false} VoutsPickStep(v: View, q: Query, vouts: seq<TxOut>, found: nat, memo: Memo)
    requires Coherent(v.classify) && |vouts| > 0
    ensures var o := vouts[0];
      var m1 := Visit(v, memo, o);
      VoutsPick(v, q, vouts, found, memo)
      == if !Takes(v, q, memo, o) then VoutsPick(v, q, vouts[1..], found, m1)
         else if Enough(q, found + o.value) then Pick([o], found + o.value, true, m1)
         else
           var rest := VoutsPick(v, q, vouts[1..], found + o.value, m1);
           Pick([o] + rest.utxos, rest.found, rest.stop, rest.memo)
  {
  }

  /** A transaction getUTXOs looks into: mature, and confirmed when only confirmed ones are asked for. */
  predicate TxEligible(v: View, q: Query, tx: Transaction)
  {
    (!q.onlyConfirmed || IsConfirmed(tx)) && IsMature(tx, v.chainHeight, v.maturity)
  }

  /** getUTXOs over the transactions in txmap order, stopping at the early return. */
  function TxsPick(v: View, q: Query, txs: seq<Transaction>, found: nat, memo: Memo): (p: Pick)
    requires Coherent(v.classify)
    ensures p.found == found + SumValues(p.utxos)
    ensures Extends(p.memo, memo)
    ensures p.stop ==> Enough(q, p.found)
    ensures !p.stop && !Enough(q, found) ==> !Enough(q, p.found)
  {
    if |txs| == 0 then Pick([], found, false, memo)
    else if !TxEligible(v, q, txs[0]) then TxsPick(v, q, txs[1..], found, memo)
    else
      var a := VoutsPick(v, q, txs[0].vout, found, memo);
      if a.stop then a
      else
        var b := TxsPick(v, q, txs[1..], a.found, a.memo);
        SumValuesAppend(a.utxos, b.utxos);
        Pick(a.utxos + b.utxos, b.found, b.stop, b.memo)
  }

  /** What getUTXOs promises of each output it returns, with its state read through the memo `memo`. */
  ghost predicate Selected(v: View, q: Query, txs: seq<Transaction>, o: TxOut, memo: Memo)
  {
    && (exists k :: 0 <= k < |txs| && TxEligible(v, q, txs[k]) && o in txs[k].vout)
    && Takes(v, q, memo, o)
  }

  /** An output kept under one memo is kept under any memo extending what its own visit left. */
  lemma TakesUnderExtension(v: View, q: Query, memo: Memo, big: Memo, o: TxOut)
    requires Coherent(v.classify)
    requires Takes(v, q, memo, o) && Extends(big, Visit(v, memo, o))
    ensures Takes(v, q, big, o)
  {
  }

  lemma {:induction false} VoutsPickSelected(v: View, q: Query, vouts: seq<TxOut>, found: nat, memo: Memo, big: Memo)
    requires Coherent(v.classify)
    requires Extends(big, VoutsPick(v, q, vouts, found, memo).memo)
    ensures forall o :: o in VoutsPick(v, q, vouts, found, memo).utxos ==> o in vouts && Takes(v, q, big, o)
    decreases |vouts|
  {
    if |vouts| > 0 {
      var o := vouts[0];
      var m1 := Visit(v, memo, o);
      var p := VoutsPick(v, q, vouts, found, memo);
      VoutsPickStep(v, q, vouts, found, memo);
      if !Takes(v, q, memo, o) {
        VoutsPickSelected(v, q, vouts[1..], found, m1, big);
        forall o' | o' in p.utxos
          ensures o' in vouts && Takes(v, q, big, o')
        {
          assert o' in vouts[1..];
        }
      } else if Enough(q, found + o.value) {
        assert p.utxos == [o] && p.memo == m1;
        TakesUnderExtension(v, q, memo, big, o);
      } else {
        var rest := VoutsPick(v, q, vouts[1..], found + o.value, m1);
        assert p.utxos == [o] + rest.utxos && p.memo == rest.memo;
        ExtendsTransitive(big, rest.memo, m1);
        TakesUnderExtension(v, q, memo, big, o);
        VoutsPickSelected(v, q, vouts[1..], found + o.value, m1, big);
        forall o' | o' in p.utxos
          ensures o' in vouts && Takes(v, q, big, o')
        {
          if o' != o {
            assert o' in rest.utxos;
            assert o' in vouts[1..];
          }
        }
      }
    }
  }

  /**
   * Every output getUTXOs returns is unspent, from an eligible transaction,
   * unlocked unless locked ones are included, and meets the filter when it is
   * classified again through the memo the call leaves (or any later one).
   */
  lemma {:induction false} TxsPickSelected(v: View, q: Query, txs: seq<Transaction>, found: nat, memo: Memo, big: Memo)
    requires Coherent(v.classify)
    requires Extends(big, TxsPick(v, q, txs, found, memo).memo)
    ensures forall o :: o in TxsPick(v, q, txs, found, memo).utxos ==> Selected(v, q, txs, o, big)
    decreases |txs|
  {
    if |txs| > 0 {
      var p := TxsPick(v, q, txs, found, memo);
      if !TxEligible(v, q, txs[0]) {
        TxsPickSelected(v, q, txs[1..], found, memo, big);
        forall o | o in p.utxos
          ensures Selected(v, q, txs, o, big)
        {
          var k :| 0 <= k < |txs[1..]| && TxEligible(v, q, txs[1..][k]) && o in txs[1..][k].vout;
          assert txs[k + 1] == txs[1..][k];
        }
      } else {
        var a := VoutsPick(v, q, txs[0].vout, found, memo);
        if !a.stop {
          var b := TxsPick(v, q, txs[1..], a.found, a.memo);
          ExtendsTransitive(big, b.memo, a.memo);
          TxsPickSelected(v, q, txs[1..], a.found, a.memo, big);
          forall o | o in b.utxos
            ensures Selected(v, q, txs, o, big)
          {
            var k :| 0 <= k < |txs[1..]| && TxEligible(v, q, txs[1..][k]) && o in txs[1..][k].vout;
            assert txs[k + 1] == txs[1..][k];
          }
        }
        VoutsPickSelected(v, q, txs[0].vout, found, memo, big);
        forall o | o in a.utxos
          ensures Selected(v, q, txs, o, big)
        {
          assert TxEligible(v, q, txs[0]) && o in txs[0].vout;
        }
      }
    }
  }

  /** All outputs of the transactions, in iteration order. */
  function AllOutputs(txs: seq<Transaction>): seq<TxOut>
  {
    if |txs| == 0 then [] else txs[0].vout + AllOutputs(txs[1..])
  }

  /** `a` is `b` with some elements left out, the rest in the same order. */
  predicate IsSubsequence(a: seq<TxOut>, b: seq<TxOut>)
    decreases |b|
  {
    |a| == 0 || (|b| > 0 && ((a[0] == b[0] && IsSubsequence(a[1..], b[1..])) || IsSubsequence(a, b[1..])))
  }

  lemma {:induction false} SubsequenceOfLonger(c: seq<TxOut>, d: seq<TxOut>, b: seq<TxOut>)
    requires IsSubsequence(c, d)
    ensures IsSubsequence(c, b + d)
    decreases |b|
  {
    if |b| > 0 && |c| > 0 {
      SubsequenceOfLonger(c, d, b[1..]);
      assert (b + d)[1..] == b[1..] + d;
    } else if |b| == 0 {
      assert b + d == d;
    }
  }

  lemma {:induction false} SubsequenceConcat(a: seq<TxOut>, b: seq<TxOut>, c: seq<TxOut>, d: seq<TxOut>)
    requires IsSubsequence(a, b) && IsSubsequence(c, d)
    ensures IsSubsequence(a + c, b + d)
    decreases |b|
  {
    if |a| == 0 {
      SubsequenceOfLonger(c, d, b);
      assert a + c == c;
    } else if a[0] == b[0] && IsSubsequence(a[1..], b[1..]) {
      SubsequenceConcat(a[1..], b[1..], c, d);
      assert (a + c)[1..] == a[1..] + c;
      assert (b + d)[1..] == b[1..] + d;
    } else {
      SubsequenceConcat(a, b[1..], c, d);
      assert (b + d)[1..] == b[1..] + d;
    }
  }

  lemma {:induction false} VoutsPickOrdered(v: View, q: Query, vouts: seq<TxOut>, found: nat, memo: Memo)
    requires Coherent(v.classify)
    ensures IsSubsequence(VoutsPick(v, q, vouts, found, memo).utxos, vouts)
  {
    if |vouts| > 0 {
      var o := vouts[0];
      var m1 := Visit(v, memo, o);
      if !Takes(v, q, memo, o) {
        VoutsPickOrdered(v, q, vouts[1..], found, m1);
      } else if Enough(q, found + o.value) {
        assert [o][1..] == [];
      } else {
        var rest := VoutsPick(v, q, vouts[1..], found + o.value, m1);
        VoutsPickOrdered(v, q, vouts[1..], found + o.value, m1);
        assert ([o] + rest.utxos)[1..] == rest.utxos;
      }
    }
  }

  /** getUTXOs returns outputs in the order it iterates over them. */
  lemma {:induction false} TxsPickOrdered(v: View, q: Query, txs: seq<Transaction>, found: nat, memo: Memo)
    requires Coherent(v.classify)
    ensures IsSubsequence(TxsPick(v, q, txs, found, memo).utxos, AllOutputs(txs))
  {
    if |txs| > 0 {
      if !TxEligible(v, q, txs[0]) {
        TxsPickOrdered(v, q, txs[1..], found, memo);
        SubsequenceOfLonger(TxsPick(v, q, txs[1..], found, memo).utxos, AllOutputs(txs[1..]), txs[0].vout);
      } else {
        var a := VoutsPick(v, q, txs[0].vout, found, memo);
        VoutsPickOrdered(v, q, txs[0].vout, found, memo);
        if a.stop {
          SubsequenceConcat(a.utxos, txs[0].vout, [], AllOutputs(txs[1..]));
          assert a.utxos + [] == a.utxos;
        } else {
          TxsPickOrdered(v, q, txs[1..], a.found, a.memo);
          SubsequenceConcat(a.utxos, txs[0].vout, TxsPick(v, q, txs[1..], a.found, a.memo).utxos, AllOutputs(txs[1..]));
        }
      }
    }
  }

  /** The outputs of eligible transactions, in the order getUTXOs visits them. */
  function EligibleOutputs(v: View, q: Query, txs: seq<Transaction>): seq<TxOut>
  {
    if |txs| == 0 then [] else (if TxEligible(v, q, txs[0]) then txs[0].vout else []) + EligibleOutputs(v, q, txs[1..])
  }

  /** The outputs among `outs` that getUTXOs keeps, each judged under the one memo `memo`, in order. */
  function Kept(v: View, q: Query, outs: seq<TxOut>, memo: Memo): (r: seq<TxOut>)
    ensures forall o :: o in r ==> o in outs && Takes(v, q, memo, o)
  {
    if |outs| == 0 then [] else (if Takes(v, q, memo, outs[0]) then [outs[0]] else []) + Kept(v, q, outs[1..], memo)
  }

  lemma {:induction false} KeptAppend(v: View, q: Query, a: seq<TxOut>, b: seq<TxOut>, memo: Memo)
    ensures Kept(v, q, a + b, memo) == Kept(v, q, a, memo) + Kept(v, q, b, memo)
    decreases |a|
  {
    if |a| == 0 {
      assert a + b == b;
    } else {
      assert (a + b)[1..] == a[1..] + b;
      KeptAppend(v, q, a[1..], b, memo);
    }
  }

  /** Under a memo extending what the visit of `o` left, `o` is kept exactly when it was kept at its visit. */
  lemma TakesUnderExtensionIff(v: View, q: Query, memo: Memo, big: Memo, o: TxOut)
    requires Coherent(v.classify)
    requires Extends(big, Visit(v, memo, o))
    ensures Takes(v, q, memo, o) <==> Takes(v, q, big, o)
  {
    if !IsSpent(v.spent, o.outpoint) {
      assert Extends(big, v.classify(memo, o.script).memo);
    }
  }

  /** The inner loop keeps every qualifying output of the transaction when it does not stop. */
  lemma {:induction false} VoutsPickAll(v: View, q: Query, vouts: seq<TxOut>, found: nat, memo: Memo, big: Memo)
    requires Coherent(v.classify)
    requires Extends(big, VoutsPick(v, q, vouts, found, memo).memo)
    ensures var p := VoutsPick(v, q, vouts, found, memo);
      !p.stop ==> p.utxos == Kept(v, q, vouts, big)
    decreases |vouts|
  {
    if |vouts| > 0 {
      var o := vouts[0];
      var m1 := Visit(v, memo, o);
      VoutsPickStep(v, q, vouts, found, memo);
      var f := if Takes(v, q, memo, o) then found + o.value else found;
      if !Takes(v, q, memo, o) || !Enough(q, found + o.value) {
        var rest := VoutsPick(v, q, vouts[1..], f, m1);
        ExtendsTransitive(big, rest.memo, m1);
        TakesUnderExtensionIff(v, q, memo, big, o);
        VoutsPickAll(v, q, vouts[1..], f, m1, big);
      }
    }
  }

  lemma KeptCons(v: View, q: Query, outs: seq<TxOut>, n: nat, memo: Memo)
    requires n < |outs|
    ensures Kept(v, q, outs[..n + 1], memo)
            == (if Takes(v, q, memo, outs[0]) then [outs[0]] else []) + Kept(v, q, outs[1..][..n], memo)
  {
    assert outs[..n + 1][1..] == outs[1..][..n];
  }

  /** When the inner loop stops, it has kept every qualifying output up to the one that made the total enough. */
  lemma {:induction false} VoutsPickPrefix(v: View, q: Query, vouts: seq<TxOut>, found: nat, memo: Memo, big: Memo)
    requires Coherent(v.classify)
    requires Extends(big, VoutsPick(v, q, vouts, found, memo).memo)
    ensures var p := VoutsPick(v, q, vouts, found, memo);
      p.stop ==> exists n :: 0 < n <= |vouts| && p.utxos == Kept(v, q, vouts[..n], big)
    decreases |vouts|
  {
    if |vouts| > 0 {
      var o := vouts[0];
      var m1 := Visit(v, memo, o);
      var p := VoutsPick(v, q, vouts, found, memo);
      VoutsPickStep(v, q, vouts, found, memo);
      if Takes(v, q, memo, o) && Enough(q, found + o.value) {
        assert p.utxos == [o] && p.memo == m1;
        TakesUnderExtensionIff(v, q, memo, big, o);
        KeptCons(v, q, vouts, 0, big);
        assert vouts[1..][..0] == [];
        assert [o] + [] == [o];
        assert p.utxos == Kept(v, q, vouts[..1], big);
      } else {
        var f := if Takes(v, q, memo, o) then found + o.value else found;
        var rest := VoutsPick(v, q, vouts[1..], f, m1);
        assert p.memo == rest.memo && p.stop == rest.stop;
        assert p.utxos == (if Takes(v, q, memo, o) then [o] else []) + rest.utxos;
        if p.stop {
          ExtendsTransitive(big, rest.memo, m1);
          TakesUnderExtensionIff(v, q, memo, big, o);
          VoutsPickPrefix(v, q, vouts[1..], f, m1, big);
          var n :| 0 < n <= |vouts[1..]| && rest.utxos == Kept(v, q, vouts[1..][..n], big);
          KeptCons(v, q, vouts, n, big);
          assert 0 < n + 1 <= |vouts| && p.utxos == Kept(v, q, vouts[..n + 1], big);
        }
      }
    }
  }

  /**
   * Without the early return, getUTXOs returns every qualifying output of the
   * eligible transactions, in txmap order.
   */
  lemma {:induction false} TxsPickAll(v: View, q: Query, txs: seq<Transaction>, found: nat, memo: Memo, big: Memo)
    requires Coherent(v.classify)
    requires Extends(big, TxsPick(v, q, txs, found, memo).memo)
    ensures var p := TxsPick(v, q, txs, found, memo);
      !p.stop ==> p.utxos == Kept(v, q, EligibleOutputs(v, q, txs), big)
    decreases |txs|
  {
    if |txs| > 0 {
      var all := EligibleOutputs(v, q, txs);
      var later := EligibleOutputs(v, q, txs[1..]);
      var p := TxsPick(v, q, txs, found, memo);
      if !TxEligible(v, q, txs[0]) {
        assert all == later;
        assert p == TxsPick(v, q, txs[1..], found, memo);
        TxsPickAll(v, q, txs[1..], found, memo, big);
      } else {
        var vout := txs[0].vout;
        assert all == vout + later;
        var a := VoutsPick(v, q, vout, found, memo);
        if !a.stop {
          var b := TxsPick(v, q, txs[1..], a.found, a.memo);
          assert p.utxos == a.utxos + b.utxos && p.stop == b.stop && p.memo == b.memo;
          if !b.stop {
            ExtendsTransitive(big, b.memo, a.memo);
            VoutsPickAll(v, q, vout, found, memo, big);
            TxsPickAll(v, q, txs[1..], a.found, a.memo, big);
            KeptAppend(v, q, vout, later, big);
          }
        }
      }
    }
  }

  /**
   * With the early return, getUTXOs has returned every qualifying output of
   * the eligible transactions up to the one that made the total enough,
   * skipping none before it.
   */
  lemma {:induction false} TxsPickPrefix(v: View, q: Query, txs: seq<Transaction>, found: nat, memo: Memo, big: Memo)
    requires Coherent(v.classify)
    requires Extends(big, TxsPick(v, q, txs, found, memo).memo)
    ensures var p := TxsPick(v, q, txs, found, memo);
      p.stop ==> exists n :: 0 < n <= |EligibleOutputs(v, q, txs)| && p.utxos == Kept(v, q, EligibleOutputs(v, q, txs)[..n], big)
    decreases |txs|
  {
    if |txs| > 0 {
      var all := EligibleOutputs(v, q, txs);
      var later := EligibleOutputs(v, q, txs[1..]);
      var p := TxsPick(v, q, txs, found, memo);
      if !TxEligible(v, q, txs[0]) {
        assert all == later;
        var r := TxsPick(v, q, txs[1..], found, memo);
        assert p == r;
        TxsPickPrefix(v, q, txs[1..], found, memo, big);
        if r.stop {
          var n :| 0 < n <= |later| && r.utxos == Kept(v, q, later[..n], big);
          assert 0 < n <= |all| && p.utxos == Kept(v, q, all[..n], big);
        }
      } else {
        var vout := txs[0].vout;
        assert all == vout + later;
        var a := VoutsPick(v, q, vout, found, memo);
        if a.stop {
          assert p == a;
          VoutsPickPrefix(v, q, vout, found, memo, big);
          var n :| 0 < n <= |vout| && a.utxos == Kept(v, q, vout[..n], big);
          assert all[..n] == vout[..n];
          assert 0 < n <= |all| && p.utxos == Kept(v, q, all[..n], big);
        } else {
          var b := TxsPick(v, q, txs[1..], a.found, a.memo);
          assert p.utxos == a.utxos + b.utxos && p.stop == b.stop && p.memo == b.memo;
          if b.stop {
            ExtendsTransitive(big, b.memo, a.memo);
            VoutsPickAll(v, q, vout, found, memo, big);
            TxsPickPrefix(v, q, txs[1..], a.found, a.memo, big);
            var n :| 0 < n <= |later| && b.utxos == Kept(v, q, later[..n], big);
            assert all[..|vout| + n] == vout + later[..n];
            KeptAppend(v, q, vout, later[..n], big);
            assert 0 < |vout| + n <= |all| && p.utxos == Kept(v, q, all[..|vout| + n], big);
          }
        }
      }
    }
  }
}
