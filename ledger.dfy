/**
 * The Mempool class of scripts/mempool.js: the txmap in insertion order, the
 * spent multimap, the height index, the three cached balances and the
 * watermark of the last save to disk. Each method is proved against the pure
 * specifications of the Scans and LedgerSpec modules.
 *
 * The network's cached block count, which isMature reads, is the parameter
 * `chainHeight`; the coinbase maturity comes from the network the Mempool is
 * built for. The Wallet's lockCoin, unlockCoin and reset, which call back into
 * the Mempool, are modelled here as the Mempool's LockCoin, UnlockCoin and
 * ResetWallet.
 */
module Ledger {
  import opened Wrappers
  import opened Transactions
  import opened ChainParams
  import opened Ownership
  import opened Scans
  import opened WalletState
  import opened Persistence
  import opened LedgerSpec

  /** Array.sort((a, b) => a - b) on the heights of the height index, which are distinct. */
  method SortAscending(hs: seq<int>) returns (r: seq<int>)
    requires Distinct(hs)
    ensures Ascending(r) && |r| == |hs|
    ensures forall h :: h in r <==> h in hs
  {
    r := [];
    for i := 0 to |hs|
      invariant Ascending(r) && |r| == i
      invariant forall h :: h in r <==> h in hs[..i]
    {
      assert hs[..i + 1] == hs[..i] + [hs[i]];
      r := InsertAscending(r, hs[i]);
    }
    assert hs[..|hs|] == hs;
  }

  /** Promise.all over database.storeTx for one height's transactions; the puts are modelled one after another. */
  method StoreList(db: Database, list: seq<Transaction>)
    modifies db`txs
    ensures db.txs == StoreAll(old(db.txs), list)
  {
    assert list[0..] == list;
    for j := 0 to |list|
      invariant StoreAll(old(db.txs), list) == StoreAll(db.txs, list[j..])
    {
      assert list[j..][1..] == list[j + 1..];
      db.StoreTx(list[j]);
    }
    assert list[|list|..] == [];
  }

  /** What loadFromDisk returns: undefined after re-binding the store to this wallet, false for an empty store, true once loaded. */
  datatype LoadOutcome = AccountReset | NothingStored | Loaded

  class Mempool {
    const wallet: Wallet
    const network: Network
    /** The txmap's keys in insertion order (JavaScript Map iteration order). */
    var txOrder: seq<TxId>
    var txmap: map<TxId, Transaction>
    var spent: SpentIndex
    var orderedTxmap: Heights
    /** The orderedTxmap's keys in insertion order. */
    var heightOrder: seq<int>
    var balance: nat
    var coldBalance: nat
    var immatureBalance: int
    /** #highestSavedHeight; None is JavaScript's undefined, which loadFromDisk stores when there are no heights. */
    var highestSavedHeight: Option<int>

    ghost predicate Valid()
      reads this`txOrder, this`txmap, this`orderedTxmap, this`heightOrder
      reads wallet`ownAddresses, wallet`loadedIndexes, wallet`highestUsedIndices
    {
      && wallet.Valid()
      && TxIndexWf(txOrder, txmap)
      && OrderedWf(orderedTxmap)
      && HeightIndexWf(heightOrder, orderedTxmap)
    }

    /** The transactions in txmap iteration order. */
    ghost function Txs(): seq<Transaction>
      reads this`txOrder, this`txmap
      requires TxIndexWf(txOrder, txmap)
    {
      InOrder(txOrder, txmap)
    }

    /** What getBalance and getUTXOs read besides the memo, at chain height `chainHeight`. */
    ghost function ViewAt(chainHeight: int): View
      reads this`spent, wallet`ownAddresses, wallet`lockedCoins
    {
      View(wallet.Classifier(), wallet.lockedCoins, spent, chainHeight, network.coinbaseMaturity)
    }

    /** The cached balances are those setBalance computes from `memo`, and the wallet's memo is the one it leaves. */
    ghost predicate BalancedFrom(chainHeight: int, memo: Memo)
      reads this`txOrder, this`txmap, this`spent, this`balance, this`coldBalance, this`immatureBalance
      reads wallet`ownAddresses, wallet`lockedCoins, wallet`knownPKH
      requires TxIndexWf(txOrder, txmap)
    {
      && Coherent(wallet.Classifier())
      && var b := Balances(ViewAt(chainHeight), Txs(), memo);
         Balance(balance, coldBalance, immatureBalance) == b.value && wallet.knownPKH == b.memo
    }

    /** What setBalance computes over the txmap when the wallet owns `own` and the spent multimap and the locked coins are `s`. */
    ghost function BalancesWith(own: map<string, Path>, s: Spending, chainHeight: int, memo: Memo): Scan<Balance>
      reads this`txOrder, this`txmap
      requires TxIndexWf(txOrder, txmap) && Coherent(wallet.classifierOf(own))
    {
      Balances(View(wallet.classifierOf(own), s.locked, s.spent, chainHeight, network.coinbaseMaturity), Txs(), memo)
    }

    constructor(wallet: Wallet, network: Network)
      requires wallet.Valid()
      ensures Valid() && this.wallet == wallet && this.network == network
      ensures txOrder == [] && txmap == map[] && spent == map[] && orderedTxmap == map[] && heightOrder == []
      ensures balance == 0 && coldBalance == 0 && immatureBalance == 0 && highestSavedHeight == Some(0)
    {
      this.wallet := wallet;
      this.network := network;
      txOrder := [];
      txmap := map[];
      spent := map[];
      orderedTxmap := map[];
      heightOrder := [];
      balance := 0;
      coldBalance := 0;
      immatureBalance := 0;
      highestSavedHeight := Some(0);
    }

    /** isSpent(op). */
    predicate IsSpent(op: Outpoint)
      reads this`spent
    {
      Scans.IsSpent(spent, op)
    }

    /** addToOrderedTxMap(tx). */
    method AddToOrderedTxMap(tx: Transaction)
      requires OrderedWf(orderedTxmap) && HeightIndexWf(heightOrder, orderedTxmap)
      modifies this`orderedTxmap, this`heightOrder
      ensures orderedTxmap == AddOrdered(old(orderedTxmap), tx)
      ensures heightOrder == if !IsConfirmed(tx) || tx.blockHeight in old(orderedTxmap) then old(heightOrder) else old(heightOrder) + [tx.blockHeight]
      ensures OrderedWf(orderedTxmap) && HeightIndexWf(heightOrder, orderedTxmap)
    {
      AddOrderedSpec(orderedTxmap, tx);
      if !IsConfirmed(tx) {
        return;
      }
      if tx.blockHeight in orderedTxmap && HasTxid(orderedTxmap[tx.blockHeight], tx.txid) {
        return;
      }
      var list := [];
      if tx.blockHeight in orderedTxmap {
        list := orderedTxmap[tx.blockHeight];
      } else {
        heightOrder := heightOrder + [tx.blockHeight];
      }
      orderedTxmap := orderedTxmap[tx.blockHeight := list + [tx]];
    }

    /**
     * The step both scans take for one output: a spent output is skipped;
     * any other is classified by isMyVout, which may grow the memo.
     */
    method Inspect(ghost v: View, vout: TxOut) returns (unspent: bool, state: Flags)
      requires wallet.Sound() && Coherent(v.classify) && v.classify == wallet.Classifier() && v.locked == wallet.lockedCoins && v.spent == spent
      modifies wallet`knownPKH
      ensures v.classify == wallet.Classifier() && v.locked == wallet.lockedCoins && v.spent == spent
      ensures unspent == !Scans.IsSpent(v.spent, vout.outpoint)
      ensures wallet.knownPKH == Visit(v, old(wallet.knownPKH), vout)
      ensures unspent ==> state == v.classify(old(wallet.knownPKH), vout.script).value
    {
      unspent := !IsSpent(vout.outpoint);
      state := NOT_MINE;
      if unspent {
        state := wallet.IsMyVout(vout.script);
      }
    }

    /** getBalance's inner loop body: add the first output of `vouts` to `sum` when it counts. */
    method CountOne(ghost v: View, filter: Flags, vouts: seq<TxOut>, sum: nat) returns (sum': nat)
      requires |vouts| > 0
      requires wallet.Sound() && Coherent(v.classify) && v.classify == wallet.Classifier() && v.locked == wallet.lockedCoins && v.spent == spent
      modifies wallet`knownPKH
      ensures v.classify == wallet.Classifier() && v.locked == wallet.lockedCoins && v.spent == spent
      ensures Carried(sum, VoutsBalance(v, filter, vouts, old(wallet.knownPKH)))
           == Carried(sum', VoutsBalance(v, filter, vouts[1..], wallet.knownPKH))
    {
      VoutsBalanceCarry(v, filter, vouts, sum, wallet.knownPKH);
      ghost var before := wallet.knownPKH;
      var vout := vouts[0];
      var unspent, state := Inspect(v, vout);
      var counts := unspent && Meets(state, filter) && (Meets(filter, LOCKED) || !wallet.IsCoinLocked(vout.outpoint));
      assert counts == Counts(v, filter, before, vout);
      sum' := if counts then sum + vout.value else sum;
    }

    /** The inner loop of getBalance over the outputs of one transaction. */
    method VoutsBalanceOf(ghost v: View, tx: Transaction, filter: Flags) returns (sum: nat)
      requires wallet.Sound() && Coherent(v.classify) && v.classify == wallet.Classifier() && v.locked == wallet.lockedCoins && v.spent == spent
      modifies wallet`knownPKH
      ensures v.classify == wallet.Classifier() && v.locked == wallet.lockedCoins && v.spent == spent
      ensures Scan(sum, wallet.knownPKH) == VoutsBalance(v, filter, tx.vout, old(wallet.knownPKH))
    {
      sum := 0;
      assert tx.vout[0..] == tx.vout;
      for j := 0 to |tx.vout|
        invariant v.classify == wallet.Classifier() && v.locked == wallet.lockedCoins && v.spent == spent
        invariant VoutsBalance(v, filter, tx.vout, old(wallet.knownPKH))
               == Carried(sum, VoutsBalance(v, filter, tx.vout[j..], wallet.knownPKH))
      {
        assert tx.vout[j..][1..] == tx.vout[j + 1..];
        sum := CountOne(v, filter, tx.vout[j..], sum);
      }
      assert tx.vout[|tx.vout|..] == [];
    }

    /** getBalance's outer loop body: add the first transaction of `txs` to `total` when getBalance looks into it. */
    method CountTx(ghost v: View, filter: Flags, ghost txs: seq<Transaction>, tx: Transaction, total: nat, chainHeight: int) returns (total': nat)
      requires |txs| > 0 && txs[0] == tx && v.chainHeight == chainHeight && v.maturity == network.coinbaseMaturity
      requires wallet.Sound() && Coherent(v.classify) && v.classify == wallet.Classifier() && v.locked == wallet.lockedCoins && v.spent == spent
      modifies wallet`knownPKH
      ensures v.classify == wallet.Classifier() && v.locked == wallet.lockedCoins && v.spent == spent
      ensures Carried(total, TxsBalance(v, filter, txs, old(wallet.knownPKH)))
           == Carried(total', TxsBalance(v, filter, txs[1..], wallet.knownPKH))
    {
      TxsBalanceCarry(v, filter, txs, total, wallet.knownPKH);
      total' := total;
      if IsMature(tx, chainHeight, network.coinbaseMaturity) || Meets(filter, IMMATURE) {
        var sum := VoutsBalanceOf(v, tx, filter);
        total' := total + sum;
      }
    }

    /** getBalance(filter): the scan visits the transactions in txmap order. */
    method GetBalance(filter: Flags, chainHeight: int) returns (total: nat)
      requires wallet.Sound() && TxIndexWf(txOrder, txmap)
      modifies wallet`knownPKH
      ensures Coherent(wallet.Classifier())
      ensures Scan(total, wallet.knownPKH) == TxsBalance(ViewAt(chainHeight), filter, Txs(), old(wallet.knownPKH))
    {
      wallet.ClassifierCoherent();
      ghost var v := ViewAt(chainHeight);
      ghost var txs := Txs();
      total := 0;
      assert txs[0..] == txs;
      for i := 0 to |txOrder|
        invariant v.classify == wallet.Classifier() && v.locked == wallet.lockedCoins && v.spent == spent
        invariant TxsBalance(v, filter, txs, old(wallet.knownPKH))
               == Carried(total, TxsBalance(v, filter, txs[i..], wallet.knownPKH))
      {
        assert txmap[txOrder[i]] == txs[i] && txs[i..][1..] == txs[i + 1..];
        total := CountTx(v, filter, txs[i..], txmap[txOrder[i]], total, chainHeight);
      }
      assert txs[|txs|..] == [];
    }

    /** setBalance. */
    method SetBalance(chainHeight: int)
      requires wallet.Sound() && TxIndexWf(txOrder, txmap)
      modifies this`balance, this`coldBalance, this`immatureBalance, wallet`knownPKH
      ensures BalancedFrom(chainHeight, old(wallet.knownPKH))
    {
      var spendable := GetBalance(SPENDABLE, chainHeight);
      var cold := GetBalance(SPENDABLE_COLD, chainHeight);
      var withImmature := GetBalance(SPENDABLE | IMMATURE, chainHeight);
      balance, coldBalance, immatureBalance := spendable, cold, withImmature as int - spendable as int;
    }

    /** getUTXOs' inner loop body: pick the first output of `vouts` when it qualifies; `stop` is the early return. */
    method PickOne(ghost v: View, q: Query, vouts: seq<TxOut>, picked: seq<TxOut>, total: nat)
      returns (picked': seq<TxOut>, total': nat, stop: bool)
      requires |vouts| > 0
      requires wallet.Sound() && Coherent(v.classify) && v.classify == wallet.Classifier() && v.locked == wallet.lockedCoins && v.spent == spent
      modifies wallet`knownPKH
      ensures v.classify == wallet.Classifier() && v.locked == wallet.lockedCoins && v.spent == spent
      ensures Joined(picked, VoutsPick(v, q, vouts, total, old(wallet.knownPKH)))
           == if stop then Pick(picked', total', true, wallet.knownPKH)
              else Joined(picked', VoutsPick(v, q, vouts[1..], total', wallet.knownPKH))
    {
      VoutsPickCarry(v, q, vouts, picked, total, wallet.knownPKH);
      ghost var before := wallet.knownPKH;
      var vout := vouts[0];
      var unspent, state := Inspect(v, vout);
      var keep := unspent && Meets(state, q.filter) && (q.includeLocked || !wallet.IsCoinLocked(vout.outpoint));
      assert keep == Takes(v, q, before, vout);
      picked', total', stop := picked, total, false;
      if keep {
        picked', total' := picked + [vout], total + vout.value;
        stop := Enough(q, total');
      }
    }

    /** The inner loop of getUTXOs over the outputs of one transaction, from the running total `found`. */
    method VoutsPickOf(ghost v: View, tx: Transaction, q: Query, found: nat) returns (picked: seq<TxOut>, total: nat, stop: bool)
      requires wallet.Sound() && Coherent(v.classify) && v.classify == wallet.Classifier() && v.locked == wallet.lockedCoins && v.spent == spent
      modifies wallet`knownPKH
      ensures v.classify == wallet.Classifier() && v.locked == wallet.lockedCoins && v.spent == spent
      ensures Pick(picked, total, stop, wallet.knownPKH) == VoutsPick(v, q, tx.vout, found, old(wallet.knownPKH))
    {
      picked, total, stop := [], found, false;
      assert tx.vout[0..] == tx.vout;
      assert forall tail: seq<TxOut> {:trigger picked + tail} :: picked + tail == tail;
      for j := 0 to |tx.vout|
        invariant v.classify == wallet.Classifier() && v.locked == wallet.lockedCoins && v.spent == spent
        invariant VoutsPick(v, q, tx.vout, found, old(wallet.knownPKH))
               == Joined(picked, VoutsPick(v, q, tx.vout[j..], total, wallet.knownPKH))
      {
        assert tx.vout[j..][1..] == tx.vout[j + 1..];
        picked, total, stop := PickOne(v, q, tx.vout[j..], picked, total);
        if stop {
          return;
        }
      }
      assert tx.vout[|tx.vout|..] == [];
      assert picked + [] == picked;
    }

    /** getUTXOs' outer loop body: the first transaction of `txs`, skipped unless eligible; `stop` is the early return. */
    method PickTx(ghost v: View, q: Query, ghost txs: seq<Transaction>, tx: Transaction, utxos: seq<TxOut>, found: nat, chainHeight: int)
      returns (utxos': seq<TxOut>, found': nat, stop: bool)
      requires |txs| > 0 && txs[0] == tx && v.chainHeight == chainHeight && v.maturity == network.coinbaseMaturity
      requires wallet.Sound() && Coherent(v.classify) && v.classify == wallet.Classifier() && v.locked == wallet.lockedCoins && v.spent == spent
      modifies wallet`knownPKH
      ensures v.classify == wallet.Classifier() && v.locked == wallet.lockedCoins && v.spent == spent
      ensures Joined(utxos, TxsPick(v, q, txs, found, old(wallet.knownPKH)))
           == if stop then Pick(utxos', found', true, wallet.knownPKH)
              else Joined(utxos', TxsPick(v, q, txs[1..], found', wallet.knownPKH))
    {
      TxsPickCarry(v, q, txs, utxos, found, wallet.knownPKH);
      utxos', found', stop := utxos, found, false;
      if q.onlyConfirmed && !IsConfirmed(tx) {
        return;
      }
      if !IsMature(tx, chainHeight, network.coinbaseMaturity) {
        return;
      }
      var picked, total, s := VoutsPickOf(v, tx, q, found);
      utxos', found', stop := utxos + picked, total, s;
    }

    /**
     * getUTXOs({filter, target, onlyConfirmed, includeLocked}): the outputs
     * the scan keeps, in txmap order, up to the early return once the running
     * total exceeds 11/10 of the target.
     */
    method GetUTXOs(q: Query, chainHeight: int) returns (utxos: seq<TxOut>)
      requires wallet.Sound() && TxIndexWf(txOrder, txmap)
      modifies wallet`knownPKH
      ensures Coherent(wallet.Classifier())
      ensures var p := TxsPick(ViewAt(chainHeight), q, Txs(), 0, old(wallet.knownPKH));
        utxos == p.utxos && wallet.knownPKH == p.memo
    {
      wallet.ClassifierCoherent();
      ghost var v := ViewAt(chainHeight);
      ghost var txs := Txs();
      var found := 0;
      utxos := [];
      assert txs[0..] == txs;
      assert forall tail: seq<TxOut> {:trigger utxos + tail} :: utxos + tail == tail;
      for i := 0 to |txOrder|
        invariant v.classify == wallet.Classifier() && v.locked == wallet.lockedCoins && v.spent == spent
        invariant TxsPick(v, q, txs, 0, old(wallet.knownPKH)) == Joined(utxos, TxsPick(v, q, txs[i..], found, wallet.knownPKH))
      {
        assert txmap[txOrder[i]] == txs[i] && txs[i..][1..] == txs[i + 1..];
        var stop;
        utxos, found, stop := PickTx(v, q, txs[i..], txmap[txOrder[i]], utxos, found, chainHeight);
        if stop {
          return;
        }
      }
      assert txs[|txs|..] == [];
      assert utxos + [] == utxos;
    }

    /** The wallet's lockCoin, with the setBalance it triggers. */
    method LockCoin(op: Outpoint, chainHeight: int)
      requires Valid()
      modifies wallet`lockedCoins, wallet`knownPKH, this`balance, this`coldBalance, this`immatureBalance
      ensures wallet.lockedCoins == old(wallet.lockedCoins) + {ToUnique(op)}
      ensures BalancedFrom(chainHeight, old(wallet.knownPKH))
    {
      wallet.LockCoin(op);
      SetBalance(chainHeight);
    }

    /** The wallet's unlockCoin, with the setBalance it triggers. */
    method UnlockCoin(op: Outpoint, chainHeight: int)
      requires Valid()
      modifies wallet`lockedCoins, wallet`knownPKH, this`balance, this`coldBalance, this`immatureBalance
      ensures wallet.lockedCoins == old(wallet.lockedCoins) - {ToUnique(op)}
      ensures BalancedFrom(chainHeight, old(wallet.knownPKH))
    {
      wallet.UnlockCoin(op);
      SetBalance(chainHeight);
    }

    /** setSpent(txid, op): record the spend, and unlock the coin (recomputing the balances) if it was locked. */
    method SetSpent(txid: TxId, op: Outpoint, chainHeight: int)
      requires Valid()
      modifies this`spent, this`balance, this`coldBalance, this`immatureBalance, wallet`lockedCoins, wallet`knownPKH
      ensures spent == Record(old(spent), txid, op)
      ensures wallet.lockedCoins == old(wallet.lockedCoins) - {ToUnique(op)}
      ensures ToUnique(op) in old(wallet.lockedCoins) ==> BalancedFrom(chainHeight, old(wallet.knownPKH))
      ensures ToUnique(op) !in old(wallet.lockedCoins) ==>
        && wallet.knownPKH == old(wallet.knownPKH)
        && balance == old(balance) && coldBalance == old(coldBalance) && immatureBalance == old(immatureBalance)
      ensures Extends(wallet.knownPKH, old(wallet.knownPKH))
    {
      spent := Record(spent, txid, op);
      if wallet.IsCoinLocked(op) {
        UnlockCoin(op, chainHeight);
      }
    }

    /**
     * updateMempool's loop over the inputs: each outpoint not yet spent goes
     * through setSpent. The balances are those of the last unlock's
     * setBalance, computed from `unlockMemo`, or untouched when no input
     * was a locked coin.
     */
    method SpendInputsOf(vins: seq<TxIn>, chainHeight: int) returns (ghost unlockMemo: Memo)
      requires Valid()
      modifies this`spent, this`balance, this`coldBalance, this`immatureBalance, wallet`lockedCoins, wallet`knownPKH
      ensures Spending(spent, wallet.lockedCoins) == SpendInputs(Spending(old(spent), old(wallet.lockedCoins)), vins)
      ensures Extends(wallet.knownPKH, old(wallet.knownPKH))
      ensures var u := LastUnlock(Spending(old(spent), old(wallet.lockedCoins)), vins);
        && (u.None? ==>
              && wallet.knownPKH == old(wallet.knownPKH)
              && balance == old(balance) && coldBalance == old(coldBalance) && immatureBalance == old(immatureBalance))
        && (u.Some? ==>
              && Extends(unlockMemo, old(wallet.knownPKH))
              && Coherent(wallet.Classifier())
              && Scan(Balance(balance, coldBalance, immatureBalance), wallet.knownPKH) == BalancesWith(wallet.ownAddresses, u.value, chainHeight, unlockMemo))
    {
      ghost var s0 := Spending(old(spent), old(wallet.lockedCoins));
      unlockMemo := wallet.knownPKH;
      wallet.ClassifierCoherent();
      assert vins[..0] == [];
      for i := 0 to |vins|
        invariant Spending(spent, wallet.lockedCoins) == SpendInputs(s0, vins[..i])
        invariant Extends(wallet.knownPKH, old(wallet.knownPKH))
        invariant LastUnlock(s0, vins[..i]).None? ==>
          && wallet.knownPKH == old(wallet.knownPKH)
          && balance == old(balance) && coldBalance == old(coldBalance) && immatureBalance == old(immatureBalance)
        invariant LastUnlock(s0, vins[..i]).Some? ==>
          && Extends(unlockMemo, old(wallet.knownPKH))
          && Scan(Balance(balance, coldBalance, immatureBalance), wallet.knownPKH) == BalancesWith(wallet.ownAddresses, LastUnlock(s0, vins[..i]).value, chainHeight, unlockMemo)
      {
        assert vins[..i + 1][..i] == vins[..i];
        ghost var before, lockedBefore := wallet.knownPKH, wallet.lockedCoins;
        var op := vins[i].outpoint;
        if !IsSpent(op) {
          SetSpent(op.txid, op, chainHeight);
          ExtendsTransitive(wallet.knownPKH, before, old(wallet.knownPKH));
          if ToUnique(op) in lockedBefore {
            unlockMemo := before;
          }
        }
      }
      assert vins[..|vins|] == vins;
    }

    /** updateMempool's loop over the outputs: each goes through the wallet's updateHighestUsedIndex. */
    method UseOutputs(vouts: seq<TxOut>)
      requires wallet.Valid()
      modifies wallet`knownPKH, wallet`highestUsedIndices, wallet`ownAddresses, wallet`loadedIndexes
      ensures wallet.Valid()
      ensures wallet.Own() == AfterUses(wallet.key, wallet.codec, old(wallet.Own()), vouts)
    {
      assert vouts[0..] == vouts;
      for j := 0 to |vouts|
        invariant wallet.Valid()
        invariant AfterUses(wallet.key, wallet.codec, old(wallet.Own()), vouts) == AfterUses(wallet.key, wallet.codec, wallet.Own(), vouts[j..])
      {
        assert vouts[j..][1..] == vouts[j + 1..];
        wallet.UpdateHighestUsedIndex(vouts[j]);
      }
      assert vouts[|vouts|..] == [];
    }

    /**
     * updateMempool(tx): nothing happens when the stored copy is confirmed;
     * otherwise store tx, mark its inputs spent (unlocking them), let each
     * output advance the wallet's address windows, and index tx by height.
     * `outputsMemo` is the wallet's memo when the output loop starts, after any
     * balance recomputation an unlock triggered.
     */
    method UpdateMempool(tx: Transaction, chainHeight: int) returns (ghost outputsMemo: Memo, ghost unlockMemo: Memo)
      requires Valid()
      modifies this`txOrder, this`txmap, this`spent, this`orderedTxmap, this`heightOrder
      modifies this`balance, this`coldBalance, this`immatureBalance
      modifies wallet`knownPKH, wallet`lockedCoins, wallet`ownAddresses, wallet`loadedIndexes, wallet`highestUsedIndices
      ensures Valid()
      ensures tx.txid in old(txmap) && IsConfirmed(old(txmap)[tx.txid]) ==> unchanged(this) && unchanged(wallet)
      ensures !(tx.txid in old(txmap) && IsConfirmed(old(txmap)[tx.txid])) ==>
        && txmap == old(txmap)[tx.txid := tx]
        && txOrder == (if tx.txid in old(txmap) then old(txOrder) else old(txOrder) + [tx.txid])
        && Spending(spent, wallet.lockedCoins) == SpendInputs(Spending(old(spent), old(wallet.lockedCoins)), tx.vin)
        && orderedTxmap == AddOrdered(old(orderedTxmap), tx)
        && heightOrder == (if !IsConfirmed(tx) || tx.blockHeight in old(orderedTxmap) then old(heightOrder) else old(heightOrder) + [tx.blockHeight])
        && Extends(outputsMemo, old(wallet.knownPKH))
        && wallet.Own() == AfterUses(wallet.key, wallet.codec,
             OwnState(old(wallet.ownAddresses), outputsMemo, old(wallet.loadedIndexes), old(wallet.highestUsedIndices)), tx.vout)
        && var u := LastUnlock(Spending(old(spent), old(wallet.lockedCoins)), tx.vin);
           && (u.None? ==>
                 && outputsMemo == old(wallet.knownPKH)
                 && balance == old(balance) && coldBalance == old(coldBalance) && immatureBalance == old(immatureBalance))
           && (u.Some? ==>
                 && Extends(unlockMemo, old(wallet.knownPKH))
                 && Coherent(wallet.classifierOf(old(wallet.ownAddresses)))
                 && Scan(Balance(balance, coldBalance, immatureBalance), outputsMemo) == BalancesWith(old(wallet.ownAddresses), u.value, chainHeight, unlockMemo))
    {
      outputsMemo, unlockMemo := wallet.knownPKH, wallet.knownPKH;
      if tx.txid in txmap && IsConfirmed(txmap[tx.txid]) {
        return;
      }
      outputsMemo, unlockMemo := Admit(tx, chainHeight);
    }

    /** updateMempool past its early return: the stored copy, if any, is unconfirmed. */
    method Admit(tx: Transaction, chainHeight: int) returns (ghost outputsMemo: Memo, ghost unlockMemo: Memo)
      requires Valid()
      modifies this`txOrder, this`txmap, this`spent, this`orderedTxmap, this`heightOrder
      modifies this`balance, this`coldBalance, this`immatureBalance
      modifies wallet`knownPKH, wallet`lockedCoins, wallet`ownAddresses, wallet`loadedIndexes, wallet`highestUsedIndices
      ensures Valid()
      ensures txmap == old(txmap)[tx.txid := tx]
      ensures txOrder == (if tx.txid in old(txmap) then old(txOrder) else old(txOrder) + [tx.txid])
      ensures Spending(spent, wallet.lockedCoins) == SpendInputs(Spending(old(spent), old(wallet.lockedCoins)), tx.vin)
      ensures orderedTxmap == AddOrdered(old(orderedTxmap), tx)
      ensures heightOrder == (if !IsConfirmed(tx) || tx.blockHeight in old(orderedTxmap) then old(heightOrder) else old(heightOrder) + [tx.blockHeight])
      ensures Extends(outputsMemo, old(wallet.knownPKH))
      ensures wallet.Own() == AfterUses(wallet.key, wallet.codec,
                OwnState(old(wallet.ownAddresses), outputsMemo, old(wallet.loadedIndexes), old(wallet.highestUsedIndices)), tx.vout)
      ensures var u := LastUnlock(Spending(old(spent), old(wallet.lockedCoins)), tx.vin);
        && (u.None? ==>
              && outputsMemo == old(wallet.knownPKH)
              && balance == old(balance) && coldBalance == old(coldBalance) && immatureBalance == old(immatureBalance))
        && (u.Some? ==>
              && Extends(unlockMemo, old(wallet.knownPKH))
              && Coherent(wallet.classifierOf(old(wallet.ownAddresses)))
              && Scan(Balance(balance, coldBalance, immatureBalance), outputsMemo) == BalancesWith(old(wallet.ownAddresses), u.value, chainHeight, unlockMemo))
    {
      StoreTx(tx);
      unlockMemo := SpendInputsOf(tx.vin, chainHeight);
      outputsMemo := wallet.knownPKH;
      UseOutputs(tx.vout);
      AddToOrderedTxMap(tx);
    }

    /** updateMempool's `txmap.set(tx.txid, tx)`: a new txid goes last in iteration order. */
    method StoreTx(tx: Transaction)
      requires TxIndexWf(txOrder, txmap)
      modifies this`txOrder, this`txmap
      ensures txmap == old(txmap)[tx.txid := tx]
      ensures txOrder == (if tx.txid in old(txmap) then old(txOrder) else old(txOrder) + [tx.txid])
      ensures TxIndexWf(txOrder, txmap)
    {
      StoreKeepsIndex(txOrder, txmap, tx);
      if tx.txid !in txmap {
        txOrder := txOrder + [tx.txid];
      }
      txmap := txmap[tx.txid := tx];
    }

    /** reset's first half: empty the txmap, the spent multimap and the height index. */
    method Clear()
      modifies this`txOrder, this`txmap, this`spent, this`orderedTxmap, this`heightOrder
      ensures txOrder == [] && txmap == map[] && spent == map[] && orderedTxmap == map[] && heightOrder == []
      ensures TxIndexWf(txOrder, txmap) && OrderedWf(orderedTxmap) && HeightIndexWf(heightOrder, orderedTxmap)
      ensures Txs() == []
    {
      txmap := map[];
      txOrder := [];
      spent := map[];
      orderedTxmap := map[];
      heightOrder := [];
    }

    /** reset: empty the maps, zero the balances, and start saving from height 0 again. */
    method Reset(chainHeight: int)
      requires wallet.Valid()
      modifies this`txOrder, this`txmap, this`spent, this`orderedTxmap, this`heightOrder
      modifies this`balance, this`coldBalance, this`immatureBalance, this`highestSavedHeight, wallet`knownPKH
      ensures Valid()
      ensures txOrder == [] && txmap == map[] && spent == map[] && orderedTxmap == map[] && heightOrder == []
      ensures balance == 0 && coldBalance == 0 && immatureBalance == 0
      ensures wallet.knownPKH == old(wallet.knownPKH)
      ensures highestSavedHeight == Some(0)
    {
      Clear();
      SetBalance(chainHeight);
      BalancesOfNothing(ViewAt(chainHeight), old(wallet.knownPKH));
      highestSavedHeight := Some(0);
    }

    /** The wallet's reset for the main wallet: forget the address windows, then reset the Mempool. */
    method ResetWallet(chainHeight: int)
      requires Valid()
      modifies wallet`ownAddresses, wallet`highestUsedIndices, wallet`loadedIndexes, wallet`addressIndices
      modifies this`txOrder, this`txmap, this`spent, this`orderedTxmap, this`heightOrder
      modifies this`balance, this`coldBalance, this`immatureBalance, this`highestSavedHeight, wallet`knownPKH
      ensures Valid()
      ensures wallet.ownAddresses == map[] && wallet.addressIndices == map[0 := 0, 1 := 0]
      ensures wallet.highestUsedIndices == map[0 := 0, 1 := 0] && wallet.loadedIndexes == map[0 := 0, 1 := 0]
      ensures txOrder == [] && txmap == map[] && spent == map[] && orderedTxmap == map[] && heightOrder == []
      ensures balance == 0 && coldBalance == 0 && immatureBalance == 0
      ensures highestSavedHeight == Some(0)
    {
      wallet.Reset();
      Reset(chainHeight);
    }

    /** saveOnDisk's loop over `heights`: store each height's transactions until one lies below the watermark. */
    method StoreHeights(db: Database, heights: seq<int>)
      requires forall k :: 0 <= k < |heights| ==> heights[k] in orderedTxmap
      modifies db`txs
      ensures db.txs == SaveHeights(old(db.txs), orderedTxmap, heights, highestSavedHeight)
    {
      assert heights[0..] == heights;
      for i := 0 to |heights|
        invariant SaveHeights(old(db.txs), orderedTxmap, heights, highestSavedHeight)
               == SaveHeights(db.txs, orderedTxmap, heights[i..], highestSavedHeight)
      {
        assert heights[i..][1..] == heights[i + 1..];
        var h := heights[i];
        if highestSavedHeight.Some? && highestSavedHeight.value > h {
          break;
        }
        StoreList(db, orderedTxmap[h]);
      }
    }

    /**
     * saveOnDisk(db): visit the heights highest first, storing every
     * transaction of each, until a height below the watermark; then move the
     * watermark to the highest height. With no heights nothing happens.
     * `visited` is the index's heights, highest first, in the order visited.
     */
    method SaveOnDisk(db: Database) returns (ghost visited: seq<int>)
      requires Valid()
      modifies db`txs, this`highestSavedHeight
      ensures Descending(visited) && forall h :: h in orderedTxmap <==> h in visited
      ensures forall k :: 0 <= k < |visited| ==> visited[k] in orderedTxmap
      ensures db.txs == SaveHeights(old(db.txs), orderedTxmap, visited, old(highestSavedHeight))
      ensures orderedTxmap == map[] ==> db.txs == old(db.txs) && highestSavedHeight == old(highestSavedHeight)
      ensures StoredAbove(old(db.txs), db.txs, orderedTxmap, old(highestSavedHeight))
      ensures orderedTxmap != map[] ==> highestSavedHeight.Some? && IsHighest(highestSavedHeight.value, orderedTxmap)
    {
      var ascending := SortAscending(heightOrder);
      HighestOfAscending(ascending, orderedTxmap);
      visited := [];
      if |ascending| == 0 {
        return;
      }
      var heights := Reversed(ascending);
      visited := heights;
      ReversedAscending(ascending);
      SaveHeightsStoredAbove(db.txs, orderedTxmap, heights, highestSavedHeight);
      StoreHeights(db, heights);
      highestSavedHeight := Some(heights[0]);
    }

    /** loadFromDisk's first loop: addToOrderedTxMap for every stored transaction. */
    method IndexStored(stored: seq<Transaction>)
      requires OrderedWf(orderedTxmap) && HeightIndexWf(heightOrder, orderedTxmap)
      modifies this`orderedTxmap, this`heightOrder
      ensures OrderedWf(orderedTxmap) && HeightIndexWf(heightOrder, orderedTxmap)
      ensures forall k :: 0 <= k < |stored| && IsConfirmed(stored[k]) ==> Indexed(orderedTxmap, stored[k])
    {
      for i := 0 to |stored|
        invariant OrderedWf(orderedTxmap) && HeightIndexWf(heightOrder, orderedTxmap)
        invariant forall k :: 0 <= k < i && IsConfirmed(stored[k]) ==> Indexed(orderedTxmap, stored[k])
      {
        ghost var m0 := orderedTxmap;
        AddToOrderedTxMap(stored[i]);
        AddOrderedSpec(m0, stored[i]);
        forall k | 0 <= k < i && IsConfirmed(stored[k])
          ensures Indexed(orderedTxmap, stored[k])
        {
          HasTxidPrefix(m0[stored[k].blockHeight], orderedTxmap[stored[k].blockHeight], stored[k].txid);
        }
      }
    }

    /** One replayed transaction: updateMempool on a transaction already indexed leaves the index as it is and stores the transaction. */
    method Replay(tx: Transaction, chainHeight: int)
      requires Valid() && Indexed(orderedTxmap, tx)
      modifies this`txOrder, this`txmap, this`spent, this`orderedTxmap, this`heightOrder
      modifies this`balance, this`coldBalance, this`immatureBalance
      modifies wallet`knownPKH, wallet`lockedCoins, wallet`ownAddresses, wallet`loadedIndexes, wallet`highestUsedIndices
      ensures Valid()
      ensures orderedTxmap == old(orderedTxmap) && heightOrder == old(heightOrder)
      ensures old(txmap).Keys <= txmap.Keys && tx.txid in txmap
    {
      var _, _ := UpdateMempool(tx, chainHeight);
    }

    /** loadFromDisk's replay of one height: updateMempool for each transaction indexed there, which leaves the index as it is. */
    method ReplayHeight(h: int, chainHeight: int)
      requires Valid() && h in orderedTxmap
      modifies this`txOrder, this`txmap, this`spent, this`orderedTxmap, this`heightOrder
      modifies this`balance, this`coldBalance, this`immatureBalance
      modifies wallet`knownPKH, wallet`lockedCoins, wallet`ownAddresses, wallet`loadedIndexes, wallet`highestUsedIndices
      ensures Valid()
      ensures orderedTxmap == old(orderedTxmap) && heightOrder == old(heightOrder)
      ensures old(txmap).Keys <= txmap.Keys
      ensures forall k :: 0 <= k < |orderedTxmap[h]| ==> orderedTxmap[h][k].txid in txmap
    {
      var list := orderedTxmap[h];
      for k := 0 to |list|
        invariant Valid()
        invariant orderedTxmap == old(orderedTxmap) && heightOrder == old(heightOrder)
        invariant old(txmap).Keys <= txmap.Keys
        invariant forall k' :: 0 <= k' < k ==> list[k'].txid in txmap
      {
        AddOrderedIndexed(orderedTxmap, h, k);
        Replay(list[k], chainHeight);
      }
    }

    /** loadFromDisk's replay in ascending height order. */
    method ReplayHeights(heights: seq<int>, chainHeight: int)
      requires Valid() && forall a :: 0 <= a < |heights| ==> heights[a] in orderedTxmap
      modifies this`txOrder, this`txmap, this`spent, this`orderedTxmap, this`heightOrder
      modifies this`balance, this`coldBalance, this`immatureBalance
      modifies wallet`knownPKH, wallet`lockedCoins, wallet`ownAddresses, wallet`loadedIndexes, wallet`highestUsedIndices
      ensures Valid()
      ensures orderedTxmap == old(orderedTxmap) && heightOrder == old(heightOrder)
      ensures forall a, k :: 0 <= a < |heights| && 0 <= k < |orderedTxmap[heights[a]]| ==> orderedTxmap[heights[a]][k].txid in txmap
    {
      for i := 0 to |heights|
        invariant Valid()
        invariant orderedTxmap == old(orderedTxmap) && heightOrder == old(heightOrder)
        invariant forall a, k :: 0 <= a < i && 0 <= k < |orderedTxmap[heights[a]]| ==> orderedTxmap[heights[a]][k].txid in txmap
      {
        ReplayHeight(heights[i], chainHeight);
      }
    }

    /**
     * loadFromDisk(db): a store bound to another account (or to none) is
     * emptied and re-bound to this wallet's export key; an empty store loads
     * nothing; otherwise every stored transaction is indexed by height, and
     * the indexed ones are replayed through updateMempool in ascending height
     * order. The highest height becomes the watermark and the network's last
     * synced block, returned as `lastBlockSynced`.
     */
    method LoadFromDisk(db: Database, chainHeight: int) returns (outcome: LoadOutcome, lastBlockSynced: Option<int>)
      requires Valid()
      modifies this, db, wallet
      ensures Valid()
      ensures db.account == Some(wallet.key.keyToExport)
      ensures outcome == AccountReset <==> old(db.account) != Some(wallet.key.keyToExport)
      ensures outcome == NothingStored <==> old(db.account) == Some(wallet.key.keyToExport) && old(db.txs) == map[]
      ensures outcome == AccountReset ==> db.txs == map[]
      ensures outcome != Loaded ==> unchanged(this) && unchanged(wallet) && lastBlockSynced == None
      ensures outcome == Loaded ==>
        && db.txs == old(db.txs)
        && (forall id :: id in db.txs && IsConfirmed(db.txs[id]) ==> Indexed(orderedTxmap, db.txs[id]))
        && (forall h, k :: h in orderedTxmap && 0 <= k < |orderedTxmap[h]| ==> orderedTxmap[h][k].txid in txmap)
        && lastBlockSynced == highestSavedHeight
        && (orderedTxmap == map[] ==> highestSavedHeight == None)
        && (orderedTxmap != map[] ==> highestSavedHeight.Some? && IsHighest(highestSavedHeight.value, orderedTxmap))
    {
      lastBlockSynced := None;
      if db.account != Some(wallet.key.keyToExport) {
        db.RemoveAllTxs();
        db.RemoveAccount();
        var _ := db.AddAccount(wallet.key.keyToExport);
        return AccountReset, None;
      }
      var stored := db.GetTxs();
      if |stored| == 0 {
        assert db.txs == map[];
        return NothingStored, None;
      }
      outcome := Loaded;
      assert stored[0] in db.txs.Values;
      assert old(db.txs) != map[];

      IndexStored(stored);
      ghost var indexed: Heights := orderedTxmap;
      var heights := SortAscending(heightOrder);
      HighestOfAscending(heights, indexed);
      ReplayHeights(heights, chainHeight);
      forall h, k | h in orderedTxmap && 0 <= k < |orderedTxmap[h]|
        ensures orderedTxmap[h][k].txid in txmap
      {
        var a :| 0 <= a < |heights| && heights[a] == h;
      }

      highestSavedHeight := if |heights| == 0 then None else Some(heights[|heights| - 1]);
      lastBlockSynced := highestSavedHeight;
    }
  }
}
