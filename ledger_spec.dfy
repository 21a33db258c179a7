/**
 * The pure side of the Mempool in scripts/mempool.js: the height index
 * (orderedTxmap) and its no-duplicate rule, the spent multimap and the
 * locks freed by spending, the three balances of setBalance, and the
 * watermark rule of saveOnDisk.
 */
module LedgerSpec {
  import opened Wrappers
  import opened Transactions
  import opened Ownership
  import opened Scans
  import opened Persistence

  // ---------------------------------------------------------------- txmap

  /**
   * The txmap as a JavaScript Map: its keys in insertion order, each key once,
   * and each transaction stored under its own txid.
   */
  ghost predicate TxIndexWf(order: seq<TxId>, txmap: map<TxId, Transaction>)
  {
    && (forall k :: 0 <= k < |order| ==> order[k] in txmap)
    && (forall id :: id in txmap ==> id in order)
    && (forall j, k :: 0 <= j < k < |order| ==> order[j] != order[k])
    && (forall id :: id in txmap ==> txmap[id].txid == id)
  }

  /** The transactions of the txmap in iteration order. */
  function InOrder(order: seq<TxId>, txmap: map<TxId, Transaction>): (r: seq<Transaction>)
    requires forall k :: 0 <= k < |order| ==> order[k] in txmap
  {
    seq(|order|, k requires 0 <= k < |order| => txmap[order[k]])
  }

  /** Map.set: a new key goes to the end, an existing key keeps its place. */
  lemma {:induction false} StoreKeepsIndex(order: seq<TxId>, txmap: map<TxId, Transaction>, tx: Transaction)
    requires TxIndexWf(order, txmap)
    ensures TxIndexWf(if tx.txid in txmap then order else order + [tx.txid], txmap[tx.txid := tx])
  {
    var order' := if tx.txid in txmap then order else order + [tx.txid];
    if tx.txid !in txmap {
      forall j, k | 0 <= j < k < |order'|
        ensures order'[j] != order'[k]
      {
        if k == |order| {
          assert order'[j] == order[j] && order[j] in txmap;
        }
      }
    }
  }

  // ---------------------------------------------------------------- orderedTxmap

  /** The height multimap. */
  type Heights = map<int, seq<Transaction>>

  predicate HasTxid(txs: seq<Transaction>, id: TxId)
  {
    exists k :: 0 <= k < |txs| && txs[k].txid == id
  }

  /** Every height holds confirmed transactions of that height, each txid once. */
  ghost predicate OrderedWf(m: Heights)
  {
    forall h :: h in m ==>
      && h != PENDING_HEIGHT
      && (forall k :: 0 <= k < |m[h]| ==> m[h][k].blockHeight == h)
      && (forall j, k :: 0 <= j < k < |m[h]| ==> m[h][j].txid != m[h][k].txid)
  }

  /** `tx`'s txid is listed under its height. */
  predicate Indexed(m: Heights, tx: Transaction)
  {
    tx.blockHeight in m && HasTxid(m[tx.blockHeight], tx.txid)
  }

  /** addToOrderedTxMap: a confirmed transaction is appended under its height unless its txid is already there. */
  function AddOrdered(m: Heights, tx: Transaction): Heights
  {
    if !IsConfirmed(tx) then m
    else if tx.blockHeight in m && HasTxid(m[tx.blockHeight], tx.txid) then m
    else m[tx.blockHeight := (if tx.blockHeight in m then m[tx.blockHeight] else []) + [tx]]
  }

  /**
   * An unconfirmed transaction is not indexed; a confirmed one is found under
   * its height afterwards, and nothing changes if it was already there; other
   * heights are untouched, lists only grow, and the index stays well formed.
   */
  lemma AddOrderedSpec(m: Heights, tx: Transaction)
    ensures var r := AddOrdered(m, tx);
      && (!IsConfirmed(tx) ==> r == m)
      && (IsConfirmed(tx) ==> Indexed(r, tx))
      && (Indexed(m, tx) ==> r == m)
      && m.Keys <= r.Keys && (forall h :: h in m ==> m[h] <= r[h])
      && (forall h :: h in r && h != tx.blockHeight ==> h in m && r[h] == m[h])
      && (OrderedWf(m) ==> OrderedWf(r))
  {
    if IsConfirmed(tx) && !Indexed(m, tx) {
      var list := if tx.blockHeight in m then m[tx.blockHeight] else [];
      assert (list + [tx])[|list|] == tx;
    }
  }

  /** Adding a transaction twice is adding it once. */
  lemma AddOrderedIdempotent(m: Heights, tx: Transaction)
    ensures AddOrdered(AddOrdered(m, tx), tx) == AddOrdered(m, tx)
  {
    AddOrderedSpec(m, tx);
  }

  /** Adding a transaction that is already indexed under its own height changes nothing; loadFromDisk's replay relies on it. */
  lemma AddOrderedIndexed(m: Heights, h: int, k: nat)
    requires OrderedWf(m) && h in m && k < |m[h]|
    ensures AddOrdered(m, m[h][k]) == m
  {
    assert m[h][k].blockHeight == h;
  }

  // ---------------------------------------------------------------- spent

  /** spent.set(txid, op): append to the list under txid, duplicates kept. */
  function Record(spent: SpentIndex, txid: TxId, op: Outpoint): (r: SpentIndex)
    ensures txid == op.txid ==> IsSpent(r, op)
    ensures forall o :: IsSpent(spent, o) ==> IsSpent(r, o)
    ensures forall o :: IsSpent(r, o) ==> IsSpent(spent, o) || (o.txid == txid && o.n == op.n)
  {
    var list := if txid in spent then spent[txid] else [];
    var r := spent[txid := list + [op]];
    assert (list + [op])[|list|] == op;
    assert txid == op.txid ==> r[op.txid][|list|].n == op.n;
    assert forall o :: IsSpent(spent, o) ==> IsSpent(r, o) by {
      forall o | IsSpent(spent, o)
        ensures IsSpent(r, o)
      {
        var k :| 0 <= k < |spent[o.txid]| && spent[o.txid][k].n == o.n;
        if o.txid == txid {
          assert r[o.txid][k] == spent[o.txid][k];
        }
      }
    }
    assert forall o :: IsSpent(r, o) ==> IsSpent(spent, o) || (o.txid == txid && o.n == op.n) by {
      forall o | IsSpent(r, o) && !(o.txid == txid && o.n == op.n)
        ensures IsSpent(spent, o)
      {
        var k :| 0 <= k < |r[o.txid]| && r[o.txid][k].n == o.n;
        if o.txid == txid {
          assert k < |list| && r[o.txid][k] == list[k];
        }
      }
    }
    r
  }

  /** The spent multimap together with the wallet's locked coins, which spending an outpoint unlocks. */
  datatype Spending = Spending(spent: SpentIndex, locked: set<string>)

  /** updateMempool's step for one input: an outpoint not yet spent is recorded (setSpent) and unlocked. */
  function SpendInput(s: Spending, op: Outpoint): (r: Spending)
    ensures IsSpent(r.spent, op)
  {
    if IsSpent(s.spent, op) then s
    else Spending(Record(s.spent, op.txid, op), s.locked - {ToUnique(op)})
  }

  /** updateMempool's loop over the inputs, in order. */
  function SpendInputs(s: Spending, vins: seq<TxIn>): Spending
    decreases |vins|
  {
    if |vins| == 0 then s else SpendInput(SpendInputs(s, vins[..|vins| - 1]), vins[|vins| - 1].outpoint)
  }

  /** After the inputs are spent: everything spent before still is, every input is, and nothing else is. */
  lemma {:induction false} SpendInputsSpent(s: Spending, vins: seq<TxIn>)
    ensures var r := SpendInputs(s, vins);
      && (forall o :: IsSpent(s.spent, o) ==> IsSpent(r.spent, o))
      && (forall k :: 0 <= k < |vins| ==> IsSpent(r.spent, vins[k].outpoint))
      && (forall o :: IsSpent(r.spent, o) ==> IsSpent(s.spent, o) || exists k :: 0 <= k < |vins| && vins[k].outpoint == o)
    decreases |vins|
  {
    if |vins| > 0 {
      var init := vins[..|vins| - 1];
      SpendInputsSpent(s, init);
      var p := SpendInputs(s, init);
      var op := vins[|vins| - 1].outpoint;
      var r := SpendInput(p, op);
      assert forall k :: 0 <= k < |init| ==> init[k] == vins[k];
      forall o | IsSpent(r.spent, o) && !IsSpent(s.spent, o)
        ensures exists k :: 0 <= k < |vins| && vins[k].outpoint == o
      {
        if !IsSpent(p.spent, o) {
          assert o == op;
        } else {
          var k :| 0 <= k < |init| && init[k].outpoint == o;
          assert vins[k].outpoint == o;
        }
      }
    }
  }

  /** Spending the inputs only releases locks, each one an input's. */
  lemma {:induction false} SpendInputsReleases(s: Spending, vins: seq<TxIn>)
    ensures var r := SpendInputs(s, vins);
      && r.locked <= s.locked
      && (forall c :: c in s.locked && c !in r.locked ==> exists k :: 0 <= k < |vins| && ToUnique(vins[k].outpoint) == c)
    decreases |vins|
  {
    if |vins| > 0 {
      var init := vins[..|vins| - 1];
      SpendInputsReleases(s, init);
      var p := SpendInputs(s, init);
      var op := vins[|vins| - 1].outpoint;
      var r := SpendInput(p, op);
      forall c | c in s.locked && c !in r.locked
        ensures exists k :: 0 <= k < |vins| && ToUnique(vins[k].outpoint) == c
      {
        if c in p.locked {
          assert c == ToUnique(op);
        } else {
          var k :| 0 <= k < |init| && ToUnique(init[k].outpoint) == c;
          assert vins[k] == init[k];
        }
      }
    }
  }

  /** Every input that was not spent before ends up unlocked. */
  lemma {:induction false} SpendInputsUnlocks(s: Spending, vins: seq<TxIn>)
    ensures forall k :: 0 <= k < |vins| && !IsSpent(s.spent, vins[k].outpoint) ==> ToUnique(vins[k].outpoint) !in SpendInputs(s, vins).locked
    decreases |vins|
  {
    if |vins| > 0 {
      var init := vins[..|vins| - 1];
      SpendInputsUnlocks(s, init);
      SpendInputsSpent(s, init);
      var p := SpendInputs(s, init);
      var op := vins[|vins| - 1].outpoint;
      var r := SpendInput(p, op);
      if IsSpent(p.spent, op) {
        assert r == p;
      } else {
        assert r.locked == p.locked - {ToUnique(op)};
      }
      forall k | 0 <= k < |vins| && !IsSpent(s.spent, vins[k].outpoint)
        ensures ToUnique(vins[k].outpoint) !in r.locked
      {
        if k < |init| {
          assert init[k] == vins[k];
        } else if IsSpent(p.spent, op) {
          var k' :| 0 <= k' < |init| && init[k'].outpoint == op;
          assert init[k'] == vins[k'];
        }
      }
    }
  }

  /**
   * The Spending right after the last input whose setSpent found its coin
   * locked and unlocked it (the unlock that makes the wallet recompute the
   * balances); None when no input unlocked a coin.
   */
  function LastUnlock(s: Spending, vins: seq<TxIn>): Option<Spending>
    decreases |vins|
  {
    if |vins| == 0 then None
    else
      var p := SpendInputs(s, vins[..|vins| - 1]);
      var op := vins[|vins| - 1].outpoint;
      if !IsSpent(p.spent, op) && ToUnique(op) in p.locked then Some(SpendInput(p, op))
      else LastUnlock(s, vins[..|vins| - 1])
  }

  /** Some input unlocks a coin exactly when spending the inputs changes the locked coins, and the last unlock only removed locks. */
  lemma {:induction false} LastUnlockIff(s: Spending, vins: seq<TxIn>)
    ensures LastUnlock(s, vins).None? <==> SpendInputs(s, vins).locked == s.locked
    ensures LastUnlock(s, vins).Some? ==> LastUnlock(s, vins).value.locked < s.locked
    decreases |vins|
  {
    if |vins| > 0 {
      var init := vins[..|vins| - 1];
      LastUnlockIff(s, init);
      SpendInputsReleases(s, init);
      var p := SpendInputs(s, init);
      var op := vins[|vins| - 1].outpoint;
      var r := SpendInput(p, op);
      if !IsSpent(p.spent, op) && ToUnique(op) in p.locked {
        assert ToUnique(op) in s.locked && ToUnique(op) !in r.locked;
      } else {
        assert r.locked == p.locked;
      }
    }
  }

  // ---------------------------------------------------------------- scan loops

  /** A scan's picks appended to those made before it. */
  function Joined(before: seq<TxOut>, p: Pick): Pick
  {
    Pick(before + p.utxos, p.found, p.stop, p.memo)
  }

  /** A scan's sum added to the running total before it. */
  function Carried(sum: nat, s: Scan<nat>): Scan<nat>
  {
    Scan(sum + s.value, s.memo)
  }

  /** One output of getBalance's inner loop, with the running total carried. */
  lemma {:induction false} VoutsBalanceCarry(v: View, filter: Flags, vouts: seq<TxOut>, sum: nat, memo: Memo)
    requires Coherent(v.classify) && |vouts| > 0
    ensures Carried(sum, VoutsBalance(v, filter, vouts, memo))
         == Carried(sum + (if Counts(v, filter, memo, vouts[0]) then vouts[0].value else 0),
                    VoutsBalance(v, filter, vouts[1..], Visit(v, memo, vouts[0])))
  {
    VoutsBalanceStep(v, filter, vouts, memo);
  }

  /** One transaction of getBalance's outer loop, with the running total carried. */
  lemma {:induction false} TxsBalanceCarry(v: View, filter: Flags, txs: seq<Transaction>, sum: nat, memo: Memo)
    requires Coherent(v.classify) && |txs| > 0
    ensures Carried(sum, TxsBalance(v, filter, txs, memo))
         == if !InBalance(v, filter, txs[0]) then Carried(sum, TxsBalance(v, filter, txs[1..], memo))
            else
              var a := VoutsBalance(v, filter, txs[0].vout, memo);
              Carried(sum + a.value, TxsBalance(v, filter, txs[1..], a.memo))
  {
    TxsBalanceStep(v, filter, txs, memo);
  }

  /** One output of getUTXOs' inner loop, with the outputs picked before it. */
  lemma {:induction false} VoutsPickCarry(v: View, q: Query, vouts: seq<TxOut>, before: seq<TxOut>, found: nat, memo: Memo)
    requires Coherent(v.classify) && |vouts| > 0
    ensures var o := vouts[0];
      var m1 := Visit(v, memo, o);
      Joined(before, VoutsPick(v, q, vouts, found, memo))
      == if !Takes(v, q, memo, o) then Joined(before, VoutsPick(v, q, vouts[1..], found, m1))
         else if Enough(q, found + o.value) then Pick(before + [o], found + o.value, true, m1)
         else Joined(before + [o], VoutsPick(v, q, vouts[1..], found + o.value, m1))
  {
    VoutsPickStep(v, q, vouts, found, memo);
    var o := vouts[0];
    var m1 := Visit(v, memo, o);
    if !Takes(v, q, memo, o) {
    } else if Enough(q, found + o.value) {
    } else {
      var rest := VoutsPick(v, q, vouts[1..], found + o.value, m1);
      assert VoutsPick(v, q, vouts, found, memo) == Pick([o] + rest.utxos, rest.found, rest.stop, rest.memo);
      assert (before + [o]) + rest.utxos == before + ([o] + rest.utxos);
    }
  }

  /** One transaction of getUTXOs' outer loop, with the outputs picked before it. */
  lemma {:induction false} TxsPickCarry(v: View, q: Query, txs: seq<Transaction>, before: seq<TxOut>, found: nat, memo: Memo)
    requires Coherent(v.classify) && |txs| > 0
    ensures Joined(before, TxsPick(v, q, txs, found, memo))
         == if !TxEligible(v, q, txs[0]) then Joined(before, TxsPick(v, q, txs[1..], found, memo))
            else
              var a := VoutsPick(v, q, txs[0].vout, found, memo);
              if a.stop then Joined(before, a)
              else Joined(before + a.utxos, TxsPick(v, q, txs[1..], a.found, a.memo))
  {
    if TxEligible(v, q, txs[0]) {
      var a := VoutsPick(v, q, txs[0].vout, found, memo);
      if !a.stop {
        var b := TxsPick(v, q, txs[1..], a.found, a.memo).utxos;
        assert (before + a.utxos) + b == before + (a.utxos + b);
      }
    }
  }

  // ---------------------------------------------------------------- setBalance

  /** The three balances setBalance keeps. */
  datatype Balance = Balance(spendable: nat, cold: nat, immature: int)

  /**
   * setBalance: the SPENDABLE balance, the SPENDABLE_COLD balance, and the
   * SPENDABLE|IMMATURE balance less the first, scanned one after another so
   * that each scan starts from the memo the previous one left.
   */
  function Balances(v: View, txs: seq<Transaction>, memo: Memo): (r: Scan<Balance>)
    requires Coherent(v.classify)
    ensures r.value.immature >= 0
    ensures Extends(r.memo, memo)
  {
    var b := TxsBalance(v, SPENDABLE, txs, memo);
    var c := TxsBalance(v, SPENDABLE_COLD, txs, b.memo);
    var i := TxsBalance(v, SPENDABLE | IMMATURE, txs, c.memo);
    SpendableWithinImmatureFilter();
    ExtendsTransitive(c.memo, b.memo, memo);
    ExtendsTransitive(i.memo, c.memo, memo);
    TxsBalanceMonotone(v, SPENDABLE, SPENDABLE | IMMATURE, txs, memo, c.memo);
    Scan(Balance(b.value, c.value, i.value - b.value), i.memo)
  }

  /** With no transactions every balance is zero. */
  lemma BalancesOfNothing(v: View, memo: Memo)
    requires Coherent(v.classify)
    ensures Balances(v, [], memo) == Scan(Balance(0, 0, 0), memo)
  {
  }

  // ---------------------------------------------------------------- saveOnDisk / loadFromDisk

  predicate Distinct(hs: seq<int>)
  {
    forall j, k :: 0 <= j < k < |hs| ==> hs[j] != hs[k]
  }

  /** orderedTxmap's heights in the order its backing Map iterates them: each once, exactly its keys. */
  ghost predicate HeightIndexWf(order: seq<int>, m: Heights)
  {
    Distinct(order) && forall h :: h in m <==> h in order
  }

  /** A txid found in a list is found in any extension of it. */
  lemma HasTxidPrefix(a: seq<Transaction>, b: seq<Transaction>, id: TxId)
    requires a <= b && HasTxid(a, id)
    ensures HasTxid(b, id)
  {
    var k :| 0 <= k < |a| && a[k].txid == id;
    assert b[k] == a[k];
  }

  predicate Ascending(hs: seq<int>)
  {
    forall j, k :: 0 <= j < k < |hs| ==> hs[j] < hs[k]
  }

  predicate Descending(hs: seq<int>)
  {
    forall j, k :: 0 <= j < k < |hs| ==> hs[j] > hs[k]
  }

  /** Place `x` in an ascending sequence of heights. */
  function InsertAscending(hs: seq<int>, x: int): (r: seq<int>)
    requires Ascending(hs) && x !in hs
    ensures Ascending(r) && |r| == |hs| + 1
    ensures forall h :: h in r <==> h in hs || h == x
  {
    if |hs| == 0 then [x]
    else if x < hs[0] then [x] + hs
    else
      var rest := InsertAscending(hs[1..], x);
      assert forall h :: h in hs <==> h == hs[0] || h in hs[1..];
      assert forall k :: 0 <= k < |rest| ==> rest[k] in hs[1..] || rest[k] == x;
      assert forall k :: 0 <= k < |rest| ==> hs[0] < rest[k];
      [hs[0]] + rest
  }

  /** Array.reverse. */
  function Reversed(hs: seq<int>): (r: seq<int>)
    ensures |r| == |hs|
  {
    seq(|hs|, k requires 0 <= k < |hs| => hs[|hs| - 1 - k])
  }

  /** Reversing an ascending list gives a descending one with the same heights, the largest first. */
  lemma ReversedAscending(hs: seq<int>)
    requires Ascending(hs)
    ensures Descending(Reversed(hs))
    ensures forall h :: h in Reversed(hs) <==> h in hs
    ensures |hs| > 0 ==> Reversed(hs)[0] == hs[|hs| - 1] && forall h :: h in hs ==> h <= hs[|hs| - 1]
  {
    var r := Reversed(hs);
    forall h | h in hs
      ensures h in r
    {
      var k :| 0 <= k < |hs| && hs[k] == h;
      assert r[|hs| - 1 - k] == h;
    }
    forall h | h in r
      ensures h in hs
    {
      var k :| 0 <= k < |r| && r[k] == h;
      assert hs[|hs| - 1 - k] == h;
    }
  }

  /**
   * saveOnDisk's loop over the heights, highest first: every transaction of a
   * height is stored, until a height below the saved watermark ends the loop.
   * An absent watermark (undefined in the source) never ends it.
   */
  function SaveHeights(store: Store, ordered: Heights, heights: seq<int>, highest: Option<int>): (r: Store)
    requires forall k :: 0 <= k < |heights| ==> heights[k] in ordered
    ensures store.Keys <= r.Keys
    decreases |heights|
  {
    if |heights| == 0 then store
    else if highest.Some? && highest.value > heights[0] then store
    else SaveHeights(StoreAll(store, ordered[heights[0]]), ordered, heights[1..], highest)
  }

  /** `t` is indexed at one of `heights` that the watermark `highest` does not exclude. */
  ghost predicate InSaved(t: Transaction, ordered: Heights, heights: seq<int>, highest: Option<int>)
  {
    exists k, j :: 0 <= k < |heights| && heights[k] in ordered && AtOrAbove(heights[k], highest) &&
      0 <= j < |ordered[heights[k]]| && ordered[heights[k]][j] == t
  }

  /** A transaction indexed at a later height of the list is indexed at a height of the list. */
  lemma InSavedTail(t: Transaction, ordered: Heights, heights: seq<int>, highest: Option<int>)
    requires |heights| > 0 && InSaved(t, ordered, heights[1..], highest)
    ensures InSaved(t, ordered, heights, highest)
  {
    var k, j :| 0 <= k < |heights[1..]| && heights[1..][k] in ordered && AtOrAbove(heights[1..][k], highest) &&
      0 <= j < |ordered[heights[1..][k]]| && ordered[heights[1..][k]][j] == t;
    assert heights[k + 1] == heights[1..][k];
  }

  /** A transaction of the first height of the list, when the watermark does not exclude it. */
  lemma InSavedHead(t: Transaction, ordered: Heights, heights: seq<int>, highest: Option<int>)
    requires |heights| > 0 && heights[0] in ordered && AtOrAbove(heights[0], highest) && t in ordered[heights[0]]
    ensures InSaved(t, ordered, heights, highest)
  {
    var j :| 0 <= j < |ordered[heights[0]]| && ordered[heights[0]][j] == t;
  }

  /**
   * Nothing below the watermark is stored: an entry that is new or changed
   * holds a transaction indexed at a height at or above it, under its own txid.
   */
  lemma {:induction false} SaveHeightsOnlyAboveWatermark(store: Store, ordered: Heights, heights: seq<int>, highest: Option<int>)
    requires forall k :: 0 <= k < |heights| ==> heights[k] in ordered
    ensures var r := SaveHeights(store, ordered, heights, highest);
      forall id :: id in r && (id !in store || r[id] != store[id]) ==> r[id].txid == id && InSaved(r[id], ordered, heights, highest)
    decreases |heights|
  {
    if |heights| > 0 && !(highest.Some? && highest.value > heights[0]) {
      var s1 := StoreAll(store, ordered[heights[0]]);
      var r := SaveHeights(store, ordered, heights, highest);
      SaveHeightsOnlyAboveWatermark(s1, ordered, heights[1..], highest);
      forall id | id in r && (id !in store || r[id] != store[id])
        ensures r[id].txid == id && InSaved(r[id], ordered, heights, highest)
      {
        if id in s1 && r[id] == s1[id] {
          InSavedHead(r[id], ordered, heights, highest);
        } else {
          InSavedTail(r[id], ordered, heights, highest);
        }
      }
    }
  }

  /** One transaction indexed at a height the watermark does not exclude: its txid is stored, holding a transaction so indexed. */
  lemma {:induction false} SaveHeightsStoresOne(store: Store, ordered: Heights, heights: seq<int>, highest: Option<int>, k: nat, j: nat)
    requires forall k :: 0 <= k < |heights| ==> heights[k] in ordered
    requires Descending(heights)
    requires k < |heights| && AtOrAbove(heights[k], highest) && j < |ordered[heights[k]]|
    ensures var r := SaveHeights(store, ordered, heights, highest);
      var id := ordered[heights[k]][j].txid;
      id in r && r[id].txid == id && InSaved(r[id], ordered, heights, highest)
    decreases |heights|
  {
    if k > 0 {
      assert heights[k] < heights[0];
      var s1 := StoreAll(store, ordered[heights[0]]);
      assert heights[k] == heights[1..][k - 1];
      SaveHeightsStoresOne(s1, ordered, heights[1..], highest, k - 1, j);
      var r := SaveHeights(s1, ordered, heights[1..], highest);
      InSavedTail(r[ordered[heights[k]][j].txid], ordered, heights, highest);
    } else {
      SaveHeightsStoresHead(store, ordered, heights, highest, j);
    }
  }

  /** The same for a transaction of the first height visited. */
  lemma SaveHeightsStoresHead(store: Store, ordered: Heights, heights: seq<int>, highest: Option<int>, j: nat)
    requires forall k :: 0 <= k < |heights| ==> heights[k] in ordered
    requires |heights| > 0 && AtOrAbove(heights[0], highest) && j < |ordered[heights[0]]|
    ensures var r := SaveHeights(store, ordered, heights, highest);
      var id := ordered[heights[0]][j].txid;
      id in r && r[id].txid == id && InSaved(r[id], ordered, heights, highest)
  {
    var list := ordered[heights[0]];
    var s1 := StoreAll(store, list);
    var id := list[j].txid;
    assert id in s1 && s1[id] in list && s1[id].txid == id;
    var r := SaveHeights(s1, ordered, heights[1..], highest);
    SaveHeightsOnlyAboveWatermark(s1, ordered, heights[1..], highest);
    if r[id] == s1[id] {
      InSavedHead(r[id], ordered, heights, highest);
    } else {
      InSavedTail(r[id], ordered, heights, highest);
    }
  }

  /**
   * Heights visited highest first: every transaction indexed at or above the
   * watermark has its txid stored, holding a transaction so indexed.
   */
  lemma SaveHeightsStoresAboveWatermark(store: Store, ordered: Heights, heights: seq<int>, highest: Option<int>)
    requires forall k :: 0 <= k < |heights| ==> heights[k] in ordered
    requires Descending(heights)
    ensures var r := SaveHeights(store, ordered, heights, highest);
      forall k, j :: 0 <= k < |heights| && AtOrAbove(heights[k], highest) && 0 <= j < |ordered[heights[k]]| ==>
        var id := ordered[heights[k]][j].txid;
        id in r && r[id].txid == id && InSaved(r[id], ordered, heights, highest)
  {
    forall k, j | 0 <= k < |heights| && AtOrAbove(heights[k], highest) && 0 <= j < |ordered[heights[k]]|
      ensures var r := SaveHeights(store, ordered, heights, highest);
        var id := ordered[heights[k]][j].txid;
        id in r && r[id].txid == id && InSaved(r[id], ordered, heights, highest)
    {
      SaveHeightsStoresOne(store, ordered, heights, highest, k, j);
    }
  }

  /** The watermark does not exclude height `h`: it is unset (undefined in the source) or not above `h`. */
  predicate AtOrAbove(h: int, saved: Option<int>)
  {
    saved.None? || h >= saved.value
  }

  /** Some transaction indexed at a height the watermark does not exclude has txid `id`. */
  ghost predicate Saves(ordered: Heights, saved: Option<int>, id: TxId)
  {
    exists h, j :: h in ordered && AtOrAbove(h, saved) && 0 <= j < |ordered[h]| && ordered[h][j].txid == id
  }

  /** `t` is indexed at a height the watermark does not exclude. */
  ghost predicate SavedCopy(t: Transaction, ordered: Heights, saved: Option<int>)
  {
    exists h, j :: h in ordered && AtOrAbove(h, saved) && 0 <= j < |ordered[h]| && ordered[h][j] == t
  }

  /**
   * What saveOnDisk leaves in the store: every txid indexed at or above the
   * watermark holds one of the transactions so indexed under that txid;
   * every other entry is as it was, and nothing else is added.
   */
  ghost predicate StoredAbove(before: Store, after: Store, ordered: Heights, saved: Option<int>)
  {
    && before.Keys <= after.Keys
    && (forall id :: Saves(ordered, saved, id) ==> id in after && after[id].txid == id && SavedCopy(after[id], ordered, saved))
    && (forall id :: id in before && !Saves(ordered, saved, id) ==> after[id] == before[id])
    && (forall id :: id in after && id !in before ==> Saves(ordered, saved, id))
  }

  /** `h` is the highest height of the index. */
  ghost predicate IsHighest(h: int, ordered: Heights)
  {
    h in ordered && forall k :: k in ordered ==> k <= h
  }

  /** The last of the heights of an index, listed in ascending order, is its highest; with none listed the index is empty. */
  lemma HighestOfAscending(hs: seq<int>, m: Heights)
    requires Ascending(hs) && forall h :: h in m <==> h in hs
    ensures |hs| == 0 ==> m == map[]
    ensures |hs| > 0 ==> IsHighest(hs[|hs| - 1], m)
  {
    if |hs| == 0 {
      assert forall h :: h !in m;
    } else {
      forall h | h in m
        ensures h <= hs[|hs| - 1]
      {
        var a :| 0 <= a < |hs| && hs[a] == h;
      }
    }
  }

  /** Saving every height of the index, highest first, stores exactly what the watermark lets through. */
  lemma {:induction false} SaveHeightsStoredAbove(store: Store, ordered: Heights, heights: seq<int>, saved: Option<int>)
    requires Descending(heights) && forall h :: h in ordered <==> h in heights
    ensures forall k :: 0 <= k < |heights| ==> heights[k] in ordered
    ensures StoredAbove(store, SaveHeights(store, ordered, heights, saved), ordered, saved)
  {
    assert forall k :: 0 <= k < |heights| ==> heights[k] in heights;
    var after := SaveHeights(store, ordered, heights, saved);
    SaveHeightsStoresAboveWatermark(store, ordered, heights, saved);
    SaveHeightsOnlyAboveWatermark(store, ordered, heights, saved);
    forall t | InSaved(t, ordered, heights, saved)
      ensures SavedCopy(t, ordered, saved)
    {
      var k, j :| 0 <= k < |heights| && heights[k] in ordered && AtOrAbove(heights[k], saved) &&
        0 <= j < |ordered[heights[k]]| && ordered[heights[k]][j] == t;
    }
    forall id | Saves(ordered, saved, id)
      ensures id in after && after[id].txid == id && SavedCopy(after[id], ordered, saved)
    {
      var h, j :| h in ordered && AtOrAbove(h, saved) && 0 <= j < |ordered[h]| && ordered[h][j].txid == id;
      var k :| 0 <= k < |heights| && heights[k] == h;
    }
    forall id | id in after && (id !in store || after[id] != store[id])
      ensures Saves(ordered, saved, id)
    {
      var k, j :| 0 <= k < |heights| && heights[k] in ordered && AtOrAbove(heights[k], saved) &&
        0 <= j < |ordered[heights[k]]| && ordered[heights[k]][j] == after[id];
      assert ordered[heights[k]][j].txid == id;
    }
  }
}
