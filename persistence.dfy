/**
 * The slice of the browser database the Mempool uses: the transaction store,
 * keyed by txid, and the one stored account, of which only its public key is
 * read here. scripts/database.js is not part of this model; the contract of
 * addAccount comes from tests/unit/database.spec.js.
 */
module Persistence {
  import opened Wrappers
  import opened Transactions

  type Store = map<TxId, Transaction>

  /** Some transaction of `txs` has txid `id`. */
  predicate Writes(txs: seq<Transaction>, id: TxId)
  {
    exists k :: 0 <= k < |txs| && txs[k].txid == id
  }

  /** No transaction after `txs[k]` has its txid. */
  predicate LastWrite(txs: seq<Transaction>, k: nat)
    requires k < |txs|
  {
    forall k' :: k < k' < |txs| ==> txs[k'].txid != txs[k].txid
  }

  /**
   * Store every transaction of `txs`, in order; a later one replaces an
   * earlier one with its txid, so each txid written holds its last write.
   */
  function StoreAll(store: Store, txs: seq<Transaction>): (r: Store)
    ensures forall k :: 0 <= k < |txs| ==> txs[k].txid in r
    ensures store.Keys <= r.Keys
    ensures forall id :: id in r && !Writes(txs, id) ==> id in store && r[id] == store[id]
    ensures forall k :: 0 <= k < |txs| && LastWrite(txs, k) ==> r[txs[k].txid] == txs[k]
    ensures forall k :: 0 <= k < |txs| ==> r[txs[k].txid] in txs && r[txs[k].txid].txid == txs[k].txid
    ensures forall id :: id in r && (id !in store || r[id] != store[id]) ==> r[id] in txs && r[id].txid == id
    decreases |txs|
  {
    if |txs| == 0 then store
    else
      var r := StoreAll(store[txs[0].txid := txs[0]], txs[1..]);
      StoreAllFrameStep(store, txs, r);
      StoreAllLastStep(store, txs, r);
      StoreAllHeldStep(store, txs, r);
      r
  }

  // StoreAll's contract for `txs`, from the one for `txs[1..]` that `r` satisfies.

  lemma StoreAllFrameStep(store: Store, txs: seq<Transaction>, r: Store)
    requires |txs| > 0
    requires forall id :: id in r && !Writes(txs[1..], id) ==> id in store[txs[0].txid := txs[0]] && r[id] == store[txs[0].txid := txs[0]][id]
    ensures forall id :: id in r && !Writes(txs, id) ==> id in store && r[id] == store[id]
  {
    forall id | id in r && !Writes(txs, id)
      ensures id in store && r[id] == store[id]
    {
      assert txs[0].txid != id;
      forall k | 0 <= k < |txs[1..]|
        ensures txs[1..][k].txid != id
      {
        assert txs[1..][k] == txs[k + 1];
      }
    }
  }

  lemma StoreAllLastStep(store: Store, txs: seq<Transaction>, r: Store)
    requires |txs| > 0
    requires forall id :: id in r && !Writes(txs[1..], id) ==> id in store[txs[0].txid := txs[0]] && r[id] == store[txs[0].txid := txs[0]][id]
    requires txs[0].txid in r && forall k :: 0 <= k < |txs[1..]| ==> txs[1..][k].txid in r
    requires forall k :: 0 <= k < |txs[1..]| && LastWrite(txs[1..], k) ==> r[txs[1..][k].txid] == txs[1..][k]
    ensures forall k :: 0 <= k < |txs| && LastWrite(txs, k) ==> r[txs[k].txid] == txs[k]
  {
    var t := txs[1..];
    forall k | 0 <= k < |txs| && LastWrite(txs, k)
      ensures r[txs[k].txid] == txs[k]
    {
      if k > 0 {
        assert txs[k] == t[k - 1];
        assert LastWrite(t, k - 1);
      }
    }
  }

  lemma StoreAllHeldStep(store: Store, txs: seq<Transaction>, r: Store)
    requires |txs| > 0
    requires forall id :: id in r && !Writes(txs[1..], id) ==> id in store[txs[0].txid := txs[0]] && r[id] == store[txs[0].txid := txs[0]][id]
    requires forall k :: 0 <= k < |txs[1..]| ==> txs[1..][k].txid in r
    requires store[txs[0].txid := txs[0]].Keys <= r.Keys
    requires forall k :: 0 <= k < |txs[1..]| ==> r[txs[1..][k].txid] in txs[1..] && r[txs[1..][k].txid].txid == txs[1..][k].txid
    requires forall id :: id in r && (id !in store[txs[0].txid := txs[0]] || r[id] != store[txs[0].txid := txs[0]][id]) ==>
      r[id] in txs[1..] && r[id].txid == id
    ensures forall k :: 0 <= k < |txs| ==> txs[k].txid in r
    ensures forall k :: 0 <= k < |txs| ==> r[txs[k].txid] in txs && r[txs[k].txid].txid == txs[k].txid
    ensures forall id :: id in r && (id !in store || r[id] != store[id]) ==> r[id] in txs && r[id].txid == id
  {
    var t := txs[1..];
    assert forall x :: x in t ==> x in txs;
    forall k | 0 <= k < |txs|
      ensures txs[k].txid in r && r[txs[k].txid] in txs && r[txs[k].txid].txid == txs[k].txid
    {
      if k > 0 {
        assert txs[k] == t[k - 1];
      } else if Writes(t, txs[0].txid) {
        var k' :| 0 <= k' < |t| && t[k'].txid == txs[0].txid;
      }
    }
  }

  class Database {
    /** The public key of the stored account, if there is one. */
    var account: Option<string>
    var txs: Store

    constructor()
      ensures account == None && txs == map[]
    {
      account := None;
      txs := map[];
    }

    /** storeTx: put the transaction under its txid. */
    method StoreTx(tx: Transaction)
      modifies this`txs
      ensures txs == old(txs)[tx.txid := tx]
    {
      txs := txs[tx.txid := tx];
    }

    /** getTxs: every stored transaction; the order IndexedDB hands them out in is not modelled. */
    method GetTxs() returns (all: seq<Transaction>)
      ensures forall k :: 0 <= k < |all| ==> all[k] in txs.Values
      ensures forall id :: id in txs ==> txs[id] in all
    {
      var keys := txs.Keys;
      all := [];
      while keys != {}
        invariant keys <= txs.Keys
        invariant forall k :: 0 <= k < |all| ==> all[k] in txs.Values
        invariant forall id :: id in txs && id !in keys ==> txs[id] in all
        decreases |keys|
      {
        var id :| id in keys;
        all := all + [txs[id]];
        keys := keys - {id};
      }
    }

    method RemoveAllTxs()
      modifies this`txs
      ensures txs == map[]
    {
      txs := map[];
    }

    method RemoveAccount()
      modifies this`account
      ensures account == None
    {
      account := None;
    }

    /** addAccount: refused (the source throws) when an account is already stored. */
    method AddAccount(publicKey: string) returns (added: bool)
      modifies this`account
      ensures added <==> old(account).None?
      ensures account == if added then Some(publicKey) else old(account)
    {
      if account.Some? {
        return false;
      }
      account := Some(publicKey);
      added := true;
    }
  }
}
