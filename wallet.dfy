/**
 * The Wallet class of scripts/wallet.js: the locked-coin set, the own-address
 * map with its per-chain gap-limit windows, the append-only hash-to-address
 * memo, script ownership, and the debit/credit/history scans. Each method is
 * proved against the pure specifications of the Ownership, Scans and History
 * modules.
 *
 * The master key is fixed at construction (`key`), and the Mempool this
 * wallet reads is passed in as its `txmap`; the Mempool's setBalance, which
 * lockCoin, unlockCoin and reset trigger, is run by the Ledger's wrappers.
 */
module WalletState {
  import opened Wrappers
  import opened Transactions
  import opened ChainParams
  import opened Ownership
  import opened Scans
  import opened History

  class Wallet {
    const codec: Codec
    const key: MasterKey
    /** #lockedCoins: the toUnique() keys of locked outpoints. */
    var lockedCoins: set<string>
    /** #ownAddresses: own address to derivation path. */
    var ownAddresses: map<string, Path>
    /** #knownPKH: hash hex to address, only ever extended. */
    var knownPKH: map<string, string>
    /** #loadedIndexes: chain to the last loaded index. */
    var loadedIndexes: map<nat, nat>
    /** #highestUsedIndices: chain to the highest index seen on chain. */
    var highestUsedIndices: map<nat, nat>
    /** #addressIndices: chain to the index last handed out by getNewAddress. */
    var addressIndices: map<nat, nat>

    /** The ownership state the Ownership functions describe. */
    function Own(): OwnState
      reads this
    {
      OwnState(ownAddresses, knownPKH, loadedIndexes, highestUsedIndices)
    }

    /**
     * isMyVout as a function of the own-address map. It is named here, and
     * tied to `Classify` only through `Sound`, so that proofs about a scan
     * reason about one classification at a time.
     */
    ghost const classifierOf: map<string, Path> -> Classifier

    /** #getAddressesFromScript, tied to `Decode` only through `Sound`. */
    ghost const decoder: Decoder

    /** isMyVout over the current own-address map. */
    ghost function Classifier(): Classifier
      reads this`ownAddresses
    {
      classifierOf(ownAddresses)
    }

    ghost predicate Sound()
    {
      && (forall own: map<string, Path>, memo: Memo, script: string {:trigger Classify(codec, own, memo, script)} ::
            classifierOf(own)(memo, script) == Classify(codec, own, memo, script))
      && (forall memo: Memo, script: string {:trigger Decode(codec, memo, script)} ::
            decoder(memo, script) == Decode(codec, memo, script))
    }

    /** The classifier the scans use is coherent: a memoised lookup that only grows the memo. */
    lemma ClassifierCoherent()
      requires Sound()
      ensures Coherent(Classifier())
    {
      var w := WalletClassifier(codec, ownAddresses);
      WalletClassifierCoherent(codec, ownAddresses);
      forall memo: Memo, script: string
        ensures Classifier()(memo, script) == w(memo, script)
      {
        assert w(memo, script) == Classify(codec, ownAddresses, memo, script);
      }
    }

    ghost predicate Valid()
      reads this`ownAddresses, this`loadedIndexes, this`highestUsedIndices
    {
      Sound() && WfParts(key, ownAddresses, loadedIndexes, highestUsedIndices)
    }

    /** A wallet with no addresses loaded; both chains start at index 0. */
    constructor(codec: Codec, key: MasterKey)
      ensures Valid()
      ensures this.codec == codec && this.key == key
      ensures lockedCoins == {} && ownAddresses == map[] && knownPKH == map[] && addressIndices == map[]
      ensures loadedIndexes == map[0 := 0, 1 := 0] && highestUsedIndices == map[0 := 0, 1 := 0]
    {
      this.codec := codec;
      this.key := key;
      classifierOf := own => WalletClassifier(codec, own);
      decoder := WalletDecoder(codec);

      lockedCoins := {};
      ownAddresses := map[];
      knownPKH := map[];
      loadedIndexes := map[0 := 0, 1 := 0];
      highestUsedIndices := map[0 := 0, 1 := 0];
      addressIndices := map[];
      new;
      forall own: map<string, Path>, memo: Memo, script: string
        ensures classifierOf(own)(memo, script) == Classify(codec, own, memo, script)
      {
      }
      forall memo: Memo, script: string
        ensures decoder(memo, script) == Decode(codec, memo, script)
      {
      }
    }

    predicate IsCoinLocked(op: Outpoint)
      reads this
    {
      ToUnique(op) in lockedCoins
    }

    /** lockCoin, without the setBalance call (see Ledger.Mempool.LockCoin). */
    method LockCoin(op: Outpoint)
      modifies this`lockedCoins
      ensures lockedCoins == old(lockedCoins) + {ToUnique(op)}
      ensures IsCoinLocked(op)
    {
      lockedCoins := lockedCoins + {ToUnique(op)};
    }

    /** unlockCoin, without the setBalance call (see Ledger.Mempool.UnlockCoin). */
    method UnlockCoin(op: Outpoint)
      modifies this`lockedCoins
      ensures lockedCoins == old(lockedCoins) - {ToUnique(op)}
      ensures !IsCoinLocked(op)
    {
      lockedCoins := lockedCoins - {ToUnique(op)};
    }

    /** getAddressFromHashCache: derive once, then always answer from the memo. */
    method GetAddressFromHashCache(hex: string, isColdStake: bool) returns (address: string)
      modifies this`knownPKH
      ensures address == Lookup(codec, old(knownPKH), hex, isColdStake)
      ensures knownPKH == Remember(codec, old(knownPKH), hex, isColdStake)
    {
      if hex !in knownPKH {
        knownPKH := knownPKH[hex := codec.addressFromHash(codec.hexToBytes(hex), isColdStake)];
      }
      address := knownPKH[hex];
    }

    /** isOwnAddress. */
    function IsOwnAddress(address: string): (path: Option<Path>)
      reads this
      ensures path.Some? <==> address in ownAddresses
    {
      if address in ownAddresses then Some(ownAddresses[address]) else None
    }

    /** loadAddresses(chain). */
    method LoadAddresses(chain: nat)
      requires Valid() && chain < CHAINS
      modifies this`ownAddresses, this`loadedIndexes
      ensures Own() == AfterLoad(key, old(Own()), chain)
      ensures Valid()
    {
      if key.isHD {
        var start := loadedIndexes[chain];
        var end := start + MAX_ACCOUNT_GAP;
        for i := start to end + 1
          invariant loadedIndexes == old(loadedIndexes)
          invariant Register(key, ownAddresses, chain, i, end) == Register(key, old(ownAddresses), chain, start, end)
        {
          ownAddresses := ownAddresses[key.addressAt(chain, i) := Derived(chain, i)];
        }
        assert Register(key, ownAddresses, chain, end + 1, end) == ownAddresses;
        loadedIndexes := loadedIndexes[chain := end];
      } else {
        ownAddresses := ownAddresses[key.keyToExport := Legacy];
      }
    }

    /** updateHighestUsedIndex(vout). */
    method UpdateHighestUsedIndex(vout: TxOut)
      requires Valid()
      modifies this`knownPKH, this`highestUsedIndices, this`ownAddresses, this`loadedIndexes
      ensures Own() == AfterUse(key, codec, old(Own()), vout)
      ensures Valid()
    {
      var bytes := codec.hexToBytes(vout.script);
      var start := if codec.isP2PKH(bytes) then codec.p2pkStart else codec.coldStart;
      var address := GetAddressFromHashCache(codec.bytesToHex(HashBytes(bytes, start)), false);
      var path := IsOwnAddress(address);
      if path.Some? && path.value.Derived? {
        var c := path.value.chain;
        var top := if path.value.index > highestUsedIndices[c] then path.value.index else highestUsedIndices[c];
        highestUsedIndices := highestUsedIndices[c := top];
        if highestUsedIndices[c] + MAX_ACCOUNT_GAP >= loadedIndexes[c] {
          LoadAddresses(c);
        }
      }
    }

    /** getNewAddress(chain): the address and the index it was derived at. */
    method GetNewAddress(chain: nat) returns (address: string, index: nat)
      requires Valid() && chain < CHAINS
      modifies this`addressIndices
      ensures index == NextAddressIndex(
        if chain in old(addressIndices) then old(addressIndices)[chain] else 0,
        chain in old(addressIndices), highestUsedIndices[chain])
      ensures address == key.addressAt(chain, index)
      ensures addressIndices == old(addressIndices)[chain := index]
    {
      var last := highestUsedIndices[chain];
      var base := if chain in addressIndices && addressIndices[chain] > last then addressIndices[chain] else last;
      addressIndices := addressIndices[chain := base + 1];
      if addressIndices[chain] - last > MAX_ACCOUNT_GAP {
        addressIndices := addressIndices[chain := last];
      }
      index := addressIndices[chain];
      address := key.addressAt(chain, index);
    }

    /** reset: forget own addresses and indices; the memo and the locked coins stay. */
    method Reset()
      requires Sound()
      modifies this`ownAddresses, this`highestUsedIndices, this`loadedIndexes, this`addressIndices
      ensures ownAddresses == map[]
      ensures highestUsedIndices == map[0 := 0, 1 := 0] && loadedIndexes == map[0 := 0, 1 := 0]
      ensures addressIndices == map[0 := 0, 1 := 0]
      ensures Valid()
    {
      highestUsedIndices := map[];
      loadedIndexes := map[];
      ownAddresses := map[];
      addressIndices := map[];
      for i := 0 to CHAINS
        invariant highestUsedIndices == loadedIndexes == addressIndices
        invariant ownAddresses == map[]
        invariant forall c: nat :: c in highestUsedIndices <==> c < i
        invariant forall c :: c in highestUsedIndices ==> highestUsedIndices[c] == 0
      {
        highestUsedIndices := highestUsedIndices[i := 0];
        loadedIndexes := loadedIndexes[i := 0];
        addressIndices := addressIndices[i := 0];
      }
      assert highestUsedIndices.Keys == {0, 1};
    }

    /** getPath(script): the path of the address at the P2PKH or cold-staker offset, if it is ours. */
    method GetPath(script: string) returns (path: Option<Path>)
      modifies this`knownPKH
      ensures path == IsOwnAddress(Lookup(codec, old(knownPKH), PathHashHex(codec, script), false))
      ensures knownPKH == Remember(codec, old(knownPKH), PathHashHex(codec, script), false)
    {
      var bytes := codec.hexToBytes(script);
      var start := if codec.isP2PKH(bytes) then codec.p2pkStart else codec.coldStart;
      var address := GetAddressFromHashCache(codec.bytesToHex(HashBytes(bytes, start)), false);
      path := IsOwnAddress(address);
    }

    /** #getAddressesFromScript. */
    method GetAddressesFromScript(script: string) returns (kind: ScriptKind, addresses: seq<string>)
      modifies this`knownPKH
      ensures Decoded(kind, addresses, knownPKH) == AddressesFromScript(codec, old(knownPKH), script)
    {
      var bytes := codec.hexToBytes(script);
      if codec.isP2PKH(bytes) {
        var address := GetAddressFromHashCache(codec.bytesToHex(HashBytes(bytes, codec.p2pkStart)), false);
        kind, addresses := P2PKH, [address];
      } else if codec.isP2CS(bytes) {
        ghost var owner := HashHexAt(codec, script, codec.ownerStart);
        ghost var m1 := Remember(codec, old(knownPKH), owner, true);
        addresses := [];
        for i := 0 to 2
          invariant i == 0 ==> addresses == [] && knownPKH == old(knownPKH)
          invariant i >= 1 ==> |addresses| == i && addresses[0] == Lookup(codec, old(knownPKH), owner, true)
          invariant i == 1 ==> knownPKH == m1
          invariant i == 2 ==> && addresses[1] == Lookup(codec, m1, HashHexAt(codec, script, codec.coldStart), codec.coldStart == codec.ownerStart)
                               && knownPKH == Remember(codec, m1, HashHexAt(codec, script, codec.coldStart), codec.coldStart == codec.ownerStart)
        {
          var start := if i == 0 then codec.ownerStart else codec.coldStart;
          var address := GetAddressFromHashCache(codec.bytesToHex(HashBytes(bytes, start)), start == codec.ownerStart);
          addresses := addresses + [address];
        }
        kind := P2CS;
      } else {
        kind, addresses := UnknownScript, [];
      }
    }

    /** isMyVout(script). */
    method IsMyVout(script: string) returns (state: Flags)
      requires Sound()
      modifies this`knownPKH
      ensures Scan(state, knownPKH) == Classifier()(old(knownPKH), script)
    {
      var kind, addresses := GetAddressesFromScript(script);
      var index := FirstOwned(ownAddresses, addresses);
      if index == -1 {
        state := NOT_MINE;
      } else if kind == P2PKH {
        state := SPENDABLE;
      } else if index == 0 {
        state := COLD_RECEIVED;
      } else {
        state := SPENDABLE_COLD;
      }
      assert Classify(codec, ownAddresses, old(knownPKH), script) == Scan(state, knownPKH);
    }

    /** getCredit(tx, filter). */
    method GetCredit(tx: Transaction, filter: Flags) returns (credit: nat)
      requires Sound()
      modifies this`knownPKH
      ensures Scan(credit, knownPKH) == Credit(Classifier(), filter, tx.vout, old(knownPKH))
    {
      ghost var cl := Classifier();
      credit := 0;
      for i := 0 to |tx.vout|
        invariant Credit(cl, filter, tx.vout, old(knownPKH))
               == Scan(credit + Credit(cl, filter, tx.vout[i..], knownPKH).value,
                       Credit(cl, filter, tx.vout[i..], knownPKH).memo)
      {
        var state := IsMyVout(tx.vout[i].script);
        assert tx.vout[i..][1..] == tx.vout[i + 1..];
        if Meets(state, filter) {
          credit := credit + tx.vout[i].value;
        }
      }
    }

    /** getDebit(tx) against the ledger's txmap; None where the source throws. */
    method GetDebit(txmap: TxMap, tx: Transaction) returns (debit: Option<nat>)
      requires Sound()
      modifies this`knownPKH
      ensures Scan(debit, knownPKH) == Debit(Classifier(), txmap, tx.vin, old(knownPKH))
    {
      ghost var cl := Classifier();
      var total := 0;
      for i := 0 to |tx.vin|
        invariant Debit(cl, txmap, tx.vin, old(knownPKH))
               == (var rest := Debit(cl, txmap, tx.vin[i..], knownPKH);
                   Scan(if rest.value.None? then None else Some(total + rest.value.value), rest.memo))
      {
        assert tx.vin[i..][1..] == tx.vin[i + 1..];
        var op := tx.vin[i].outpoint;
        if op.txid in txmap {
          if op.n >= |txmap[op.txid].vout| {
            return None;
          }
          var spentVout := txmap[op.txid].vout[op.n];
          var state := IsMyVout(spentVout.script);
          if Meets(state, SPENDABLE_TOTAL) {
            total := total + spentVout.value;
          }
        }
      }
      debit := Some(total);
    }

    /** checkForUndelegations(tx); None where the source throws. */
    method CheckForUndelegations(txmap: TxMap, tx: Transaction) returns (found: Option<bool>)
      requires Sound()
      modifies this`knownPKH
      ensures Scan(found, knownPKH) == Undelegations(Classifier(), txmap, tx.vin, old(knownPKH))
    {
      ghost var cl := Classifier();
      for i := 0 to |tx.vin|
        invariant Undelegations(cl, txmap, tx.vin, old(knownPKH))
               == Undelegations(cl, txmap, tx.vin[i..], knownPKH)
      {
        assert tx.vin[i..][1..] == tx.vin[i + 1..];
        var op := tx.vin[i].outpoint;
        if op.txid in txmap {
          if op.n >= |txmap[op.txid].vout| {
            return None;
          }
          var state := IsMyVout(txmap[op.txid].vout[op.n].script);
          if Meets(state, SPENDABLE_COLD) {
            return Some(true);
          }
        }
      }
      found := Some(false);
    }

    /** checkForDelegations(tx). */
    method CheckForDelegations(tx: Transaction) returns (found: bool)
      requires Sound()
      modifies this`knownPKH
      ensures Scan(found, knownPKH) == Delegations(Classifier(), tx.vout, old(knownPKH))
    {
      ghost var cl := Classifier();
      for i := 0 to |tx.vout|
        invariant Delegations(cl, tx.vout, old(knownPKH)) == Delegations(cl, tx.vout[i..], knownPKH)
      {
        assert tx.vout[i..][1..] == tx.vout[i + 1..];
        var state := IsMyVout(tx.vout[i].script);
        if Meets(state, SPENDABLE_COLD) {
          return true;
        }
      }
      found := false;
    }

    /** getOutAddress(tx). */
    method GetOutAddress(tx: Transaction) returns (addresses: seq<string>)
      requires Sound()
      modifies this`knownPKH
      ensures Scan(addresses, knownPKH) == OutAddresses(decoder, tx.vout, old(knownPKH))
    {
      addresses := [];
      assert tx.vout[0..] == tx.vout;
      assert addresses + OutAddresses(decoder, tx.vout, knownPKH).value == OutAddresses(decoder, tx.vout, knownPKH).value;
      for i := 0 to |tx.vout|
        invariant OutAddresses(decoder, tx.vout, old(knownPKH))
               == Scan(addresses + OutAddresses(decoder, tx.vout[i..], knownPKH).value,
                       OutAddresses(decoder, tx.vout[i..], knownPKH).memo)
      {
        assert tx.vout[i..][1..] == tx.vout[i + 1..];
        ghost var before := knownPKH;
        var _, found := GetAddressesFromScript(tx.vout[i].script);
        assert Decode(codec, before, tx.vout[i].script) == Scan(found, knownPKH);
        ghost var rest := OutAddresses(decoder, tx.vout[i + 1..], knownPKH);
        assert OutAddresses(decoder, tx.vout[i..], before) == Scan(found + rest.value, rest.memo);
        assert (addresses + found) + rest.value == addresses + (found + rest.value);
        addresses := addresses + found;
      }
      assert tx.vout[|tx.vout|..] == [];
      assert addresses + [] == addresses;
    }

    /** The body of toHistoricalTXs' loop for one transaction; None where the source throws. */
    method HistoricalEntry(txmap: TxMap, tx: Transaction, stakingPrefix: char) returns (entry: Option<HistoricalTx>)
      requires Sound()
      modifies this`knownPKH
      ensures Scan(entry, knownPKH) == HistoryEntry(decoder, Classifier(), txmap, tx, stakingPrefix, old(knownPKH))
    {
      var credit := GetCredit(tx, SPENDABLE_TOTAL);
      var debit := GetDebit(txmap, tx);
      if debit.None? {
        return None;
      }
      var net := credit as int - debit.value as int;
      var receivers := GetOutAddress(tx);
      var kind := Unknown;
      var amount := Abs(net);
      if IsCoinStake(tx) {
        kind := Stake;
      } else {
        var undelegation := CheckForUndelegations(txmap, tx);
        if undelegation.None? {
          return None;
        }
        if undelegation.value {
          kind := Undelegation;
        } else {
          var delegation := CheckForDelegations(tx);
          if delegation {
            kind := Delegation;
            receivers := StakingReceivers(receivers, stakingPrefix);
            amount := GetCredit(tx, SPENDABLE_COLD);
          } else if net > 0 {
            kind := Received;
          } else if net < 0 {
            kind := Sent;
          }
        }
      }
      entry := Some(Entry(kind, tx, receivers, amount));
    }

    /** toHistoricalTXs(txs); None where the source throws. */
    method ToHistoricalTXs(txmap: TxMap, txs: seq<Transaction>, stakingPrefix: char) returns (history: Option<seq<HistoricalTx>>)
      requires Sound()
      modifies this`knownPKH
      ensures Scan(history, knownPKH) == HistoryOf(decoder, Classifier(), txmap, txs, stakingPrefix, old(knownPKH))
    {
      ghost var cl := Classifier();
      var entries: seq<HistoricalTx> := [];
      assert txs[0..] == txs;
      assert forall tail: seq<HistoricalTx> {:trigger entries + tail} :: entries + tail == tail;
      for i := 0 to |txs|
        invariant cl == Classifier()
        invariant HistoryOf(decoder, cl, txmap, txs, stakingPrefix, old(knownPKH))
               == Prefixed(entries, HistoryOf(decoder, cl, txmap, txs[i..], stakingPrefix, knownPKH))
      {
        assert txs[i..][1..] == txs[i + 1..];
        HistoryOfCarry(decoder, cl, txmap, txs[i..], stakingPrefix, entries, knownPKH);
        var entry := HistoricalEntry(txmap, txs[i], stakingPrefix);
        if entry.None? {
          return None;
        }
        entries := entries + [entry.value];
      }
      assert txs[|txs|..] == [];
      assert entries + [] == entries;
      history := Some(entries);
    }
  }
}
