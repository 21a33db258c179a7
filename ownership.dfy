/**
 * The ownership resolver of the wallet (scripts/wallet.js), as pure
 * functions over the wallet's state: script decoding at fixed byte offsets,
 * the append-only hash-to-address memo, the classification of an output into
 * a UTXO_WALLET_STATE flag, and the gap-limit address window.
 *
 * The script decoders (script.js), the hex helpers (utils.js) and master-key
 * derivation (masterkey.js) are not part of this model; they enter as the
 * fields of `Codec` and `MasterKey`, functions about which nothing is assumed.
 */
module Ownership {
  import opened Transactions
  import opened ChainParams

  type Bytes = seq<bv8>

  /** script.js and utils.js as seen by the wallet: decoders, hex conversion, hash-to-address, and the hash offsets. */
  datatype Codec = Codec(
    hexToBytes: string -> Bytes,
    bytesToHex: Bytes -> string,
    isP2PKH: Bytes -> bool,
    isP2CS: Bytes -> bool,
    addressFromHash: (Bytes, bool) -> string,
    p2pkStart: nat,
    coldStart: nat,
    ownerStart: nat)

  /** The master key as the wallet uses it: HD or not, the export key, and the address derived at (chain, index). */
  datatype MasterKey = MasterKey(isHD: bool, keyToExport: string, addressAt: (nat, nat) -> string)

  /** A derivation path: chain and index of an HD address, or the ':)' marker of a non-HD wallet's single address. */
  datatype Path = Derived(chain: nat, index: nat) | Legacy

  datatype ScriptKind = P2PKH | P2CS | UnknownScript

  function Min(a: nat, b: nat): nat { if a <= b then a else b }

  function Max(a: nat, b: nat): nat { if a >= b then a else b }

  /** The 20-byte hash at `start`, as Uint8Array.slice(start, start + 20) clamps it. */
  function HashBytes(b: Bytes, start: nat): (r: Bytes)
    ensures |r| <= 20
    ensures start + 20 <= |b| ==> r == b[start..start + 20]
  {
    b[Min(start, |b|)..Min(start + 20, |b|)]
  }

  /** The hex of the hash found at `start` in the script. */
  function HashHexAt(codec: Codec, script: string, start: nat): string
  {
    codec.bytesToHex(HashBytes(codec.hexToBytes(script), start))
  }

  /** What getAddressFromHashCache returns for `hex`: the memoised address, or a fresh derivation. */
  function Lookup(codec: Codec, memo: map<string, string>, hex: string, isColdStake: bool): string
  {
    if hex in memo then memo[hex] else codec.addressFromHash(codec.hexToBytes(hex), isColdStake)
  }

  /** The memo after getAddressFromHashCache(hex, isColdStake): only ever extended, never overwritten. */
  function Remember(codec: Codec, memo: map<string, string>, hex: string, isColdStake: bool): (m: map<string, string>)
    ensures m.Keys == memo.Keys + {hex}
    ensures m[hex] == Lookup(codec, memo, hex, isColdStake)
    ensures forall h :: h in memo ==> m[h] == memo[h]
  {
    if hex in memo then memo else memo[hex := codec.addressFromHash(codec.hexToBytes(hex), isColdStake)]
  }

  /** Once a hash is memoised, every later lookup returns the first address, whatever isColdStake is then. */
  lemma FirstAddressWins(codec: Codec, memo: map<string, string>, hex: string, first: bool, later: bool)
    ensures Lookup(codec, Remember(codec, memo, hex, first), hex, later) == Lookup(codec, memo, hex, first)
  {
  }

  /** The result of #getAddressesFromScript, with the memo it leaves behind. */
  datatype Decoded = Decoded(kind: ScriptKind, addresses: seq<string>, memo: map<string, string>)

  /**
   * #getAddressesFromScript: a P2PKH script yields the address of its one hash;
   * a P2CS script yields the owner-offset address (derived with
   * isColdStake = true) then the cold-offset address; anything else yields none.
   */
  function AddressesFromScript(codec: Codec, memo: map<string, string>, script: string): (d: Decoded)
    ensures d.kind == P2PKH ==> |d.addresses| == 1
    ensures d.kind == P2CS ==> |d.addresses| == 2
    ensures d.kind == UnknownScript ==> d.addresses == [] && d.memo == memo
    ensures memo.Keys <= d.memo.Keys && forall h :: h in memo ==> d.memo[h] == memo[h]
  {
    var bytes := codec.hexToBytes(script);
    if codec.isP2PKH(bytes) then
      var h := HashHexAt(codec, script, codec.p2pkStart);
      Decoded(P2PKH, [Lookup(codec, memo, h, false)], Remember(codec, memo, h, false))
    else if codec.isP2CS(bytes) then
      var owner := HashHexAt(codec, script, codec.ownerStart);
      var m1 := Remember(codec, memo, owner, true);
      var cold := HashHexAt(codec, script, codec.coldStart);
      var coldFlag := codec.coldStart == codec.ownerStart;
      Decoded(P2CS, [Lookup(codec, memo, owner, true), Lookup(codec, m1, cold, coldFlag)],
              Remember(codec, m1, cold, coldFlag))
    else
      Decoded(UnknownScript, [], memo)
  }

  /** Array.findIndex over the addresses with isOwnAddress as the test; -1 when none is owned. */
  function FirstOwned(own: map<string, Path>, addresses: seq<string>): (i: int)
    ensures -1 <= i < |addresses|
    ensures i == -1 <==> forall k :: 0 <= k < |addresses| ==> addresses[k] !in own
    ensures i >= 0 ==> addresses[i] in own && forall k :: 0 <= k < i ==> addresses[k] !in own
  {
    if |addresses| == 0 then -1
    else if addresses[0] in own then 0
    else
      var j := FirstOwned(own, addresses[1..]);
      if j == -1 then -1 else j + 1
  }

  /** isMyVout: the role in which the wallet owns an output with this script, read through the memo `memo`. */
  function IsMyVout(codec: Codec, own: map<string, Path>, memo: map<string, string>, script: string): Flags
  {
    var d := AddressesFromScript(codec, memo, script);
    var index := FirstOwned(own, d.addresses);
    if index == -1 then NOT_MINE
    else if d.kind == P2PKH then SPENDABLE
    else if index == 0 then COLD_RECEIVED
    else SPENDABLE_COLD
  }

  /**
   * isMyVout decides by the decoded addresses: not mine when none is owned;
   * SPENDABLE for an owned P2PKH address; for P2CS, COLD_RECEIVED when the
   * owner-offset address is owned and SPENDABLE_COLD when only the other is.
   */
  lemma IsMyVoutClassification(codec: Codec, own: map<string, Path>, memo: map<string, string>, script: string)
    ensures var d := AddressesFromScript(codec, memo, script);
      var state := IsMyVout(codec, own, memo, script);
      && (state == NOT_MINE <==> forall k :: 0 <= k < |d.addresses| ==> d.addresses[k] !in own)
      && (state == SPENDABLE <==> d.kind == P2PKH && d.addresses[0] in own)
      && (state == COLD_RECEIVED <==> d.kind == P2CS && d.addresses[0] in own)
      && (state == SPENDABLE_COLD <==> d.kind == P2CS && d.addresses[0] !in own && d.addresses[1] in own)
    ensures IsMyVout(codec, own, memo, script) in {NOT_MINE, SPENDABLE, SPENDABLE_COLD, COLD_RECEIVED}
  {
  }

  /** Unknown scripts are never the wallet's, and do not touch the memo. */
  lemma UnknownScriptNotMine(codec: Codec, own: map<string, Path>, memo: map<string, string>, script: string)
    requires !codec.isP2PKH(codec.hexToBytes(script)) && !codec.isP2CS(codec.hexToBytes(script))
    ensures IsMyVout(codec, own, memo, script) == NOT_MINE
    ensures AddressesFromScript(codec, memo, script).memo == memo
  {
    IsMyVoutClassification(codec, own, memo, script);
  }

  /** Decoding a script again through the memo its first decoding left gives the same addresses and the same memo. */
  lemma RedecodeStable(codec: Codec, memo: map<string, string>, script: string)
    ensures var d := AddressesFromScript(codec, memo, script);
      && AddressesFromScript(codec, d.memo, script).addresses == d.addresses
      && AddressesFromScript(codec, d.memo, script).memo == d.memo
  {
  }

  /** So classifying an output again, after its own lookups were memoised, gives the same state. */
  lemma ReclassifyStable(codec: Codec, own: map<string, Path>, memo: map<string, string>, script: string)
    ensures IsMyVout(codec, own, AddressesFromScript(codec, memo, script).memo, script)
         == IsMyVout(codec, own, memo, script)
  {
    RedecodeStable(codec, memo, script);
  }

  /** `big` holds every entry of `small`, with the same address. */
  ghost predicate Extends(big: map<string, string>, small: map<string, string>)
  {
    small.Keys <= big.Keys && forall h :: h in small ==> big[h] == small[h]
  }

  /**
   * A memo that already holds what decoding `script` memoised decodes it to the
   * same addresses and is left as it is: later lookups cannot change an
   * earlier decoding.
   */
  lemma DecodeUnderExtension(codec: Codec, memo: map<string, string>, big: map<string, string>, script: string)
    requires Extends(big, AddressesFromScript(codec, memo, script).memo)
    ensures AddressesFromScript(codec, big, script)
         == AddressesFromScript(codec, memo, script).(memo := big)
  {
  }

  /** So an output classifies the same under any memo extending the one its own decoding left. */
  lemma ClassifyUnderExtension(codec: Codec, own: map<string, Path>, memo: map<string, string>, big: map<string, string>, script: string)
    requires Extends(big, AddressesFromScript(codec, memo, script).memo)
    ensures IsMyVout(codec, own, big, script) == IsMyVout(codec, own, memo, script)
  {
    DecodeUnderExtension(codec, memo, big, script);
  }

  /** The wallet's ownership state: own addresses, the hash memo, and per chain the loaded and highest used index. */
  datatype OwnState = OwnState(
    own: map<string, Path>,
    memo: map<string, string>,
    loaded: map<nat, nat>,
    highest: map<nat, nat>)

  /** Both chains are tracked, and every registered path is of the wallet's kind (HD paths on a known chain). */
  ghost predicate WfState(key: MasterKey, st: OwnState)
  {
    WfParts(key, st.own, st.loaded, st.highest)
  }

  /** Both chains have a loaded and a highest-used index, and every own path matches the key's kind. */
  ghost predicate WfParts(key: MasterKey, own: map<string, Path>, loaded: map<nat, nat>, highest: map<nat, nat>)
  {
    && 0 in loaded && 1 in loaded && 0 in highest && 1 in highest
    && forall a :: a in own ==>
         (own[a].Derived? <==> key.isHD) && (own[a].Derived? ==> own[a].chain < CHAINS)
  }

  /** Register the addresses at indices lo..hi (inclusive) of `chain`, in increasing order. */
  function Register(key: MasterKey, own: map<string, Path>, chain: nat, lo: nat, hi: nat): (r: map<string, Path>)
    ensures forall j :: lo <= j <= hi ==> key.addressAt(chain, j) in r
    ensures own.Keys <= r.Keys
    ensures forall a :: a in r ==>
      (a in own && r[a] == own[a]) || (r[a].Derived? && r[a].chain == chain && lo <= r[a].index <= hi)
    decreases if lo <= hi then hi - lo + 1 else 0
  {
    if lo > hi then own
    else Register(key, own[key.addressAt(chain, lo) := Derived(chain, lo)], chain, lo + 1, hi)
  }

  /** The last registration wins: with injective derivation each address maps to its own path. */
  lemma {:induction false} RegisterPaths(key: MasterKey, own: map<string, Path>, chain: nat, lo: nat, hi: nat, j: nat)
    requires lo <= j <= hi
    requires forall i, k :: key.addressAt(chain, i) == key.addressAt(chain, k) ==> i == k
    ensures Register(key, own, chain, lo, hi)[key.addressAt(chain, j)] == Derived(chain, j)
    decreases hi - lo
  {
    if lo < j {
      RegisterPaths(key, own[key.addressAt(chain, lo) := Derived(chain, lo)], chain, lo + 1, hi, j);
    } else {
      RegisterKeeps(key, own[key.addressAt(chain, lo) := Derived(chain, lo)], chain, lo + 1, hi, key.addressAt(chain, j));
    }
  }

  /** An address not derived in lo..hi keeps its entry. */
  lemma {:induction false} RegisterKeeps(key: MasterKey, own: map<string, Path>, chain: nat, lo: nat, hi: nat, a: string)
    requires a in own
    requires forall i :: lo <= i <= hi ==> key.addressAt(chain, i) != a
    ensures Register(key, own, chain, lo, hi)[a] == own[a]
    decreases if lo <= hi then hi - lo + 1 else 0
  {
    if lo <= hi {
      RegisterKeeps(key, own[key.addressAt(chain, lo) := Derived(chain, lo)], chain, lo + 1, hi, a);
    }
  }

  /**
   * loadAddresses(chain): an HD wallet registers indices loaded..loaded+MAX_ACCOUNT_GAP
   * inclusive and moves the loaded mark to loaded+MAX_ACCOUNT_GAP; a non-HD wallet
   * registers its export key under the ':)' path.
   */
  function AfterLoad(key: MasterKey, st: OwnState, chain: nat): (r: OwnState)
    requires WfState(key, st) && chain < CHAINS
    ensures WfState(key, r)
    ensures r.memo == st.memo && r.highest == st.highest
    ensures st.own.Keys <= r.own.Keys
    ensures key.isHD ==>
      && r.loaded == st.loaded[chain := st.loaded[chain] + MAX_ACCOUNT_GAP]
      && forall i :: st.loaded[chain] <= i <= st.loaded[chain] + MAX_ACCOUNT_GAP ==> key.addressAt(chain, i) in r.own
    ensures !key.isHD ==> r.loaded == st.loaded && r.own == st.own[key.keyToExport := Legacy]
  {
    if key.isHD then
      var start := st.loaded[chain];
      var end := start + MAX_ACCOUNT_GAP;
      st.(own := Register(key, st.own, chain, start, end), loaded := st.loaded[chain := end])
    else
      st.(own := st.own[key.keyToExport := Legacy])
  }

  /** The hash updateHighestUsedIndex and getPath look up: the P2PKH hash, or else the hash at the cold offset. */
  function PathHashHex(codec: Codec, script: string): string
  {
    var start := if codec.isP2PKH(codec.hexToBytes(script)) then codec.p2pkStart else codec.coldStart;
    HashHexAt(codec, script, start)
  }

  /**
   * updateHighestUsedIndex(vout): if the output pays an own HD address, raise its
   * chain's highest used index to at least that address's index, and when the
   * highest used index comes within MAX_ACCOUNT_GAP of the loaded mark, load the
   * next window of addresses.
   */
  function AfterUse(key: MasterKey, codec: Codec, st: OwnState, vout: TxOut): (r: OwnState)
    requires WfState(key, st)
    ensures WfState(key, r)
    ensures r.memo == Remember(codec, st.memo, PathHashHex(codec, vout.script), false)
    ensures st.own.Keys <= r.own.Keys
    ensures forall c :: c in st.highest ==> c in r.highest && r.highest[c] >= st.highest[c]
    ensures forall c :: c in st.loaded ==> c in r.loaded && r.loaded[c] >= st.loaded[c]
    ensures var a := Lookup(codec, st.memo, PathHashHex(codec, vout.script), false);
      a in st.own && st.own[a].Derived? ==> r.highest[st.own[a].chain] >= st.own[a].index
    // an output that pays no own HD address only extends the memo
    ensures var a := Lookup(codec, st.memo, PathHashHex(codec, vout.script), false);
      !(a in st.own && st.own[a].Derived?) ==> r == st.(memo := r.memo)
    // one that does sets its chain's highest used index to the larger of the two,
    // and loads the next window exactly when that index comes within the gap of the loaded mark
    ensures var a := Lookup(codec, st.memo, PathHashHex(codec, vout.script), false);
      a in st.own && st.own[a].Derived? ==>
        var c := st.own[a].chain;
        var top := Max(st.highest[c], st.own[a].index);
        var used := st.(memo := r.memo, highest := st.highest[c := top]);
        && c < CHAINS && WfState(key, used)
        && r.highest == used.highest
        && (top + MAX_ACCOUNT_GAP >= st.loaded[c] ==> r == AfterLoad(key, used, c))
        && (top + MAX_ACCOUNT_GAP < st.loaded[c] ==> r == used)
  {
    var h := PathHashHex(codec, vout.script);
    var address := Lookup(codec, st.memo, h, false);
    var st1 := st.(memo := Remember(codec, st.memo, h, false));
    if address in st.own && st.own[address].Derived? then
      var p := st.own[address];
      var top := Max(st.highest[p.chain], p.index);
      var st2 := st1.(highest := st.highest[p.chain := top]);
      if top + MAX_ACCOUNT_GAP >= st2.loaded[p.chain] then AfterLoad(key, st2, p.chain) else st2
    else
      st1
  }

  /** updateHighestUsedIndex applied to each output in order. */
  function AfterUses(key: MasterKey, codec: Codec, st: OwnState, vouts: seq<TxOut>): (r: OwnState)
    requires WfState(key, st)
    ensures WfState(key, r)
    ensures st.own.Keys <= r.own.Keys && st.memo.Keys <= r.memo.Keys
    ensures forall h :: h in st.memo ==> r.memo[h] == st.memo[h]
    ensures forall c :: c in st.highest ==> c in r.highest && r.highest[c] >= st.highest[c]
    decreases |vouts|
  {
    if |vouts| == 0 then st else AfterUses(key, codec, AfterUse(key, codec, st, vouts[0]), vouts[1..])
  }

  /**
   * The index getNewAddress hands out on a chain whose highest used index is
   * `last`: one past the larger of the previous hand-out and `last`, or `last`
   * again once that would leave the gap window.
   */
  function NextAddressIndex(prev: nat, hasPrev: bool, last: nat): (i: nat)
    ensures last <= i <= last + MAX_ACCOUNT_GAP
    ensures hasPrev && prev <= last + MAX_ACCOUNT_GAP ==>
      i == (if prev == last + MAX_ACCOUNT_GAP then last else (if prev > last then prev else last) + 1)
    ensures !hasPrev ==> i == last + 1
  {
    var base := if hasPrev && prev > last then prev else last;
    if base + 1 - last > MAX_ACCOUNT_GAP then last else base + 1
  }
}
