# Wallet ledger, ownership resolver, translations and locale tools

This Dafny project models the core of a browser wallet for a
proof-of-stake coin, and proves properties of that model.

- **The ledger** (`Mempool` in `scripts/mempool.js`) is the client-side
  bookkeeping of the wallet's transactions:
  - the transaction map, kept in the order a JavaScript `Map` iterates it;
  - the multimap of spent outpoints, keyed by the spent outpoint's own txid;
  - the index of confirmed transactions by block height;
  - the cached spendable, cold-staking and immature balances;
  - the watermark `highestSavedHeight` used when saving to the browser database.
- **The wallet** (`Wallet` in `scripts/wallet.js`) covers:
  - the set of locked coins;
  - the map of own addresses and their derivation paths;
  - the gap-limit windows (loaded and highest used index per chain);
  - the append-only memo from a 20-byte hash to an address;
  - the classification of an output script into `UTXO_WALLET_STATE` flags;
  - credit, debit and delegation scans, and the history list built from them;
  - the seed-phrase clean-up and word-count check.
- **The translation loader** (`scripts/i18n.js`) covers:
  - the parent-language chain (`es-mx` → `es` → `en`);
  - the fallback that stores the first non-empty string along that chain;
  - the check that a requested language is supported;
  - the `{x}` placeholder substitution of `tr`.
- **The locale tools** (`locale/lang-tools/*.py`) work on TOML translation files:
  - `unmerge` overlays a regional variant on its parent language;
  - `merge_internal` and `merge` move the strings two variants agree on into
    the parent file;
  - `copy_template` adds the template strings a file lacks;
  - `comment_file` annotates each string line with the template's text;
  - `tame` runs the sync, merge and comment passes over a locale directory.

## How the model is organised

- **`Wrappers`, `Text`**: `Option` and `Result`, plus the string functions the
  sources use: split, join, trim, lower-casing, and number-to-string.
- **`ChainParams`**: `MAX_ACCOUNT_GAP`, `COIN` and the network record. The
  network record holds the coinbase maturity and the staking prefix.
- **`Transactions`**: the value types of `mempool.js`, their predicates and the
  bit flags. The flags are `bv32`, so `state & filter` is JavaScript's 32-bit
  `&`.
- **`Ownership`**: script decoding and classification as pure functions over
  the own-address map and the hash memo. It also holds the gap-limit
  arithmetic.
  - The script decoders, hex conversion and key derivation of `script.js`,
    `utils.js` and the master key are parameters (`Codec`, `MasterKey`).
  - The decoders use their fixed byte offsets.
- **`Scans`, `History`**: `getBalance`, `getUTXOs`, `getCredit`, `getDebit`,
  the delegation checks and `toHistoricalTXs` as functions. Every call to
  `isMyVout` may grow the memo, so each scan carries the memo through it
  (`Scan<T>`).
- **`WalletState`**: the `Wallet` class. Its methods update its fields and are
  proved against the `Ownership`, `Scans` and `History` functions.
- **`Ledger`, `LedgerSpec`, `Persistence`**:
  - `Ledger` holds the `Mempool` class and its loops;
  - `LedgerSpec` holds the functions that specify them;
  - `Persistence` holds the slice of the database the ledger uses.
  - The ledger holds a reference to its wallet, as the source's module
    globals do.
- **`SeedPhrase`**: `cleanAndVerifySeedPhrase`. bip39's `validateMnemonic`, the
  advanced-mode setting and the answer to the confirmation popup are
  parameters.
- **`I18n`**: the translation object as a class. The locale files are a map
  from language code to its strings and ALERTS table; a missing file reads as
  the template.
- **`Toml`**: a Python dict as an insertion-ordered key list plus its
  contents. The file system maps a path to the parsed document and its text
  lines. A written file reads back as `Dumped`: the same values, with the
  tables moved after the plain values, as `toml.dump` writes them. The text
  of `toml.dump` is a parameter.
- **`LocaleMerge`, `LocaleSync`, `LocaleComment`, `LocaleUpdate`**: `merge.py`,
  `add_string.py`, `comment_langs.py` and `update_translations.py`.

Where the general description of the system and the code differ, the model
follows the code:

- `loadAddresses` registers indices `loaded..loaded+MAX_ACCOUNT_GAP`
  *inclusive*. That is one more than the gap, and index `loaded` is registered
  again on each call.
- Every call moves the loaded mark forward, so `loadAddresses` is not
  idempotent.
- `getUTXOs` stops once the running total exceeds 11/10 of a non-zero target.
  Otherwise it returns every qualifying output of the eligible transactions.

## Model

| member | source | states |
|---|---|---|
| `Transactions.MaturityBoundary` | scripts/mempool.js:84-92 | an ordinary transaction is mature at every height; a coinbase or coinstake is mature exactly when `chainHeight - blockHeight > coinbaseMaturity`, so it flips between `blockHeight + maturity` and the next block |
| `Transactions.ToUniqueInjective` | scripts/mempool.js:113-115 | with txids of one length, `toUnique` (txid followed by the decimal index) identifies the outpoint |
| `Transactions.ToUniqueCollidesAcrossLengths` | scripts/mempool.js:113-115 | without a fixed txid length two distinct outpoints share a key (`"a1"+"1"` = `"a"+"11"`) |
| `Transactions.SpendableWithinImmatureFilter` | scripts/mempool.js:118-126 | the SPENDABLE bit lies within the filter SPENDABLE or IMMATURE, and SPENDABLE_TOTAL is SPENDABLE or SPENDABLE_COLD |
| `Transactions.ParseTransaction` | scripts/mempool.js:336-362 | the parsed transaction keeps txid, height and time; output `i` is `(txid, n)` with the explorer's script and value; input `i` spends the explorer's outpoint, with a missing index read as 0 |
| `Ownership.Remember` | scripts/wallet.js:492-500 | the hash memo is only extended: the looked-up hash is added and every earlier entry is kept |
| `Ownership.FirstAddressWins` | scripts/wallet.js:492-500 | once a hash is memoised, a later lookup returns the first address whatever `isColdStake` is then |
| `Ownership.AddressesFromScript` | scripts/wallet.js:450-478 | P2PKH yields one address, P2CS two (owner offset first), anything else none with the memo untouched; the memo only grows |
| `Ownership.FirstOwned` | scripts/wallet.js:480-490 | `findIndex` with `isOwnAddress`: -1 exactly when no address is owned, else the first owned one |
| `Ownership.IsMyVoutClassification` | scripts/wallet.js:480-490 | NOT_MINE exactly when no decoded address is owned; SPENDABLE for an owned P2PKH address; COLD_RECEIVED when the P2CS owner address is owned; SPENDABLE_COLD when only the other P2CS address is owned |
| `Ownership.UnknownScriptNotMine` | scripts/wallet.js:450-490 | a script that is neither P2PKH nor P2CS is NOT_MINE and leaves the memo as it was |
| `Ownership.RedecodeStable` | scripts/wallet.js:450-478 | decoding again through the memo the first decoding left gives the same addresses and memo |
| `Ownership.ReclassifyStable` | scripts/wallet.js:480-490 | classifying again after the output's own lookups were memoised gives the same state |
| `Ownership.DecodeUnderExtension` | scripts/wallet.js:450-478 | any memo extending what a decoding memoised decodes the script the same way and is left as it is |
| `Ownership.ClassifyUnderExtension` | scripts/wallet.js:480-490 | an output classifies the same under any memo extending the one its own decoding left |
| `Ownership.Register` | scripts/wallet.js:390-395 | the loop of `loadAddresses`: every index `lo..hi` is registered; other entries are kept or are paths on that chain within `lo..hi` |
| `Ownership.RegisterPaths` | scripts/wallet.js:390-395 | with injective derivation each registered address maps to its own index's path |
| `Ownership.RegisterKeeps` | scripts/wallet.js:390-395 | an address not derived in `lo..hi` keeps its entry |
| `Ownership.AfterLoad` | scripts/wallet.js:386-400 | HD: indices `loaded..loaded+MAX_ACCOUNT_GAP` registered and the mark moved to `loaded+MAX_ACCOUNT_GAP`; non-HD: only the export key, under path `:)`; the memo and highest indices unchanged |
| `Ownership.AfterUse` | scripts/wallet.js:356-380 | an output that is not an owned HD address changes only the memo; an owned HD address at index i on chain c sets c's highest used index to the larger of it and i, then loads the next window (`AfterLoad`) exactly when that index plus MAX_ACCOUNT_GAP reaches c's loaded mark, and otherwise leaves the loaded marks and own addresses as they were |
| `Ownership.AfterUses` | scripts/mempool.js:376-378 | `updateHighestUsedIndex` over a transaction's outputs: own addresses and memo only grow, highest indices never fall |
| `Ownership.NextAddressIndex` | scripts/wallet.js:325-346 | the handed-out index lies in `last..last+MAX_ACCOUNT_GAP`; it is `max(prev, last)+1`, or `last` when that would pass the gap |
| `Scans.WalletClassifierCoherent` | scripts/wallet.js:480-500 | `isMyVout` behaves as a memoised lookup: it only grows the memo and, under a memo holding its own lookups, repeats its answer |
| `Scans.Visit` | scripts/mempool.js:271-274 | visiting an output (skipped when spent, else classified) only extends the memo |
| `Scans.VoutsBalance` | scripts/mempool.js:270-285 | a transaction's contribution to `getBalance` is at most the sum of its output values; the memo only grows |
| `Scans.TxsBalance` | scripts/mempool.js:263-290 | `getBalance` over the transactions in txmap order only extends the memo |
| `Scans.CountsWiden` | scripts/mempool.js:270-285 | an output counted under a filter is counted under any wider one, even with a grown memo |
| `Scans.VoutsBalanceMonotone` | scripts/mempool.js:270-285 | a wider filter never gives a transaction less |
| `Scans.TxsBalanceMonotone` | scripts/mempool.js:382-388 | `getBalance` is monotone in the filter, across scans that start from grown memos; so the immature part of `setBalance` is never negative |
| `Scans.VoutsPick` | scripts/mempool.js:310-327 | the running total is the start plus the picked values; the scan stops exactly when the total exceeds 11/10 of a non-zero target |
| `Scans.TxsPick` | scripts/mempool.js:300-330 | `getUTXOs` sums what it picks, returns early only past 11/10 of the target, and otherwise never reaches it |
| `Scans.TakesUnderExtension` | scripts/mempool.js:311-320 | an output kept under one memo is kept under any memo extending what its visit left |
| `Scans.VoutsPickSelected` | scripts/mempool.js:310-327 | every output picked from a transaction is one of its outputs and qualifies |
| `Scans.TxsPickSelected` | scripts/mempool.js:300-330 | every returned output is unspent, from a mature (and, when asked, confirmed) transaction, meets the filter and is unlocked unless locked ones are included |
| `Scans.VoutsPickOrdered` | scripts/mempool.js:310-327 | the picks of one transaction are a subsequence of its outputs |
| `Scans.TxsPickOrdered` | scripts/mempool.js:300-330 | `getUTXOs` returns outputs in txmap iteration order |
| `Scans.TakesUnderExtensionIff` | scripts/mempool.js:310-318 | whether an output is kept is the same under any later memo as at its visit |
| `Scans.VoutsPickAll` | scripts/mempool.js:310-327 | the inner loop, when it does not return early, keeps exactly the qualifying outputs of the transaction, in order |
| `Scans.VoutsPickPrefix` | scripts/mempool.js:310-327 | when the inner loop returns early, it has kept exactly the qualifying outputs of a non-empty prefix of the transaction's outputs |
| `Scans.KeptCons` | scripts/mempool.js:310-318 | the kept outputs of a prefix are the first output, when kept, followed by the kept outputs of the rest of the prefix |
| `Scans.TxsPickAll` | scripts/mempool.js:300-330 | without the early return, `getUTXOs` returns exactly the qualifying outputs of the eligible transactions, in txmap order |
| `Scans.TxsPickPrefix` | scripts/mempool.js:300-330 | with the early return, `getUTXOs` returns exactly the qualifying outputs of a non-empty prefix of the eligible transactions' outputs, skipping none |
| `History.Credit` | scripts/wallet.js:529-537 | `getCredit` is at most the sum of the output values |
| `History.CreditMonotone` | scripts/wallet.js:529-537 | a filter within a wider one never credits more, and both scans leave the same memo |
| `History.CreditUnderExtension` | scripts/wallet.js:529-537 | under the wallet's memoised lookup, getCredit from any memo holding what an earlier run memoised gives the same credit and adds nothing |
| `History.DelegationWithinCredit` | scripts/wallet.js:601-623 | a DELEGATION entry's amount, the SPENDABLE_COLD credit taken after the other scans, never exceeds the SPENDABLE_TOTAL credit |
| `History.Debit` | scripts/wallet.js:506-523 | `getDebit` fails (the source throws) exactly when a known spent transaction lacks the spent index |
| `History.Undelegations` | scripts/wallet.js:543-559 | `checkForUndelegations` fails only where `getDebit` would |
| `History.Delegations` | scripts/wallet.js:565-576 | no delegation found means the cold credit of the outputs is 0 |
| `History.StakingReceivers` | scripts/wallet.js:618-620 | a delegation's receivers are exactly the output addresses starting with the staking prefix |
| `History.NetKind` | scripts/wallet.js:623-627 | RECEIVED exactly when the net change is positive, SENT when negative, UNKNOWN when zero |
| `History.HistoryEntryKinds` | scripts/wallet.js:598-644 | fails exactly when an input spends an unknown transaction; otherwise keeps id, time and height and is STAKE exactly for a coinstake, UNDELEGATION exactly for another transaction with an undelegation, DELEGATION exactly for one without an undelegation but with a delegation (amount the cold-stake credit, receivers with the staking prefix), and otherwise RECEIVED, SENT or UNKNOWN exactly as credit − debit is positive, negative or zero, with amount abs(credit − debit) |
| `History.HistoryOf` | scripts/wallet.js:598-644 | one entry per transaction, in order, each with the transaction's id |
| `History.HistoryOfCarry` | scripts/wallet.js:598-644 | one transaction of the loop: its entry is appended, and an error stops the list |
| `WalletState.Wallet.ClassifierCoherent` | scripts/wallet.js:480-500 | the classifier the wallet's scans use is a coherent memoised lookup |
| `WalletState.Wallet.constructor` | scripts/wallet.js:86-94 | no locked coins, no own addresses, an empty memo, and both chains at index 0 |
| `WalletState.Wallet.LockCoin` | scripts/wallet.js:109-112 | the outpoint's key is added to the locked set and `isCoinLocked` holds |
| `WalletState.Wallet.UnlockCoin` | scripts/wallet.js:118-121 | the key is removed and `isCoinLocked` no longer holds |
| `WalletState.Wallet.GetAddressFromHashCache` | scripts/wallet.js:492-500 | answers from the memo, deriving and remembering only on a miss |
| `WalletState.Wallet.IsOwnAddress` | scripts/wallet.js:406-408 | a path is returned exactly for an own address |
| `WalletState.Wallet.LoadAddresses` | scripts/wallet.js:386-400 | the new ownership state is `AfterLoad` of the old one |
| `WalletState.Wallet.UpdateHighestUsedIndex` | scripts/wallet.js:356-380 | the new ownership state is `AfterUse` of the old one |
| `WalletState.Wallet.GetNewAddress` | scripts/wallet.js:325-346 | the index is `NextAddressIndex` of the previous hand-out and the highest used index; the address is derived there and the index recorded |
| `WalletState.Wallet.Reset` | scripts/wallet.js:208-217 | own addresses are emptied and all indices reset to 0 on both chains; the memo and locked coins stay |
| `WalletState.Wallet.GetPath` | scripts/wallet.js:435-444 | the path of the address at the P2PKH (else cold-staker) offset when it is own, with that lookup memoised |
| `WalletState.Wallet.GetAddressesFromScript` | scripts/wallet.js:450-478 | the decoded kind, addresses and memo are those of `AddressesFromScript` |
| `WalletState.Wallet.IsMyVout` | scripts/wallet.js:480-490 | the state and memo are those of the classification function |
| `WalletState.Wallet.GetCredit` | scripts/wallet.js:529-537 | the loop computes `Credit` and leaves its memo |
| `WalletState.Wallet.GetDebit` | scripts/wallet.js:506-523 | the loop computes `Debit`, failing where the source throws |
| `WalletState.Wallet.CheckForUndelegations` | scripts/wallet.js:543-559 | the loop computes `Undelegations` |
| `WalletState.Wallet.CheckForDelegations` | scripts/wallet.js:565-576 | the loop computes `Delegations`, stopping at the first cold-staking output |
| `WalletState.Wallet.GetOutAddress` | scripts/wallet.js:582-590 | the decoded addresses of every output, in order |
| `WalletState.Wallet.HistoricalEntry` | scripts/wallet.js:600-640 | the loop body of `toHistoricalTXs` computes `HistoryEntry` |
| `WalletState.Wallet.ToHistoricalTXs` | scripts/wallet.js:598-644 | the history list is `HistoryOf` the transactions |
| `Ledger.SortAscending` | scripts/mempool.js:441-443 | the heights sorted ascending, the same heights |
| `Ledger.StoreList` | scripts/mempool.js:408-411 | every transaction of a height is put into the store, by txid |
| `Ledger.Mempool.constructor` | scripts/mempool.js:175-208 | empty maps, zero balances, watermark 0 |
| `Ledger.Mempool.AddToOrderedTxMap` | scripts/mempool.js:239-248 | the height index becomes `AddOrdered` of the old one, a new height is listed last, and the index stays well formed |
| `Ledger.Mempool.Inspect` | scripts/mempool.js:271-274 | a spent output is skipped; any other is classified through the memo |
| `Ledger.Mempool.CountOne` | scripts/mempool.js:270-285 | one output of `getBalance`'s inner loop, with the running total carried |
| `Ledger.Mempool.VoutsBalanceOf` | scripts/mempool.js:270-285 | the inner loop computes `VoutsBalance` |
| `Ledger.Mempool.CountTx` | scripts/mempool.js:265-287 | one transaction of `getBalance`'s outer loop, with the running total carried |
| `Ledger.Mempool.GetBalance` | scripts/mempool.js:263-290 | the total is `TxsBalance` over the transactions in txmap order |
| `Ledger.Mempool.SetBalance` | scripts/mempool.js:382-391 | the three cached balances are those of `Balances`, scanned one after another |
| `Ledger.Mempool.PickOne` | scripts/mempool.js:310-327 | one output of `getUTXOs`' inner loop, with the picks carried and the early return |
| `Ledger.Mempool.VoutsPickOf` | scripts/mempool.js:310-327 | the inner loop computes `VoutsPick` |
| `Ledger.Mempool.PickTx` | scripts/mempool.js:303-328 | one transaction of `getUTXOs`' outer loop |
| `Ledger.Mempool.GetUTXOs` | scripts/mempool.js:300-330 | the result is the picks of `TxsPick` over the transactions in txmap order |
| `Ledger.Mempool.LockCoin` | scripts/wallet.js:109-112 | the coin is locked and the cached balances are recomputed |
| `Ledger.Mempool.UnlockCoin` | scripts/wallet.js:118-121 | the coin is unlocked and the cached balances are recomputed |
| `Ledger.Mempool.SetSpent` | scripts/mempool.js:254-257 | the spend is recorded under the txid and the coin unlocked; balances are recomputed only when it was locked |
| `Ledger.Mempool.SpendInputsOf` | scripts/mempool.js:370-375 | the loop over the inputs computes `SpendInputs`; when no input was a locked coin the balances and the memo are untouched, otherwise the balances are those `setBalance` computed at the last unlock (`LastUnlock`) |
| `Ledger.Mempool.UseOutputs` | scripts/mempool.js:376-378 | each output goes through `updateHighestUsedIndex`, giving `AfterUses` |
| `Ledger.Mempool.UpdateMempool` | scripts/mempool.js:367-380 | nothing changes when the stored copy is confirmed; otherwise the tx is stored (a new txid last), the inputs are spent, the outputs advance the address windows and the tx is indexed by height; the balances are untouched when no input was a locked coin, and otherwise are those of the last unlock's `setBalance` |
| `Ledger.Mempool.Admit` | scripts/mempool.js:369-379 | the state changes of `updateMempool` past its early return, balances included: untouched when no input was a locked coin, otherwise those `setBalance` computed at the last unlock, over the txmap holding tx and before the outputs widen the address windows |
| `Ledger.Mempool.StoreTx` | scripts/mempool.js:369 | `txmap.set`: the tx is stored and a new txid goes last in iteration order |
| `Ledger.Mempool.Clear` | scripts/mempool.js:211-213 | the txmap, spent multimap and height index are emptied |
| `Ledger.Mempool.Reset` | scripts/mempool.js:210-216 | empty maps, zero balances, watermark 0, memo untouched |
| `Ledger.Mempool.ResetWallet` | scripts/wallet.js:208-225 | the main wallet's reset forgets its windows and resets the ledger |
| `Ledger.Mempool.StoreHeights` | scripts/mempool.js:405-413 | the loop over heights computes `SaveHeights` |
| `Ledger.Mempool.SaveOnDisk` | scripts/mempool.js:396-415 | the store becomes `SaveHeights` over the index's heights highest first; with no heights nothing changes; every txid at or above the watermark holds a transaction so indexed, every other entry is kept, and the watermark becomes the highest height |
| `Ledger.Mempool.IndexStored` | scripts/mempool.js:438-440 | every confirmed stored transaction ends up indexed |
| `Ledger.Mempool.Replay` | scripts/mempool.js:445-446 | replaying an indexed transaction leaves the height index as it was and stores the tx |
| `Ledger.Mempool.ReplayHeight` | scripts/mempool.js:444-448 | every transaction of a replayed height is in the txmap |
| `Ledger.Mempool.ReplayHeights` | scripts/mempool.js:441-448 | every transaction of every replayed height is in the txmap, and the index is unchanged |
| `Ledger.Mempool.LoadFromDisk` | scripts/mempool.js:420-453 | a store of another account is wiped and re-bound; an empty store loads nothing; otherwise every confirmed stored tx is indexed and replayed, and the watermark is the highest height |
| `LedgerSpec.StoreKeepsIndex` | scripts/mempool.js:369 | `Map.set` keeps the iteration order well formed: a new key goes last |
| `LedgerSpec.AddOrderedSpec` | scripts/mempool.js:239-248 | unconfirmed: no change; confirmed: indexed under its height; already there: no change; other heights untouched; the index stays well formed |
| `LedgerSpec.AddOrderedIdempotent` | scripts/mempool.js:239-248 | adding a transaction twice is adding it once |
| `LedgerSpec.AddOrderedIndexed` | scripts/mempool.js:438-448 | re-adding an indexed transaction during replay changes nothing |
| `LedgerSpec.Record` | scripts/mempool.js:231-233 | after recording, the outpoint is spent, everything spent before still is, and nothing else became spent |
| `LedgerSpec.SpendInput` | scripts/mempool.js:371-374 | after one input is handled, its outpoint is spent |
| `LedgerSpec.SpendInputsSpent` | scripts/mempool.js:370-375 | after the inputs, every input is spent, everything spent before still is, and nothing else is |
| `LedgerSpec.SpendInputsReleases` | scripts/mempool.js:254-257 | spending only releases locks, each one an input's |
| `LedgerSpec.SpendInputsUnlocks` | scripts/mempool.js:254-257 | every input not spent before ends up unlocked |
| `LedgerSpec.LastUnlockIff` | scripts/mempool.js:254-257 | some input unlocks a coin, so that `setBalance` runs, exactly when spending the inputs changes the locked coins |
| `LedgerSpec.VoutsBalanceCarry` | scripts/mempool.js:270-285 | the inner balance loop with a carried total |
| `LedgerSpec.TxsBalanceCarry` | scripts/mempool.js:265-287 | the outer balance loop with a carried total |
| `LedgerSpec.VoutsPickCarry` | scripts/mempool.js:310-327 | the inner pick loop with carried picks |
| `LedgerSpec.TxsPickCarry` | scripts/mempool.js:303-328 | the outer pick loop with carried picks |
| `LedgerSpec.Balances` | scripts/mempool.js:382-388 | the immature balance is never negative and the memo only grows |
| `LedgerSpec.BalancesOfNothing` | scripts/mempool.js:210-216 | with no transactions every balance is 0 |
| `LedgerSpec.HasTxidPrefix` | scripts/mempool.js:241-246 | a txid found under a height is found after the list grows |
| `LedgerSpec.InsertAscending` | scripts/mempool.js:441-443 | inserting a height keeps the list ascending, with the same heights plus the new one |
| `LedgerSpec.ReversedAscending` | scripts/mempool.js:397-399 | reversing the ascending heights lists them highest first, the maximum at the head |
| `LedgerSpec.SaveHeights` | scripts/mempool.js:405-413 | the save loop only adds to the store |
| `LedgerSpec.SaveHeightsStoresAboveWatermark` | scripts/mempool.js:405-413 | heights visited highest first: the txid of every transaction at or above the watermark is stored, holding a transaction with that txid indexed at or above the watermark |
| `LedgerSpec.SaveHeightsOnlyAboveWatermark` | scripts/mempool.js:405-413 | an entry that is new or changed holds, under its own txid, a transaction indexed at or above the watermark; nothing comes from below it |
| `LedgerSpec.HighestOfAscending` | scripts/mempool.js:441-451 | the last of the ascending heights is the highest; with none the index is empty |
| `LedgerSpec.SaveHeightsStoredAbove` | scripts/mempool.js:396-415 | saving every height of the index: each txid indexed at or above the watermark holds one of the transactions so indexed, every other entry keeps its value, and no other txid is added |
| `Persistence.StoreAll` | scripts/mempool.js:408-411 | every listed txid is stored and holds its last write, a listed transaction with that txid; other txids keep their entries |
| `Persistence.Database.constructor` | scripts/mempool.js:421 | an empty store with no account |
| `Persistence.Database.StoreTx` | scripts/mempool.js:410 | the transaction is put under its txid |
| `Persistence.Database.GetTxs` | scripts/mempool.js:434 | returns exactly the stored transactions |
| `Persistence.Database.RemoveAllTxs` | scripts/mempool.js:426 | the store is emptied |
| `Persistence.Database.RemoveAccount` | scripts/mempool.js:427 | the account is removed |
| `Persistence.Database.AddAccount` | tests/unit/database.spec.js:157-164 | an account is added only when none is stored; a second add is refused |
| `SeedPhrase.Run` | scripts/wallet.js:662 | the first word of a string: a whitespace-free prefix ending at whitespace or the end |
| `SeedPhrase.WordsAreWords` | scripts/wallet.js:662 | every word is non-empty and free of whitespace |
| `SeedPhrase.CollapseWords` | scripts/wallet.js:662 | `replace(/\s+/g, ' ')` on a trimmed string gives its words joined by single spaces |
| `SeedPhrase.WordsTrim` | scripts/wallet.js:662 | trimming keeps the words |
| `SeedPhrase.LowerJoin` | scripts/wallet.js:662 | lower-casing a joined phrase lower-cases each word |
| `SeedPhrase.CleanIsJoinedWords` | scripts/wallet.js:662 | the cleaned phrase is the input's words, lower-cased, joined by single spaces |
| `SeedPhrase.WordCountOfClean` | scripts/wallet.js:665 | the word count is the number of words in the input, except that a phrase with no word counts as one |
| `SeedPhrase.WordsOfJoin` | scripts/wallet.js:662-665 | joining words with single spaces and splitting them again gives the same words |
| `SeedPhrase.TrimJoined` | scripts/wallet.js:662 | a phrase of words joined by single spaces is already trimmed |
| `SeedPhrase.CleanIdempotent` | scripts/wallet.js:662 | cleaning a cleaned phrase changes nothing |
| `SeedPhrase.CleanAndVerify` | scripts/wallet.js:657-717 | the phrase is always the cleaned input; ok exactly for 12 or 24 words that pass the checksum or that the user, in advanced mode, chose to keep; the message is the size error for another count, valid for a passing phrase, the typo error outside the popup or advanced mode, the skip warning when kept and the plain error when refused |
| `SeedPhrase.RefusesWrongSize` | scripts/wallet.js:665-716 | a phrase of neither 12 nor 24 words is refused whatever the other inputs |
| `Text.IndexOf` | scripts/i18n.js:31 | the first occurrence of the character |
| `Text.SplitMany` | scripts/i18n.js:30-31 | a split has several pieces exactly when the separator occurs |
| `Text.SplitPiecesFree` | locale/lang-tools/merge.py:9 | no piece of a split contains the separator |
| `Text.JoinSplit` | locale/lang-tools/merge.py:9-13 | `'/'.join(path.split('/'))` is the path |
| `Text.SplitJoin` | locale/lang-tools/update_translations.py:27-28 | splitting a join of separator-free pieces gives the pieces |
| `Text.BeforeFirst` | scripts/i18n.js:31 | `s.split(c)[0]`: the text before the first separator, or all of `s` |
| `Text.Trim` | scripts/wallet.js:662 | the result is a slice of the input with only whitespace before and after it, and it starts and ends with non-whitespace |
| `Text.Lower` | scripts/wallet.js:662 | character-wise lower-casing of the same length |
| `Text.NatToString` | scripts/mempool.js:114 | a non-empty string of decimal digits |
| `Text.NatToStringInjective` | scripts/mempool.js:114 | distinct numbers render differently |
| `I18n.ParentLanguage` | scripts/i18n.js:29-35 | the text before the first '-', or 'en' when there is none |
| `I18n.ParentIsCloser` | scripts/i18n.js:59-65 | the fallback recursion gets closer to 'en' at each step |
| `I18n.ChainShape` | scripts/i18n.js:49-67 | the chain of consulted languages starts at the code, steps to the parent, and reaches 'en' within three lookups |
| `I18n.ChainStep` | scripts/i18n.js:59-65 | a code other than 'en' consults itself, then its parent's chain |
| `I18n.ResolveKeyFirstText` | scripts/i18n.js:49-67 | the stored string is the first non-empty one along the chain, and '' exactly when there is none |
| `I18n.ResolveAlertFirstText` | scripts/i18n.js:86-99 | the same fallback for an ALERTS sub-key, when every language on the chain has an ALERTS table |
| `I18n.AlertsPendingStep` | scripts/i18n.js:76-78 | one sub-key of `setAlertKey`'s loop is replaced by its resolved value |
| `I18n.AlertsPendingAll` | scripts/i18n.js:75 | before the loop the table is the language's own |
| `I18n.ResolvedStep` | scripts/i18n.js:118-120 | one template key of the loop adds its resolved value |
| `I18n.Translation.constructor` | scripts/i18n.js:19 | an empty translation object |
| `I18n.Translation.SetAlertSubKey` | scripts/i18n.js:86-99 | the resolved sub-key is stored in the current ALERTS table; nothing is stored when a lookup throws |
| `I18n.Translation.SetAlertKey` | scripts/i18n.js:73-79 | the ALERTS table becomes the language's table with each sub-key resolved |
| `I18n.Translation.SetTranslationKey` | scripts/i18n.js:49-67 | ALERTS goes through `setAlertKey`; any other key stores its resolved string |
| `I18n.Translation.LoadKeys` | scripts/i18n.js:118-120 | every template key is stored with its resolved string, and the ALERTS table is set when the template has one |
| `I18n.Translation.SwitchTranslation` | scripts/i18n.js:105-145 | true exactly for a supported code ('auto' or none asks the browser); otherwise the default language is loaded and false returned |
| `I18n.Placeholder` | scripts/i18n.js:160 | `'{' + name + '}'` |
| `I18n.ReplaceAllAbsent` | scripts/i18n.js:159-162 | `replaceAll` without an occurrence returns the string |
| `I18n.ReplaceAllLeftmost` | scripts/i18n.js:159-162 | `replaceAll` keeps the text before the leftmost occurrence, replaces it, and resumes after it |
| `I18n.TranslateNoPlaceholders` | scripts/i18n.js:157-165 | a message with none of the placeholders comes back unchanged |
| `I18n.Tr` | scripts/i18n.js:157-165 | each variable's placeholder is replaced in list order; no variables, no change |
| `Toml.UpdateWithKeys` | locale/lang-tools/merge.py:20-21 | `dict.update` keeps the existing keys in place and appends the new ones in order |
| `Toml.UpdateWithVals` | locale/lang-tools/merge.py:20-21 | `dict.update`: the new values win |
| `Toml.UpdateSpec` | locale/lang-tools/merge.py:20-21 | `d.update(e)`: `d`'s keys in place, `e`'s new keys appended, `e`'s values win, the dict well formed |
| `Toml.SetWf` | locale/lang-tools/merge.py:34 | `d[k] = v` keeps a dict well formed |
| `Toml.DelWf` | locale/lang-tools/merge.py:35-36 | `del d[k]` keeps a dict well formed |
| `Toml.Load` | locale/lang-tools/merge.py:11 | `toml.load` succeeds exactly for an existing file, giving a well-formed document |
| `Toml.Dumped` | locale/lang-tools/merge.py:63 | `toml.dump` keeps every value of the document |
| `Toml.DumpedWf` | locale/lang-tools/merge.py:63 | the dumped document is well formed |
| `Toml.DumpedOrder` | locale/lang-tools/merge.py:63 | a document read back after `toml.dump` lists no table before a plain value, and dumping twice is dumping once |
| `Toml.Write` | locale/lang-tools/add_string.py:24-25 | writing a document creates at most that file, and loading it back gives the dumped document |
| `Toml.WriteWf` | locale/lang-tools/add_string.py:24-25 | writing a well-formed document keeps the files well formed, leaves every other file as it was, and the written text is `dump` of what is read back |
| `LocaleMerge.FirstMismatch` | locale/lang-tools/merge.py:26-28 | the first position where the zipped key orders differ, or the shorter length |
| `LocaleMerge.AgreedStep` | locale/lang-tools/merge.py:29-40 | a pair moves when both values are non-empty and equal, is dropped when they differ, else is skipped |
| `LocaleMerge.MergedSkip` | locale/lang-tools/merge.py:29-32 | an ALERTS pair, or one with an empty value, changes none of the three dicts |
| `LocaleMerge.MergedMove` | locale/lang-tools/merge.py:33-36 | equal values are set in `res` and deleted from both inputs |
| `LocaleMerge.MergedDrop` | locale/lang-tools/merge.py:37-39 | differing values are removed from `res` when there; both inputs keep them |
| `LocaleMerge.MergedWf` | locale/lang-tools/merge.py:25-39 | the three dicts stay well formed |
| `LocaleMerge.MergedCurrent` | locale/lang-tools/merge.py:26 | a pair not handled yet still has its original values (the loop zips copies) |
| `LocaleMerge.HandlePair` | locale/lang-tools/merge.py:27-39 | the loop body handles one pair as `MergedUpTo` says |
| `LocaleMerge.MergedKeepsAlerts` | locale/lang-tools/merge.py:29-30 | the ALERTS entry of each dict is untouched |
| `LocaleMerge.MergedFrom` | locale/lang-tools/merge.py:25-39 | every value left in a dict was there before, or, for `res`, came from obj1 |
| `LocaleMerge.MergeInternal` | locale/lang-tools/merge.py:25-39 | a mismatching pair raises after the pairs before it are handled; without one, the first min(len1, len2) pairs are handled |
| `LocaleMerge.Unmerge` | locale/lang-tools/merge.py:8-23 | the load and overlay compute `Unmerged`; a success reads an existing file and gives a well-formed document |
| `LocaleMerge.UnmergedSpec` | locale/lang-tools/merge.py:8-23 | no language directory: error; no '-' or no parent file: the file as loaded; otherwise the variant overlaid on the parent (parent `info` dropped, ALERTS overlaid), failing exactly when a needed file, `info` or ALERTS table is missing |
| `LocaleMerge.TopLevelMergedSpec` | locale/lang-tools/merge.py:52 | the top-level `merge_internal` fails exactly at the first pair of differing keys; otherwise the documents stay well formed and keep their ALERTS entries |
| `LocaleMerge.AlertsMergedSpec` | locale/lang-tools/merge.py:53 | the ALERTS `merge_internal` succeeds exactly when all three documents hold an ALERTS table and the variants' ALERTS keys agree pairwise; the output's ALERTS stays a table |
| `LocaleMerge.MergedMovesAgreed` | locale/lang-tools/merge.py:29-39 | a string both variants hold with the same non-empty value leaves both and is set in the output; one they hold with different values leaves the output and both keep it |
| `LocaleMerge.MarkedOutput` | locale/lang-tools/merge.py:54-56 | `info.merged = True` is set (an `info` table added when missing), every other entry kept; a non-table `info` fails |
| `LocaleMerge.MarkedOutputWf` | locale/lang-tools/merge.py:54-56 | marking keeps the output well formed |
| `LocaleMerge.MergeStartWf` | locale/lang-tools/merge.py:45-50 | the output merge starts from (the file, or `{}`, with an ALERTS table added) is well formed and has ALERTS |
| `LocaleMerge.MergedDocsWf` | locale/lang-tools/merge.py:42-56 | the three documents a successful merge computes are well formed, both inputs exist, and the output is marked merged |
| `LocaleMerge.MergedWrites` | locale/lang-tools/merge.py:42-63 | a successful merge writes exactly the two variants and the output, creates at most the output, leaves every other file as it was, and the output is marked merged |
| `LocaleMerge.WrittenThree` | locale/lang-tools/merge.py:57-63 | writing the three documents keeps the files well formed and the output reads back marked merged |
| `LocaleMerge.WrittenThreeFrame` | locale/lang-tools/merge.py:57-63 | writing three files touches only those three |
| `LocaleMerge.Merge` | locale/lang-tools/merge.py:42-63 | the result is `Merged`: both variants unmerged, the top-level and ALERTS strings moved by `MergedUpTo`, the output marked, and the three files written; on success both inputs existed and the output holds an ALERTS table and `info.merged = True` |
| `LocaleMerge.MarkAndWrite` | locale/lang-tools/merge.py:54-63 | the result is the failure of `MarkedOutput`, or the three documents written in order with the output marked |
| `LocaleMerge.MergeTopLevel` | locale/lang-tools/merge.py:52 | the result is `MergedUpTo` over the zipped keys, failing exactly on a key-order mismatch, and every ALERTS table is left as it was |
| `LocaleMerge.MergeAlerts` | locale/lang-tools/merge.py:53 | the result is `MergedUpTo` over the ALERTS tables, set back into the three documents; it succeeds exactly when all three tables exist and their orders agree |
| `LocaleSync.SyncedStep` | locale/lang-tools/add_string.py:10-12 | a template key is added, as the blank value, exactly when it is not ALERTS and not present |
| `LocaleSync.SyncedWf` | locale/lang-tools/add_string.py:9-12 | the synced dict is well formed |
| `LocaleSync.SyncedCovers` | locale/lang-tools/add_string.py:9-12 | every template key but ALERTS is present, existing entries keep their values and order, and added ones are '' |
| `LocaleSync.SyncedIdempotent` | locale/lang-tools/add_string.py:9-12 | syncing twice is syncing once |
| `LocaleSync.CopyTemplateInternal` | locale/lang-tools/add_string.py:9-12 | the loop computes `Synced` |
| `LocaleSync.CopyTemplate` | locale/lang-tools/add_string.py:14-25 | the result is `CopiedTemplate`: a missing template fails; no file is created; a changed file system has just the locale file rewritten, holding every template string and ALERTS string |
| `LocaleSync.CopiedTemplateSpec` | locale/lang-tools/add_string.py:14-25 | a missing template fails; a file whose unmerged document is marked merged is left alone; otherwise only the locale file is rewritten, covering the template |
| `LocaleSync.CopiedTemplateSkipsMerged` | locale/lang-tools/add_string.py:17-19 | a marked file that is not a variant with a parent file is left alone |
| `LocaleSync.SyncDoc` | locale/lang-tools/add_string.py:20-23 | the result is `SyncedDoc`; it fails exactly when the template has no ALERTS table or the file's ALERTS is not a table; otherwise every template string and ALERTS string is present |
| `LocaleSync.SyncedDocSpec` | locale/lang-tools/add_string.py:20-23 | `SyncedDoc` fails exactly in those cases and otherwise covers the template and is well formed |
| `LocaleComment.WithComment` | locale/lang-tools/comment_langs.py:24 | an annotated line starts with the stripped line and carries a '#' |
| `LocaleComment.CommentLineShape` | locale/lang-tools/comment_langs.py:18-30 | a line is kept, or is its stripped text followed by a comment; only an uncommented string line can fail |
| `LocaleComment.CommentLineIdempotent` | locale/lang-tools/comment_langs.py:20 | an annotated line is left alone the second time |
| `LocaleComment.CommentedShape` | locale/lang-tools/comment_langs.py:18-30 | one output line per input line, in order; after an error, the lines before the failing one |
| `LocaleComment.CommentedFailure` | locale/lang-tools/comment_langs.py:18-30 | an error comes from the first failing line |
| `LocaleComment.CommentedIdempotent` | locale/lang-tools/comment_langs.py:18-30 | commenting a commented file changes nothing |
| `LocaleComment.CommentedStops` | locale/lang-tools/comment_langs.py:18-30 | after a failing line, later lines change nothing |
| `LocaleComment.CommentedFileKeeps` | locale/lang-tools/comment_langs.py:10-30 | no file is created, the template is never rewritten, and only the locale file changes |
| `LocaleComment.CommentedFileIdempotent` | locale/lang-tools/comment_langs.py:10-30 | a second run after a finished first one changes nothing |
| `LocaleComment.CommentFile` | locale/lang-tools/comment_langs.py:10-30 | the line loop computes `CommentedFile` |
| `LocaleComment.CommentedAllStops` | locale/lang-tools/comment_langs.py:32-37 | after a failing file, later files are not touched |
| `LocaleComment.CommentedAllKeeps` | locale/lang-tools/comment_langs.py:32-37 | no file is created, the template stays, unlisted files are untouched |
| `LocaleComment.CommentFiles` | locale/lang-tools/comment_langs.py:32-37 | a directory has each globbed file commented in turn, anything else is commented as one file |
| `LocaleUpdate.VariantsAreVariants` | locale/lang-tools/update_translations.py:18-22 | the grouped paths of a language are variants of that language |
| `LocaleUpdate.VariantsStep` | locale/lang-tools/update_translations.py:18-22 | a path joins a group exactly when its directory holds '-' and its prefix is the language |
| `LocaleUpdate.GroupedAdd` | locale/lang-tools/update_translations.py:20-22 | a variant joins its language's group, created when new |
| `LocaleUpdate.GroupVariants` | locale/lang-tools/update_translations.py:17-22 | the loop computes `Grouping`: fails exactly when a path has no directory part; otherwise each language with variants has exactly its variants, in glob order, languages listed once |
| `LocaleUpdate.Grouping` | locale/lang-tools/update_translations.py:17-22 | every grouped path is a regional variant |
| `LocaleUpdate.GroupingStops` | locale/lang-tools/update_translations.py:19 | once a path without a directory fails, later paths change nothing |
| `LocaleUpdate.NonTemplates` | locale/lang-tools/update_translations.py:12-15 | the visited paths are exactly the listed ones that do not name the template |
| `LocaleUpdate.NonTemplatesPrefix` | locale/lang-tools/update_translations.py:13-14 | the paths visited from a prefix of the listing are a prefix of those visited from all of it |
| `LocaleUpdate.SyncedAll` | locale/lang-tools/update_translations.py:12-15 | the sync pass creates no file and keeps the files well formed |
| `LocaleUpdate.SyncedAllStops` | locale/lang-tools/update_translations.py:12-15 | once `copy_template` fails, later paths change nothing |
| `LocaleUpdate.SyncedAllFrame` | locale/lang-tools/update_translations.py:12-15 | template paths and unlisted files are untouched |
| `LocaleUpdate.SyncedAllCovers` | locale/lang-tools/update_translations.py:12-15 | after a finished pass each visited file holds every template string and ALERTS string or is as it was |
| `LocaleUpdate.SyncAll` | locale/lang-tools/update_translations.py:12-15 | the loop computes `SyncedAll`: no file is created, and template paths and unlisted files are untouched |
| `LocaleUpdate.VariantNotParent` | locale/lang-tools/update_translations.py:27-28 | a parent path built by tame is never a regional variant's path |
| `LocaleUpdate.MergedAll` | locale/lang-tools/update_translations.py:23-29 | the merge pass keeps the files well formed |
| `LocaleUpdate.MergedAllStops` | locale/lang-tools/update_translations.py:23-29 | once a merge fails, later languages change nothing |
| `LocaleUpdate.MergedAllKeys` | locale/lang-tools/update_translations.py:23-29 | the merge pass removes no file and creates only parents of two-variant languages |
| `LocaleUpdate.MergedAllFrame` | locale/lang-tools/update_translations.py:23-29 | every file that is not a variant or parent of a two-variant language is left as it was |
| `LocaleUpdate.MergedAllMarks` | locale/lang-tools/update_translations.py:23-29 | after a finished pass the parent file of every two-variant language exists and is marked merged |
| `LocaleUpdate.MergeAll` | locale/lang-tools/update_translations.py:23-29 | the loop computes `MergedAll`: each language with exactly two variants, in order, merged into its parent's file; only those parents can be created |
| `LocaleUpdate.CommentAll` | locale/lang-tools/update_translations.py:30-33 | the loop computes `CommentedAll` over `NonTemplates`; no file is created and template paths are untouched |
| `LocaleUpdate.CommentedNonTemplatesStops` | locale/lang-tools/update_translations.py:30-33 | once `comment_file` fails, later paths change nothing |
| `LocaleUpdate.Tame` | locale/lang-tools/update_translations.py:11-33 | the result is `Tamed`: sync, merge and comment in that order, each over the files glob lists then, stopping at the first error; no file is removed, only merging creates files, the template stays unless merging, and with no pass nothing changes |

## Left out

- The event emitter and the `getStakingBalance(true)` call in `setBalance` are
  not modelled. They are display side effects.
- `scripts/database.js` is not part of this model. Its store is a map from
  txid to transaction plus an optional account key.
  - The order in which IndexedDB hands out transactions is not modelled.
    `GetTxs` promises exactly the stored set, in some order.
  - `Promise.all` over `storeTx` is modelled as sequential puts.
- Floating point is left out. Amounts are integer satoshis, so history amounts
  are not divided by `COIN`. The `11/10 * target` test is `10 * total > 11 * target`.
- Only ASCII whitespace and ASCII lower-casing are modelled (`\s`, `trim`,
  `strip`, `toLowerCase`).
- These are parameters and are not modelled:
  - bip39's `validateMnemonic`, the confirmation popup and the advanced-mode setting;
  - `negotiateLanguages`;
  - the script decoders and hex helpers of `script.js` and `utils.js`, and the master key's derivation;
  - the network's `cachedBlockCount`, which is the `chainHeight` parameter.
- The asynchrony of `i18n.js` is left out. Un-awaited `setAlertSubKey` calls are
  modelled in loop order.
- `I18n.Translation.SetAlertKey`: the source stores the language module's own
  ALERTS object, so each resolved sub-key is also written into that language's
  table (into the template's when the import failed). Later lookups in that
  language then see the resolved strings. The model copies the table and keeps
  `Locales` unchanged, so it does not capture that write-through.
- The aliasing between the module-level `ALERTS` and `translation['ALERTS']`
  is left out.
- `tr` uses plain string patterns. `$` replacement patterns in a value are not
  modelled.
- TOML is modelled as the dicts the tools see: top-level strings and booleans,
  and one level of tables.
  - Deeper nesting is left out.
  - the text `toml.dump` writes, a table's Python `'{}'.format` text (`showTable`) and the text
    that a file cut short by an error parses to (`parse`) are parameters.
  - Comments are assumed not to change what a file parses to.
- `glob` is a parameter. Its order is whatever it returns.
- The `os.makedirs` and `open` I/O errors of `merge` are left out.
- A non-table `ALERTS` or `info` value fails with `NotATable`. Python's
  behaviour for such a value depends on its type.
- `WalletState.Wallet.UpdateHighestUsedIndex`: on a non-HD wallet the source
  parses the `:)` path into `NaN` and writes a `NaN` key. The model leaves
  chains 0 and 1 as they are and does not track that key.
- `Scans.Query`: the target is a `nat`. A negative target is truthy in
  JavaScript, so `getUTXOs` would return after the first pick; the callers in
  `scripts/global.js` pass amounts that are never negative, so that case is not modelled.
- A coinbase input's missing txid is modelled as the empty string
  (JavaScript's falsy id).
- `LocaleSync.CopiedTemplateSpec` states the written contents only when the
  file system changes. A rewrite that reproduces the file is not told apart.
- `Ledger.Mempool.LoadFromDisk` states the index, the txmap membership and the
  watermark after the replay. The spent set and the balances are stated per
  replayed transaction by `Ledger.Mempool.UpdateMempool`, not for the whole
  replay.
- `History.Undelegations` states only when it fails, one way. Its value is
  stated by its definition and checked against the loop by
  `WalletState.Wallet.CheckForUndelegations`.
- These are not modelled:
  - switching networks, the `Network` object and `getNetwork().reset()` in the
    wallet's reset;
  - the masternode and governance uses of locked coins.
