/** The chain constants the wallet core reads (scripts/chain_params.js). */
module ChainParams {

  /** Satoshis per coin. */
  const COIN: nat := 100000000

  /** Unused derived addresses scanned past the highest used one before an account search ends. */
  const MAX_ACCOUNT_GAP: nat := 20

  /** Address chains of an HD account: 0 is the external chain, 1 the internal (change) chain. */
  const CHAINS: nat := 2

  /** The per-network parameters the ledger consumes. */
  datatype Network = Network(name: string, coinbaseMaturity: nat, stakingPrefix: char, collateralInSats: nat)

  const MAINNET: Network := Network("mainnet", 100, 'A', 10000 * COIN)
  const TESTNET: Network := Network("testnet", 15, 'a', 10000 * COIN)
}
