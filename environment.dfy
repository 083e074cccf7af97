/** What the service gets from outside: the platform's per-call outcomes and the HD-wallet library. */
module Environment {
  import opened Text
  import opened Tiers

  /** The platform as one call of the service sees it. Each oracle is a function of the alias
      or file name it is asked about, so that two keys in one call may fare differently. */
  datatype Platform = Platform(
    sdkAtLeastP: bool,                            // Build.VERSION.SDK_INT >= P
    strongBox: (string, bool) -> StrongBoxInit,   // tryInitStrongBoxKey(alias, useAuthentication)
    tee: (string, bool) -> bool,                  // tryInitTEEKey(alias, useAuthentication)
    userAuthenticated: bool,                      // the user authenticated within the validity window
    writeOk: string -> bool,                      // writing this file succeeds
    unrecoverable: string -> bool,                // getKey(alias) throws UnrecoverableKeyException
    invalidated: string -> bool,                  // the key is permanently invalidated
    freshMnemonic: string,                        // the seed phrase a new HDWallet(128) draws
    ivFor: string -> seq<byte>,                   // cipher.getIV() after initialising alias's key
    secretFor: string -> int,                     // the key material generated for alias
    now: int)                                     // the clock that stamps written files

  /** The HD-wallet library, used only through these functions. */
  datatype WalletCore = WalletCore(
    address: string -> string,                    // mnemonic to Ethereum address
    isValid: string -> bool,                      // HDWallet.isValid
    sign: (string, seq<byte>) -> seq<byte>)       // keccak256 the payload, sign with the mnemonic's key

  /** The negotiation `storeHDKey` runs for `alias`. */
  function Negotiate(env: Platform, alias: string, useAuthentication: bool): Negotiation
  {
    MaxSecurity(env.sdkAtLeastP, env.strongBox(alias, useAuthentication),
                env.tee(alias, useAuthentication), env.tee(alias, false), useAuthentication)
  }
}
