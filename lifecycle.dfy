/** The key-lifecycle controller of `HDKeyService` as functions on its state: for each
    operation, the state it leaves behind and what it returns. The class in module Service
    performs the same steps imperatively and is proved equal to these functions. */
module Lifecycle {
  import opened Wrappers
  import opened Text
  import opened Cipher
  import opened Streams
  import opened Names
  import opened Tiers
  import opened Operations
  import opened KeyStore
  import opened Environment

  /** The zero address reported when creating a key fails (declared outside the service). */
  const ZERO_ADDRESS: string := "0x0000000000000000000000000000000000000000"

  const NOT_FOUND_MESSAGE: string := "Key not found in keystore. Re-import key."
  const SEED_SETUP_MESSAGE: string := "Cannot setup wallet seed."
  const SECURITY_LEVEL_MESSAGE: string := "Key created at different security level. Please re-import key"
  /** Stand-in for the message of the platform's key-invalidated exception. */
  const INVALIDATED_MESSAGE: string := "Key permanently invalidated"
  /** Stand-in for the message of the exception raised when the ciphertext file is missing. */
  const MISSING_FILE_MESSAGE: string := "Encrypted seed file not found"

  /** `"0000".getBytes()`: what signing returns when the seed cannot be unpacked. */
  const SIGN_SENTINEL: seq<byte> := [48, 48, 48, 48]

  /** A call the service makes on one of its registered callbacks. */
  datatype Event =
    | HDKeyCreated(address: string, level: AuthenticationLevel)
    | WalletValidated(validated: Option<string>, level: AuthenticationLevel)
    | FetchedMnemonic(mnemonic: string)
    | KeyFailure(message: string)
    | GotAuthorisation(granted: bool)
    | AuthenticationCancelled

  /** The kinds of authentication failure the prompt reports. */
  datatype AuthenticationFailType =
    AUTHENTICATION_DIALOG_CANCELLED | FINGERPRINT_NOT_VALIDATED | PIN_FAILED | DEVICE_NOT_SECURE

  /** Everything the service reads or changes: the two persistent tables, the fields
      `currentKey` and `authLevel`, the callbacks made so far, the authentication dialog
      showing (with the callback id it will resume), and whether the create/fetch callback
      (`callbackInterface`) and the sign callback (`signCallback`) are registered. */
  datatype State = State(
    stores: Stores,
    currentKey: Option<string>,
    authLevel: AuthenticationLevel,
    events: seq<Event>,
    prompt: Option<nat>,
    createCallback: bool,
    signCallback: bool)

  /** `keyFailure(message)` when no alert dialog can be shown (no activity, or the activity
      destroyed): the failure goes to the create/fetch callback if one is registered, else
      the sign callback hears that authorisation failed. */
  function KeyFailureReport(st: State, message: string): seq<Event>
  {
    if st.createCallback then [KeyFailure(message)]
    else if st.signCallback then [GotAuthorisation(false)]
    else []
  }

  function ReportKeyFailure(st: State, message: string): State
  {
    st.(events := st.events + KeyFailureReport(st, message))
  }

  /** `cancelAuthentication`. */
  function CancelReport(st: State): seq<Event>
  {
    if st.createCallback then [AuthenticationCancelled]
    else if st.signCallback then [GotAuthorisation(false)]
    else []
  }

  /** `failToStore(operation)`: the failure callback chosen by the operation. */
  function FailToStoreReport(op: Operation): seq<Event>
  {
    match op
    case CREATE_HD_KEY => [HDKeyCreated(ZERO_ADDRESS, NOT_SET)]
    case IMPORT_HD_KEY => [WalletValidated(None, NOT_SET)]
    case _ => []
  }

  /** `checkAuthentication(operation)`: show the dialog that will resume `op`. */
  function Suspend(st: State, op: Operation): State
  {
    st.(prompt := Some(Ordinal(op)))
  }

  // ---------------------------------------------------------------- storeHDKey

  /** Whether `storeHDKey` asks for a key that needs user authentication. */
  function UsesAuthentication(op: Operation): bool { op != CREATE_NON_AUTHENTICATED_KEY }

  /** The alias `storeHDKey` stores under: the wallet's address, with the backup marker for
      the non-authenticated backup key. */
  function StoreAlias(w: WalletCore, mnemonic: string, op: Operation): string
  {
    if op == CREATE_NON_AUTHENTICATED_KEY then BackupAlias(w.address(mnemonic)) else w.address(mnemonic)
  }

  /** The way a store attempt ends, decided by the platform, in the order the steps run:
      key generation, the encrypt initialisation that may demand authentication, the vector
      file write, the ciphertext file write. */
  datatype StoreBranch =
    | Stored(entry: KeyEntry)
    | NoKeyGenerated
    | AuthenticationRequired
    | IvWriteFailed
    | CiphertextWriteFailed

  function StoreBranchOf(env: Platform, alias: string, useAuthentication: bool): StoreBranch
  {
    var n := Negotiate(env, alias, useAuthentication);
    if n.NotProvisioned? then NoKeyGenerated
    else if n.needsAuth && !env.userAuthenticated then AuthenticationRequired
    else if !env.writeOk(IvFile(alias)) then IvWriteFailed
    else if !env.writeOk(HdFile(alias)) then CiphertextWriteFailed
    else Stored(KeyEntry(n.level, n.needsAuth, env.secretFor(alias)))
  }

  /** The stores after a successful write: the new key entry, its vector file and the
      ciphertext of the seed phrase's bytes under that key and vector. */
  function Sealed(s: Stores, alias: string, e: KeyEntry, mnemonic: string, env: Platform): (r: Stores)
    ensures Complete(r, alias)
  {
    var iv := env.ivFor(alias);
    Stores(s.keys[alias := e],
           s.files[Vector(alias) := Blob(iv, env.now)]
                  [Ciphertext(alias) := Blob(Encrypt(e.secret, iv, Encode(mnemonic)), env.now)])
  }

  /** The stores `storeHDKey` starts from: an existing key of the same alias is deleted. */
  function Cleared(s: Stores, alias: string): Stores
  {
    if alias in s.keys then DeleteKey(s, alias) else s
  }

  /** `storeHDKey(wallet, operation)`. */
  function StoreSpec(st: State, w: WalletCore, mnemonic: string, op: Operation, env: Platform): (r: State)
    ensures var a := StoreAlias(w, mnemonic, op); Complete(r.stores, a) || Absent(r.stores, a)
    ensures r.createCallback == st.createCallback && r.signCallback == st.signCallback
  {
    var a := StoreAlias(w, mnemonic, op);
    var useAuth := UsesAuthentication(op);
    var s0 := Cleared(st.stores, a);
    var n := Negotiate(env, a, useAuth);
    var level := if n.Provisioned? then n.level else st.authLevel;
    match StoreBranchOf(env, a, useAuth)
    case NoKeyGenerated =>
      st.(stores := DeleteKey(s0, a), authLevel := level, events := st.events + FailToStoreReport(op))
    case AuthenticationRequired =>
      Suspend(st.(stores := DeleteKey(DeleteKey(s0, a), BackupAlias(a)), authLevel := level), op)
    case IvWriteFailed =>
      st.(stores := DeleteKey(s0, a), authLevel := level,
          events := st.events + FailToStoreReport(op) + FailToStoreReport(op))
    case CiphertextWriteFailed =>
      st.(stores := DeleteKey(s0, a), authLevel := level,
          events := st.events + FailToStoreReport(op) + FailToStoreReport(op))
    case Stored(e) =>
      StoredReport(st.(stores := Sealed(s0, a, e, mnemonic, env), currentKey := None, authLevel := level), a, op)
  }

  /** `storeHDKey` once a key has been generated at a tier: suspension for authentication,
      the two file writes, and the report. */
  function SealSpec(st: State, a: string, e: KeyEntry, mnemonic: string, op: Operation, env: Platform): State
  {
    if e.needsAuth && !env.userAuthenticated then
      Suspend(st.(stores := DeleteKey(DeleteKey(st.stores, a), BackupAlias(a))), op)
    else if !env.writeOk(IvFile(a)) || !env.writeOk(HdFile(a)) then
      st.(stores := DeleteKey(st.stores, a), events := st.events + FailToStoreReport(op) + FailToStoreReport(op))
    else
      StoredReport(st.(stores := Sealed(st.stores, a, e, mnemonic, env), currentKey := None), a, op)
  }

  /** The last step of a successful `storeHDKey`: creation tells the creation callback, an
      import tells the import callback and deletes the backup key of the address. */
  function StoredReport(st: State, a: string, op: Operation): (r: State)
    ensures SameKey(st.stores, r.stores, a)
    ensures r.createCallback == st.createCallback && r.signCallback == st.signCallback
  {
    if op == CREATE_HD_KEY then
      st.(events := st.events + (if st.createCallback then [HDKeyCreated(a, st.authLevel)] else []))
    else if op == IMPORT_HD_KEY then
      st.(stores := DeleteHDKey(st.stores, BackupAlias(a)), events := st.events + [WalletValidated(Some(a), st.authLevel)])
    else st
  }

  // ---------------------------------------------------------------- unpackMnemonic

  /** How reading back the seed phrase of `alias` ends. */
  datatype Unpacking =
    | Unpacked(mnemonic: string)
    | NotInKeyStore
    | Unrecoverable
    | NoSeedSetup
    | Invalidated
    | NeedsAuthentication
    | CiphertextMissing

  /** The checks of `unpackMnemonic` in the order it makes them, and the decryption. */
  function UnpackOf(s: Stores, alias: string, env: Platform): (r: Unpacking)
    ensures r.Unpacked? ==>
      && Complete(s, alias) && s.files[Vector(alias)].bytes != []
      && !env.unrecoverable(alias) && !env.invalidated(alias)
      && (s.keys[alias].needsAuth ==> env.userAuthenticated)
  {
    if alias !in s.keys then NotInKeyStore
    else if env.unrecoverable(alias) then Unrecoverable
    else if Vector(alias) !in s.files || s.files[Vector(alias)].bytes == [] then NoSeedSetup
    else if env.invalidated(alias) then Invalidated
    else if s.keys[alias].needsAuth && !env.userAuthenticated then NeedsAuthentication
    else if Ciphertext(alias) !in s.files then CiphertextMissing
    else Unpacked(Decode(Decrypt(s.keys[alias].secret, s.files[Vector(alias)].bytes, s.files[Ciphertext(alias)].bytes)))
  }

  /** The state after `unpackMnemonic(operation)` on `currentKey`. */
  function UnpackState(st: State, op: Operation, env: Platform): (r: State)
    ensures r.stores == st.stores && r.currentKey == st.currentKey && r.authLevel == st.authLevel
    ensures r.createCallback == st.createCallback && r.signCallback == st.signCallback
    ensures r.prompt == st.prompt || r.prompt == Some(Ordinal(op))
  {
    if st.currentKey.None? then st
    else match UnpackOf(st.stores, st.currentKey.value, env)
      case NotInKeyStore => ReportKeyFailure(st, NOT_FOUND_MESSAGE)
      case Unrecoverable => ReportKeyFailure(st, SECURITY_LEVEL_MESSAGE)
      case NoSeedSetup => ReportKeyFailure(st, SEED_SETUP_MESSAGE)
      case Invalidated => ReportKeyFailure(st, INVALIDATED_MESSAGE)
      case NeedsAuthentication => Suspend(st, op)
      case CiphertextMissing => ReportKeyFailure(st, MISSING_FILE_MESSAGE)
      case Unpacked(m) => if op == FETCH_MNEMONIC then st.(events := st.events + [FetchedMnemonic(m)]) else st
  }

  /** What `unpackMnemonic(operation)` returns: the seed phrase for SIGN_DATA and
      RESTORE_BACKUP_KEY, the empty string otherwise and on every failure. */
  function UnpackReturn(st: State, op: Operation, env: Platform): (r: string)
    ensures r != [] ==>
      && st.currentKey.Some? && (op == SIGN_DATA || op == RESTORE_BACKUP_KEY)
      && UnpackOf(st.stores, st.currentKey.value, env) == Unpacked(r)
  {
    if st.currentKey.None? then ""
    else match UnpackOf(st.stores, st.currentKey.value, env)
      case Unpacked(m) => if op == SIGN_DATA || op == RESTORE_BACKUP_KEY then m else ""
      case _ => ""
  }

  // ---------------------------------------------------------------- signing

  /** What `signData(key, transactionBytes)` returns. */
  function SignedBytes(st: State, w: WalletCore, key: string, payload: seq<byte>, env: Platform): seq<byte>
  {
    var m := UnpackReturn(st.(currentKey := Some(key)), SIGN_DATA, env);
    if |m| == 0 then SIGN_SENTINEL else w.sign(m, payload)
  }

  /** The state after `signData(key, transactionBytes)`. */
  function SignState(st: State, key: string, env: Platform): State
  {
    UnpackState(st.(currentKey := Some(key)), SIGN_DATA, env)
  }

  // ---------------------------------------------------------------- create, import, restore

  /** `createHDKey`: a fresh seed phrase, stored first as the backup key, then as the primary. */
  function CreateSpec(st: State, w: WalletCore, env: Platform): (r: State)
    ensures var a := w.address(env.freshMnemonic); Complete(r.stores, a) || Absent(r.stores, a)
    ensures r.createCallback == st.createCallback && r.signCallback == st.signCallback
  {
    var m := env.freshMnemonic;
    StoreSpec(StoreSpec(st, w, m, CREATE_NON_AUTHENTICATED_KEY, env), w, m, CREATE_HD_KEY, env)
  }

  /** `createNewHDKey(callback)`. */
  function CreateNewHDKeySpec(st: State, w: WalletCore, env: Platform): State
  {
    CreateSpec(st.(createCallback := true), w, env)
  }

  /** `importHDKey()`: store the seed phrase held in `currentKey` as the primary key only. */
  function ImportCurrentKeySpec(st: State, w: WalletCore, env: Platform): State
  {
    if st.currentKey.Some? then StoreSpec(st, w, st.currentKey.value, IMPORT_HD_KEY, env) else st
  }

  /** `importHDKey(seedPhrase, callback)`: an invalid phrase is reported at once; a valid one
      is kept in `currentKey` and imported. */
  function ImportSpec(st: State, w: WalletCore, phrase: string, env: Platform): (r: State)
    ensures !w.isValid(phrase) ==> r.stores == st.stores && r.currentKey == st.currentKey
    ensures w.isValid(phrase) ==> Complete(r.stores, w.address(phrase)) || Absent(r.stores, w.address(phrase))
  {
    if !w.isValid(phrase) then st.(events := st.events + [WalletValidated(None, NOT_SET)])
    else ImportCurrentKeySpec(st.(currentKey := Some(phrase)), w, env)
  }

  /** `getMnemonic(address, callback)`. */
  function GetMnemonicSpec(st: State, address: string, env: Platform): State
  {
    UnpackState(st.(currentKey := Some(address), createCallback := true), FETCH_MNEMONIC, env)
  }

  /** `restoreBackupKey(walletAddress, callback)`: unpack the backup's seed phrase and store it
      as a new primary key, whatever the unpacking returned. */
  function RestoreBackupKeySpec(st: State, w: WalletCore, address: string, env: Platform): State
  {
    var st1 := st.(currentKey := Some(BackupAlias(address)));
    var m := UnpackReturn(st1, RESTORE_BACKUP_KEY, env);
    StoreSpec(UnpackState(st1, RESTORE_BACKUP_KEY, env), w, m, CREATE_HD_KEY, env)
  }

  /** `autoRestoreBackupKey(walletAddress)`: the state afterwards and whether it reports success. */
  function AutoRestoreSpec(st: State, w: WalletCore, address: string, env: Platform): (r: (State, bool))
    ensures !r.1 ==> r.0.stores == st.stores && r.0.currentKey == Some(BackupAlias(address))
    ensures r.0.createCallback == st.createCallback && r.0.signCallback == st.signCallback
  {
    var st1 := st.(currentKey := Some(BackupAlias(address)));
    var m := UnpackReturn(st1, RESTORE_BACKUP_KEY, env);
    var st2 := UnpackState(st1, RESTORE_BACKUP_KEY, env);
    if w.isValid(m) then (StoreSpec(st2.(currentKey := Some(m)), w, m, RESTORE_BACKUP_KEY, env), true)
    else (st2, false)
  }

  // ---------------------------------------------------------------- authorisation for signing

  function Granted(st: State, granted: bool): State
  {
    st.(events := st.events + [GotAuthorisation(granted)])
  }

  /** The invalidated-key branch of `getAuthenticationForSignature`: recover from the backup,
      or report the failure and refuse. */
  function RecoverSpec(st: State, w: WalletCore, address: string, env: Platform): (r: State)
    ensures !AutoRestoreSpec(st, w, address, env).1 ==>
      && r.stores == st.stores && |r.events| > 0 && r.events[|r.events| - 1] == GotAuthorisation(false)
    ensures r.createCallback == st.createCallback && r.signCallback == st.signCallback
  {
    var r := AutoRestoreSpec(st, w, address, env);
    if r.1 then r.0 else Granted(ReportKeyFailure(r.0, SECURITY_LEVEL_MESSAGE), false)
  }

  /** The private `getAuthenticationForSignature()` on `currentKey`. */
  function CheckSignatureSpec(st: State, w: WalletCore, env: Platform): (r: State)
    ensures r.stores != st.stores ==> st.currentKey.Some? && AutoRestoreSpec(st, w, st.currentKey.value, env).1
    ensures r.createCallback == st.createCallback && r.signCallback == st.signCallback
  {
    if st.currentKey.None? then Granted(st, false)
    else
      var a := st.currentKey.value;
      var s := st.stores;
      if a in s.keys && env.unrecoverable(a) then RecoverSpec(st, w, a, env)
      else if Ciphertext(a) !in s.files || a !in s.keys then Granted(st, false)
      else if Vector(a) !in s.files || s.files[Vector(a)].bytes == [] then Granted(st, false)
      else if env.invalidated(a) then RecoverSpec(st, w, a, env)
      else if s.keys[a].needsAuth && !env.userAuthenticated then Suspend(st, CHECK_AUTHENTICATION)
      else Granted(st, true)
  }

  /** `getAuthenticationForSignature(walletAddr, callback)`. */
  function GetAuthenticationForSignatureSpec(st: State, w: WalletCore, address: string, env: Platform): State
  {
    CheckSignatureSpec(st.(signCallback := true, currentKey := Some(address)), w, env)
  }

  // ---------------------------------------------------------------- deletion

  /** `deleteHDKey(walletAddr)` (which always answers true). */
  function DeleteHDKeySpec(st: State, address: string): State
  {
    st.(stores := DeleteHDKey(st.stores, address))
  }

  /** `deleteBackupKey(walletAddr)`. */
  function DeleteBackupKeySpec(st: State, address: string): State
  {
    DeleteHDKeySpec(st, BackupAlias(address))
  }

  // ---------------------------------------------------------------- resumption

  /** `authenticatePass(callbackId)`: dismiss the dialog and re-run the operation the id names. */
  function AuthenticatePassSpec(st: State, w: WalletCore, callbackId: nat, env: Platform): (r: State)
    requires callbackId < |VALUES|
    ensures r.createCallback == st.createCallback && r.signCallback == st.signCallback
    ensures FromOrdinal(callbackId) in {SIGN_WITH_KEY, SIGN_DATA, CREATE_NON_AUTHENTICATED_KEY} ==> r.stores == st.stores
  {
    var st0 := st.(prompt := None);
    match FromOrdinal(callbackId)
    case CREATE_HD_KEY => CreateSpec(st0, w, env)
    case FETCH_MNEMONIC => UnpackState(st0, FETCH_MNEMONIC, env)
    case IMPORT_HD_KEY => ImportCurrentKeySpec(st0, w, env)
    case CHECK_AUTHENTICATION => CheckSignatureSpec(st0, w, env)
    case RESTORE_BACKUP_KEY =>
      if st0.currentKey.Some? then StoreSpec(st0, w, st0.currentKey.value, RESTORE_BACKUP_KEY, env) else st0
    case _ => st0
  }

  /** `authenticateFail(fail, failType, callbackId)`: a cancelled dialog is dismissed and the
      cancellation reported; the other kinds only give the user feedback. */
  function AuthenticateFailSpec(st: State, failType: AuthenticationFailType): State
  {
    if failType == AUTHENTICATION_DIALOG_CANCELLED then st.(events := st.events + CancelReport(st), prompt := None)
    else st
  }
}
