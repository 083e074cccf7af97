/** `HDKeyService` as a class: the key store and the file area it writes, the fields
    `currentKey` and `authLevel`, the callbacks it has made, the authentication dialog and the
    registered callbacks. Each method performs the steps of the Java method of the same name
    and is proved to leave the state its function in module Lifecycle describes. */
module Service {
  import opened Wrappers
  import opened Text
  import opened Cipher
  import opened Streams
  import opened Names
  import opened Tiers
  import opened Operations
  import opened KeyStore
  import opened Environment
  import opened Lifecycle
  import opened Enumeration
  import opened StoreProps

  class HDKeyService {
    const core: WalletCore
    var keyStore: map<string, KeyEntry>
    var files: map<BlobName, Blob>
    var currentKey: Option<string>
    var authLevel: AuthenticationLevel
    var events: seq<Event>
    var prompt: Option<nat>
    var createCallback: bool
    var signCallback: bool

    /** The whole state the service reads and changes. */
    ghost function Model(): State
      reads this
    {
      State(Stores(keyStore, files), currentKey, authLevel, events, prompt, createCallback, signCallback)
    }

    /** A service over the key store and file area as they are on the device. Java's field
        `authLevel` starts as null; NOT_SET stands for it, and is never reported before a key
        negotiation sets the field. */
    constructor(core: WalletCore, stores: Stores)
      ensures this.core == core
      ensures Model() == State(stores, None, NOT_SET, [], None, false, false)
    {
      this.core := core;
      keyStore := stores.keys;
      files := stores.files;
      currentKey := None;
      authLevel := NOT_SET;
      events := [];
      prompt := None;
      createCallback := false;
      signCallback := false;
    }

    // ------------------------------------------------------------ deletion

    /** `deleteKey(keyStore, keyAddr)`. */
    method DeleteKey(alias: string)
      modifies this
      ensures Model() == old(Model()).(stores := KeyStore.DeleteKey(old(Model()).stores, alias))
    {
      if Ciphertext(alias) in files {
        files := files - {Ciphertext(alias)};
      }
      if Vector(alias) in files {
        files := files - {Vector(alias)};
      }
      if alias in keyStore {
        keyStore := keyStore - {alias};
      }
      assert files == old(files) - {Ciphertext(alias), Vector(alias)};
      assert keyStore == old(keyStore) - {alias};
    }

    /** `deleteHDKey(walletAddr)`. */
    method DeleteHDKey(walletAddr: string) returns (ok: bool)
      modifies this
      ensures ok
      ensures Model() == DeleteHDKeySpec(old(Model()), walletAddr)
    {
      if Ciphertext(walletAddr) in files && walletAddr in keyStore {
        DeleteKey(walletAddr);
      }
      ok := true;
    }

    /** `deleteBackupKey(walletAddr)`. */
    method DeleteBackupKey(walletAddr: string) returns (ok: bool)
      modifies this
      ensures ok
      ensures Model() == DeleteBackupKeySpec(old(Model()), walletAddr)
    {
      var backupKey := walletAddr + NO_AUTH_LABEL;
      ok := DeleteHDKey(backupKey);
    }

    // ------------------------------------------------------------ callbacks and the dialog

    /** `failToStore(operation)`. */
    method FailToStore(op: Operation)
      modifies this
      ensures Model() == old(Model()).(events := old(events) + FailToStoreReport(op))
    {
      match op
      case CREATE_HD_KEY => events := events + [HDKeyCreated(ZERO_ADDRESS, NOT_SET)];
      case IMPORT_HD_KEY => events := events + [WalletValidated(None, NOT_SET)];
      case _ =>
    }

    /** `keyFailure(message)`. */
    method KeyFailure(message: string)
      modifies this
      ensures Model() == ReportKeyFailure(old(Model()), message)
    {
      if createCallback {
        events := events + [Event.KeyFailure(message)];
      } else if signCallback {
        events := events + [GotAuthorisation(false)];
      }
    }

    /** `cancelAuthentication()`. */
    method CancelAuthentication()
      modifies this
      ensures Model() == old(Model()).(events := old(events) + CancelReport(old(Model())))
    {
      if createCallback {
        events := events + [AuthenticationCancelled];
      } else if signCallback {
        events := events + [GotAuthorisation(false)];
      }
    }

    /** `checkAuthentication(operation)`: show the dialog that resumes `op`. */
    method CheckAuthentication(op: Operation)
      modifies this
      ensures Model() == Suspend(old(Model()), op)
    {
      prompt := Some(Ordinal(op));
    }

    // ------------------------------------------------------------ storeHDKey

    /** `getMaxSecurityKeyGenerator(keyAddress, useAuthentication)`. */
    method GetMaxSecurityKeyGenerator(keyAddress: string, useAuthentication: bool, env: Platform)
      returns (n: Negotiation)
      modifies this
      ensures n == Negotiate(env, keyAddress, useAuthentication)
      ensures Model() == old(Model()).(authLevel := if n.Provisioned? then n.level else old(authLevel))
    {
      if env.sdkAtLeastP {
        match env.strongBox(keyAddress, useAuthentication)
        case StrongBoxReady =>
          authLevel := STRONGBOX_AUTHENTICATION;
          return Provisioned(STRONGBOX_AUTHENTICATION, useAuthentication);
        case StrongBoxRejected =>
          // the exception ends the negotiation and the generator stays uninitialised
          return NotProvisioned;
        case StrongBoxUnavailable =>
      }
      if env.tee(keyAddress, useAuthentication) {
        authLevel := HARDWARE_AUTHENTICATION;
        n := Provisioned(HARDWARE_AUTHENTICATION, useAuthentication);
      } else if env.tee(keyAddress, false) {
        authLevel := NO_AUTHENTICATION;
        n := Provisioned(NO_AUTHENTICATION, false);
      } else {
        n := NotProvisioned;
      }
    }

    /** `storeHDKey(newWallet, operation)`. */
    method StoreHDKey(mnemonic: string, op: Operation, env: Platform)
      modifies this
      ensures Model() == StoreSpec(old(Model()), core, mnemonic, op, env)
    {
      var address := core.address(mnemonic);
      var useAuth := true;
      if op == CREATE_NON_AUTHENTICATED_KEY {
        address := address + NO_AUTH_LABEL;
        useAuth := false;
      }
      if address in keyStore {
        DeleteKey(address);
      }
      var n := GetMaxSecurityKeyGenerator(address, useAuth, env);
      StoreSpecFactors(old(Model()), core, mnemonic, op, env);
      if n.NotProvisioned? {
        // generateKey fails on the uninitialised generator
        DeleteKey(address);
        FailToStore(op);
        return;
      }
      GenerateAndSeal(address, KeyEntry(n.level, n.needsAuth, env.secretFor(address)), mnemonic, op, env);
    }

    /** The part of `storeHDKey` from `generateKey()` on. */
    method GenerateAndSeal(address: string, entry: KeyEntry, mnemonic: string, op: Operation, env: Platform)
      modifies this
      ensures Model() == SealSpec(old(Model()), address, entry, mnemonic, op, env)
    {
      if entry.needsAuth && !env.userAuthenticated {
        // cipher.init throws UserNotAuthenticatedException
        AwaitAuthentication(address, entry, op);
      } else {
        WriteKeyFiles(address, entry, mnemonic, op, env);
      }
    }

    /** The generated key needs an authentication the user has not given: both keys of the
        address are deleted and the operation waits for the prompt. */
    method AwaitAuthentication(address: string, entry: KeyEntry, op: Operation)
      modifies this
      ensures Model() == Suspend(old(Model()).(stores := KeyStore.DeleteKey(KeyStore.DeleteKey(old(Model()).stores, address), BackupAlias(address))), op)
    {
      ghost var s0 := Model().stores;
      keyStore := keyStore[address := entry];
      assert KeyStore.DeleteKey(Model().stores, address) == KeyStore.DeleteKey(s0, address);
      DeleteKey(address);
      DeleteKey(address + NO_AUTH_LABEL);
      CheckAuthentication(op);
    }

    /** The generated key is stored, then the two file writes of `storeHDKey` and the report. */
    method WriteKeyFiles(address: string, entry: KeyEntry, mnemonic: string, op: Operation, env: Platform)
      modifies this
      ensures var st := old(Model());
        Model() == if !env.writeOk(IvFile(address)) || !env.writeOk(HdFile(address)) then
          st.(stores := KeyStore.DeleteKey(st.stores, address), events := st.events + FailToStoreReport(op) + FailToStoreReport(op))
        else
          StoredReport(st.(stores := Sealed(st.stores, address, entry, mnemonic, env), currentKey := None), address, op)
    {
      ghost var s0 := Model().stores;
      keyStore := keyStore[address := entry];
      var iv := env.ivFor(address);
      assert KeyStore.DeleteKey(Model().stores, address) == KeyStore.DeleteKey(s0, address);
      if !env.writeOk(IvFile(address)) {
        RollBack(address, op);
        return;
      }
      files := files[Vector(address) := Blob(iv, env.now)];
      assert KeyStore.DeleteKey(Model().stores, address) == KeyStore.DeleteKey(s0, address);
      if !env.writeOk(HdFile(address)) {
        RollBack(address, op);
        return;
      }
      files := files[Ciphertext(address) := Blob(Encrypt(entry.secret, iv, Encode(mnemonic)), env.now)];
      assert Model().stores == Sealed(s0, address, entry, mnemonic, env);
      currentKey := None;
      ReportStored(address, op);
    }

    /** A failed file write: the inner handler deletes the key and reports the failure, then
        rethrows, and the outer handler does both again. */
    method RollBack(address: string, op: Operation)
      modifies this
      ensures Model() == old(Model()).(stores := KeyStore.DeleteKey(old(Model()).stores, address),
                                       events := old(events) + FailToStoreReport(op) + FailToStoreReport(op))
    {
      DeleteKey(address);
      FailToStore(op);
      DeleteKey(address);
      FailToStore(op);
      DeleteKeyIdempotent(old(Model()).stores, address);
    }

    /** The end of a successful `storeHDKey`. */
    method ReportStored(address: string, op: Operation)
      modifies this
      ensures Model() == StoredReport(old(Model()), address, op)
    {
      match op
      case CREATE_HD_KEY =>
        if createCallback {
          events := events + [HDKeyCreated(address, authLevel)];
        }
      case IMPORT_HD_KEY =>
        events := events + [WalletValidated(Some(address), authLevel)];
        var _ := DeleteBackupKey(address);
      case _ =>
    }

    // ------------------------------------------------------------ unpackMnemonic

    /** `readBytesFromFile(path)` on an existing file. */
    method ReadBytesFromFile(file: Blob) returns (bytes: seq<byte>)
      ensures bytes == file.bytes
    {
      bytes := ReadAll(file.bytes);
    }

    /** `unpackMnemonic(operation)` on `currentKey`. */
    method UnpackMnemonic(op: Operation, env: Platform) returns (mnemonic: string)
      modifies this
      ensures mnemonic == UnpackReturn(old(Model()), op, env)
      ensures Model() == UnpackState(old(Model()), op, env)
    {
      mnemonic := "";
      if currentKey.None? {
        return;
      }
      var alias := currentKey.value;
      if alias !in keyStore {
        KeyFailure(NOT_FOUND_MESSAGE);
        return;
      }
      if env.unrecoverable(alias) {
        KeyFailure(SECURITY_LEVEL_MESSAGE);
        return;
      }
      var iv: seq<byte> := [];
      if Vector(alias) in files {
        iv := ReadBytesFromFile(files[Vector(alias)]);
      }
      mnemonic := UnpackWithVector(alias, iv, op, env);
    }

    /** The rest of `unpackMnemonic(operation)` once the key exists and the vector file has
        been read (as the empty sequence when it is missing). */
    method UnpackWithVector(alias: string, iv: seq<byte>, op: Operation, env: Platform) returns (mnemonic: string)
      requires currentKey == Some(alias) && alias in keyStore && !env.unrecoverable(alias)
      requires iv == if Vector(alias) in files then files[Vector(alias)].bytes else []
      modifies this
      ensures mnemonic == UnpackReturn(old(Model()), op, env)
      ensures Model() == UnpackState(old(Model()), op, env)
    {
      mnemonic := "";
      if |iv| == 0 {
        KeyFailure(SEED_SETUP_MESSAGE);
        return;
      }
      if env.invalidated(alias) {
        KeyFailure(INVALIDATED_MESSAGE);
        return;
      }
      var key := keyStore[alias];
      if key.needsAuth && !env.userAuthenticated {
        CheckAuthentication(op);
        return;
      }
      if Ciphertext(alias) !in files {
        KeyFailure(MISSING_FILE_MESSAGE);
        return;
      }
      mnemonic := Reveal(alias, iv, op, env);
    }

    /** The decryption at the end of `unpackMnemonic(operation)`, every check passed. */
    method Reveal(alias: string, iv: seq<byte>, op: Operation, env: Platform) returns (mnemonic: string)
      requires currentKey == Some(alias) && UnpackOf(Model().stores, alias, env).Unpacked?
      requires iv == files[Vector(alias)].bytes
      modifies this
      ensures mnemonic == UnpackReturn(old(Model()), op, env)
      ensures Model() == UnpackState(old(Model()), op, env)
    {
      mnemonic := "";
      var key := keyStore[alias];
      var plain := Decrypt(key.secret, iv, files[Ciphertext(alias)].bytes);
      var mnemonicBytes := ReadAll(plain);
      var m := Decode(mnemonicBytes);
      match op
      case FETCH_MNEMONIC => events := events + [FetchedMnemonic(m)];
      case SIGN_DATA => mnemonic := m;
      case RESTORE_BACKUP_KEY => mnemonic := m;
      case _ =>
    }

    /** `signData(key, transactionBytes)`. */
    method SignData(key: string, transactionBytes: seq<byte>, env: Platform) returns (signature: seq<byte>)
      modifies this
      ensures signature == SignedBytes(old(Model()), core, key, transactionBytes, env)
      ensures Model() == SignState(old(Model()), key, env)
    {
      currentKey := Some(key);
      var mnemonic := UnpackMnemonic(SIGN_DATA, env);
      if |mnemonic| == 0 {
        signature := Encode("0000");
        assert signature == SIGN_SENTINEL;
        return;
      }
      signature := core.sign(mnemonic, transactionBytes);
    }

    // ------------------------------------------------------------ create, import, fetch, restore

    /** `createHDKey()`. */
    method CreateHDKey(env: Platform)
      modifies this
      ensures Model() == CreateSpec(old(Model()), core, env)
    {
      var newWallet := env.freshMnemonic;
      StoreHDKey(newWallet, CREATE_NON_AUTHENTICATED_KEY, env);
      StoreHDKey(newWallet, CREATE_HD_KEY, env);
    }

    /** `createNewHDKey(callback)`. */
    method CreateNewHDKey(env: Platform)
      modifies this
      ensures Model() == CreateNewHDKeySpec(old(Model()), core, env)
    {
      createCallback := true;
      CreateHDKey(env);
    }

    /** `importHDKey()`: the seed phrase in `currentKey` becomes the primary key. */
    method ImportCurrentKey(env: Platform)
      modifies this
      ensures Model() == ImportCurrentKeySpec(old(Model()), core, env)
    {
      if currentKey.Some? {
        StoreHDKey(currentKey.value, IMPORT_HD_KEY, env);
      }
    }

    /** `importHDKey(seedPhrase, callback)`. */
    method ImportHDKey(seedPhrase: string, env: Platform)
      modifies this
      ensures Model() == ImportSpec(old(Model()), core, seedPhrase, env)
    {
      if !core.isValid(seedPhrase) {
        events := events + [WalletValidated(None, NOT_SET)];
      } else {
        currentKey := Some(seedPhrase);
        ImportCurrentKey(env);
      }
    }

    /** `getMnemonic(address, callback)`. */
    method GetMnemonic(address: string, env: Platform)
      modifies this
      ensures Model() == GetMnemonicSpec(old(Model()), address, env)
    {
      currentKey := Some(address);
      createCallback := true;
      var _ := UnpackMnemonic(FETCH_MNEMONIC, env);
    }

    /** `restoreBackupKey(walletAddress, callback)`. */
    method RestoreBackupKey(walletAddress: string, env: Platform)
      modifies this
      ensures Model() == RestoreBackupKeySpec(old(Model()), core, walletAddress, env)
    {
      currentKey := Some(walletAddress + NO_AUTH_LABEL);
      var mnemonic := UnpackMnemonic(RESTORE_BACKUP_KEY, env);
      StoreHDKey(mnemonic, CREATE_HD_KEY, env);
    }

    /** `autoRestoreBackupKey(walletAddress)`. */
    method AutoRestoreBackupKey(walletAddress: string, env: Platform) returns (restored: bool)
      modifies this
      ensures (Model(), restored) == AutoRestoreSpec(old(Model()), core, walletAddress, env)
    {
      currentKey := Some(walletAddress + NO_AUTH_LABEL);
      var mnemonic := UnpackMnemonic(RESTORE_BACKUP_KEY, env);
      if core.isValid(mnemonic) {
        currentKey := Some(mnemonic);
        StoreHDKey(mnemonic, RESTORE_BACKUP_KEY, env);
        restored := true;
      } else {
        restored := false;
      }
    }

    // ------------------------------------------------------------ authorisation for signing

    /** The private `getAuthenticationForSignature()` on `currentKey`. */
    method CheckSignatureAuthentication(env: Platform)
      modifies this
      ensures Model() == CheckSignatureSpec(old(Model()), core, env)
    {
      if currentKey.None? {
        events := events + [GotAuthorisation(false)];
        return;
      }
      var alias := currentKey.value;
      if alias in keyStore && env.unrecoverable(alias) {
        RecoverFromBackup(alias, env);
        return;
      }
      if Ciphertext(alias) !in files || alias !in keyStore {
        events := events + [GotAuthorisation(false)];
        return;
      }
      if Vector(alias) !in files || files[Vector(alias)].bytes == [] {
        // the cipher cannot be initialised without a vector
        events := events + [GotAuthorisation(false)];
        return;
      }
      if env.invalidated(alias) {
        RecoverFromBackup(alias, env);
        return;
      }
      if keyStore[alias].needsAuth && !env.userAuthenticated {
        CheckAuthentication(CHECK_AUTHENTICATION);
        return;
      }
      events := events + [GotAuthorisation(true)];
    }

    /** The handler of an invalidated or unrecoverable key in `getAuthenticationForSignature()`. */
    method RecoverFromBackup(address: string, env: Platform)
      modifies this
      ensures Model() == RecoverSpec(old(Model()), core, address, env)
    {
      var restored := AutoRestoreBackupKey(address, env);
      if !restored {
        KeyFailure(SECURITY_LEVEL_MESSAGE);
        events := events + [GotAuthorisation(false)];
      }
    }

    /** `getAuthenticationForSignature(walletAddr, callback)`. */
    method GetAuthenticationForSignature(walletAddr: string, env: Platform)
      modifies this
      ensures Model() == GetAuthenticationForSignatureSpec(old(Model()), core, walletAddr, env)
    {
      signCallback := true;
      currentKey := Some(walletAddr);
      CheckSignatureAuthentication(env);
    }

    // ------------------------------------------------------------ resumption

    /** `authenticatePass(callbackId)`. */
    method AuthenticatePass(callbackId: nat, env: Platform)
      requires callbackId < |VALUES|
      modifies this
      ensures Model() == AuthenticatePassSpec(old(Model()), core, callbackId, env)
    {
      prompt := None;
      var operation := FromOrdinal(callbackId);
      match operation
      case CREATE_HD_KEY => CreateHDKey(env);
      case FETCH_MNEMONIC => var _ := UnpackMnemonic(FETCH_MNEMONIC, env);
      case IMPORT_HD_KEY => ImportCurrentKey(env);
      case CHECK_AUTHENTICATION => CheckSignatureAuthentication(env);
      case RESTORE_BACKUP_KEY =>
        if currentKey.Some? {
          StoreHDKey(currentKey.value, RESTORE_BACKUP_KEY, env);
        }
      case _ =>
    }

    /** `authenticateFail(fail, failType, callbackId)`. */
    method AuthenticateFail(failType: AuthenticationFailType)
      modifies this
      ensures Model() == AuthenticateFailSpec(old(Model()), failType)
    {
      if failType == AUTHENTICATION_DIALOG_CANCELLED {
        CancelAuthentication();
        prompt := None;
      }
    }

    // ------------------------------------------------------------ getAllHDWallets

    /** `getAllHDWallets()`: `order` is the order in which the key store enumerated its
        aliases, each alias exactly once. */
    method GetAllHDWallets() returns (wallets: seq<Wallet>, ghost order: seq<string>)
      ensures forall a :: a in order <==> a in keyStore
      ensures forall i, j :: 0 <= i < j < |order| ==> order[i] != order[j]
      ensures wallets == Enumerate(Stores(keyStore, files), order)
    {
      var s := Stores(keyStore, files);
      var fileDates, walletMap;
      fileDates, walletMap, order := CollectDates(s);
      var sorted := SortDates(fileDates);
      EnumerateAll(s, order);
      wallets := ListByDate(sorted, walletMap);
    }
  }
}
