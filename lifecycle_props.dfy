/** Properties of the key lifecycle that span several steps: creation, import, resumption
    after authentication, deletion, reading back, signing and recovery from the backup. */
module LifecycleProps {
  import opened Wrappers
  import opened Text
  import opened Names
  import opened Tiers
  import opened Operations
  import opened KeyStore
  import opened Environment
  import opened Lifecycle
  import opened StoreProps

  /** What unpacking reads depends only on the key and its two files. */
  lemma UnpackSameKey(s: Stores, r: Stores, k: string, env: Platform)
    requires SameKey(s, r, k)
    ensures UnpackOf(s, k, env) == UnpackOf(r, k, env)
  {
  }

  /** Deleting a key just written undoes the write. */
  lemma DeleteSealed(t: Stores, k: string, e: KeyEntry, mnemonic: string, env: Platform)
    ensures DeleteKey(Sealed(t, k, e, mnemonic, env), k) == DeleteKey(t, k)
  {
    var l := DeleteKey(Sealed(t, k, e, mnemonic, env), k);
    var r := DeleteKey(t, k);
    assert l.keys == r.keys;
    assert l.files == r.files;
  }

  /** The platform's behaviour with the user authenticated. */
  function Authenticated(env: Platform): Platform
  {
    env.(userAuthenticated := true)
  }

  lemma AuthenticatedSameNegotiation(env: Platform, alias: string, useAuthentication: bool)
    ensures Negotiate(Authenticated(env), alias, useAuthentication) == Negotiate(env, alias, useAuthentication)
  {
  }

  // ---------------------------------------------------------------- create

  /** A creation that is not interrupted stores the fresh seed phrase twice: under the
      backup alias with a key that needs no authentication, and under the address; both
      read back as the phrase (the backup without any authentication, the primary once its
      authentication is given), `currentKey` is cleared and only the creation callback is made. */
  lemma CreateStoresBackupAndPrimary(st: State, w: WalletCore, env: Platform, env': Platform)
    requires var a := w.address(env.freshMnemonic);
      && StoreBranchOf(env, BackupAlias(a), false).Stored?
      && StoreBranchOf(env, a, true).Stored?
      && |env.ivFor(a)| > 0 && |env.ivFor(BackupAlias(a))| > 0
      && !env'.unrecoverable(a) && !env'.invalidated(a)
      && !env'.unrecoverable(BackupAlias(a)) && !env'.invalidated(BackupAlias(a))
    ensures var m := env.freshMnemonic;
      var a := w.address(m);
      var b := BackupAlias(a);
      var r := CreateSpec(st, w, env);
      && Complete(r.stores, a) && Complete(r.stores, b)
      && !r.stores.keys[b].needsAuth
      && r.authLevel == r.stores.keys[a].level
      && ((r.stores.keys[a].needsAuth ==> env'.userAuthenticated) ==> UnpackOf(r.stores, a, env') == Unpacked(m))
      && UnpackOf(r.stores, b, env') == Unpacked(m)
      && r.currentKey == None && r.prompt == st.prompt
      && r.events == st.events + (if st.createCallback then [HDKeyCreated(a, r.authLevel)] else [])
  {
    var m := env.freshMnemonic;
    var a := w.address(m);
    var b := BackupAlias(a);
    var st1 := StoreSpec(st, w, m, CREATE_NON_AUTHENTICATED_KEY, env);
    UnauthenticatedStoreNeverSuspends(env, b, true);
    StoreSucceeds(st, w, m, CREATE_NON_AUTHENTICATED_KEY, env, env');
    StoreSucceeds(st1, w, m, CREATE_HD_KEY, env, env'.(userAuthenticated := true));
    BackupAliasDiffers(a);
    StoreFrame(st1, w, m, CREATE_HD_KEY, env, b);
    UnpackSameKey(st1.stores, CreateSpec(st, w, env).stores, b, env');
  }

  /** Creation is suspended exactly when the primary key needs an authentication the user has
      not given; then neither the address nor its backup holds a key, and no callback is made. */
  lemma CreateSuspendsOnlyForPrimary(st: State, w: WalletCore, env: Platform)
    ensures var a := w.address(env.freshMnemonic);
      var r := CreateSpec(st, w, env);
      && r.prompt == (if StoreBranchOf(env, a, true).AuthenticationRequired? then Some(Ordinal(CREATE_HD_KEY)) else st.prompt)
      && (StoreBranchOf(env, a, true).AuthenticationRequired? ==>
            && Absent(r.stores, a) && Absent(r.stores, BackupAlias(a)) && r.events == st.events)
  {
    var m := env.freshMnemonic;
    var a := w.address(m);
    var st1 := StoreSpec(st, w, m, CREATE_NON_AUTHENTICATED_KEY, env);
    UnauthenticatedStoreNeverSuspends(env, BackupAlias(a), env.userAuthenticated);
    StorePrompt(st, w, m, CREATE_NON_AUTHENTICATED_KEY, env);
    StorePrompt(st1, w, m, CREATE_HD_KEY, env);
    BackupStoreSilent(st, w, m, env);
    if StoreBranchOf(env, a, true).AuthenticationRequired? {
      StoreSuspends(st1, w, m, CREATE_HD_KEY, env);
    }
  }

  /** The stores the backup store leaves, on consistent stores. */
  function BackupStores(s: Stores, w: WalletCore, m: string, env: Platform): Stores
  {
    var b := BackupAlias(w.address(m));
    match StoreBranchOf(env, b, false)
    case Stored(eb) => Sealed(DeleteKey(s, b), b, eb, m, env)
    case _ => DeleteKey(s, b)
  }

  lemma BackupStoreState(st: State, w: WalletCore, m: string, env: Platform)
    requires Consistent(st.stores)
    ensures var r := StoreSpec(st, w, m, CREATE_NON_AUTHENTICATED_KEY, env);
      && r.stores == BackupStores(st.stores, w, m, env)
      && r.events == st.events && r.prompt == st.prompt
      && r.createCallback == st.createCallback && r.signCallback == st.signCallback
      && StoreSpec(st, w, m, CREATE_NON_AUTHENTICATED_KEY, Authenticated(env)) == r
  {
    var b := BackupAlias(w.address(m));
    UnauthenticatedStoreNeverSuspends(env, b, true);
    StoreStores(st, w, m, CREATE_NON_AUTHENTICATED_KEY, env);
    ClearedIsDeleteKey(st.stores, b);
  }

  lemma PrimaryStoredState(st: State, w: WalletCore, m: string, env: Platform)
    requires Consistent(st.stores)
    requires StoreBranchOf(env, w.address(m), true).Stored?
    ensures var a := w.address(m);
      var e := StoreBranchOf(env, a, true).entry;
      StoreSpec(st, w, m, CREATE_HD_KEY, env) ==
        st.(stores := Sealed(DeleteKey(st.stores, a), a, e, m, env), currentKey := None, authLevel := e.level,
            events := st.events + (if st.createCallback then [HDKeyCreated(a, e.level)] else []))
  {
    ClearedIsDeleteKey(st.stores, w.address(m));
  }

  /** Writing the backup again onto stores from which the backup and then the primary were
      deleted gives back the stores with only the primary deleted. */
  lemma BackupRebuilt(s: Stores, w: WalletCore, m: string, env: Platform)
    requires Consistent(s)
    ensures var a := w.address(m);
      var x := BackupStores(s, w, m, env);
      BackupStores(DeleteKey(DeleteKey(x, a), BackupAlias(a)), w, m, env) == DeleteKey(x, a)
  {
    var a := w.address(m);
    var b := BackupAlias(a);
    BackupAliasDiffers(a);
    var x := BackupStores(s, w, m, env);
    var t := DeleteKey(s, b);
    DeleteKeyIdempotent(DeleteKey(x, a), b);
    match StoreBranchOf(env, b, false)
    case Stored(eb) =>
      SealedDeleteCommute(t, b, a, eb, m, env);
      assert DeleteKey(x, a) == Sealed(DeleteKey(t, a), b, eb, m, env);
      DeleteSealed(DeleteKey(t, a), b, eb, m, env);
      DeleteKeyCommutes(t, a, b);
      DeleteKeyIdempotent(s, b);
      DeleteKeyCommutes(s, a, b);
      assert DeleteKey(DeleteKey(x, a), b) == DeleteKey(DeleteKey(t, a), b);
      DeleteKeyIdempotent(DeleteKey(t, a), b);
    case _ =>
      DeleteKeyCommutes(s, a, b);
      DeleteKeyIdempotent(s, b);
      DeleteKeyCommutes(t, a, b);
  }

  /** A creation suspended for authentication and resumed once the user has authenticated
      ends in the same state as a creation made with the user already authenticated, for the
      same drawn seed phrase. (The resumed `createHDKey` draws a new wallet; `Authenticated`
      keeps the platform's `freshMnemonic`, so this compares the two runs on one phrase.) */
  lemma CreateResumes(st: State, w: WalletCore, env: Platform)
    requires Consistent(st.stores)
    requires var a := w.address(env.freshMnemonic);
      && StoreBranchOf(env, a, true).AuthenticationRequired?
      && StoreBranchOf(Authenticated(env), a, true).Stored?
    ensures var r := CreateSpec(st, w, env);
      && r.prompt == Some(Ordinal(CREATE_HD_KEY))
      && AuthenticatePassSpec(r, w, Ordinal(CREATE_HD_KEY), Authenticated(env))
         == CreateSpec(st, w, Authenticated(env)).(prompt := None)
  {
    var env' := Authenticated(env);
    var m := env.freshMnemonic;
    var a := w.address(m);
    var b := BackupAlias(a);
    var e := StoreBranchOf(env', a, true).entry;
    OrdinalRoundTrip(CREATE_HD_KEY, 0);
    CreateSuspendsOnlyForPrimary(st, w, env);
    AuthenticatedSameNegotiation(env, a, true);
    var d1 := StoreSpec(st, w, m, CREATE_NON_AUTHENTICATED_KEY, env);
    BackupStoreState(st, w, m, env);
    StoreConsistent(st, w, m, CREATE_NON_AUTHENTICATED_KEY, env);
    var x := d1.stores;
    // direct run with authentication
    PrimaryStoredState(d1, w, m, env');
    var direct := StoreSpec(d1, w, m, CREATE_HD_KEY, env');
    // interrupted run
    var r := StoreSpec(d1, w, m, CREATE_HD_KEY, env);
    StoreStores(d1, w, m, CREATE_HD_KEY, env);
    ClearedIsDeleteKey(x, a);
    DeleteKeyIdempotent(x, a);
    assert r.stores == DeleteKey(DeleteKey(x, a), b);
    StoreConsistent(d1, w, m, CREATE_HD_KEY, env);
    // resumed run
    var r0 := r.(prompt := None);
    var e1 := StoreSpec(r0, w, m, CREATE_NON_AUTHENTICATED_KEY, env');
    BackupStoreState(r0, w, m, env);
    BackupRebuilt(st.stores, w, m, env);
    assert e1.stores == DeleteKey(x, a);
    DeleteKeyConsistent(x, a);
    PrimaryStoredState(e1, w, m, env');
    var e2 := StoreSpec(e1, w, m, CREATE_HD_KEY, env');
    assert AuthenticatePassSpec(r, w, Ordinal(CREATE_HD_KEY), env') == e2;
    DeleteKeyIdempotent(x, a);
    assert e2.stores == direct.stores;
  }

  // ---------------------------------------------------------------- import

  /** An invalid seed phrase is reported at once with no wallet at NOT_SET, and nothing else
      changes. */
  lemma ImportRejectsInvalid(st: State, w: WalletCore, phrase: string, env: Platform)
    requires !w.isValid(phrase)
    ensures var r := ImportSpec(st, w, phrase, env);
      && r.stores == st.stores && r.currentKey == st.currentKey && r.prompt == st.prompt
      && r.events == st.events + [WalletValidated(None, NOT_SET)]
  {
  }

  /** A valid phrase imported without interruption is stored only as the primary key, reads
      back as the phrase, and any backup of that address is gone afterwards. */
  lemma ImportStoresPrimaryOnly(st: State, w: WalletCore, phrase: string, env: Platform, env': Platform)
    requires Consistent(st.stores) && w.isValid(phrase)
    requires var a := w.address(phrase);
      && StoreBranchOf(env, a, true).Stored? && |env.ivFor(a)| > 0
      && !env'.unrecoverable(a) && !env'.invalidated(a) && env'.userAuthenticated
    ensures var a := w.address(phrase);
      var r := ImportSpec(st, w, phrase, env);
      && Complete(r.stores, a) && Absent(r.stores, BackupAlias(a)) && Consistent(r.stores)
      && UnpackOf(r.stores, a, env') == Unpacked(phrase)
      && r.currentKey == None
      && r.events == st.events + [WalletValidated(Some(a), r.authLevel)]
  {
    var a := w.address(phrase);
    var st1 := st.(currentKey := Some(phrase));
    StoreSucceeds(st1, w, phrase, IMPORT_HD_KEY, env, env');
    StoreConsistent(st1, w, phrase, IMPORT_HD_KEY, env);
    StoreStores(st1, w, phrase, IMPORT_HD_KEY, env);
    var e := StoreBranchOf(env, a, true).entry;
    var s0 := Cleared(st.stores, a);
    ClearedAbsent(st.stores, a);
    SealedConsistent(s0, a, e, phrase, env);
    DeleteHDKeyIsDeleteKey(Sealed(s0, a, e, phrase, env), BackupAlias(a));
  }

  /** An import suspended for authentication and resumed once the user has authenticated
      ends in the same state as an import made with the user already authenticated. */
  lemma ImportResumes(st: State, w: WalletCore, phrase: string, env: Platform)
    requires Consistent(st.stores) && w.isValid(phrase)
    requires var a := w.address(phrase);
      && StoreBranchOf(env, a, true).AuthenticationRequired?
      && StoreBranchOf(Authenticated(env), a, true).Stored?
    ensures var r := ImportSpec(st, w, phrase, env);
      && r.prompt == Some(Ordinal(IMPORT_HD_KEY)) && r.currentKey == Some(phrase)
      && AuthenticatePassSpec(r, w, Ordinal(IMPORT_HD_KEY), Authenticated(env))
         == ImportSpec(st, w, phrase, Authenticated(env)).(prompt := None)
  {
    var env' := Authenticated(env);
    var a := w.address(phrase);
    var b := BackupAlias(a);
    var e := StoreBranchOf(env', a, true).entry;
    BackupAliasDiffers(a);
    OrdinalRoundTrip(IMPORT_HD_KEY, 0);
    AuthenticatedSameNegotiation(env, a, true);
    var s := st.stores;
    var st1 := st.(currentKey := Some(phrase));
    StoreSuspends(st1, w, phrase, IMPORT_HD_KEY, env);
    // direct run
    StoreStores(st1, w, phrase, IMPORT_HD_KEY, env');
    ClearedIsDeleteKey(s, a);
    ClearedAbsent(s, a);
    SealedConsistent(DeleteKey(s, a), a, e, phrase, env');
    var direct := StoreSpec(st1, w, phrase, IMPORT_HD_KEY, env');
    DeleteHDKeyIsDeleteKey(Sealed(DeleteKey(s, a), a, e, phrase, env'), b);
    assert direct.stores == DeleteKey(Sealed(DeleteKey(s, a), a, e, phrase, env'), b);
    // interrupted run
    var r := StoreSpec(st1, w, phrase, IMPORT_HD_KEY, env);
    StoreStores(st1, w, phrase, IMPORT_HD_KEY, env);
    DeleteKeyIdempotent(s, a);
    assert r.stores == DeleteKey(DeleteKey(s, a), b);
    StoreConsistent(st1, w, phrase, IMPORT_HD_KEY, env);
    // resumed run
    var r0 := r.(prompt := None);
    var e2 := StoreSpec(r0, w, phrase, IMPORT_HD_KEY, env');
    assert AuthenticatePassSpec(r, w, Ordinal(IMPORT_HD_KEY), env') == e2;
    StoreStores(r0, w, phrase, IMPORT_HD_KEY, env');
    var t := DeleteKey(DeleteKey(s, a), b);
    ClearedIsDeleteKey(t, a);
    DeleteKeyCommutes(DeleteKey(s, a), a, b);
    DeleteKeyIdempotent(s, a);
    assert DeleteKey(t, a) == t;
    DeleteKeyConsistent(DeleteKey(s, a), b);
    SealedConsistent(t, a, e, phrase, env');
    DeleteHDKeyIsDeleteKey(Sealed(t, a, e, phrase, env'), b);
    SealedDeleteCommute(DeleteKey(s, a), a, b, e, phrase, env');
    DeleteKeyIdempotent(Sealed(DeleteKey(s, a), a, e, phrase, env'), b);
    assert e2.stores == direct.stores;
  }

  // ---------------------------------------------------------------- delete, fetch, sign

  /** Deleting a wallet's key removes it and its files and touches no other key. */
  lemma DeleteRemovesKey(st: State, address: string, k: string)
    requires Consistent(st.stores)
    ensures var r := DeleteHDKeySpec(st, address);
      && Absent(r.stores, address) && Consistent(r.stores)
      && (k != address ==> SameKey(st.stores, r.stores, k))
      && r.events == st.events && r.currentKey == st.currentKey
  {
    DeleteHDKeyIsDeleteKey(st.stores, address);
    DeleteKeyConsistent(st.stores, address);
    if k != address {
      DeleteKeyFrame(st.stores, address, k);
    }
  }

  /** Deleting the backup of an address acts on the alias with the marker and nothing else:
      the primary key of the address survives. */
  lemma DeleteBackupRemovesBackupOnly(st: State, address: string)
    requires Consistent(st.stores)
    ensures var r := DeleteBackupKeySpec(st, address);
      && Absent(r.stores, BackupAlias(address))
      && SameKey(st.stores, r.stores, address)
  {
    BackupAliasDiffers(address);
    DeleteRemovesKey(st, BackupAlias(address), address);
  }

  /** After a deletion, fetching the seed phrase of that address reports that the key is not
      in the key store, and changes nothing else. */
  lemma DeleteThenFetchNotFound(st: State, address: string, env: Platform)
    requires Consistent(st.stores)
    ensures var r := GetMnemonicSpec(DeleteHDKeySpec(st, address), address, env);
      && r.events == st.events + [KeyFailure(NOT_FOUND_MESSAGE)]
      && r.stores == DeleteHDKey(st.stores, address)
  {
    DeleteHDKeyIsDeleteKey(st.stores, address);
  }

  /** The failures of `unpackMnemonic` on any state: a missing alias reports that the key is
      not in the key store, a recoverable key whose vector file is missing or empty reports
      that the seed cannot be set up, and every failure returns the empty string. None of them
      writes anything. */
  lemma UnpackFailures(st: State, op: Operation, env: Platform)
    requires st.currentKey.Some?
    ensures var a := st.currentKey.value;
      var s := st.stores;
      && (a !in s.keys ==>
            UnpackState(st, op, env) == ReportKeyFailure(st, NOT_FOUND_MESSAGE) && UnpackReturn(st, op, env) == "")
      && (a in s.keys && !env.unrecoverable(a) && (Vector(a) !in s.files || s.files[Vector(a)].bytes == []) ==>
            UnpackState(st, op, env) == ReportKeyFailure(st, SEED_SETUP_MESSAGE) && UnpackReturn(st, op, env) == "")
      && (!UnpackOf(s, a, env).Unpacked? ==> UnpackReturn(st, op, env) == "")
  {
  }

  /** Fetching the seed phrase of a key that was just imported returns that phrase. */
  lemma ImportThenFetch(st: State, w: WalletCore, phrase: string, env: Platform, env': Platform)
    requires Consistent(st.stores) && w.isValid(phrase)
    requires var a := w.address(phrase);
      && StoreBranchOf(env, a, true).Stored? && |env.ivFor(a)| > 0
      && !env'.unrecoverable(a) && !env'.invalidated(a) && env'.userAuthenticated
    ensures var r := ImportSpec(st, w, phrase, env);
      GetMnemonicSpec(r, w.address(phrase), env').events == r.events + [FetchedMnemonic(phrase)]
  {
    ImportStoresPrimaryOnly(st, w, phrase, env, env');
  }

  /** Signing signs with the unpacked seed phrase, and returns the sentinel bytes whenever the
      phrase cannot be unpacked. */
  lemma SignUsesUnpackedPhrase(st: State, w: WalletCore, key: string, payload: seq<byte>, env: Platform)
    ensures var u := UnpackOf(st.stores, key, env);
      && (u.Unpacked? && u.mnemonic != [] ==> SignedBytes(st, w, key, payload, env) == w.sign(u.mnemonic, payload))
      && (!u.Unpacked? || u.mnemonic == [] ==> SignedBytes(st, w, key, payload, env) == SIGN_SENTINEL)
  {
  }

  /** Signing with a deleted key returns the sentinel bytes and reports that the key is not in
      the key store. */
  lemma SignAfterDelete(st: State, w: WalletCore, address: string, payload: seq<byte>, env: Platform)
    requires Consistent(st.stores)
    ensures var d := DeleteHDKeySpec(st, address);
      && SignedBytes(d, w, address, payload, env) == SIGN_SENTINEL
      && SignState(d, address, env).events == st.events + KeyFailureReport(st, NOT_FOUND_MESSAGE)
  {
    DeleteHDKeyIsDeleteKey(st.stores, address);
  }

  /** Signing with a key just stored signs with the stored seed phrase. */
  lemma SignAfterStore(st: State, w: WalletCore, m: string, op: Operation, payload: seq<byte>, env: Platform, env': Platform)
    requires m != []
    requires var a := StoreAlias(w, m, op);
      && StoreBranchOf(env, a, UsesAuthentication(op)).Stored? && |env.ivFor(a)| > 0
      && !env'.unrecoverable(a) && !env'.invalidated(a) && env'.userAuthenticated
    ensures SignedBytes(StoreSpec(st, w, m, op, env), w, StoreAlias(w, m, op), payload, env') == w.sign(m, payload)
  {
    StoreSucceeds(st, w, m, op, env, env');
  }

  // ---------------------------------------------------------------- recovery

  /** `getAuthenticationForSignature` turns to the backup exactly when the key exists but is
      unrecoverable, or when it is complete but permanently invalidated. */
  predicate NeedsRecovery(s: Stores, a: string, env: Platform)
  {
    || (a in s.keys && env.unrecoverable(a))
    || (Ciphertext(a) in s.files && a in s.keys && Vector(a) in s.files && s.files[Vector(a)].bytes != []
        && env.invalidated(a))
  }

  lemma CheckSignatureRecovers(st: State, w: WalletCore, env: Platform)
    requires st.currentKey.Some? && NeedsRecovery(st.stores, st.currentKey.value, env)
    ensures CheckSignatureSpec(st, w, env) == RecoverSpec(st, w, st.currentKey.value, env)
  {
  }

  /** When the key of a wallet is invalidated and its backup still reads back as a valid
      phrase, the key is restored from the backup without any callback: a new primary key
      holding the phrase is written and the backup is kept. */
  lemma AutoRecoverySilent(st: State, w: WalletCore, env: Platform, env': Platform)
    requires st.currentKey.Some? && NeedsRecovery(st.stores, st.currentKey.value, env)
    requires var b := BackupAlias(st.currentKey.value);
      && UnpackOf(st.stores, b, env).Unpacked?
      && var m := UnpackOf(st.stores, b, env).mnemonic;
      && w.isValid(m) && w.address(m) == st.currentKey.value
      && StoreBranchOf(env, w.address(m), true).Stored? && |env.ivFor(w.address(m))| > 0
      && !env'.unrecoverable(w.address(m)) && !env'.invalidated(w.address(m)) && env'.userAuthenticated
    ensures var a := st.currentKey.value;
      var m := UnpackOf(st.stores, BackupAlias(a), env).mnemonic;
      var r := CheckSignatureSpec(st, w, env);
      && r.events == st.events && r.currentKey == None
      && Complete(r.stores, a) && r.stores.keys[a] == StoreBranchOf(env, a, true).entry
      && UnpackOf(r.stores, a, env') == Unpacked(m)
      && SameKey(st.stores, r.stores, BackupAlias(a))
  {
    var a := st.currentKey.value;
    var b := BackupAlias(a);
    var m := UnpackOf(st.stores, b, env).mnemonic;
    CheckSignatureRecovers(st, w, env);
    var st2 := st.(currentKey := Some(m));
    assert AutoRestoreSpec(st, w, a, env) == (StoreSpec(st2, w, m, RESTORE_BACKUP_KEY, env), true);
    StoreSucceeds(st2, w, m, RESTORE_BACKUP_KEY, env, env');
    BackupAliasDiffers(a);
    StoreFrame(st2, w, m, RESTORE_BACKUP_KEY, env, b);
  }

  /** When the key of a wallet is invalidated, its backup reads back as the wallet's phrase,
      but the new primary key needs an authentication the user has not given, the store first
      deletes both the primary and the backup, then shows the dialog that resumes
      RESTORE_BACKUP_KEY. The phrase is then held only in `currentKey`: if the dialog is
      cancelled, neither copy exists any more. */
  lemma AutoRecoveryInterrupted(st: State, w: WalletCore, env: Platform)
    requires st.currentKey.Some? && NeedsRecovery(st.stores, st.currentKey.value, env)
    requires var b := BackupAlias(st.currentKey.value);
      && UnpackOf(st.stores, b, env).Unpacked?
      && var m := UnpackOf(st.stores, b, env).mnemonic;
      && w.isValid(m) && w.address(m) == st.currentKey.value
      && StoreBranchOf(env, w.address(m), true).AuthenticationRequired?
    ensures var a := st.currentKey.value;
      var m := UnpackOf(st.stores, BackupAlias(a), env).mnemonic;
      var r := CheckSignatureSpec(st, w, env);
      && Absent(r.stores, a) && Absent(r.stores, BackupAlias(a))
      && r.prompt == Some(Ordinal(RESTORE_BACKUP_KEY)) && r.currentKey == Some(m)
      && r.events == st.events
      && var c := AuthenticateFailSpec(r, AUTHENTICATION_DIALOG_CANCELLED);
      && Absent(c.stores, a) && Absent(c.stores, BackupAlias(a)) && c.prompt == None
  {
    var a := st.currentKey.value;
    var b := BackupAlias(a);
    var m := UnpackOf(st.stores, b, env).mnemonic;
    CheckSignatureRecovers(st, w, env);
    var st2 := st.(currentKey := Some(m));
    assert AutoRestoreSpec(st, w, a, env) == (StoreSpec(st2, w, m, RESTORE_BACKUP_KEY, env), true);
    StoreSuspends(st2, w, m, RESTORE_BACKUP_KEY, env);
  }

  /** When the backup yields no valid phrase, recovery writes nothing and the signer is told
      that authorisation failed. */
  lemma AutoRecoveryFails(st: State, w: WalletCore, env: Platform)
    requires st.currentKey.Some? && NeedsRecovery(st.stores, st.currentKey.value, env)
    requires !w.isValid(UnpackReturn(st.(currentKey := Some(BackupAlias(st.currentKey.value))), RESTORE_BACKUP_KEY, env))
    ensures var r := CheckSignatureSpec(st, w, env);
      && r.stores == st.stores
      && |r.events| > |st.events| && r.events[..|st.events|] == st.events
      && r.events[|r.events| - 1] == GotAuthorisation(false)
      && r.currentKey == Some(BackupAlias(st.currentKey.value))
  {
    var a := st.currentKey.value;
    var st1 := st.(currentKey := Some(BackupAlias(a)));
    var st2 := UnpackState(st1, RESTORE_BACKUP_KEY, env);
    CheckSignatureRecovers(st, w, env);
    UnpackEventsGrow(st1, RESTORE_BACKUP_KEY, env);
    var r := Granted(ReportKeyFailure(st2, SECURITY_LEVEL_MESSAGE), false);
    assert CheckSignatureSpec(st, w, env) == r;
    assert r.events == st2.events + KeyFailureReport(st2, SECURITY_LEVEL_MESSAGE) + [GotAuthorisation(false)];
  }

  /** Unpacking only ever appends events. */
  lemma UnpackEventsGrow(st: State, op: Operation, env: Platform)
    ensures var r := UnpackState(st, op, env);
      |r.events| >= |st.events| && r.events[..|st.events|] == st.events
  {
  }

  /** The other outcomes of checking a key for signing: no key, missing files or a missing
      vector refuse; a key needing authentication the user has not given shows the dialog;
      otherwise authorisation is granted. None of them writes anything. */
  lemma CheckSignatureOutcomes(st: State, w: WalletCore, env: Platform)
    requires st.currentKey.None? || !NeedsRecovery(st.stores, st.currentKey.value, env)
    ensures var r := CheckSignatureSpec(st, w, env);
      && r.stores == st.stores && r.currentKey == st.currentKey
      && (st.currentKey.None? ==> r == Granted(st, false))
      && (st.currentKey.Some? ==>
            var a := st.currentKey.value;
            var s := st.stores;
            if !Complete(s, a) || s.files[Vector(a)].bytes == [] then r == Granted(st, false)
            else if s.keys[a].needsAuth && !env.userAuthenticated then r == Suspend(st, CHECK_AUTHENTICATION)
            else r == Granted(st, true))
  {
  }

  /** `restoreBackupKey` with a readable backup writes the phrase back as a primary key, made
      like a new key, and keeps the backup. */
  lemma RestoreBackupKeyRestores(st: State, w: WalletCore, address: string, env: Platform, env': Platform)
    requires var b := BackupAlias(address);
      && UnpackOf(st.stores, b, env).Unpacked?
      && var m := UnpackOf(st.stores, b, env).mnemonic;
      && w.address(m) == address
      && StoreBranchOf(env, address, true).Stored? && |env.ivFor(address)| > 0
      && !env'.unrecoverable(address) && !env'.invalidated(address) && env'.userAuthenticated
    ensures var m := UnpackOf(st.stores, BackupAlias(address), env).mnemonic;
      var r := RestoreBackupKeySpec(st, w, address, env);
      && Complete(r.stores, address) && UnpackOf(r.stores, address, env') == Unpacked(m)
      && SameKey(st.stores, r.stores, BackupAlias(address))
      && r.currentKey == None
      && r.events == st.events + (if st.createCallback then [HDKeyCreated(address, r.authLevel)] else [])
  {
    var b := BackupAlias(address);
    var m := UnpackOf(st.stores, b, env).mnemonic;
    var st1 := st.(currentKey := Some(b));
    assert UnpackState(st1, RESTORE_BACKUP_KEY, env) == st1;
    StoreSucceeds(st1, w, m, CREATE_HD_KEY, env, env');
    BackupAliasDiffers(address);
    StoreFrame(st1, w, m, CREATE_HD_KEY, env, b);
  }

  lemma BackupAliasInjective(a: string, a': string)
    ensures BackupAlias(a) == BackupAlias(a') <==> a == a'
  {
    if BackupAlias(a) == BackupAlias(a') {
      assert |a| == |a'|;
      assert a == BackupAlias(a)[..|a|];
    }
  }

  /** If the new primary key of `restoreBackupKey` needs an authentication the user has not
      given, both the address and its backup are left without a key, and the dialog resumes
      the operation as CREATE_HD_KEY: the resumption makes a fresh wallet and the restored
      phrase is written nowhere. */
  lemma RestoreInterruptedLosesBackup(st: State, w: WalletCore, address: string, env: Platform, env2: Platform)
    requires var b := BackupAlias(address);
      && UnpackOf(st.stores, b, env).Unpacked?
      && w.address(UnpackOf(st.stores, b, env).mnemonic) == address
      && StoreBranchOf(env, address, true).AuthenticationRequired?
    requires var a2 := w.address(env2.freshMnemonic);
      a2 != address && a2 != BackupAlias(address) && BackupAlias(a2) != address
    ensures var r := RestoreBackupKeySpec(st, w, address, env);
      && Absent(r.stores, address) && Absent(r.stores, BackupAlias(address))
      && r.prompt == Some(Ordinal(CREATE_HD_KEY))
      && var r2 := AuthenticatePassSpec(r, w, Ordinal(CREATE_HD_KEY), env2);
      && Absent(r2.stores, address) && Absent(r2.stores, BackupAlias(address))
  {
    var b := BackupAlias(address);
    var m := UnpackOf(st.stores, b, env).mnemonic;
    var st1 := st.(currentKey := Some(b));
    assert UnpackState(st1, RESTORE_BACKUP_KEY, env) == st1;
    StoreSuspends(st1, w, m, CREATE_HD_KEY, env);
    var r := StoreSpec(st1, w, m, CREATE_HD_KEY, env);
    OrdinalRoundTrip(CREATE_HD_KEY, 0);
    var r0 := r.(prompt := None);
    var m2 := env2.freshMnemonic;
    var a2 := w.address(m2);
    var c1 := StoreSpec(r0, w, m2, CREATE_NON_AUTHENTICATED_KEY, env2);
    BackupAliasInjective(address, a2);
    BackupAliasInjective(b, a2);
    UnauthenticatedStoreNeverSuspends(env2, BackupAlias(a2), env2.userAuthenticated);
    StoreFrame(r0, w, m2, CREATE_NON_AUTHENTICATED_KEY, env2, address);
    StoreFrame(r0, w, m2, CREATE_NON_AUTHENTICATED_KEY, env2, b);
    StoreFrame(c1, w, m2, CREATE_HD_KEY, env2, address);
    StoreFrame(c1, w, m2, CREATE_HD_KEY, env2, b);
  }

  // ---------------------------------------------------------------- resumption

  /** The dialog's callback id names the tag it was shown for, so `authenticatePass` resumes
      that operation; the tags with no resumable step only dismiss the dialog. */
  lemma ResumeDispatch(st: State, w: WalletCore, op: Operation, env: Platform)
    ensures var r := AuthenticatePassSpec(st, w, Ordinal(op), env);
      var st0 := st.(prompt := None);
      && (op == CREATE_HD_KEY ==> r == CreateSpec(st0, w, env))
      && (op == FETCH_MNEMONIC ==> r == UnpackState(st0, FETCH_MNEMONIC, env))
      && (op == IMPORT_HD_KEY ==> r == ImportCurrentKeySpec(st0, w, env))
      && (op == CHECK_AUTHENTICATION ==> r == CheckSignatureSpec(st0, w, env))
      && (op == RESTORE_BACKUP_KEY && st.currentKey.Some? ==>
            r == StoreSpec(st0, w, st.currentKey.value, RESTORE_BACKUP_KEY, env))
      && (op in {SIGN_WITH_KEY, SIGN_DATA, CREATE_NON_AUTHENTICATED_KEY} ==> r == st0)
  {
    OrdinalRoundTrip(op, 0);
  }

  /** Cancelling the dialog reports the cancellation and dismisses the dialog; no other kind
      of failure changes the state. Neither writes anything. */
  lemma AuthenticateFailOutcomes(st: State, failType: AuthenticationFailType)
    ensures var r := AuthenticateFailSpec(st, failType);
      && r.stores == st.stores && r.currentKey == st.currentKey
      && (failType == AUTHENTICATION_DIALOG_CANCELLED ==>
            r.prompt == None && r.events == st.events + CancelReport(st))
      && (failType != AUTHENTICATION_DIALOG_CANCELLED ==> r == st)
  {
  }

  lemma CreateConsistent(st: State, w: WalletCore, env: Platform)
    requires Consistent(st.stores)
    ensures Consistent(CreateSpec(st, w, env).stores)
  {
    var m := env.freshMnemonic;
    StoreConsistent(st, w, m, CREATE_NON_AUTHENTICATED_KEY, env);
    StoreConsistent(StoreSpec(st, w, m, CREATE_NON_AUTHENTICATED_KEY, env), w, m, CREATE_HD_KEY, env);
  }

  lemma ImportConsistent(st: State, w: WalletCore, phrase: string, env: Platform)
    requires Consistent(st.stores)
    ensures Consistent(ImportSpec(st, w, phrase, env).stores)
    ensures Consistent(ImportCurrentKeySpec(st, w, env).stores)
  {
    StoreConsistent(st.(currentKey := Some(phrase)), w, phrase, IMPORT_HD_KEY, env);
    if st.currentKey.Some? {
      StoreConsistent(st, w, st.currentKey.value, IMPORT_HD_KEY, env);
    }
  }

  lemma RestoreConsistent(st: State, w: WalletCore, address: string, env: Platform)
    requires Consistent(st.stores)
    ensures Consistent(RestoreBackupKeySpec(st, w, address, env).stores)
    ensures Consistent(RecoverSpec(st, w, address, env).stores)
  {
    var st1 := st.(currentKey := Some(BackupAlias(address)));
    var m := UnpackReturn(st1, RESTORE_BACKUP_KEY, env);
    var st2 := UnpackState(st1, RESTORE_BACKUP_KEY, env);
    StoreConsistent(st2, w, m, CREATE_HD_KEY, env);
    StoreConsistent(st2.(currentKey := Some(m)), w, m, RESTORE_BACKUP_KEY, env);
  }

  lemma CheckSignatureConsistent(st: State, w: WalletCore, env: Platform)
    requires Consistent(st.stores)
    ensures Consistent(CheckSignatureSpec(st, w, env).stores)
  {
    if st.currentKey.Some? && NeedsRecovery(st.stores, st.currentKey.value, env) {
      CheckSignatureRecovers(st, w, env);
      RestoreConsistent(st, w, st.currentKey.value, env);
    } else {
      CheckSignatureOutcomes(st, w, env);
    }
  }

  lemma ResumeConsistent(st: State, w: WalletCore, callbackId: nat, env: Platform)
    requires Consistent(st.stores) && callbackId < |VALUES|
    ensures Consistent(AuthenticatePassSpec(st, w, callbackId, env).stores)
  {
    var st0 := st.(prompt := None);
    match FromOrdinal(callbackId)
    case CREATE_HD_KEY => CreateConsistent(st0, w, env);
    case FETCH_MNEMONIC =>
    case IMPORT_HD_KEY => ImportConsistent(st0, w, [], env);
    case CHECK_AUTHENTICATION => CheckSignatureConsistent(st0, w, env);
    case RESTORE_BACKUP_KEY =>
      if st0.currentKey.Some? {
        StoreConsistent(st0, w, st0.currentKey.value, RESTORE_BACKUP_KEY, env);
      }
    case _ =>
  }

  /** Every operation keeps the key store and the file area free of half-written keys. */
  lemma OperationsPreserveConsistency(st: State, w: WalletCore, phrase: string, address: string,
                                      callbackId: nat, env: Platform)
    requires Consistent(st.stores) && callbackId < |VALUES|
    ensures Consistent(CreateSpec(st, w, env).stores)
    ensures Consistent(ImportSpec(st, w, phrase, env).stores)
    ensures Consistent(RestoreBackupKeySpec(st, w, address, env).stores)
    ensures Consistent(CheckSignatureSpec(st, w, env).stores)
    ensures Consistent(DeleteHDKeySpec(st, address).stores)
    ensures Consistent(AuthenticatePassSpec(st, w, callbackId, env).stores)
  {
    CreateConsistent(st, w, env);
    ImportConsistent(st, w, phrase, env);
    RestoreConsistent(st, w, address, env);
    CheckSignatureConsistent(st, w, env);
    DeleteHDKeyIsDeleteKey(st.stores, address);
    DeleteKeyConsistent(st.stores, address);
    ResumeConsistent(st, w, callbackId, env);
  }
}
