/** What `storeHDKey` guarantees: the alias it uses, success with a readable seed,
    rollback on failure, suspension for authentication, and what it leaves alone. */
module StoreProps {
  import opened Wrappers
  import opened Text
  import opened Cipher
  import opened Names
  import opened Tiers
  import opened Operations
  import opened KeyStore
  import opened Environment
  import opened Lifecycle

  /** The backup key is stored under the address with the marker and without authentication;
      every other operation stores under the bare address and asks for authentication. */
  lemma StoreNaming(w: WalletCore, mnemonic: string, op: Operation)
    ensures op == CREATE_NON_AUTHENTICATED_KEY ==>
      && StoreAlias(w, mnemonic, op) == w.address(mnemonic) + NO_AUTH_LABEL
      && Contains(StoreAlias(w, mnemonic, op), NO_AUTH_LABEL)
      && !UsesAuthentication(op)
    ensures op != CREATE_NON_AUTHENTICATED_KEY ==>
      StoreAlias(w, mnemonic, op) == w.address(mnemonic) && UsesAuthentication(op)
  {
    if op == CREATE_NON_AUTHENTICATED_KEY {
      BackupAliasIsMarked(w.address(mnemonic));
    }
  }

  /** A key and its own backup alias never coincide. */
  lemma BackupAliasDiffers(a: string)
    ensures BackupAlias(a) != a
  {
    assert |BackupAlias(a)| == |a| + 8;
  }

  /** On consistent stores, clearing an alias is deleting it. */
  lemma ClearedIsDeleteKey(s: Stores, k: string)
    requires Consistent(s)
    ensures Cleared(s, k) == DeleteKey(s, k)
  {
    if k !in s.keys {
      DeleteHDKeyIsDeleteKey(s, k);
      DeleteKeyIdempotent(s, k);
    }
  }

  /** After clearing, nothing of the alias is left, on consistent stores. */
  lemma ClearedAbsent(s: Stores, k: string)
    requires Consistent(s)
    ensures Absent(Cleared(s, k), k)
    ensures Consistent(Cleared(s, k))
  {
    ClearedIsDeleteKey(s, k);
    DeleteKeyConsistent(s, k);
  }

  lemma SealedKeyComplete(s: Stores, a: string, e: KeyEntry, mnemonic: string, env: Platform, k: string)
    requires Consistent(s)
    ensures k in Sealed(s, a, e, mnemonic, env).keys ==> Complete(Sealed(s, a, e, mnemonic, env), k)
  {
    if k in s.keys { assert Complete(s, k); }
  }


  /** Writing a complete key keeps the stores consistent. */
  lemma SealedConsistent(s: Stores, a: string, e: KeyEntry, mnemonic: string, env: Platform)
    requires Consistent(s)
    ensures Consistent(Sealed(s, a, e, mnemonic, env))
    ensures Complete(Sealed(s, a, e, mnemonic, env), a)
  {
    var r := Sealed(s, a, e, mnemonic, env);
    forall k | k in r.keys ensures Complete(r, k) {
      SealedKeyComplete(s, a, e, mnemonic, env, k);
    }
  }

  /** Writing key `a` touches nothing that belongs to another key. */
  lemma SealedFrame(s: Stores, a: string, e: KeyEntry, mnemonic: string, env: Platform, k: string)
    requires k != a
    ensures SameKey(s, Sealed(s, a, e, mnemonic, env), k)
  {
  }

  /** Deleting another key before or after writing key `a` gives the same stores. */
  lemma SealedDeleteCommute(s: Stores, a: string, b: string, e: KeyEntry, mnemonic: string, env: Platform)
    requires a != b
    ensures Sealed(DeleteKey(s, b), a, e, mnemonic, env) == DeleteKey(Sealed(s, a, e, mnemonic, env), b)
  {
    var iv := env.ivFor(a);
    var hd := Blob(Encrypt(e.secret, iv, Encode(mnemonic)), env.now);
    var gone := {Ciphertext(b), Vector(b)};
    UpdateRemoveCommute(s.keys, {b}, a, e);
    UpdateRemoveCommute(s.files, gone, Vector(a), Blob(iv, env.now));
    UpdateRemoveCommute(s.files[Vector(a) := Blob(iv, env.now)], gone, Ciphertext(a), hd);
  }

  /** Updating a key outside a removed set commutes with the removal. */
  lemma UpdateRemoveCommute<K, V>(m: map<K, V>, gone: set<K>, k: K, v: V)
    requires k !in gone
    ensures (m - gone)[k := v] == m[k := v] - gone
  {
  }

  /** Reading back a freshly written key yields the stored seed phrase, provided the key is
      usable at read time and the platform handed out a non-empty vector. */
  lemma SealedUnpacks(s: Stores, a: string, e: KeyEntry, mnemonic: string, env: Platform, env': Platform)
    requires |env.ivFor(a)| > 0
    requires !env'.unrecoverable(a) && !env'.invalidated(a)
    requires e.needsAuth ==> env'.userAuthenticated
    ensures UnpackOf(Sealed(s, a, e, mnemonic, env), a, env') == Unpacked(mnemonic)
  {
    DecryptEncrypt(e.secret, env.ivFor(a), Encode(mnemonic));
    DecodeEncode(mnemonic);
  }

  /** A successful store leaves the key and both its files in place, clears `currentKey`,
      records the negotiated tier, and the seed phrase can be read back from what was written. */
  lemma StoreSucceeds(st: State, w: WalletCore, mnemonic: string, op: Operation, env: Platform, env': Platform)
    requires StoreBranchOf(env, StoreAlias(w, mnemonic, op), UsesAuthentication(op)).Stored?
    requires |env.ivFor(StoreAlias(w, mnemonic, op))| > 0
    requires !env'.unrecoverable(StoreAlias(w, mnemonic, op)) && !env'.invalidated(StoreAlias(w, mnemonic, op))
    requires StoreBranchOf(env, StoreAlias(w, mnemonic, op), UsesAuthentication(op)).entry.needsAuth ==> env'.userAuthenticated
    ensures var a := StoreAlias(w, mnemonic, op);
      var e := StoreBranchOf(env, a, UsesAuthentication(op)).entry;
      var r := StoreSpec(st, w, mnemonic, op, env);
      && Complete(r.stores, a) && r.stores.keys[a] == e
      && e.level != NOT_SET && r.authLevel == e.level
      && e.needsAuth == (UsesAuthentication(op) && e.level != NO_AUTHENTICATION)
      && r.currentKey == None && r.prompt == st.prompt
      && r.createCallback == st.createCallback && r.signCallback == st.signCallback
      && r.events == st.events + (
           if op == CREATE_HD_KEY then (if st.createCallback then [HDKeyCreated(a, e.level)] else [])
           else if op == IMPORT_HD_KEY then [WalletValidated(Some(a), e.level)]
           else [])
      && UnpackOf(r.stores, a, env') == Unpacked(mnemonic)
  {
    var a := StoreAlias(w, mnemonic, op);
    var e := StoreBranchOf(env, a, UsesAuthentication(op)).entry;
    var s1 := Sealed(Cleared(st.stores, a), a, e, mnemonic, env);
    SealedUnpacks(Cleared(st.stores, a), a, e, mnemonic, env, env');
    if op == IMPORT_HD_KEY {
      BackupAliasDiffers(a);
      DeleteKeyFrame(s1, BackupAlias(a), a);
      assert SameKey(s1, DeleteHDKey(s1, BackupAlias(a)), a);
    }
  }

  /** When no key could be generated or a file write failed, the key and both its files are
      gone, `currentKey` is kept, and the operation's failure callback is made (twice after a
      write failure: once before the rethrow and once more by the outer handler). */
  lemma StoreRollsBack(st: State, w: WalletCore, mnemonic: string, op: Operation, env: Platform)
    requires var b := StoreBranchOf(env, StoreAlias(w, mnemonic, op), UsesAuthentication(op));
      b.NoKeyGenerated? || b.IvWriteFailed? || b.CiphertextWriteFailed?
    ensures var a := StoreAlias(w, mnemonic, op);
      var b := StoreBranchOf(env, a, UsesAuthentication(op));
      var r := StoreSpec(st, w, mnemonic, op, env);
      && Absent(r.stores, a)
      && r.currentKey == st.currentKey && r.prompt == st.prompt
      && (b.NoKeyGenerated? ==> r.events == st.events + FailToStoreReport(op) && r.authLevel == st.authLevel)
      && (!b.NoKeyGenerated? ==> r.events == st.events + FailToStoreReport(op) + FailToStoreReport(op))
  {
  }

  /** When the new key needs an authentication the user has not given, the key and the backup
      of the same name are both deleted, `currentKey` is kept, no callback is made, and the
      dialog that resumes this operation is shown. */
  lemma StoreSuspends(st: State, w: WalletCore, mnemonic: string, op: Operation, env: Platform)
    requires StoreBranchOf(env, StoreAlias(w, mnemonic, op), UsesAuthentication(op)).AuthenticationRequired?
    ensures var a := StoreAlias(w, mnemonic, op);
      var r := StoreSpec(st, w, mnemonic, op, env);
      && Absent(r.stores, a) && Absent(r.stores, BackupAlias(a))
      && r.currentKey == st.currentKey && r.events == st.events
      && r.prompt == Some(Ordinal(op)) && FromOrdinal(r.prompt.value) == op
      && UsesAuthentication(op) && !env.userAuthenticated
  {
    var a := StoreAlias(w, mnemonic, op);
    var s0 := Cleared(st.stores, a);
    BackupAliasDiffers(a);
    DeleteKeyFrame(DeleteKey(s0, a), BackupAlias(a), a);
    var n := Negotiate(env, a, UsesAuthentication(op));
    assert n.Provisioned? && n.needsAuth;
  }

  /** A store is the negotiation followed, when it provisions a tier, by the generation of
      the key and its writes. */
  lemma StoreSpecFactors(st: State, w: WalletCore, mnemonic: string, op: Operation, env: Platform)
    ensures var a := StoreAlias(w, mnemonic, op);
      var s0 := Cleared(st.stores, a);
      var n := Negotiate(env, a, UsesAuthentication(op));
      StoreSpec(st, w, mnemonic, op, env) ==
        if n.NotProvisioned? then st.(stores := DeleteKey(s0, a), events := st.events + FailToStoreReport(op))
        else SealSpec(st.(stores := s0, authLevel := n.level), a, KeyEntry(n.level, n.needsAuth, env.secretFor(a)),
                      mnemonic, op, env)
  {
  }

  /** The stores a store attempt leaves, branch by branch. */
  lemma StoreStores(st: State, w: WalletCore, mnemonic: string, op: Operation, env: Platform)
    ensures var a := StoreAlias(w, mnemonic, op);
      var s0 := Cleared(st.stores, a);
      var r := StoreSpec(st, w, mnemonic, op, env);
      match StoreBranchOf(env, a, UsesAuthentication(op))
      case AuthenticationRequired => r.stores == DeleteKey(DeleteKey(s0, a), BackupAlias(a))
      case Stored(e) =>
        r.stores == if op == IMPORT_HD_KEY then DeleteHDKey(Sealed(s0, a, e, mnemonic, env), BackupAlias(a))
                    else Sealed(s0, a, e, mnemonic, env)
      case _ => r.stores == DeleteKey(s0, a)
  {
  }

  /** A store touches only its own alias, and the backup of that alias only when it suspends
      for authentication or completes an import. */
  lemma StoreFrame(st: State, w: WalletCore, mnemonic: string, op: Operation, env: Platform, k: string)
    requires k != StoreAlias(w, mnemonic, op)
    requires var a := StoreAlias(w, mnemonic, op);
      var b := StoreBranchOf(env, a, UsesAuthentication(op));
      k == BackupAlias(a) ==> !b.AuthenticationRequired? && !(b.Stored? && op == IMPORT_HD_KEY)
    ensures SameKey(st.stores, StoreSpec(st, w, mnemonic, op, env).stores, k)
  {
    var a := StoreAlias(w, mnemonic, op);
    var s := st.stores;
    var s0 := Cleared(s, a);
    StoreStores(st, w, mnemonic, op, env);
    DeleteKeyFrame(s, a, k);
    assert SameKey(s, s0, k);
    DeleteKeyFrame(s0, a, k);
    match StoreBranchOf(env, a, UsesAuthentication(op))
    case AuthenticationRequired =>
      DeleteKeyFrame(DeleteKey(s0, a), BackupAlias(a), k);
    case Stored(e) =>
      var s1 := Sealed(s0, a, e, mnemonic, env);
      SealedFrame(s0, a, e, mnemonic, env, k);
      if op == IMPORT_HD_KEY {
        DeleteKeyFrame(s1, BackupAlias(a), k);
      }
    case _ =>
  }

  /** A store never leaves a half-written key behind. */
  lemma StoreConsistent(st: State, w: WalletCore, mnemonic: string, op: Operation, env: Platform)
    requires Consistent(st.stores)
    ensures Consistent(StoreSpec(st, w, mnemonic, op, env).stores)
  {
    var a := StoreAlias(w, mnemonic, op);
    var s0 := Cleared(st.stores, a);
    StoreStores(st, w, mnemonic, op, env);
    ClearedAbsent(st.stores, a);
    DeleteKeyConsistent(s0, a);
    match StoreBranchOf(env, a, UsesAuthentication(op))
    case AuthenticationRequired =>
      DeleteKeyConsistent(DeleteKey(s0, a), BackupAlias(a));
    case Stored(e) =>
      var s1 := Sealed(s0, a, e, mnemonic, env);
      SealedConsistent(s0, a, e, mnemonic, env);
      if op == IMPORT_HD_KEY {
        DeleteHDKeyIsDeleteKey(s1, BackupAlias(a));
        DeleteKeyConsistent(s1, BackupAlias(a));
      }
    case _ =>
  }

  /** The dialog is shown exactly when the store suspends for authentication. */
  lemma StorePrompt(st: State, w: WalletCore, mnemonic: string, op: Operation, env: Platform)
    ensures StoreSpec(st, w, mnemonic, op, env).prompt ==
      if StoreBranchOf(env, StoreAlias(w, mnemonic, op), UsesAuthentication(op)).AuthenticationRequired?
      then Some(Ordinal(op)) else st.prompt
  {
  }

  /** A key generated without authentication never needs it, so the backup store is never
      suspended, and its outcome does not depend on whether the user is authenticated. */
  lemma UnauthenticatedStoreNeverSuspends(env: Platform, alias: string, authenticated: bool)
    ensures !StoreBranchOf(env, alias, false).AuthenticationRequired?
    ensures StoreBranchOf(env.(userAuthenticated := authenticated), alias, false) == StoreBranchOf(env, alias, false)
    ensures StoreBranchOf(env, alias, false).Stored? ==> !StoreBranchOf(env, alias, false).entry.needsAuth
  {
    UnauthenticatedRequest(env.sdkAtLeastP, env.strongBox(alias, false), env.tee(alias, false));
  }

  /** The store of the backup key makes no callback, whatever its outcome. */
  lemma BackupStoreSilent(st: State, w: WalletCore, mnemonic: string, env: Platform)
    ensures StoreSpec(st, w, mnemonic, CREATE_NON_AUTHENTICATED_KEY, env).events == st.events
  {
  }

  /** `failToStore`: creation reports the zero address at NOT_SET, import reports no wallet at
      NOT_SET, and the other operations report nothing. */
  lemma FailToStoreReports(op: Operation)
    ensures op == CREATE_HD_KEY ==> FailToStoreReport(op) == [HDKeyCreated(ZERO_ADDRESS, NOT_SET)]
    ensures op == IMPORT_HD_KEY ==> FailToStoreReport(op) == [WalletValidated(None, NOT_SET)]
    ensures op != CREATE_HD_KEY && op != IMPORT_HD_KEY ==> FailToStoreReport(op) == []
  {
  }
}
