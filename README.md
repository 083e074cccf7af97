# HDKeyService key lifecycle, modelled and proved in Dafny

This project models the key-lifecycle controller of the AlphaWallet Android app: the class
`HDKeyService` in `app/src/main/java/io/stormbird/wallet/service/HDKeyService.java`.

The controller keeps each HD wallet's seed phrase encrypted under a key in the platform key
store. That takes two entries:

- a key-store alias: the address, or for the non-authenticated backup key the address plus
  `-noauth-`;
- two files in the app's file area: `<alias>hd` holds the ciphertext and `<alias>iv` holds the
  initialisation vector.

The controller creates, imports, restores, deletes, unpacks and signs with these keys. It
suspends an operation when the platform demands a user authentication, resumes it from the
operation ordinal the prompt carries back, and lists the wallets whose keys exist.

## Layout

- `text.dfy`, `Text`: UTF-8 encoding and decoding of the seed phrase (`getBytes` and
  `new String(bytes)`), with the round trip `Decode(Encode(s)) == s`.
- `cipher.dfy`, `Cipher`: a stand-in for AES/GCM under a key-store key. It is a keystream
  cipher with a proved decrypt-after-encrypt round trip. The controller relies on nothing
  else about the cipher.
- `streams.dfy`, `Streams`: `readBytesFromStream` as the chunk-appending loop it is.
- `names.dfy`, `Names`: backup aliases, the `hd` and `iv` file names, `startsWith` and
  `contains`, and the `0x` prefixing.
- `tiers.dfy`, `Tiers`: the authentication levels and the fallback chain of
  `getMaxSecurityKeyGenerator`.
- `operations.dfy`, `Operations`: the `Operation` enum and its ordinals.
- `keystore.dfy`, `KeyStore`: the two tables (alias to key entry, and blob file to bytes with a
  modification time), `deleteKey` and `deleteHDKey`. It also defines the invariant
  `Consistent`: no key is half-written and no file is orphaned.
- `environment.dfy`, `Environment`: what each call gets from outside, as plain inputs. This
  covers the platform's per-alias outcomes and the HD-wallet library's address, validity and
  signing functions.
- `lifecycle.dfy`, `Lifecycle`: one function per controller operation, giving the state it
  leaves behind. The state holds the tables, `currentKey`, `authLevel`, the callbacks made so
  far, the prompt showing and the callbacks registered.
- `store_props.dfy`, `StoreProps`, and `lifecycle_props.dfy`, `LifecycleProps`: the
  properties of those functions.
- `enumeration.dfy`, `Enumeration`: `getAllHDWallets`. It has the two loops as methods, a
  definition of what they compute, and lemmas about the list.
- `service.dfy`, `Service`: the class `HDKeyService`. Its fields are the key store, the file
  area, `currentKey`, `authLevel`, the callbacks made and the prompt. Each method performs the
  Java method's steps in order, and is proved to leave exactly the state the matching
  `Lifecycle` function describes.

## Behaviour of the code as written

Four behaviours of the code as written are proved as stated, not corrected:

- A failed file write in `storeHDKey` runs the failure handling twice. The inner handler
  deletes the key and calls `failToStore`, then throws. The outer `catch (Exception)` deletes
  again and calls `failToStore` again. So an import whose file write fails reports
  `WalletValidated(null, NOT_SET)` twice (`StoreProps.StoreRollsBack`).
- `restoreBackupKey` stores the recovered phrase with `CREATE_HD_KEY`. If that store needs an
  authentication, it first deletes both the primary and the backup key of the address. On
  resumption the prompt's ordinal re-runs `createHDKey`, which makes a fresh wallet. Neither
  copy of the restored address exists afterwards
  (`LifecycleProps.RestoreInterruptedLosesBackup`).
- The automatic recovery in `getAuthenticationForSignature` has the same weakness. When the
  invalidated key's backup reads back, `autoRestoreBackupKey` stores the phrase with
  `RESTORE_BACKUP_KEY`. If that store needs an authentication, it deletes the primary and the
  backup before showing the dialog, and the phrase is then held only in `currentKey`. If the
  dialog is cancelled, neither copy exists (`LifecycleProps.AutoRecoveryInterrupted`).
- `getAllHDWallets` keys its map by file date. Two keys whose ciphertext files have the same
  modification time list the later-enumerated wallet twice and the other not at all
  (`Enumeration.DateCollisionDuplicates`). When dates are distinct, every listed key appears
  (`Enumeration.EnumerateComplete`).

## Model

| member | source | states |
|---|---|---|
| Lifecycle.StoreSpec | app/src/main/java/io/stormbird/wallet/service/HDKeyService.java:370-460 | `storeHDKey` never leaves its alias half-written: afterwards the alias and both its files all exist or none does. No callback is registered or dropped. |
| Lifecycle.UnpackOf | app/src/main/java/io/stormbird/wallet/service/HDKeyService.java:191-254 | A seed phrase is unpacked only when the alias and both its files exist, the vector is non-empty, the key is neither unrecoverable nor invalidated, and any authentication it needs has been given. |
| Lifecycle.UnpackState | app/src/main/java/io/stormbird/wallet/service/HDKeyService.java:185-254 | `unpackMnemonic` writes no table and leaves `currentKey`, `authLevel` and the registered callbacks as they were. The only dialog it can raise is the one resuming its own operation. |
| Lifecycle.UnpackReturn | app/src/main/java/io/stormbird/wallet/service/HDKeyService.java:216-225 | A non-empty result is the unpacked phrase of `currentKey`, and only SIGN_DATA and RESTORE_BACKUP_KEY return one. |
| Lifecycle.CheckSignatureSpec | app/src/main/java/io/stormbird/wallet/service/HDKeyService.java:122-170 | The signing check changes the tables only through a successful recovery from the backup, and registers or drops no callback. |
| Lifecycle.AutoRestoreSpec | app/src/main/java/io/stormbird/wallet/service/HDKeyService.java:305-320 | When the backup yields no valid phrase, nothing is written and `currentKey` stays the backup alias. No callback is registered or dropped. |
| Lifecycle.RecoverSpec | app/src/main/java/io/stormbird/wallet/service/HDKeyService.java:149-169 | When the automatic restore fails, nothing is written and the last callback made is `GotAuthorisation(false)`. |
| Lifecycle.CreateSpec | app/src/main/java/io/stormbird/wallet/service/HDKeyService.java:341-346 | Creation leaves the new address either complete (alias and both files) or absent, and registers or drops no callback. |
| Lifecycle.ImportSpec | app/src/main/java/io/stormbird/wallet/service/HDKeyService.java:97-112 | An invalid phrase changes no table and no `currentKey`. A valid one leaves its address either complete or absent. |
| Lifecycle.AuthenticatePassSpec | app/src/main/java/io/stormbird/wallet/service/HDKeyService.java:698-725 | Resumption registers or drops no callback, and a tag with no resumable step writes nothing. |
| KeyStore.DeleteHDKey | app/src/main/java/io/stormbird/wallet/service/HDKeyService.java:256-274 | When the hd file and the alias both exist, the key and both files are gone afterwards. Otherwise nothing changes. No other key is touched. |
| Enumeration.Enumerate | app/src/main/java/io/stormbird/wallet/service/HDKeyService.java:845-885 | The list has one entry per listed alias: enumerated, without `-noauth-`, with an hd file. |
| Tiers.MaxSecurity | app/src/main/java/io/stormbird/wallet/service/HDKeyService.java:475-517 | A negotiated tier is one the device offers, and no offered tier ranks higher. StrongBox counts only from Android P on. No key is generated only when StrongBox rejects the parameters or nothing is offered. The key needs authentication exactly when it was requested and the tier is not NO_AUTHENTICATION. |
| Tiers.UnauthenticatedRequest | app/src/main/java/io/stormbird/wallet/service/HDKeyService.java:493-508 | For a request without authentication, the two trusted-environment attempts are the same call. Such a key is never at NO_AUTHENTICATION and never needs authentication. |
| Service.HDKeyService.GetMaxSecurityKeyGenerator | app/src/main/java/io/stormbird/wallet/service/HDKeyService.java:475-517 | Returns the negotiated tier. `authLevel` becomes that tier, and is left unchanged when no key generator was initialised. |
| Operations.Ordinal | app/src/main/java/io/stormbird/wallet/service/HDKeyService.java:45-48 | The ordinal indexes `Operation.values()` at the operation itself. |
| Operations.OrdinalRoundTrip | app/src/main/java/io/stormbird/wallet/service/HDKeyService.java:570-579 | The id the prompt is created with dispatches back to the same operation, and every valid id is one operation's ordinal. |
| Names.BlobNames | app/src/main/java/io/stormbird/wallet/service/HDKeyService.java:322-326 | A ciphertext file name is never a vector file name, and each file name determines its key. |
| KeyStore.FileNameInjective | app/src/main/java/io/stormbird/wallet/service/HDKeyService.java:322-326 | Distinct blob files have distinct names on disk. |
| Names.BackupAliasIsMarked | app/src/main/java/io/stormbird/wallet/service/HDKeyService.java:282-286 | Every backup alias contains `-noauth-`. |
| Names.HexPrefixed | app/src/main/java/io/stormbird/wallet/service/HDKeyService.java:864 | The displayed address starts with `0x` and ends with the alias. |
| Names.HexPrefixedIdempotent | app/src/main/java/io/stormbird/wallet/service/HDKeyService.java:864 | Prefixing twice is prefixing once. An alias is left as it is exactly when it already starts with `0x`. |
| Text.DecodeEncode | app/src/main/java/io/stormbird/wallet/service/HDKeyService.java:414 | Decoding the bytes a seed phrase was written as gives the phrase back. |
| Cipher.DecryptEncrypt | app/src/main/java/io/stormbird/wallet/service/HDKeyService.java:412-415 | Decrypting under the same key and vector gives the plaintext back. |
| Streams.FlattenChunks | app/src/main/java/io/stormbird/wallet/service/HDKeyService.java:641-656 | Reading data in chunks of at most the buffer size and concatenating them gives the data back. |
| Streams.ReadBytesFromStream | app/src/main/java/io/stormbird/wallet/service/HDKeyService.java:641-683 | The buffer the loop returns is the concatenation of every chunk read, in order. |
| Streams.ReadAll | app/src/main/java/io/stormbird/wallet/service/HDKeyService.java:211-212 | Reading bytes through a 1024-byte stream returns exactly those bytes. |
| Service.HDKeyService.ReadBytesFromFile | app/src/main/java/io/stormbird/wallet/service/HDKeyService.java:623-638 | Reading an existing file returns its contents. |
| KeyStore.DeleteKey | app/src/main/java/io/stormbird/wallet/service/HDKeyService.java:322-339 | Afterwards the key, its ciphertext file and its vector file are all absent. |
| KeyStore.DeleteKeyFrame | app/src/main/java/io/stormbird/wallet/service/HDKeyService.java:322-339 | Deleting a key leaves every other key and its files unchanged. |
| KeyStore.DeleteKeyIdempotent | app/src/main/java/io/stormbird/wallet/service/HDKeyService.java:322-339 | Deleting twice is deleting once. Deleting an absent key changes nothing, because each removal is guarded by an existence check. |
| KeyStore.DeleteKeyCommutes | app/src/main/java/io/stormbird/wallet/service/HDKeyService.java:447-448 | Deleting two keys in either order gives the same tables. |
| KeyStore.DeleteKeyConsistent | app/src/main/java/io/stormbird/wallet/service/HDKeyService.java:322-339 | Deletion keeps the tables free of half-written keys. |
| KeyStore.DeleteHDKeyIsDeleteKey | app/src/main/java/io/stormbird/wallet/service/HDKeyService.java:256-268 | On consistent tables, the delete guarded by "hd file exists and alias exists" is the plain delete. Afterwards the key is absent whether or not it existed. |
| Service.HDKeyService.DeleteKey | app/src/main/java/io/stormbird/wallet/service/HDKeyService.java:322-339 | The tables become `KeyStore.DeleteKey` of the old tables, and nothing else changes. |
| Service.HDKeyService.DeleteHDKey | app/src/main/java/io/stormbird/wallet/service/HDKeyService.java:256-274 | Answers true. Deletes the key only if both its hd file and its alias exist. |
| Service.HDKeyService.DeleteBackupKey | app/src/main/java/io/stormbird/wallet/service/HDKeyService.java:282-286 | Answers true. It is `deleteHDKey` on exactly `address + "-noauth-"`. |
| LifecycleProps.DeleteRemovesKey | app/src/main/java/io/stormbird/wallet/service/HDKeyService.java:256-274 | After `deleteHDKey`, the key is absent, the tables stay consistent, every other key is unchanged, and no callback is made. |
| LifecycleProps.DeleteBackupRemovesBackupOnly | app/src/main/java/io/stormbird/wallet/service/HDKeyService.java:282-286 | Deleting the backup removes the backup key and leaves the primary key untouched. |
| StoreProps.StoreNaming | app/src/main/java/io/stormbird/wallet/service/HDKeyService.java:380-386 | The backup store uses `address + "-noauth-"` without authentication. Every other operation uses the bare address with authentication. |
| StoreProps.BackupAliasDiffers | app/src/main/java/io/stormbird/wallet/service/HDKeyService.java:380-386 | The backup alias is never the address itself. |
| LifecycleProps.BackupAliasInjective | app/src/main/java/io/stormbird/wallet/service/HDKeyService.java:282-286 | Distinct addresses have distinct backup aliases. |
| StoreProps.ClearedAbsent | app/src/main/java/io/stormbird/wallet/service/HDKeyService.java:388-391 | After an existing alias is deleted before regeneration, that key is absent and the tables stay consistent. |
| StoreProps.ClearedIsDeleteKey | app/src/main/java/io/stormbird/wallet/service/HDKeyService.java:388-391 | On consistent tables, "delete if the alias exists" is the plain delete. |
| StoreProps.SealedConsistent | app/src/main/java/io/stormbird/wallet/service/HDKeyService.java:393-415 | A completed write leaves the new key complete (alias, hd file, iv file) and the tables consistent. |
| StoreProps.SealedFrame | app/src/main/java/io/stormbird/wallet/service/HDKeyService.java:393-415 | Writing a key touches no other key's entries. |
| StoreProps.SealedDeleteCommute | app/src/main/java/io/stormbird/wallet/service/HDKeyService.java:393-415 | Writing one key and deleting a different key commute. |
| StoreProps.SealedUnpacks | app/src/main/java/io/stormbird/wallet/service/HDKeyService.java:393-415 | A written key reads back as the stored phrase, when the key is usable at read time and the vector is non-empty. |
| StoreProps.StoreSpecFactors | app/src/main/java/io/stormbird/wallet/service/HDKeyService.java:370-460 | `storeHDKey` is: clear the alias, negotiate a tier, then either fail once (no key generator), or set `authLevel` and seal. |
| StoreProps.StoreSucceeds | app/src/main/java/io/stormbird/wallet/service/HDKeyService.java:370-440 | A successful store leaves the key complete at the negotiated tier, sets `authLevel` to it, and sets `currentKey` to null. It reports `HDKeyCreated` for creation (when registered) and `WalletValidated(address, level)` for import, and nothing otherwise. The key then reads back as the phrase. |
| StoreProps.StoreRollsBack | app/src/main/java/io/stormbird/wallet/service/HDKeyService.java:398-423 | Any failure leaves neither the alias nor either file. With no key generator, `failToStore` runs once and `authLevel` is kept. After a failed file write, it runs twice. |
| StoreProps.StoreSuspends | app/src/main/java/io/stormbird/wallet/service/HDKeyService.java:444-451 | When authentication is required, both the address and its backup are deleted. `currentKey` is untouched and no callback is made. The prompt carries the operation's ordinal, which resolves back to it. |
| StoreProps.StoreStores | app/src/main/java/io/stormbird/wallet/service/HDKeyService.java:370-460 | The tables after each way a store can end: suspended, sealed (for import, also minus the backup), or rolled back. |
| StoreProps.StoreFrame | app/src/main/java/io/stormbird/wallet/service/HDKeyService.java:370-460 | A store touches no key but its own alias, plus the backup alias on suspension or import. |
| StoreProps.StoreConsistent | app/src/main/java/io/stormbird/wallet/service/HDKeyService.java:370-460 | Every way a store ends keeps the tables consistent: no key half-written. |
| StoreProps.StorePrompt | app/src/main/java/io/stormbird/wallet/service/HDKeyService.java:444-451 | The prompt is raised exactly when the store needs an authentication the user has not given. |
| StoreProps.UnauthenticatedStoreNeverSuspends | app/src/main/java/io/stormbird/wallet/service/HDKeyService.java:380-386 | A store without authentication never suspends, does not depend on authentication, and yields a key that does not need it. |
| StoreProps.BackupStoreSilent | app/src/main/java/io/stormbird/wallet/service/HDKeyService.java:462-473 | The backup store makes no callback, whatever its outcome. |
| StoreProps.FailToStoreReports | app/src/main/java/io/stormbird/wallet/service/HDKeyService.java:462-473 | `failToStore` maps CREATE to `HDKeyCreated(ZERO_ADDRESS, NOT_SET)` and IMPORT to `WalletValidated(null, NOT_SET)`. Every other operation reports nothing. |
| Service.HDKeyService.StoreHDKey | app/src/main/java/io/stormbird/wallet/service/HDKeyService.java:370-460 | The steps of `storeHDKey` leave exactly the state `Lifecycle.StoreSpec` describes. |
| Service.HDKeyService.GenerateAndSeal | app/src/main/java/io/stormbird/wallet/service/HDKeyService.java:393-440 | From key generation on, the state is `Lifecycle.SealSpec`. |
| Service.HDKeyService.AwaitAuthentication | app/src/main/java/io/stormbird/wallet/service/HDKeyService.java:444-451 | The generated key and its backup are deleted, and the prompt is raised for the operation. |
| Service.HDKeyService.WriteKeyFiles | app/src/main/java/io/stormbird/wallet/service/HDKeyService.java:397-441 | The iv file is written, then the ciphertext file. A failure of either rolls back. Otherwise the key is sealed, `currentKey` is cleared and success is reported. |
| Service.HDKeyService.RollBack | app/src/main/java/io/stormbird/wallet/service/HDKeyService.java:398-423 | The key is deleted and `failToStore` runs twice, once in the inner handler and once after the rethrow. |
| Service.HDKeyService.ReportStored | app/src/main/java/io/stormbird/wallet/service/HDKeyService.java:426-441 | The per-operation success report. An import also deletes the address's backup. |
| Service.HDKeyService.FailToStore | app/src/main/java/io/stormbird/wallet/service/HDKeyService.java:462-473 | Appends the failure callback of the operation, and changes nothing else. |
| LifecycleProps.CreateStoresBackupAndPrimary | app/src/main/java/io/stormbird/wallet/service/HDKeyService.java:341-346 | `createHDKey` stores the same phrase twice. The first copy is a backup that needs no authentication, and the second is the primary at the reported level. Both read back as the phrase, and only the primary's creation is reported. |
| LifecycleProps.CreateSuspendsOnlyForPrimary | app/src/main/java/io/stormbird/wallet/service/HDKeyService.java:341-346 | Creation prompts exactly when the primary needs authentication. In that case neither key exists and no callback is made. |
| LifecycleProps.BackupStoreState | app/src/main/java/io/stormbird/wallet/service/HDKeyService.java:343 | The backup store is silent, keeps the prompt and callbacks, and does not depend on authentication. |
| LifecycleProps.PrimaryStoredState | app/src/main/java/io/stormbird/wallet/service/HDKeyService.java:344 | The state after a successful primary store of a new wallet. |
| LifecycleProps.BackupRebuilt | app/src/main/java/io/stormbird/wallet/service/HDKeyService.java:341-346 | Deleting both keys and re-running the backup store gives the same backup tables. |
| LifecycleProps.CreateResumes | app/src/main/java/io/stormbird/wallet/service/HDKeyService.java:703-708 | Creation suspended for authentication, once resumed, ends as an authenticated creation would, for the same drawn seed phrase. The source's resumed `createHDKey` draws a new wallet, so in general the address differs. |
| LifecycleProps.ImportRejectsInvalid | app/src/main/java/io/stormbird/wallet/service/HDKeyService.java:97-112 | An invalid seed phrase reports `WalletValidated(null, NOT_SET)` and changes no table, no `currentKey` and no prompt. |
| LifecycleProps.ImportStoresPrimaryOnly | app/src/main/java/io/stormbird/wallet/service/HDKeyService.java:351-355 | Import writes the primary, which reads back as the phrase, and deletes the backup. It reports `WalletValidated(address, level)` and clears `currentKey`. |
| LifecycleProps.ImportResumes | app/src/main/java/io/stormbird/wallet/service/HDKeyService.java:712-714 | Import suspended for authentication keeps the phrase in `currentKey`. Resuming re-runs the import from it. |
| LifecycleProps.ImportThenFetch | app/src/main/java/io/stormbird/wallet/service/HDKeyService.java:89-95 | After a successful import, fetching the mnemonic returns the imported phrase. |
| LifecycleProps.UnpackFailures | app/src/main/java/io/stormbird/wallet/service/HDKeyService.java:191-206 | On any state: a missing alias reports "Key not found in keystore. Re-import key." and returns `""`; a recoverable key whose vector file is missing or empty reports "Cannot setup wallet seed." and returns `""`; every failure returns `""`. |
| LifecycleProps.DeleteThenFetchNotFound | app/src/main/java/io/stormbird/wallet/service/HDKeyService.java:191-195 | After deletion, fetching reports "Key not found in keystore. Re-import key." |
| Service.HDKeyService.UnpackMnemonic | app/src/main/java/io/stormbird/wallet/service/HDKeyService.java:185-254 | The checks run in the source's order: alias present, key recoverable, iv non-empty, key valid, authentication, ciphertext file. Each failure's report, the prompt, and the return value (the phrase for SIGN_DATA and RESTORE_BACKUP_KEY, otherwise `""`) are those of `Lifecycle.UnpackState` and `Lifecycle.UnpackReturn`. |
| Service.HDKeyService.UnpackWithVector | app/src/main/java/io/stormbird/wallet/service/HDKeyService.java:203-254 | The rest of the unpack once the vector has been read. |
| Service.HDKeyService.Reveal | app/src/main/java/io/stormbird/wallet/service/HDKeyService.java:208-225 | Decryption, stream read, decoding and the per-operation result. |
| Service.HDKeyService.KeyFailure | app/src/main/java/io/stormbird/wallet/service/HDKeyService.java:770-779 | The failure goes to the create/fetch callback if one is registered, else to the sign callback as a refusal. |
| Service.HDKeyService.CancelAuthentication | app/src/main/java/io/stormbird/wallet/service/HDKeyService.java:781-787 | The cancellation goes to the create/fetch callback, else to the sign callback as a refusal. |
| Service.HDKeyService.CheckAuthentication | app/src/main/java/io/stormbird/wallet/service/HDKeyService.java:570-579 | The prompt is raised with the operation's ordinal. |
| Service.HDKeyService.SignData | app/src/main/java/io/stormbird/wallet/service/HDKeyService.java:173-183 | Returns `"0000"`'s bytes when the unpack yields `""`, and otherwise the library's signature with the unpacked phrase. |
| LifecycleProps.SignUsesUnpackedPhrase | app/src/main/java/io/stormbird/wallet/service/HDKeyService.java:173-183 | Signing uses exactly the unpacked phrase. Every unpack failure gives the sentinel. |
| LifecycleProps.SignAfterDelete | app/src/main/java/io/stormbird/wallet/service/HDKeyService.java:173-183 | Signing with a deleted key returns the sentinel and reports "not found". |
| LifecycleProps.SignAfterStore | app/src/main/java/io/stormbird/wallet/service/HDKeyService.java:173-183 | Signing with a stored key signs with the stored phrase. |
| Service.HDKeyService.CheckSignatureAuthentication | app/src/main/java/io/stormbird/wallet/service/HDKeyService.java:122-170 | The private `getAuthenticationForSignature` leaves exactly the state of `Lifecycle.CheckSignatureSpec`. |
| Service.HDKeyService.GetAuthenticationForSignature | app/src/main/java/io/stormbird/wallet/service/HDKeyService.java:114-120 | Registers the sign callback, sets `currentKey`, and checks the key. |
| Service.HDKeyService.RecoverFromBackup | app/src/main/java/io/stormbird/wallet/service/HDKeyService.java:149-169 | The invalidated-key branch: restore from the backup, or report the failure and refuse. |
| LifecycleProps.CheckSignatureRecovers | app/src/main/java/io/stormbird/wallet/service/HDKeyService.java:149-162 | An unrecoverable or invalidated key goes to recovery from the backup. |
| LifecycleProps.CheckSignatureOutcomes | app/src/main/java/io/stormbird/wallet/service/HDKeyService.java:122-170 | Otherwise: no key or missing files or an empty vector refuse; missing authentication raises the prompt; else authorisation is granted. None of these writes anything. |
| LifecycleProps.AutoRecoverySilent | app/src/main/java/io/stormbird/wallet/service/HDKeyService.java:305-320 | A valid backup restores the primary key silently, keeping the backup. The primary then reads back as the backup's phrase. |
| LifecycleProps.AutoRecoveryInterrupted | app/src/main/java/io/stormbird/wallet/service/HDKeyService.java:149-155 | When the restored primary needs an authentication the user has not given, the primary and the backup are both deleted, no callback is made, the dialog resumes RESTORE_BACKUP_KEY and the phrase is kept only in `currentKey`. Cancelling the dialog leaves neither copy. |
| LifecycleProps.AutoRecoveryFails | app/src/main/java/io/stormbird/wallet/service/HDKeyService.java:149-169 | Failed recovery leaves the tables unchanged. It only appends callbacks, the last being `GotAuthorisation(false)`. |
| Service.HDKeyService.AutoRestoreBackupKey | app/src/main/java/io/stormbird/wallet/service/HDKeyService.java:305-320 | The state and the success flag are those of `Lifecycle.AutoRestoreSpec`. |
| Service.HDKeyService.RestoreBackupKey | app/src/main/java/io/stormbird/wallet/service/HDKeyService.java:294-303 | The state is that of `Lifecycle.RestoreBackupKeySpec`. |
| LifecycleProps.RestoreBackupKeyRestores | app/src/main/java/io/stormbird/wallet/service/HDKeyService.java:294-303 | A readable backup is written back as a primary key holding its phrase, reported as a creation. The backup is kept. |
| LifecycleProps.RestoreInterruptedLosesBackup | app/src/main/java/io/stormbird/wallet/service/HDKeyService.java:294-303 | A restore that needs authentication deletes both copies. Resuming creates a different wallet, so both remain absent. |
| Service.HDKeyService.CreateHDKey | app/src/main/java/io/stormbird/wallet/service/HDKeyService.java:341-346 | The state is that of `Lifecycle.CreateSpec`. |
| Service.HDKeyService.CreateNewHDKey | app/src/main/java/io/stormbird/wallet/service/HDKeyService.java:82-87 | Registers the create callback, then creates. |
| Service.HDKeyService.ImportHDKey | app/src/main/java/io/stormbird/wallet/service/HDKeyService.java:97-112 | The state is that of `Lifecycle.ImportSpec`. |
| Service.HDKeyService.ImportCurrentKey | app/src/main/java/io/stormbird/wallet/service/HDKeyService.java:351-355 | Imports the phrase held in `currentKey`. |
| Service.HDKeyService.GetMnemonic | app/src/main/java/io/stormbird/wallet/service/HDKeyService.java:89-95 | Registers the callback, sets `currentKey`, and unpacks for FETCH_MNEMONIC. |
| Service.HDKeyService.AuthenticatePass | app/src/main/java/io/stormbird/wallet/service/HDKeyService.java:698-725 | Dismisses the prompt and re-runs the operation named by the callback id. |
| LifecycleProps.ResumeDispatch | app/src/main/java/io/stormbird/wallet/service/HDKeyService.java:698-725 | What each id resumes: CREATE re-runs `createHDKey`, FETCH unpacks, IMPORT imports `currentKey`, CHECK re-checks the key, RESTORE stores `currentKey`'s phrase. Every other operation does nothing. |
| Service.HDKeyService.AuthenticateFail | app/src/main/java/io/stormbird/wallet/service/HDKeyService.java:728-768 | The state is that of `Lifecycle.AuthenticateFailSpec`. |
| LifecycleProps.AuthenticateFailOutcomes | app/src/main/java/io/stormbird/wallet/service/HDKeyService.java:728-768 | A cancelled dialog reports the cancellation and closes the prompt. The other failure kinds change nothing of the state. |
| LifecycleProps.OperationsPreserveConsistency | app/src/main/java/io/stormbird/wallet/service/HDKeyService.java:256-460 | Create, import, restore, the signing check, deletion and every resumption keep the tables free of half-written keys. |
| LifecycleProps.CheckSignatureConsistent | app/src/main/java/io/stormbird/wallet/service/HDKeyService.java:122-170 | The signing check, which may restore a key, keeps the tables consistent. |
| LifecycleProps.ResumeConsistent | app/src/main/java/io/stormbird/wallet/service/HDKeyService.java:698-725 | Every resumption keeps the tables consistent. |
| Service.HDKeyService.constructor | app/src/main/java/io/stormbird/wallet/service/HDKeyService.java:68-80 | A new service over the device's tables has no current key, `authLevel` NOT_SET (standing for Java's initial null), no prompt, no callbacks registered and none made. |
| Enumeration.HDWalletOf | app/src/main/java/io/stormbird/wallet/service/HDKeyService.java:864-866 | A listed wallet is of type HDKEY, and its address starts with `0x`. |
| Enumeration.QualifyingMembers | app/src/main/java/io/stormbird/wallet/service/HDKeyService.java:856-860 | An alias is listed exactly when it was enumerated, lacks `-noauth-`, and has an hd file. |
| Enumeration.CollectDates | app/src/main/java/io/stormbird/wallet/service/HDKeyService.java:856-870 | The alias loop visits every alias once. It collects the listed aliases' dates in order, and maps each date to the wallet of the last alias enumerated with it. |
| Enumeration.ListByDate | app/src/main/java/io/stormbird/wallet/service/HDKeyService.java:874-877 | Entry `i` is the map's wallet under the `i`-th date. |
| Enumeration.InsertSorted | app/src/main/java/io/stormbird/wallet/service/HDKeyService.java:872 | Inserting into ordered dates keeps them ordered. |
| Enumeration.SortDatesSorted | app/src/main/java/io/stormbird/wallet/service/HDKeyService.java:872 | `Collections.sort` gives the dates in ascending order, as a permutation of them. |
| Service.HDKeyService.GetAllHDWallets | app/src/main/java/io/stormbird/wallet/service/HDKeyService.java:845-885 | Returns what `Enumeration.Enumerate` defines for the order in which the key store enumerated its aliases (each alias once). |
| Enumeration.EnumerateListsByDate | app/src/main/java/io/stormbird/wallet/service/HDKeyService.java:845-885 | There is one entry per listed alias. Each entry is the `0x`-prefixed HDKEY wallet of an alias without `-noauth-` whose hd file exists, and the entries are in ascending file date. |
| Enumeration.EnumerateComplete | app/src/main/java/io/stormbird/wallet/service/HDKeyService.java:845-885 | When no two listed keys share a date, every listed key's wallet appears. |
| Enumeration.DateCollisionDuplicates | app/src/main/java/io/stormbird/wallet/service/HDKeyService.java:862-868 | Two keys with the same file date: the later one is listed twice and the earlier one not at all. |

## Left out

- The platform key store, key generator and cipher internals. Key generation is a lookup in `Platform`: `strongBox`, `tee`, `secretFor`, `ivFor`. AES/GCM is a keystream stand-in with a proved round trip, with no authentication tag and no detection of tampering.
- The HD-wallet library (`HDWallet`, address derivation, keccak256 and secp256k1 signing) is the `WalletCore` record of functions. `new HDWallet(mnemonic)` on an empty or invalid phrase is whatever those functions return for it.
- File-system plumbing (`getFilePath`, `writeBytesToFile`, file existence). The file area is a map, and each write succeeds or fails by `Platform.writeOk`. The clock stamping files is `Platform.now`.
- UI: the alert dialog of `keyFailure` (`AuthorisationFailMessage`), `showInsecure`, toasts and vibration. The model reports the failure message to the callback directly, which is what the source does when there is no activity or it is destroyed. With a live activity the source instead shows the message in a dialog: its button and its cancel listener both call `keyFailure("")`, so the callback hears an empty message, and on cancel it also gets `cancelAuthentication()`.
- The `context == null || isDestroyed()` cancel at the end of `authenticateFail`: activity lifecycle is not modelled.
- `CompleteAuthentication` and `FailedAuthentication` are one-line delegations to `authenticatePass` and `authenticateFail`. `isChecking` and `setTopmostActivity` are UI state.
- `synchronized`, logging, `printStackTrace` and `System.loadLibrary`.
- Null callbacks and null pointers. `failToStore` and the import report call their callbacks unguarded. The model assumes they are registered.
- A null `currentKey` reaching `new HDWallet(null)` would throw. This happens in `authenticatePass(RESTORE_BACKUP_KEY)` and in `importHDKey()`, which `authenticatePass(IMPORT_HD_KEY)` also reaches. The model leaves the state unchanged there (`Lifecycle.AuthenticatePassSpec`, `Lifecycle.ImportCurrentKeySpec`, `Service.HDKeyService.ImportCurrentKey`).
- The Java field `authLevel` starts as null, and the constructor never sets it. The model starts it at NOT_SET. Nothing reports `authLevel` before a key negotiation has set it.
- `readBytesFromStream` on an `IOException` part-way through: the source catches it and returns the bytes read so far. The model's streams never fail, so this truncated read is not modelled.
- The key-store loading exceptions (`KeyStore.getInstance`, `load`) and the generic `catch (Exception)` of `getAllHDWallets`. The key store is always available.
- Service.HDKeyService.UnpackMnemonic: two failures use stand-in report texts, because the source reports the platform exception's own message. These are `INVALIDATED_MESSAGE` for an invalidated key and `MISSING_FILE_MESSAGE` for a missing ciphertext file.
- Text.Decode: a malformed UTF-8 sequence decodes to U+FFFD one byte at a time. This is a simplification of the platform decoder's replacement policy. Only well-formed input (the round trip) is relied on.
- Aliases other than the service's own are not modelled: the key store and file area hold only this service's keys and files.
