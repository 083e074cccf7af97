/** The operation tags of the service and the ordinal a prompt carries back on resumption. */
module Operations {

  datatype Operation =
    | CREATE_HD_KEY | FETCH_MNEMONIC | IMPORT_HD_KEY | SIGN_WITH_KEY | CHECK_AUTHENTICATION
    | SIGN_DATA | CREATE_NON_AUTHENTICATED_KEY | RESTORE_BACKUP_KEY

  /** `Operation.values()`, in declaration order. */
  const VALUES: seq<Operation> := [
    CREATE_HD_KEY, FETCH_MNEMONIC, IMPORT_HD_KEY, SIGN_WITH_KEY, CHECK_AUTHENTICATION,
    SIGN_DATA, CREATE_NON_AUTHENTICATED_KEY, RESTORE_BACKUP_KEY]

  /** `operation.ordinal()`: the callback id the authentication dialog is created with. */
  function Ordinal(op: Operation): (n: nat)
    ensures n < |VALUES| && VALUES[n] == op
  {
    match op
    case CREATE_HD_KEY => 0
    case FETCH_MNEMONIC => 1
    case IMPORT_HD_KEY => 2
    case SIGN_WITH_KEY => 3
    case CHECK_AUTHENTICATION => 4
    case SIGN_DATA => 5
    case CREATE_NON_AUTHENTICATED_KEY => 6
    case RESTORE_BACKUP_KEY => 7
  }

  /** `Operation.values()[callbackId]`. */
  function FromOrdinal(callbackId: nat): Operation
    requires callbackId < |VALUES|
  {
    VALUES[callbackId]
  }

  /** The tag a resumed operation is dispatched on is the tag it was suspended with, and
      every valid callback id is the ordinal of exactly one tag. */
  lemma OrdinalRoundTrip(op: Operation, callbackId: nat)
    requires callbackId < |VALUES|
    ensures FromOrdinal(Ordinal(op)) == op
    ensures Ordinal(FromOrdinal(callbackId)) == callbackId
  {
  }
}
