/** The security tiers of a key-store key and the fallback chain of `getMaxSecurityKeyGenerator`. */
module Tiers {

  datatype AuthenticationLevel = NOT_SET | NO_AUTHENTICATION | HARDWARE_AUTHENTICATION | STRONGBOX_AUTHENTICATION

  /** The order of the tiers, weakest first. */
  function Rank(level: AuthenticationLevel): nat
  {
    match level
    case NOT_SET => 0
    case NO_AUTHENTICATION => 1
    case HARDWARE_AUTHENTICATION => 2
    case STRONGBOX_AUTHENTICATION => 3
  }

  /** What `tryInitStrongBoxKey` does: succeeds, answers false because the device has no
      StrongBox, or throws an invalid-parameter exception that ends the whole negotiation. */
  datatype StrongBoxInit = StrongBoxReady | StrongBoxUnavailable | StrongBoxRejected

  /** The result of negotiation: a key generator initialised at a tier (with or without
      user authentication), or one left uninitialised. */
  datatype Negotiation = Provisioned(level: AuthenticationLevel, needsAuth: bool) | NotProvisioned

  /** True if the device offers `level` for this request: StrongBox only from Android P on,
      the trusted execution environment with the requested authentication, or without it. */
  predicate Offers(sdkAtLeastP: bool, strongBox: StrongBoxInit, teeRequested: bool, teeNoAuth: bool,
                   level: AuthenticationLevel)
  {
    || (level == STRONGBOX_AUTHENTICATION && sdkAtLeastP && strongBox == StrongBoxReady)
    || (level == HARDWARE_AUTHENTICATION && teeRequested)
    || (level == NO_AUTHENTICATION && teeNoAuth)
  }

  /** `getMaxSecurityKeyGenerator`: StrongBox first (only from Android P on), then the trusted
      execution environment with the requested authentication, then without authentication. */
  function MaxSecurity(sdkAtLeastP: bool, strongBox: StrongBoxInit, teeRequested: bool, teeNoAuth: bool,
                       useAuthentication: bool): (n: Negotiation)
    ensures n.Provisioned? ==>
      && Offers(sdkAtLeastP, strongBox, teeRequested, teeNoAuth, n.level)
      && forall l :: Offers(sdkAtLeastP, strongBox, teeRequested, teeNoAuth, l) ==> Rank(l) <= Rank(n.level)
    ensures n.NotProvisioned? ==>
      (sdkAtLeastP && strongBox == StrongBoxRejected) ||
      forall l :: !Offers(sdkAtLeastP, strongBox, teeRequested, teeNoAuth, l)
    ensures ((exists l :: Offers(sdkAtLeastP, strongBox, teeRequested, teeNoAuth, l)) &&
             !(sdkAtLeastP && strongBox == StrongBoxRejected)) ==> n.Provisioned?
    ensures n.Provisioned? ==> (n.needsAuth <==> useAuthentication && n.level != NO_AUTHENTICATION)
  {
    if sdkAtLeastP && strongBox == StrongBoxReady then Provisioned(STRONGBOX_AUTHENTICATION, useAuthentication)
    else if sdkAtLeastP && strongBox == StrongBoxRejected then NotProvisioned
    else if teeRequested then Provisioned(HARDWARE_AUTHENTICATION, useAuthentication)
    else if teeNoAuth then Provisioned(NO_AUTHENTICATION, false)
    else NotProvisioned
  }

  /** For a request without authentication both trusted-environment attempts are the same call,
      so such a key never ends up at NO_AUTHENTICATION and never needs authentication. */
  lemma UnauthenticatedRequest(sdkAtLeastP: bool, strongBox: StrongBoxInit, tee: bool)
    ensures var n := MaxSecurity(sdkAtLeastP, strongBox, tee, tee, false);
      n.Provisioned? ==> n.level != NO_AUTHENTICATION && !n.needsAuth
  {
  }
}
