/** The status policy applied to the looked-up result at the end of `verify`. */
module OcspPolicy {
  import opened OcspTypes

  const RevokedMessage: string := "Certificate is revoked."
  const UnknownMessage: string := "Status of certificate is unknown."

  /** OcspException.trigger(flag, message): throws an exception with that message exactly when `flag` holds. */
  function Trigger(flag: bool, message: string): (r: Option<OcspException>)
    ensures r.Some? <==> flag
    ensures r.Some? ==> r.value.message == message
  {
    if flag then Some(OcspException(message)) else None
  }

  /** The switch on the looked-up status: REVOKED and UNKNOWN throw when their switch is on. */
  function Resolve(result: CertificateResult, config: Config): (r: Outcome)
    ensures r.Raised? <==>
              (result.status == REVOKED && config.exceptionOnRevoked) ||
              (result.status == UNKNOWN && config.exceptionOnUnknown)
    ensures r.Returned? ==> r.result == result
    ensures r.Raised? ==> r.error.message == if result.status == REVOKED then RevokedMessage else UnknownMessage
  {
    var thrown := match result.status
      case REVOKED => Trigger(config.exceptionOnRevoked, RevokedMessage)
      case UNKNOWN => Trigger(config.exceptionOnUnknown, UnknownMessage)
      case GOOD => None;
    match thrown
    case Some(e) => Raised(e)
    case None => Returned(result)
  }

  /** A GOOD status comes back unchanged whatever the two switches say. */
  lemma GoodIsAlwaysReturned(result: CertificateResult, config: Config)
    requires result.status == GOOD
    ensures Resolve(result, config) == Returned(result)
  {
  }

  /** With both switches off nothing is ever thrown: the result comes back as looked up. */
  lemma SwitchesOffReturnEverything(result: CertificateResult, config: Config)
    requires !config.exceptionOnRevoked && !config.exceptionOnUnknown
    ensures Resolve(result, config) == Returned(result)
  {
  }

  /** Under the default properties exactly the statuses other than GOOD throw. */
  lemma DefaultsRejectRevokedAndUnknown(result: CertificateResult)
    ensures Defaults.exceptionOnRevoked && Defaults.exceptionOnUnknown
    ensures Resolve(result, Defaults).Raised? <==> result.status != GOOD
  {
  }
}
