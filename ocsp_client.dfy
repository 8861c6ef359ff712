/**
 * OcspClient.verify: choose the responder, build the request, fetch and verify
 * the response, then apply the status policy to the looked-up result.
 */
module OcspClient {
  import opened OcspTypes
  import opened OcspPolicy
  import opened OcspRequests

  /** One call `verify` makes into a collaborator. */
  datatype Event =
    | FindIntermediate(certificate: Certificate)
    | DetectOcspUri(certificate: Certificate)
    | GenerateIssuer(issuer: Option<Certificate>)
    | Fetch(request: RequestData, uri: Uri)
    | VerifyResponse(response: OcspResponse)
    | LookupResult(response: OcspResponse, certificate: Certificate)

  type Trace = seq<Event>

  /**
   * The collaborators `verify` calls, as total functions of their arguments.
   * A call that throws gives `Err`; one that returns null gives `Ok(None)`.
   * `verifyResponse` gives the exception it throws, or `None` when the response passes.
   */
  datatype Collaborators = Collaborators(
    findIntermediate: Certificate -> Attempt<Option<Certificate>>,
    detectOcspUri: Certificate -> Attempt<Option<Uri>>,
    generateIssuer: Option<Certificate> -> Attempt<CertificateIssuer>,
    fetch: (RequestData, Uri) -> Attempt<OcspResponse>,
    verifyResponse: OcspResponse -> Option<OcspException>,
    lookup: (OcspResponse, Certificate) -> CertificateResult)

  /** How a call ends, and the collaborator calls it made on the way, in order. */
  datatype Execution = Execution(outcome: Outcome, trace: Trace)

  /** The result returned when no responder address is known. */
  const NoResponderResult: CertificateResult := CertificateResult(UNKNOWN, None)

  function After(calls: Trace, rest: Execution): Execution
  {
    Execution(rest.outcome, calls + rest.trace)
  }

  /** Everything `verify(certificate, issuer)` does once the responder address is fixed. */
  function Exchange(config: Config, env: Collaborators, certificate: Certificate,
                    issuer: Option<Certificate>, entropy: Nonce, uri: Uri): Execution
  {
    var generating := [GenerateIssuer(issuer)];
    match env.generateIssuer(issuer)
    case Err(e) => Execution(Raised(e), generating)
    case Ok(fingerprint) =>
      var request := Assembled(fingerprint, certificate, config.nonce, entropy);
      var fetching := generating + [Fetch(request, uri)];
      match env.fetch(request, uri)
      case Err(e) => Execution(Raised(e), fetching)
      case Ok(response) =>
        var verifying := fetching + [VerifyResponse(response)];
        match env.verifyResponse(response)
        case Some(e) => Execution(Raised(e), verifying)
        case None =>
          Execution(Resolve(env.lookup(response, certificate), config),
                    verifying + [LookupResult(response, certificate)])
  }

  /** What `verify(certificate, issuer)` does: the overriding address wins, else the detected one. */
  function Run(config: Config, env: Collaborators, certificate: Certificate,
               issuer: Option<Certificate>, entropy: Nonce): Execution
  {
    match config.overrideUri
    case Some(uri) => Exchange(config, env, certificate, issuer, entropy, uri)
    case None =>
      var detecting := [DetectOcspUri(certificate)];
      match env.detectOcspUri(certificate)
      case Err(e) => Execution(Raised(e), detecting)
      case Ok(None) => Execution(Returned(NoResponderResult), detecting)
      case Ok(Some(uri)) => After(detecting, Exchange(config, env, certificate, issuer, entropy, uri))
  }

  /** verify(certificate, issuer). The request is filled in place before it is sent. */
  method VerifyWithIssuer(config: Config, env: Collaborators, certificate: Certificate,
                          issuer: Option<Certificate>, entropy: Nonce)
    returns (outcome: Outcome, ghost trace: Trace)
    ensures outcome == Run(config, env, certificate, issuer, entropy).outcome
    ensures trace == Run(config, env, certificate, issuer, entropy).trace
  {
    trace := [];
    var uri := config.overrideUri;
    if uri.None? {
      trace := trace + [DetectOcspUri(certificate)];
      var detected := env.detectOcspUri(certificate);
      if detected.Err? {
        outcome := Raised(detected.error);
        return;
      }
      uri := detected.value;
      if uri.None? {
        outcome := Returned(NoResponderResult);
        return;
      }
    }
    ghost var located := trace;

    var request := new OcspRequest();
    trace := trace + [GenerateIssuer(issuer)];
    var generated := env.generateIssuer(issuer);
    if generated.Err? {
      outcome := Raised(generated.error);
      return;
    }
    request.SetIssuer(generated.value);
    request.AddCertificates([certificate]);
    if config.nonce {
      request.AddNonce(entropy);
    }
    var sent := request.Content();
    assert sent == Assembled(generated.value, certificate, config.nonce, entropy);

    trace := trace + [Fetch(sent, uri.value)];
    var fetched := env.fetch(sent, uri.value);
    if fetched.Err? {
      outcome := Raised(fetched.error);
      return;
    }
    var response := fetched.value;
    trace := trace + [VerifyResponse(response)];
    var rejection := env.verifyResponse(response);
    if rejection.Some? {
      outcome := Raised(rejection.value);
      return;
    }

    trace := trace + [LookupResult(response, certificate)];
    var result := env.lookup(response, certificate);
    var thrown: Option<OcspException> := None;
    match result.status {
      case REVOKED =>
        thrown := Trigger(config.exceptionOnRevoked, RevokedMessage);
      case UNKNOWN =>
        thrown := Trigger(config.exceptionOnUnknown, UnknownMessage);
      case GOOD =>
    }
    if thrown.Some? {
      outcome := Raised(thrown.value);
    } else {
      outcome := Returned(result);
    }
    assert trace == located + Exchange(config, env, certificate, issuer, entropy, uri.value).trace;
  }

  /** verify(certificate): the issuer is the one findIntermediate gives, then as VerifyWithIssuer. */
  method Verify(config: Config, env: Collaborators, certificate: Certificate, entropy: Nonce)
    returns (outcome: Outcome, ghost trace: Trace)
    ensures env.findIntermediate(certificate).Err? ==> outcome == Raised(env.findIntermediate(certificate).error)
    ensures env.findIntermediate(certificate).Ok? ==>
              outcome == Run(config, env, certificate, env.findIntermediate(certificate).value, entropy).outcome
    ensures env.findIntermediate(certificate).Err? ==> trace == [FindIntermediate(certificate)]
    ensures env.findIntermediate(certificate).Ok? ==>
              trace == [FindIntermediate(certificate)] + Run(config, env, certificate, env.findIntermediate(certificate).value, entropy).trace
  {
    var found := env.findIntermediate(certificate);
    if found.Err? {
      outcome, trace := Raised(found.error), [FindIntermediate(certificate)];
      return;
    }
    ghost var rest: Trace;
    outcome, rest := VerifyWithIssuer(config, env, certificate, found.value, entropy);
    trace := [FindIntermediate(certificate)] + rest;
  }
}
