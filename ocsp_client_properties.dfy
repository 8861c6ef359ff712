/** What `verify` promises about the responder it asks, the request it sends and the order of its calls. */
module OcspClientProperties {
  import opened OcspTypes
  import opened OcspPolicy
  import opened OcspRequests
  import opened OcspClient

  /** The number of OCSP round trips in a trace. */
  function CountFetches(t: Trace): nat
  {
    if t == [] then 0 else (if t[0].Fetch? then 1 else 0) + CountFetches(t[1..])
  }

  lemma {:induction false} CountFetchesAppend(a: Trace, b: Trace)
    ensures CountFetches(a + b) == CountFetches(a) + CountFetches(b)
  {
    if a != [] {
      assert (a + b)[1..] == a[1..] + b;
      CountFetchesAppend(a[1..], b);
    } else {
      assert a + b == b;
    }
  }

  lemma {:induction false} NoFetchCounted(t: Trace)
    ensures CountFetches(t) == 0 <==> forall k :: 0 <= k < |t| ==> !t[k].Fetch?
  {
    if t != [] {
      NoFetchCounted(t[1..]);
      assert forall k :: 1 <= k < |t| ==> t[k] == t[1..][k - 1];
    }
  }

  /** A trace whose fetches all stand at one position holds at most one fetch. */
  lemma {:induction false} FetchesAtOnePlace(t: Trace, p: nat)
    requires forall k :: 0 <= k < |t| && t[k].Fetch? ==> k == p
    ensures CountFetches(t) <= 1
  {
    if t != [] {
      if p == 0 {
        NoFetchCounted(t[1..]);
        assert forall k :: 0 <= k < |t[1..]| ==> t[1..][k] == t[k + 1];
      } else {
        assert forall k :: 0 <= k < |t[1..]| && t[1..][k].Fetch? ==> t[k + 1].Fetch?;
        FetchesAtOnePlace(t[1..], p - 1);
      }
    }
  }

  /** The address `verify` sends its request to, when it has one: the override, else the detected one. */
  function ResponderUri(config: Config, env: Collaborators, certificate: Certificate): Option<Uri>
  {
    match config.overrideUri
    case Some(uri) => Some(uri)
    case None =>
      match env.detectOcspUri(certificate)
      case Ok(detected) => detected
      case Err(_) => None
  }

  /**
   * An overriding address is used as it is: detection is never asked, the request is
   * always started, and every fetch goes to that address.
   */
  lemma OverrideUriIsUsed(config: Config, env: Collaborators, certificate: Certificate,
                          issuer: Option<Certificate>, entropy: Nonce)
    requires config.overrideUri.Some?
    ensures var t := Run(config, env, certificate, issuer, entropy).trace;
      && |t| >= 1 && t[0] == GenerateIssuer(issuer)
      && (forall k :: 0 <= k < |t| ==> !t[k].DetectOcspUri?)
      && (env.generateIssuer(issuer).Ok? ==> |t| >= 2 && t[1].Fetch? && t[1].uri == config.overrideUri.value)
  {
  }

  /** Every fetch goes to the chosen responder. */
  lemma FetchGoesToResponder(config: Config, env: Collaborators, certificate: Certificate,
                             issuer: Option<Certificate>, entropy: Nonce)
    ensures var t := Run(config, env, certificate, issuer, entropy).trace;
      forall k :: 0 <= k < |t| && t[k].Fetch? ==> ResponderUri(config, env, certificate) == Some(t[k].uri)
  {
  }

  /**
   * Without an override and without a detected address, `verify` returns UNKNOWN
   * having called nothing but detection: no request, no fetch, no exception.
   */
  lemma NoResponderMeansUnknown(config: Config, env: Collaborators, certificate: Certificate,
                                issuer: Option<Certificate>, entropy: Nonce)
    requires config.overrideUri.None? && env.detectOcspUri(certificate) == Ok(None)
    ensures Run(config, env, certificate, issuer, entropy)
         == Execution(Returned(CertificateResult(UNKNOWN, None)), [DetectOcspUri(certificate)])
  {
  }

  /** `verify` returns without any round trip exactly when it has no responder address. */
  lemma ReturnWithoutFetchOnlyWithoutResponder(config: Config, env: Collaborators, certificate: Certificate,
                                               issuer: Option<Certificate>, entropy: Nonce)
    ensures var x := Run(config, env, certificate, issuer, entropy);
      (x.outcome.Returned? && CountFetches(x.trace) == 0)
      <==> (config.overrideUri.None? && env.detectOcspUri(certificate) == Ok(None))
  {
    var x := Run(config, env, certificate, issuer, entropy);
    NoFetchCounted(x.trace);
    if x.outcome.Returned? && ResponderUri(config, env, certificate).Some? {
      var found := x.trace[if config.overrideUri.Some? then 1 else 2];
      assert found.Fetch?;
    }
  }

  /**
   * The request that is sent carries the fingerprint of `issuer`, exactly the one target
   * certificate, and a nonce if and only if the NONCE property is set.
   */
  lemma RequestAssembly(config: Config, env: Collaborators, certificate: Certificate,
                        issuer: Option<Certificate>, entropy: Nonce)
    ensures var t := Run(config, env, certificate, issuer, entropy).trace;
      forall k :: 0 <= k < |t| && t[k].Fetch? ==>
        && env.generateIssuer(issuer).Ok?
        && t[k].request.issuer == Some(env.generateIssuer(issuer).value)
        && t[k].request.certificates == [certificate]
        && (t[k].request.nonce.Some? <==> config.nonce)
        && (config.nonce ==> t[k].request.nonce == Some(entropy))
  {
  }

  /**
   * A result is looked up only in a response that was fetched before and then
   * passed verification, and the certificate looked up is the one asked about.
   */
  lemma FetchThenVerifyThenLookup(config: Config, env: Collaborators, certificate: Certificate,
                                  issuer: Option<Certificate>, entropy: Nonce)
    ensures var t := Run(config, env, certificate, issuer, entropy).trace;
      forall k :: 0 <= k < |t| && t[k].LookupResult? ==>
        && t[k].certificate == certificate
        && exists i, j :: 0 <= i < j < k && t[i].Fetch? && t[j] == VerifyResponse(t[k].response)
                          && env.fetch(t[i].request, t[i].uri) == Ok(t[j].response)
                          && env.verifyResponse(t[j].response).None?
  {
    var t := Run(config, env, certificate, issuer, entropy).trace;
    forall k | 0 <= k < |t| && t[k].LookupResult?
      ensures exists i, j :: 0 <= i < j < k && t[i].Fetch? && t[j] == VerifyResponse(t[k].response)
                            && env.fetch(t[i].request, t[i].uri) == Ok(t[j].response)
                            && env.verifyResponse(t[j].response).None?
    {
      assert t[k - 2].Fetch? && t[k - 1] == VerifyResponse(t[k].response);
    }
  }

  /** A failed verification is what `verify` throws, and nothing is looked up after it. */
  lemma VerifyFailurePropagates(config: Config, env: Collaborators, certificate: Certificate,
                                issuer: Option<Certificate>, entropy: Nonce)
    ensures var x := Run(config, env, certificate, issuer, entropy);
      forall k :: 0 <= k < |x.trace| && x.trace[k].VerifyResponse? && env.verifyResponse(x.trace[k].response).Some? ==>
        && x.outcome == Raised(env.verifyResponse(x.trace[k].response).value)
        && k == |x.trace| - 1
  {
  }

  /** A failed fetch is what `verify` throws, unchanged and not retried: nothing is called after it. */
  lemma FetchFailurePropagates(config: Config, env: Collaborators, certificate: Certificate,
                               issuer: Option<Certificate>, entropy: Nonce)
    ensures var x := Run(config, env, certificate, issuer, entropy);
      forall k :: 0 <= k < |x.trace| && x.trace[k].Fetch? && env.fetch(x.trace[k].request, x.trace[k].uri).Err? ==>
        && x.outcome == Raised(env.fetch(x.trace[k].request, x.trace[k].uri).error)
        && k == |x.trace| - 1
  {
  }

  /** A failure to generate the issuer fingerprint is what `verify` throws, and nothing is fetched. */
  lemma GenerateFailurePropagates(config: Config, env: Collaborators, certificate: Certificate,
                                  issuer: Option<Certificate>, entropy: Nonce)
    ensures var x := Run(config, env, certificate, issuer, entropy);
      forall k :: 0 <= k < |x.trace| && x.trace[k].GenerateIssuer? && env.generateIssuer(x.trace[k].issuer).Err? ==>
        && x.outcome == Raised(env.generateIssuer(x.trace[k].issuer).error)
        && k == |x.trace| - 1
  {
  }

  /**
   * Once a result has been looked up, the outcome is the status policy applied to it:
   * REVOKED and UNKNOWN throw exactly when their switch is on, anything else comes back unchanged.
   */
  lemma PolicyDecidesOutcome(config: Config, env: Collaborators, certificate: Certificate,
                             issuer: Option<Certificate>, entropy: Nonce)
    ensures var x := Run(config, env, certificate, issuer, entropy);
      forall k :: 0 <= k < |x.trace| && x.trace[k].LookupResult? ==>
        x.outcome == Resolve(env.lookup(x.trace[k].response, certificate), config)
  {
  }

  /** A detection failure is what `verify` throws, and detection is its only call. */
  lemma DetectionFailureIsThrown(config: Config, env: Collaborators, certificate: Certificate,
                                 issuer: Option<Certificate>, entropy: Nonce, e: OcspException)
    requires config.overrideUri.None? && env.detectOcspUri(certificate) == Err(e)
    ensures Run(config, env, certificate, issuer, entropy) == Execution(Raised(e), [DetectOcspUri(certificate)])
  {
  }

  /** Once a responder is chosen, `generate` is called, and its failure is thrown with nothing after it. */
  lemma GenerateFailureIsThrown(config: Config, env: Collaborators, certificate: Certificate,
                                issuer: Option<Certificate>, entropy: Nonce, uri: Uri, e: OcspException)
    requires ResponderUri(config, env, certificate) == Some(uri)
    requires env.generateIssuer(issuer) == Err(e)
    ensures var x := Run(config, env, certificate, issuer, entropy);
      && x.outcome == Raised(e)
      && |x.trace| > 0 && x.trace[|x.trace| - 1] == GenerateIssuer(issuer)
  {
  }

  /** Once the fingerprint is generated, the request is fetched, and a transport failure is thrown unchanged, not retried. */
  lemma FetchFailureIsThrown(config: Config, env: Collaborators, certificate: Certificate,
                             issuer: Option<Certificate>, entropy: Nonce, uri: Uri,
                             fingerprint: CertificateIssuer, e: OcspException)
    requires ResponderUri(config, env, certificate) == Some(uri)
    requires env.generateIssuer(issuer) == Ok(fingerprint)
    requires env.fetch(Assembled(fingerprint, certificate, config.nonce, entropy), uri) == Err(e)
    ensures var x := Run(config, env, certificate, issuer, entropy);
      && x.outcome == Raised(e)
      && |x.trace| > 0 && x.trace[|x.trace| - 1] == Fetch(Assembled(fingerprint, certificate, config.nonce, entropy), uri)
  {
  }

  /** Once a response is fetched, it is verified, and a failed verification is thrown with no lookup after it. */
  lemma VerificationFailureIsThrown(config: Config, env: Collaborators, certificate: Certificate,
                                    issuer: Option<Certificate>, entropy: Nonce, uri: Uri,
                                    fingerprint: CertificateIssuer, response: OcspResponse, e: OcspException)
    requires ResponderUri(config, env, certificate) == Some(uri)
    requires env.generateIssuer(issuer) == Ok(fingerprint)
    requires env.fetch(Assembled(fingerprint, certificate, config.nonce, entropy), uri) == Ok(response)
    requires env.verifyResponse(response) == Some(e)
    ensures var x := Run(config, env, certificate, issuer, entropy);
      && x.outcome == Raised(e)
      && |x.trace| > 0 && x.trace[|x.trace| - 1] == VerifyResponse(response)
  {
  }

  /**
   * The success path: with a responder address, a fingerprint, a fetched response and a passed
   * verification, `verify` looks the certificate up last and answers with the status policy applied
   * to that result. So a GOOD result, and a REVOKED or UNKNOWN one whose switch is off, comes back unchanged.
   */
  lemma SuccessfulExchangeAppliesPolicy(config: Config, env: Collaborators, certificate: Certificate,
                                        issuer: Option<Certificate>, entropy: Nonce, uri: Uri,
                                        fingerprint: CertificateIssuer, response: OcspResponse)
    requires ResponderUri(config, env, certificate) == Some(uri)
    requires env.generateIssuer(issuer) == Ok(fingerprint)
    requires env.fetch(Assembled(fingerprint, certificate, config.nonce, entropy), uri) == Ok(response)
    requires env.verifyResponse(response).None?
    ensures var x := Run(config, env, certificate, issuer, entropy);
      && x.outcome == Resolve(env.lookup(response, certificate), config)
      && |x.trace| > 0 && x.trace[|x.trace| - 1] == LookupResult(response, certificate)
    ensures var result := env.lookup(response, certificate);
      (result.status == GOOD
       || (result.status == REVOKED && !config.exceptionOnRevoked)
       || (result.status == UNKNOWN && !config.exceptionOnUnknown))
      ==> Run(config, env, certificate, issuer, entropy).outcome == Returned(result)
  {
  }

  /** Every outcome other than the early UNKNOWN comes back from the lookup or is an exception. */
  lemma ReturnedResultWasLookedUp(config: Config, env: Collaborators, certificate: Certificate,
                                  issuer: Option<Certificate>, entropy: Nonce)
    ensures var x := Run(config, env, certificate, issuer, entropy);
      x.outcome.Returned? && CountFetches(x.trace) > 0 ==>
        && x.trace[|x.trace| - 1].LookupResult?
        && x.outcome.result == env.lookup(x.trace[|x.trace| - 1].response, certificate)
  {
    var x := Run(config, env, certificate, issuer, entropy);
    NoFetchCounted(x.trace);
  }

  /** One call of verify(certificate, issuer) makes at most one OCSP round trip. */
  lemma AtMostOneRoundTrip(config: Config, env: Collaborators, certificate: Certificate,
                           issuer: Option<Certificate>, entropy: Nonce)
    ensures CountFetches(Run(config, env, certificate, issuer, entropy).trace) <= 1
  {
    var t := Run(config, env, certificate, issuer, entropy).trace;
    FetchesAtOnePlace(t, if config.overrideUri.Some? then 1 else 2);
  }

  /**
   * So does verify(certificate), which first looks for the issuer: this is stated for the trace
   * shape `[FindIntermediate(certificate)] + Run(...).trace` with any issuer, which is the trace
   * `Verify`'s ensures give when `findIntermediate` succeeds. The count is of OCSP `fetch` calls
   * only; any network use inside `findIntermediate` is not counted.
   */
  lemma AtMostOneRoundTripWithDiscovery(config: Config, env: Collaborators, certificate: Certificate,
                                        issuer: Option<Certificate>, entropy: Nonce)
    ensures CountFetches([FindIntermediate(certificate)] + Run(config, env, certificate, issuer, entropy).trace) <= 1
  {
    CountFetchesAppend([FindIntermediate(certificate)], Run(config, env, certificate, issuer, entropy).trace);
    AtMostOneRoundTrip(config, env, certificate, issuer, entropy);
  }
}
