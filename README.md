# OCSP client: the `verify` pipeline

A Dafny model of `OcspClient.verify` from the pkix-ocsp2 library. An OCSP (RFC 6960) client
takes a certificate and answers whether it is GOOD, REVOKED or UNKNOWN. `verify` does this in five steps:

1. it picks the responder address: the `OVERRIDE_URL` property if set, or else the address detected in the
   certificate's Authority Information Access extension (section 4.2.2.1 of RFC 5280). With neither it
   returns UNKNOWN at once;
2. it fills an `OcspRequest` with the issuer fingerprint, the one target certificate, and a nonce
   (section 4.4.1 of RFC 6960) when the `NONCE` property is set;
3. it fetches the response and verifies it;
4. it looks up the certificate's result in the response;
5. it applies the status policy. REVOKED throws when `EXCEPTION_ON_REVOKED` is set. UNKNOWN throws when
   `EXCEPTION_ON_UNKNOWN` is set. Every other result is returned unchanged.

The one-argument `verify(certificate)` first finds the issuer with `findIntermediate` and then does the same.
It calls `findIntermediate` before any responder address is chosen. So even its early UNKNOWN exit makes
the issuer lookup, and an exception from `findIntermediate` is thrown even when there is no responder.
The early-exit lemmas (`NoResponderMeansUnknown`, `ReturnWithoutFetchOnlyWithoutResponder`) are about
the two-argument form; `Verify`'s contract states how the one-argument form adds the lookup in front.

Files:

- `ocsp_types.dfy` (module `OcspTypes`): certificates, the issuer fingerprint, the statuses of section 2.2
  of RFC 6960, `CertificateResult`, the request contents, the client's properties (`Config`) and their
  defaults, and `Outcome` (returned or thrown).
- `ocsp_request.dfy` (module `OcspRequests`): the `OcspRequest` class, which `verify` changes in place with
  `setIssuer`, `addCertificates` and `addNonce`.
- `ocsp_policy.dfy` (module `OcspPolicy`): `OcspException.trigger` and the status switch (`Resolve`).
- `ocsp_client.dfy` (module `OcspClient`): the reference semantics `Run`, and the methods `VerifyWithIssuer`
  and `Verify`. Each method is proved to do exactly what `Run` says.
- `ocsp_client_properties.dfy` (module `OcspClientProperties`): lemmas about `Run`.

Collaborators are not modelled in detail. `verify` calls them, and the model treats them as parameters: the
`Collaborators` record holds one total function for each of `findIntermediate`, `detectOcspUri`,
`CertificateIssuer.generate`, `fetch`, `verifyResponse` and `getResult().get`. `findIntermediate`,
`detectOcspUri`, `generate` and `fetch` may throw `OcspException`: they give `Ok(value)` or `Err(exception)`,
and `Ok(None)` stands for a Java `null`. `verifyResponse` returns nothing, so it gives the exception it throws,
or `None` when the response passes. The lookup cannot fail in the model (see the assumptions below). The random bytes
of the nonce are the parameter `entropy`. Every collaborator call is recorded in a ghost trace. This lets the
model state which calls happened, and in what order.

Assumptions about code outside the model:

- `OcspException.trigger(flag, message)` throws an `OcspException` with that message exactly when `flag` is
  true (`Trigger`).
- `getResult().get(certificate)` always finds a result. The null case is not modelled.
- `response.getResult()` never throws. Its declaration is not part of this model. `PolicyDecidesOutcome`,
  `ReturnedResultWasLookedUp` and `SuccessfulExchangeAppliesPolicy` depend on this: they state that the
  lookup is the last call and that its result goes to the status policy.
- The default of the `NONCE` property is not visible in the modelled source. `OcspClient.java` only reads
  it (line 61), and `AbstractOcspClient.java`, which declares it and `OVERRIDE_URL`, is not part of this model.
  `Defaults.nonce = true` is an assumption. No lemma depends on it: `DefaultsRejectRevokedAndUnknown` reads
  only the two `EXCEPTION_ON_*` fields, whose defaults (both true) are the ones `OcspClient.java` declares.

## Model

| member | source | states |
|---|---|---|
| `OcspPolicy.Trigger` | src/main/java/net/klakegg/pkix/ocsp/OcspClient.java:70-76 | an exception is produced if and only if the flag is set, and it carries the given message |
| `OcspPolicy.Resolve` | src/main/java/net/klakegg/pkix/ocsp/OcspClient.java:69-79 | the outcome throws if and only if the status is REVOKED with `exceptionOnRevoked` set or UNKNOWN with `exceptionOnUnknown` set; whatever is returned is the looked-up result unchanged; the exception carries "Certificate is revoked." or "Status of certificate is unknown." accordingly |
| `OcspPolicy.GoodIsAlwaysReturned` | src/main/java/net/klakegg/pkix/ocsp/OcspClient.java:69-79 | a GOOD result is returned unchanged whatever values the two switches have |
| `OcspPolicy.SwitchesOffReturnEverything` | src/main/java/net/klakegg/pkix/ocsp/OcspClient.java:69-79 | with both switches off, every result is returned unchanged |
| `OcspPolicy.DefaultsRejectRevokedAndUnknown` | src/main/java/net/klakegg/pkix/ocsp/OcspClient.java:18-20 | both switches default to true, so under the defaults exactly the non-GOOD statuses throw |
| `OcspRequests.OcspRequest.constructor` | src/main/java/net/klakegg/pkix/ocsp/OcspClient.java:58 | a new request holds no issuer, no certificates and no nonce |
| `OcspRequests.OcspRequest.SetIssuer` | src/main/java/net/klakegg/pkix/ocsp/OcspClient.java:59 | the issuer fingerprint is set, and the certificates and the nonce are unchanged |
| `OcspRequests.OcspRequest.AddCertificates` | src/main/java/net/klakegg/pkix/ocsp/OcspClient.java:60 | the given certificates are appended, and the issuer and the nonce are unchanged |
| `OcspRequests.OcspRequest.AddNonce` | src/main/java/net/klakegg/pkix/ocsp/OcspClient.java:61-62 | the nonce is set to the drawn random bytes, and the rest is unchanged |
| `OcspClient.VerifyWithIssuer` | src/main/java/net/klakegg/pkix/ocsp/OcspClient.java:47-80 | the in-place pipeline returns or throws exactly as `Run` says, and makes exactly `Run`'s collaborator calls in the same order |
| `OcspClient.Verify` | src/main/java/net/klakegg/pkix/ocsp/OcspClient.java:43-45 | the one-argument form calls `findIntermediate` first and then behaves exactly as the two-argument form with the issuer it found; an exception from `findIntermediate` propagates |
| `OcspClient.Run` | src/main/java/net/klakegg/pkix/ocsp/OcspClient.java:47-80 | the reference semantics of `verify(certificate, issuer)`: outcome and collaborator calls; no contract of its own, its properties are the lemmas below |
| `OcspClient.Exchange` | src/main/java/net/klakegg/pkix/ocsp/OcspClient.java:58-79 | the part of `Run` after the responder address is fixed: assembly, fetch, verification, lookup, policy; no contract of its own |
| `OcspRequests.Assembled` | src/main/java/net/klakegg/pkix/ocsp/OcspClient.java:58-62 | the request contents `verify` builds in place, as a value; no contract of its own, `VerifyWithIssuer` proves the filled request equals it and `RequestAssembly` states its shape |
| `OcspClientProperties.ResponderUri` | src/main/java/net/klakegg/pkix/ocsp/OcspClient.java:48-51 | the responder choice: the override, else the detected address; no contract of its own, used by `FetchGoesToResponder` |
| `OcspClientProperties.FetchFailurePropagates` | src/main/java/net/klakegg/pkix/ocsp/OcspClient.java:64 | for any fetch that appears in the trace: if it throws, that exception is the outcome unchanged and the fetch is the last call; `FetchFailureIsThrown` says the fetch is made |
| `OcspClientProperties.GenerateFailurePropagates` | src/main/java/net/klakegg/pkix/ocsp/OcspClient.java:59 | for any `generate` call that appears in the trace: if it throws, that exception is the outcome and nothing is fetched; `GenerateFailureIsThrown` says the call is made |
| `OcspClientProperties.DetectionFailureIsThrown` | src/main/java/net/klakegg/pkix/ocsp/OcspClient.java:50-51 | with no override, an exception from `detectOcspUri` is the outcome and detection is the only call |
| `OcspClientProperties.GenerateFailureIsThrown` | src/main/java/net/klakegg/pkix/ocsp/OcspClient.java:58-59 | once a responder is chosen, `generate` is called; if it throws, that exception is the outcome and `generate` is the last call |
| `OcspClientProperties.FetchFailureIsThrown` | src/main/java/net/klakegg/pkix/ocsp/OcspClient.java:58-64 | once the fingerprint is generated, the assembled request is fetched from the chosen responder; if the fetch throws, that exception is the outcome unchanged and the fetch is the last call, so it is not retried |
| `OcspClientProperties.VerificationFailureIsThrown` | src/main/java/net/klakegg/pkix/ocsp/OcspClient.java:64-65 | once a response is fetched, it is verified; if verification throws, that exception is the outcome and verification is the last call, so nothing is looked up |
| `OcspClientProperties.OverrideUriIsUsed` | src/main/java/net/klakegg/pkix/ocsp/OcspClient.java:48-56 | with an override set, detection is never called, request assembly always starts, so the early UNKNOWN exit cannot happen, and the fetch goes to the override address |
| `OcspClientProperties.FetchGoesToResponder` | src/main/java/net/klakegg/pkix/ocsp/OcspClient.java:48-64 | every fetch goes to the chosen responder: the override if set, otherwise the detected address |
| `OcspClientProperties.NoResponderMeansUnknown` | src/main/java/net/klakegg/pkix/ocsp/OcspClient.java:50-56 | with no override and no detected address, the result is `CertificateResult(UNKNOWN)` and detection is the only call: no request is built, nothing is fetched and nothing is thrown |
| `OcspClientProperties.ReturnWithoutFetchOnlyWithoutResponder` | src/main/java/net/klakegg/pkix/ocsp/OcspClient.java:48-64 | `verify` returns a result without any fetch if and only if there is no override and detection gives no address |
| `OcspClientProperties.RequestAssembly` | src/main/java/net/klakegg/pkix/ocsp/OcspClient.java:58-62 | the request that is fetched holds the fingerprint `generate(issuer)` and exactly the one target certificate; it holds a nonce if and only if NONCE is set, and that nonce is the drawn bytes |
| `OcspClientProperties.FetchThenVerifyThenLookup` | src/main/java/net/klakegg/pkix/ocsp/OcspClient.java:64-67 | a lookup is always preceded by a fetch and then by a verification that passed, and the looked-up response is the one that was fetched and verified |
| `OcspClientProperties.VerifyFailurePropagates` | src/main/java/net/klakegg/pkix/ocsp/OcspClient.java:64-67 | for any verification that appears in the trace: if it fails, its exception is the outcome and verification is the last call; `VerificationFailureIsThrown` says verification is made |
| `OcspClientProperties.SuccessfulExchangeAppliesPolicy` | src/main/java/net/klakegg/pkix/ocsp/OcspClient.java:47-80 | with a responder address, a generated fingerprint, a fetched response and a passed verification, the outcome is the status policy applied to the looked-up result and the lookup is the last call; so GOOD, and REVOKED or UNKNOWN with its switch off, is returned unchanged |
| `OcspClientProperties.PolicyDecidesOutcome` | src/main/java/net/klakegg/pkix/ocsp/OcspClient.java:67-79 | once a result has been looked up, the outcome is the status policy applied to that result |
| `OcspClientProperties.ReturnedResultWasLookedUp` | src/main/java/net/klakegg/pkix/ocsp/OcspClient.java:67-79 | a result returned after a fetch is the looked-up result itself, and the lookup is the last call |
| `OcspClientProperties.AtMostOneRoundTrip` | src/main/java/net/klakegg/pkix/ocsp/OcspClient.java:47-80 | `verify(certificate, issuer)` fetches at most once |
| `OcspClientProperties.AtMostOneRoundTripWithDiscovery` | src/main/java/net/klakegg/pkix/ocsp/OcspClient.java:43-45 | the trace `Verify` gives (`FindIntermediate` in front of a `Run` trace) holds at most one OCSP fetch; network use inside `findIntermediate` is not counted |

## Left out

- The builder and property mechanism (`builder()`, the private constructor, `Properties`, `Property`) is
  replaced by the immutable `Config` record.
- `detectOcspUri`, `findIntermediate`, `CertificateIssuer.generate`, `fetch`, `verifyResponse` and
  `getResult().get` are parameters of the model, not definitions. AIA parsing, the issuer-certificate
  download, DER encoding and hashing, HTTP transport, and checks of signatures, nonce echo and CertID
  matching are not modelled.
- The random generator behind `addNonce`: its bytes are the parameter `entropy`.
- `getResult().get(certificate)` returning null is not modelled.
- Unchecked Java exceptions, such as a null-pointer failure inside a collaborator, are not modelled.
  Only `OcspException` is.
- Each collaborator is deterministic in the model: the same arguments give the same answer. Each call of
  `verify` is modelled on its own, so this loses nothing within one call.
