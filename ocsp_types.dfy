/** Values the OCSP client (RFC 6960) exchanges with its callers and collaborators. */
module OcspTypes {

  type Bytes = seq<bv8>

  /** A responder address, as java.net.URI. */
  type Uri = string

  /** The random bytes carried by the request's nonce extension (section 4.4.1 of RFC 6960). */
  type Nonce = Bytes

  /** Stands for a Java reference that may be null. */
  datatype Option<T> = None | Some(value: T)

  /** The checked exception every step of `verify` may throw. */
  datatype OcspException = OcspException(message: string)

  /** What a call declared `throws OcspException` gives back: a value, or the exception it threw. */
  datatype Attempt<T> = Ok(value: T) | Err(error: OcspException)

  /** An X.509 certificate, by its DER encoding. */
  datatype Certificate = Certificate(encoded: Bytes)

  /** The issuer fingerprint placed in each CertID: hashes of the issuer's name and public key. */
  datatype CertificateIssuer = CertificateIssuer(nameHash: Bytes, keyHash: Bytes)

  /** The three certificate statuses of section 2.2 of RFC 6960. */
  datatype CertificateStatus = GOOD | REVOKED | UNKNOWN

  datatype RevocationInfo = RevocationInfo(revokedAt: int, reason: Option<nat>)

  /** The status of one certificate as the client reports it to its caller. */
  datatype CertificateResult = CertificateResult(status: CertificateStatus, revocation: Option<RevocationInfo>)

  /** A response as returned by the transport, before it is verified. */
  datatype OcspResponse = OcspResponse(encoded: Bytes)

  /** The contents of an OCSP request: the issuer fingerprint, the certificates asked about and the nonce. */
  datatype RequestData = RequestData(issuer: Option<CertificateIssuer>, certificates: seq<Certificate>, nonce: Option<Nonce>)

  /** The client's properties: OVERRIDE_URL, NONCE, EXCEPTION_ON_REVOKED and EXCEPTION_ON_UNKNOWN. */
  datatype Config = Config(overrideUri: Option<Uri>, nonce: bool, exceptionOnRevoked: bool, exceptionOnUnknown: bool)

  /** A client built without setting any property. */
  const Defaults: Config := Config(None, true, true, true)

  /** How a call of `verify` ends: it returns a result or throws. */
  datatype Outcome = Returned(result: CertificateResult) | Raised(error: OcspException)
}
