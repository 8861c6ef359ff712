/** The OCSP request, which `verify` fills in place before handing it to the transport. */
module OcspRequests {
  import opened OcspTypes

  /** The request `verify` sends: the issuer fingerprint, the one target certificate, and the nonce when enabled. */
  function Assembled(issuer: CertificateIssuer, certificate: Certificate, nonceEnabled: bool, entropy: Nonce): RequestData
  {
    RequestData(Some(issuer), [certificate], if nonceEnabled then Some(entropy) else None)
  }

  class OcspRequest {
    var issuer: Option<CertificateIssuer>
    var certificates: seq<Certificate>
    var nonce: Option<Nonce>

    /** What the request holds now. */
    function Content(): RequestData
      reads this
    {
      RequestData(issuer, certificates, nonce)
    }

    constructor ()
      ensures Content() == RequestData(None, [], None)
    {
      issuer, certificates, nonce := None, [], None;
    }

    method SetIssuer(fingerprint: CertificateIssuer)
      modifies this
      ensures Content() == old(Content()).(issuer := Some(fingerprint))
    {
      issuer := Some(fingerprint);
    }

    method AddCertificates(targets: seq<Certificate>)
      modifies this
      ensures Content() == old(Content()).(certificates := old(certificates) + targets)
    {
      certificates := certificates + targets;
    }

    /** The random generator's bytes are the parameter `entropy`. */
    method AddNonce(entropy: Nonce)
      modifies this
      ensures Content() == old(Content()).(nonce := Some(entropy))
    {
      nonce := Some(entropy);
    }
  }
}
