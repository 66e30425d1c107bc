/** Certificates and revocations as the node sees them (src/cert.py, src/revocation.py).

    Keys are numbers. The id hash and the signature scheme are symbolic: an id made from
    a key is the constructor `KeyId`, and a signature carries the key that made it and
    the message it covers, so hashing is injective and nobody signs for another key. */
module Certificates {
  import opened Wrappers

  datatype NodeId = KeyId(key: nat) | BareId(raw: nat)

  datatype Message =
    | CertBody(subject: NodeId, subjectPub: nat, issuer: NodeId, issuerPub: nat, issuedAt: nat, expiresAt: nat)
    | RevocationBody(at: nat, revoked: NodeId, why: nat)

  /** `salt` is the signer's randomness: signing one message twice gives two signatures. */
  datatype Signature = Signature(signer: nat, message: Message, salt: nat)

  predicate VerifySignature(message: Message, signature: Signature, pub: nat) {
    signature.signer == pub && signature.message == message
  }

  datatype CertRecord = CertRecord(
    subject: NodeId, subjectPub: nat, issuer: NodeId, issuerPub: nat,
    issuedAt: nat, expiresAt: nat, signature: Signature)
  {
    function SignedBody(): Message {
      CertBody(subject, subjectPub, issuer, issuerPub, issuedAt, expiresAt)
    }

    /** The three checks a certificate passes before it exists. */
    predicate Genuine() {
      && KeyId(subjectPub) == subject
      && KeyId(issuerPub) == issuer
      && VerifySignature(SignedBody(), signature, issuerPub)
    }

    predicate SelfSigned() {
      subject == issuer
    }

    /** 0 never expires. */
    predicate Expired(now: int) {
      expiresAt != 0 && now > expiresAt
    }

    /** This certificate has at least as long to live as `other`. */
    predicate Outlives(other: CertRecord) {
      expiresAt == 0 || (other.expiresAt != 0 && expiresAt >= other.expiresAt)
    }
  }

  /** A certificate lives at least as long as another iff it is expired at no moment at which
      the other is not. */
  lemma OutlivesMeansTime(a: CertRecord, b: CertRecord)
    ensures a.Outlives(b) <==> forall now :: !b.Expired(now) ==> !a.Expired(now)
  {
    if !a.Outlives(b) {
      var last := if b.expiresAt == 0 then a.expiresAt + 1 else b.expiresAt;
      assert a.Expired(last) && !b.Expired(last);
    }
  }

  const SOME_ROOT := CertRecord(KeyId(0), 0, KeyId(0), 0, 0, 0,
                                Signature(0, CertBody(KeyId(0), 0, KeyId(0), 0, 0, 0), 0))

  type Cert = c: CertRecord | c.Genuine() witness SOME_ROOT

  /** The signature identifies the certificate. */
  lemma SignatureIdentifies(a: Cert, b: Cert)
    ensures a.signature == b.signature <==> a == b
  {
    if a.signature == b.signature {
      assert a.SignedBody() == b.SignedBody();
    }
  }

  // ------------------------------------------------------------------ revocations

  const REVOCATION_VERSION := 1
  const MAX_TIMESTAMP := 0xFFFF_FFFF_FFFF_FFFF
  const REASON_UNSPECIFIED := 0
  const LAST_REASON := 3

  datatype RevocationRecord =
    | Garbage
    | Framed(version: nat, issuedAt: nat, subject: NodeId, reason: nat, issuerPub: nat, signature: Signature)

  datatype Revocation = Revocation(issuer: NodeId, subject: NodeId, issuedAt: nat, reason: nat)

  /** What a node signs to take back everything it issued for `subject` so far. */
  function BuildRevocation(subject: NodeId, key: nat, reason: nat, at: int, salt: nat): (r: Option<RevocationRecord>)
    ensures r.Some? <==> 0 <= at <= MAX_TIMESTAMP
  {
    if !(0 <= at <= MAX_TIMESTAMP) then None
    else
      var why := if reason <= LAST_REASON then reason else REASON_UNSPECIFIED;
      Some(Framed(REVOCATION_VERSION, at, subject, why, key,
                  Signature(key, RevocationBody(at, subject, why), salt)))
  }

  function ParseRevocation(record: RevocationRecord): (r: Option<Revocation>)
    ensures r.Some? ==> record.Framed? && r.value.issuer != r.value.subject
  {
    match record
    case Garbage => None
    case Framed(version, at, subject, reason, pub, signature) =>
      if version != REVOCATION_VERSION then None
      else if !VerifySignature(RevocationBody(at, subject, reason), signature, pub) then None
      else if KeyId(pub) == subject then None
      else Some(Revocation(KeyId(pub), subject, at, reason))
  }

  /** A record is believed exactly when its issuer signed that statement about somebody
      else, and building then parsing loses nothing but an unknown reason. */
  lemma RevocationRoundTrip(subject: NodeId, key: nat, reason: nat, at: nat, salt: nat)
    requires at <= MAX_TIMESTAMP
    ensures ParseRevocation(BuildRevocation(subject, key, reason, at, salt).value)
         == if subject == KeyId(key) then None
            else Some(Revocation(KeyId(key), subject, at, if reason <= LAST_REASON then reason else 0))
    ensures forall record :: ParseRevocation(record).Some? ==>
                               record.signature.signer == record.issuerPub
                               && ParseRevocation(record).value.issuer == KeyId(record.signature.signer)
  {
  }
}
