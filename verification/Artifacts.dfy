/**
 * The signed trust artifact: what the server builds and signs, the detached
 * signature document it serves, and the agent's verification of the two.
 *
 * Hashing and signing are ideal: a digest is its preimage and a signature is
 * the pair of key and message, so equal digests mean equal payloads and a
 * signature verifies for exactly the payload that was signed.  A key is
 * identified by the SHA-256 fingerprint of its public half.
 */
module Artifacts {
  import opened Common

  /** Microseconds since the epoch. */
  type Time = int

  const SECOND: int := 1_000_000

  /** What one trust list is for: the consumers of a role in a zone. */
  datatype Target = Target(zone: string, role: string)

  /** A PEM text together with what the X.509 parser makes of it (None: it does not parse). */
  datatype Pem = Pem(text: string, parsed: Option<CertInfo>)
  datatype CertInfo = CertInfo(fingerprint: string, notAfter: Time)

  /** A base64 CRL text and whether it decodes to a parseable CRL. */
  datatype CrlText = CrlText(text: string, wellFormed: bool)

  /** A JSON timestamp field: missing or empty, not a timestamp, or one. */
  datatype Stamp = Absent | Garbage | At(time: Time)

  /** JSON objects arrive from the network, so fields may be missing ("" or None). */
  datatype SignerInfo = SignerInfo(keyId: string, algorithm: string, fingerprint: string)

  datatype CertEntry = CertEntry(
    certificateId: Option<nat>, applicationUri: Option<string>, commonName: Option<string>,
    fingerprint: Option<string>, pem: Option<Pem>,
    zone: Option<string>, role: Option<string>, componentType: Option<string>)

  /** `version` and `revision` are None when missing or when Python's `int()` refuses them. */
  datatype Artifact = Artifact(
    artifactType: string, schemaVersion: Option<int>, zone: Option<string>, role: Option<string>,
    version: Option<int>, revision: Option<int>, reason: string, generatedAt: Stamp, expiresAt: Stamp,
    caChain: Option<string>, crl: Option<CrlText>, certificates: Option<seq<CertEntry>>,
    signer: SignerInfo, crlBundle: Option<string>, crlMetadata: Option<string>,
    transport: map<string, string>)

  /** The canonical payload: what is hashed and signed. */
  datatype Payload = Payload(
    artifactType: string, schemaVersion: Option<int>, zone: Option<string>, role: Option<string>,
    version: Option<int>, revision: Option<int>, reason: string, generatedAt: Stamp, expiresAt: Stamp,
    caChain: Option<string>, crl: Option<CrlText>, certificates: seq<CertEntry>,
    signer: SignerInfo, crlBundle: Option<string>, crlMetadata: Option<string>)

  datatype Digest = Sha256(payload: Payload)
  datatype Signature = Signed(keyFingerprint: string, payload: Payload)
  datatype SigningKey = SigningKey(keyId: string, fingerprint: string)

  /** Transport metadata is dropped; a missing certificate list counts as an empty one. */
  function CanonicalPayload(a: Artifact): Payload {
    Payload(a.artifactType, a.schemaVersion, a.zone, a.role, a.version, a.revision, a.reason,
            a.generatedAt, a.expiresAt, a.caChain, a.crl,
            if a.certificates.Some? then a.certificates.value else [],
            a.signer, a.crlBundle, a.crlMetadata)
  }

  /** Field for field; a missing certificate list counts as an empty one. */
  predicate PayloadIs(p: Payload, a: Artifact) {
    && p.artifactType == a.artifactType && p.schemaVersion == a.schemaVersion && p.zone == a.zone && p.role == a.role
    && p.version == a.version && p.revision == a.revision && p.reason == a.reason
    && p.generatedAt == a.generatedAt && p.expiresAt == a.expiresAt && p.caChain == a.caChain && p.crl == a.crl
    && p.certificates == (if a.certificates.Some? then a.certificates.value else []) && p.signer == a.signer
    && p.crlBundle == a.crlBundle && p.crlMetadata == a.crlMetadata
  }

  // ---- server side ----

  /** What Vault supplies for one regeneration. */
  datatype VaultMaterial = VaultMaterial(caChain: string, crl: CrlText, crlBundle: string, crlMetadata: string)

  /** A row of trust_artifacts. */
  datatype ArtifactRow = ArtifactRow(
    target: Target, trustlistVersion: int, revision: int, artifact: Artifact, sha256: Digest,
    signature: Signature, signerKeyId: string, signerFingerprint: string,
    generatedAt: Time, expiresAt: Time, reason: string)

  datatype SignedArtifact = SignedArtifact(
    artifact: Artifact, sha256: Digest, signature: Signature, generatedAt: Time, expiresAt: Time)

  function BuildSignedArtifact(key: SigningKey, ttlSeconds: int, target: Target, version: int,
                               certs: seq<CertEntry>, vault: VaultMaterial, revision: int,
                               reason: string, now: Time): SignedArtifact
  {
    var artifact := Artifact(
      "opcua_trustlist", Some(1), Some(target.zone), Some(target.role), Some(version), Some(revision),
      reason, At(now), At(now + ttlSeconds * SECOND), Some(vault.caChain), Some(vault.crl), Some(certs),
      SignerInfo(key.keyId, "ed25519", key.fingerprint), Some(vault.crlBundle), Some(vault.crlMetadata), map[]);
    var payload := CanonicalPayload(artifact);
    SignedArtifact(artifact, Sha256(payload), Signed(key.fingerprint, payload), now, now + ttlSeconds * SECOND)
  }

  /** The detached signature document. */
  datatype SignatureField = NoSignature | Undecodable | Sig(signature: Signature)
  datatype SignatureDoc = SignatureDoc(
    version: Option<int>, revision: Option<int>, sha256: Option<Digest>, signature: SignatureField,
    generatedAt: Stamp, expiresAt: Stamp, signer: SignerInfo)

  /** The body of GET .../artifact.sig, taken from the row. */
  function SignatureOf(row: ArtifactRow): SignatureDoc {
    SignatureDoc(Some(row.trustlistVersion), Some(row.revision), Some(row.sha256), Sig(row.signature),
                 At(row.generatedAt), At(row.expiresAt),
                 SignerInfo(row.signerKeyId, row.artifact.signer.algorithm, row.signerFingerprint))
  }

  /** The columns of a row agree with the signed JSON it stores. */
  predicate RowSound(row: ArtifactRow) {
    && var a := row.artifact;
    && a.artifactType == "opcua_trustlist"
    && a.zone == Some(row.target.zone) && a.role == Some(row.target.role)
    && a.version == Some(row.trustlistVersion) && a.revision == Some(row.revision)
    && a.generatedAt == At(row.generatedAt) && a.expiresAt == At(row.expiresAt)
    && a.certificates.Some? && a.caChain.Some? && a.crl.Some?
    && a.signer == SignerInfo(row.signerKeyId, "ed25519", row.signerFingerprint)
    && Lower(row.signerFingerprint) == row.signerFingerprint
    && row.sha256 == Sha256(CanonicalPayload(a))
    && row.signature == Signed(row.signerFingerprint, CanonicalPayload(a))
  }

  // ---- agent side ----

  datatype FailureCode = MalformedArtifact | UnsupportedSigner | SignerFingerprintMismatch
                       | CanonicalHashMismatch | SignatureInvalid
  datatype Verification = Verified(digest: Digest) | Refused(code: FailureCode)

  /** `normalize_signed_artifact_for_verification`: the one volatile field is dropped. */
  function Normalize(a: Artifact): Artifact {
    a.(transport := a.transport - {"ttl_remaining_seconds"})
  }

  /** A signature-document timestamp is only looked at when present; unreadable ones fail. */
  predicate StampAgrees(signed: Stamp, artifact: Stamp) {
    signed.Absent? || (signed.At? && artifact == signed)
  }

  function VerifySignedArtifact(received: Artifact, s: SignatureDoc, target: Target, anchor: string): Verification {
    var a := Normalize(received);
    var payload := CanonicalPayload(a);
    if a.zone != Some(target.zone) then Refused(MalformedArtifact)
    else if a.role != Some(target.role) then Refused(MalformedArtifact)
    else if Lower(a.artifactType) != "opcua_trustlist" then Refused(MalformedArtifact)
    else if a.revision.None? then Refused(MalformedArtifact)
    else if a.signer.algorithm != "" && Lower(a.signer.algorithm) != "ed25519" then Refused(UnsupportedSigner)
    else if Lower(a.signer.fingerprint) != Lower(anchor) then Refused(SignerFingerprintMismatch)
    else if s.signer.algorithm != "" && Lower(s.signer.algorithm) != "ed25519" then Refused(UnsupportedSigner)
    else if s.signer.fingerprint != "" && Lower(s.signer.fingerprint) != Lower(anchor)
    then Refused(SignerFingerprintMismatch)
    else if s.sha256.Some? && s.sha256.value != Sha256(payload) then Refused(CanonicalHashMismatch)
    else if s.version.Some? && s.version != a.version then Refused(MalformedArtifact)
    else if s.revision.Some? && s.revision != a.revision then Refused(MalformedArtifact)
    else if !StampAgrees(s.generatedAt, a.generatedAt) then Refused(MalformedArtifact)
    else if !StampAgrees(s.expiresAt, a.expiresAt) then Refused(MalformedArtifact)
    else match s.signature
      case NoSignature => Refused(MalformedArtifact)
      case Undecodable => Refused(MalformedArtifact)
      case Sig(sig) =>
        if sig != Signed(anchor, payload) then Refused(SignatureInvalid) else Verified(Sha256(payload))
  }

  /** A verified artifact is, field for field, a payload the anchor key signed; only transport metadata may differ. */
  lemma VerifiedMeansSigned(a: Artifact, s: SignatureDoc, target: Target, anchor: string)
    requires VerifySignedArtifact(a, s, target, anchor).Verified?
    ensures s.signature == Sig(Signed(anchor, CanonicalPayload(a)))
    ensures VerifySignedArtifact(a, s, target, anchor).digest == Sha256(CanonicalPayload(a))
    ensures a.zone == Some(target.zone) && a.role == Some(target.role) && a.revision.Some?
    ensures Lower(a.artifactType) == "opcua_trustlist" && Lower(a.signer.fingerprint) == Lower(anchor)
  {
    assert CanonicalPayload(Normalize(a)) == CanonicalPayload(a);
  }

  /** Adding, changing or removing transport metadata never changes the verdict. */
  lemma VerdictIgnoresTransport(a: Artifact, s: SignatureDoc, target: Target, anchor: string,
                              extra: map<string, string>)
    ensures VerifySignedArtifact(a.(transport := extra), s, target, anchor)
            == VerifySignedArtifact(a, s, target, anchor)
  {
    assert CanonicalPayload(Normalize(a.(transport := extra))) == CanonicalPayload(Normalize(a));
  }

  /** What the server builds is a sound row once stored under the numbers it was built with. */
  lemma BuiltRowIsSound(key: SigningKey, ttlSeconds: int, target: Target, version: int, certs: seq<CertEntry>,
                        vault: VaultMaterial, revision: int, reason: string, now: Time)
    requires Lower(key.fingerprint) == key.fingerprint
    ensures var b := BuildSignedArtifact(key, ttlSeconds, target, version, certs, vault, revision, reason, now);
            RowSound(ArtifactRow(target, version, revision, b.artifact, b.sha256, b.signature,
                                 key.keyId, key.fingerprint, b.generatedAt, b.expiresAt, reason))
  {
  }

  /**
   * Torn reads, at the level of two rows: an artifact taken from one row and a
   * signature document taken from another verify together exactly when the two
   * rows hold the same signed payload and the anchor key signed it.
   */
  lemma PairVerifiesIff(artifactRow: ArtifactRow, signatureRow: ArtifactRow, anchor: string)
    requires RowSound(artifactRow) && RowSound(signatureRow) && Lower(anchor) == anchor
    ensures var v := VerifySignedArtifact(artifactRow.artifact, SignatureOf(signatureRow), artifactRow.target, anchor);
            && (v.Verified? <==>
                 && artifactRow.signerFingerprint == anchor
                 && CanonicalPayload(artifactRow.artifact) == CanonicalPayload(signatureRow.artifact))
            && (v.Verified? ==>
                 && v.digest == artifactRow.sha256 == signatureRow.sha256
                 && artifactRow.revision == signatureRow.revision
                 && artifactRow.trustlistVersion == signatureRow.trustlistVersion
                 && artifactRow.target == signatureRow.target)
  {
    var a := artifactRow.artifact;
    assert CanonicalPayload(Normalize(a)) == CanonicalPayload(a);
    assert Lower("opcua_trustlist") == "opcua_trustlist";
    assert Lower("ed25519") == "ed25519";
    if CanonicalPayload(a) == CanonicalPayload(signatureRow.artifact) {
      assert a.signer == signatureRow.artifact.signer;
      assert a.version == signatureRow.artifact.version;
    }
  }
}
