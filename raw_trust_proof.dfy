/** The raw-keypair trust proof of `trust-proof/src/trustproof.rs`: two
    Blake2b-256 digests signed with Ed25519, stored base64-encoded. */
module RawTrustProof {
  import opened Bytes
  import opened Outcomes
  import Base64
  import opened Digest

  const SignatureLength := 64

  /** `[u8; Ed25519::SIGNATURE_LENGTH]`. */
  type Signature = s: seq<byte> | |s| == SignatureLength witness seq(SignatureLength, _ => 0)

  /** An identity_iota `KeyPair`: raw public and private key bytes. */
  datatype KeyPair = KeyPair(public: seq<byte>, private: seq<byte>)

  /** Ed25519 as a capability. `sign` fails (None) on unusable key bytes;
      `verify` is the accept/reject verdict of `Ed25519::verify`; `publicOf`
      is the public key that belongs to a private key. */
  datatype Ed25519 = Ed25519(
    sign: (seq<byte>, seq<byte>) -> Option<Signature>,
    verify: (seq<byte>, seq<byte>, seq<byte>) -> bool,
    publicOf: seq<byte> -> seq<byte>)

  /** Signature correctness: what a private key signs verifies under its public key. */
  ghost predicate SignVerifyCorrect(ed: Ed25519) {
    forall message, sk :: ed.sign(message, sk).Some? ==>
      ed.verify(message, ed.sign(message, sk).value, ed.publicOf(sk))
  }

  /** The halves of a key pair belong together. */
  predicate Matching(ed: Ed25519, kp: KeyPair) {
    kp.public == ed.publicOf(kp.private)
  }

  /** The serialized record (camelCase on the wire). */
  datatype TrustProof = TrustProof(
    metadataDigest: string,
    datasetDigest: string,
    signature: string,
    didPublisher: string)

  /** The error `Ed25519::verify` returns when it rejects, passed on as an `anyhow::Error`. */
  datatype VerifyError = SignatureRejected

  /** `TrustProof::new`. */
  function New(hash: Hash, ed: Ed25519, metadata: string, dataset: string, kp: KeyPair, didPublisher: string): (r: Run<TrustProof>)
    // the digests panic with "Wrong length" exactly when the hash is not 32 bytes
    ensures !DigestPair(hash, metadata, dataset).Done? ==> r == Panic(WrongLength)
    ensures DigestPair(hash, metadata, dataset).Done? ==>
      var message := hash(Utf8(metadata)) + hash(Utf8(dataset));
      // a proof is returned only when signing succeeded and the fresh signature verified
      && (r.Done? <==> ed.sign(message, kp.private).Some? && ed.verify(message, ed.sign(message, kp.private).value, kp.public))
      && (ed.sign(message, kp.private).None? ==> r == Panic(WrongLength))
      && (r.Done? ==> r.value == TrustProof(
            Base64.Encode(hash(Utf8(metadata))),
            Base64.Encode(hash(Utf8(dataset))),
            Base64.Encode(ed.sign(message, kp.private).value),
            didPublisher))
  {
    match DigestPair(hash, metadata, dataset)
    case Panic(m) => Panic(m)
    case Done((digestMetadata, digestDataset)) =>
      var digestsSum := digestMetadata + digestDataset;
      match ed.sign(digestsSum, kp.private)
      case None => Panic(WrongLength)
      case Some(signature) =>
        if !ed.verify(digestsSum, signature, kp.public) then Panic("Signature NOT Valid")
        else Done(TrustProof(
          Base64.Encode(digestMetadata),
          Base64.Encode(digestDataset),
          Base64.Encode(signature),
          didPublisher))
  }

  /** The message `verify` rebuilds: decoded metadata digest, then decoded
      dataset digest; None when either field is not valid base64. */
  function RebuiltMessage(p: TrustProof): (message: Option<seq<byte>>) {
    match (Base64.Decode(p.metadataDigest), Base64.Decode(p.datasetDigest))
    case (Some(m), Some(d)) => Some(m + d)
    case _ => None
  }

  /** `TrustProof::verify`: a malformed field panics through `unwrap`;
      otherwise the result is Ed25519's verdict on the rebuilt message. */
  function Verify(ed: Ed25519, p: TrustProof, publicKey: seq<byte>): (r: Run<Result<(), VerifyError>>)
    ensures r.Panic? <==> RebuiltMessage(p).None? || Base64.Decode(p.signature).None?
    ensures r.Panic? ==> r.message == UnwrapOnErr
    ensures r == Done(Ok(())) <==>
      && RebuiltMessage(p).Some? && Base64.Decode(p.signature).Some?
      && ed.verify(RebuiltMessage(p).value, Base64.Decode(p.signature).value, publicKey)
    ensures r.Done? && r.value.Err? ==> r.value.error == SignatureRejected
  {
    match Base64.Decode(p.metadataDigest)
    case None => Panic(UnwrapOnErr)
    case Some(metadataDigest) =>
      match Base64.Decode(p.datasetDigest)
      case None => Panic(UnwrapOnErr)
      case Some(datasetDigest) =>
        var trustMetadataToVerify := metadataDigest + datasetDigest;
        match Base64.Decode(p.signature)
        case None => Panic(UnwrapOnErr)
        case Some(signature) =>
          if ed.verify(trustMetadataToVerify, signature, publicKey) then Done(Ok(()))
          else Done(Err(SignatureRejected))
  }

  /** Under a 32-byte hash, sign/verify correctness and a matching key pair
      whose private half can sign, `new` always returns a proof. */
  lemma NewSucceeds(hash: Hash, ed: Ed25519, metadata: string, dataset: string, kp: KeyPair, didPublisher: string)
    requires Is256(hash) && SignVerifyCorrect(ed) && Matching(ed, kp)
    requires ed.sign(hash(Utf8(metadata)) + hash(Utf8(dataset)), kp.private).Some?
    ensures New(hash, ed, metadata, dataset, kp, didPublisher).Done?
  {
    DigestPairNeverPanics(hash, metadata, dataset);
  }

  /** The stored fields decode back to the two digests and the 64-byte
      signature, and the rebuilt message is the one that was signed. */
  lemma {:induction false} NewFieldsDecode(hash: Hash, ed: Ed25519, metadata: string, dataset: string, kp: KeyPair, didPublisher: string)
    requires New(hash, ed, metadata, dataset, kp, didPublisher).Done?
    ensures var p := New(hash, ed, metadata, dataset, kp, didPublisher).value;
      var dm := hash(Utf8(metadata));
      var dd := hash(Utf8(dataset));
      && Base64.Decode(p.metadataDigest) == Some(dm) && |dm| == DigestLength
      && Base64.Decode(p.datasetDigest) == Some(dd) && |dd| == DigestLength
      && RebuiltMessage(p) == Some(dm + dd) && |dm + dd| == 2 * DigestLength
      && Base64.Decode(p.signature) == Some(ed.sign(dm + dd, kp.private).value)
      && |Base64.Decode(p.signature).value| == SignatureLength
      && p.didPublisher == didPublisher
  {
    var p := New(hash, ed, metadata, dataset, kp, didPublisher).value;
    var dm := hash(Utf8(metadata));
    var dd := hash(Utf8(dataset));
    assert DigestPair(hash, metadata, dataset).Done?;
    var signature := ed.sign(dm + dd, kp.private).value;
    assert p == TrustProof(Base64.Encode(dm), Base64.Encode(dd), Base64.Encode(signature), didPublisher);
    Base64.DecodeEncode(dm);
    Base64.DecodeEncode(dd);
    Base64.DecodeEncode(signature);
    assert RebuiltMessage(p) == Some(dm + dd);
  }

  /** Soundness: a freshly built proof verifies under the key pair's public key. */
  lemma Soundness(hash: Hash, ed: Ed25519, metadata: string, dataset: string, kp: KeyPair, didPublisher: string)
    requires New(hash, ed, metadata, dataset, kp, didPublisher).Done?
    ensures Verify(ed, New(hash, ed, metadata, dataset, kp, didPublisher).value, kp.public) == Done(Ok(()))
  {
    NewFieldsDecode(hash, ed, metadata, dataset, kp, didPublisher);
  }

  /** The publisher DID is not covered by the signature: changing it never
      changes the verdict. */
  lemma VerifyIgnoresPublisher(ed: Ed25519, p: TrustProof, publicKey: seq<byte>, did: string)
    ensures Verify(ed, p.(didPublisher := did), publicKey) == Verify(ed, p, publicKey)
  {
  }

  /** Order matters: when the two digests differ, the proof with its digest
      fields swapped rebuilds a different message from the one that was signed,
      so its verdict is Ed25519's verdict on another message. */
  lemma SwappedDigestsChangeMessage(hash: Hash, ed: Ed25519, metadata: string, dataset: string, kp: KeyPair, didPublisher: string)
    requires New(hash, ed, metadata, dataset, kp, didPublisher).Done?
    requires hash(Utf8(metadata)) != hash(Utf8(dataset))
    ensures var p := New(hash, ed, metadata, dataset, kp, didPublisher).value;
      var swapped := p.(metadataDigest := p.datasetDigest, datasetDigest := p.metadataDigest);
      && RebuiltMessage(swapped).Some?
      && RebuiltMessage(swapped) != RebuiltMessage(p)
      && RebuiltMessage(swapped).value == hash(Utf8(dataset)) + hash(Utf8(metadata))
  {
    NewFieldsDecode(hash, ed, metadata, dataset, kp, didPublisher);
    var dm := hash(Utf8(metadata));
    var dd := hash(Utf8(dataset));
    assert (dd + dm)[..DigestLength] == dd;
    assert (dm + dd)[..DigestLength] == dm;
  }
}
