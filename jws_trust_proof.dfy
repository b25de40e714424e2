/** The JWS trust proof of `actix-server/src/models/trustproof.rs`: the same
    construction as the tangle proof, with `anyhow` errors. */
module JwsTrustProof {
  import opened Bytes
  import opened Outcomes
  import opened Errors
  import Base64
  import opened Digest
  import opened DocumentSigning

  datatype TrustProof = TrustProof(
    metadataDigest: string,
    datasetDigest: string,
    jws: Jws,
    didPublisher: string)

  /** An `anyhow::Error`: a wrapped library error (what `?` makes of it) or an
      ad-hoc message (`anyhow!`). */
  datatype AnyhowError = Wrapped(cause: Cause) | Message(text: string)

  const VerificationFailed := "Verification Failed"

  /** `TrustProof::new`. */
  function New(hash: Hash, cap: JwsCapability, storage: MemStorage, fragment: string,
               metadata: string, dataset: string, doc: IotaDocument, didPublisher: string)
    : (r: Run<Result<TrustProof, AnyhowError>>)
    ensures !DigestPair(hash, metadata, dataset).Done? ==> r == Panic(WrongLength)
    ensures DigestPair(hash, metadata, dataset).Done? ==>
      var message := hash(Utf8(metadata)) + hash(Utf8(dataset));
      var created := cap.createJws(doc, storage, fragment, message);
      && r.Done?
      && (created.Err? ==> r.value == Err(Wrapped(created.error)))
      && (created.Ok? && cap.verifyJws(doc, created.value, None).Err? ==>
            r.value == Err(Wrapped(cap.verifyJws(doc, created.value, None).error)))
      && (r.value.Ok? <==> created.Ok? && cap.verifyJws(doc, created.value, None).Ok?)
      && (r.value.Ok? ==> r.value.value == TrustProof(
            Base64.Encode(hash(Utf8(metadata))), Base64.Encode(hash(Utf8(dataset))), created.value, didPublisher))
  {
    match DigestPair(hash, metadata, dataset)
    case Panic(m) => Panic(m)
    case Done((digestMetadata, digestDataset)) =>
      var digestsSum := digestMetadata + digestDataset;
      match cap.createJws(doc, storage, fragment, digestsSum)
      case Err(e) => Done(Err(Wrapped(e)))
      case Ok(jws) =>
        match cap.verifyJws(doc, jws, None)
        case Err(e) => Done(Err(Wrapped(e)))
        case Ok(_) => Done(Ok(TrustProof(
          Base64.Encode(digestMetadata), Base64.Encode(digestDataset), jws, didPublisher)))
  }

  /** `TrustProof::verify`. */
  function Verify(cap: JwsCapability, p: TrustProof, doc: IotaDocument): (r: Result<(), AnyhowError>)
    ensures r.Ok? <==> cap.verifyJws(doc, p.jws, None).Ok?
    ensures r.Err? ==> r.error == Message(VerificationFailed)
  {
    if cap.verifyJws(doc, p.jws, None).Err? then Err(Message(VerificationFailed)) else Ok(())
  }

  /** Under a 32-byte hash and a document whose JWS verify, `new` fails only
      when `create_jws` does, and then with that error. */
  lemma NewFailsOnlyInCreateJws(hash: Hash, cap: JwsCapability, storage: MemStorage, fragment: string,
                                metadata: string, dataset: string, doc: IotaDocument, didPublisher: string)
    requires Is256(hash) && CreateThenVerify(cap)
    ensures var r := New(hash, cap, storage, fragment, metadata, dataset, doc, didPublisher);
      var created := cap.createJws(doc, storage, fragment, hash(Utf8(metadata)) + hash(Utf8(dataset)));
      r.Done? && (r.value.Ok? <==> created.Ok?) && (r.value.Err? ==> r.value.error == Wrapped(created.error))
  {
    DigestPairNeverPanics(hash, metadata, dataset);
  }

  /** Soundness: the proof `new` returns verifies against the same document. */
  lemma Soundness(hash: Hash, cap: JwsCapability, storage: MemStorage, fragment: string,
                  metadata: string, dataset: string, doc: IotaDocument, didPublisher: string)
    requires New(hash, cap, storage, fragment, metadata, dataset, doc, didPublisher).Done?
    requires New(hash, cap, storage, fragment, metadata, dataset, doc, didPublisher).value.Ok?
    ensures Verify(cap, New(hash, cap, storage, fragment, metadata, dataset, doc, didPublisher).value.value, doc) == Ok(())
  {
  }

  /** `verify` depends on the `jws` field and the document only. */
  lemma VerifyReadsOnlyJws(cap: JwsCapability, p: TrustProof, q: TrustProof, doc: IotaDocument)
    requires p.jws == q.jws
    ensures Verify(cap, p, doc) == Verify(cap, q, doc)
  {
  }
}
