/** The JWS trust proof of `actix-server/src/models/tangle_proof.rs`, with
    typed `TrustServiceError` failures. */
module TangleProof {
  import opened Bytes
  import opened Outcomes
  import opened Errors
  import Base64
  import opened Digest
  import opened DocumentSigning
  import Serde

  /** The record published on the ledger (camelCase on the wire). */
  datatype TangleProof = TangleProof(
    metadataDigest: string,
    datasetDigest: string,
    jws: Jws,
    didPublisher: string)

  /** The Rust field names of the record, in declaration order. */
  const MetadataDigestField: string := "metadata_digest"
  const DatasetDigestField: string := "dataset_digest"
  const JwsField: string := "jws"
  const DidPublisherField: string := "did_publisher"
  const FieldNames: seq<string> := [MetadataDigestField, DatasetDigestField, JwsField, DidPublisherField]

  /** `TangleProof::new`. The `?` on `create_jws` converts its error into
      `JwkError`, the `?` on `verify_jws` into `ResolveError`. */
  function New(hash: Hash, cap: JwsCapability, storage: MemStorage, fragment: string,
               metadata: string, dataset: string, doc: IotaDocument, didPublisher: string)
    : (r: Run<Result<TangleProof, TrustServiceError>>)
    ensures !DigestPair(hash, metadata, dataset).Done? ==> r == Panic(WrongLength)
    ensures DigestPair(hash, metadata, dataset).Done? ==>
      var message := hash(Utf8(metadata)) + hash(Utf8(dataset));
      var created := cap.createJws(doc, storage, fragment, message);
      && r.Done?
      && (created.Err? ==> r.value == Err(JwkError(created.error)))
      && (created.Ok? && cap.verifyJws(doc, created.value, None).Err? ==>
            r.value == Err(ResolveError(cap.verifyJws(doc, created.value, None).error)))
      && (r.value.Ok? <==> created.Ok? && cap.verifyJws(doc, created.value, None).Ok?)
      && (r.value.Ok? ==> r.value.value == TangleProof(
            Base64.Encode(hash(Utf8(metadata))), Base64.Encode(hash(Utf8(dataset))), created.value, didPublisher))
  {
    match DigestPair(hash, metadata, dataset)
    case Panic(m) => Panic(m)
    case Done((digestMetadata, digestDataset)) =>
      var digestsSum := digestMetadata + digestDataset;
      match cap.createJws(doc, storage, fragment, digestsSum)
      case Err(e) => Done(Err(JwkError(e)))
      case Ok(jws) =>
        match cap.verifyJws(doc, jws, None)
        case Err(e) => Done(Err(ResolveError(e)))
        case Ok(_) => Done(Ok(TangleProof(
          Base64.Encode(digestMetadata), Base64.Encode(digestDataset), jws, didPublisher)))
  }

  /** `TangleProof::verify`: the verdict of `verify_jws` on the stored JWS, with
      the payload taken from the JWS itself. */
  function Verify(cap: JwsCapability, p: TangleProof, doc: IotaDocument): (r: Result<(), TrustServiceError>)
    ensures r.Ok? <==> cap.verifyJws(doc, p.jws, None).Ok?
    ensures r.Err? ==> r.error == ProofSignatureNotValid
  {
    if cap.verifyJws(doc, p.jws, None).Err? then Err(ProofSignatureNotValid) else Ok(())
  }

  /** Under a 32-byte hash and a document whose JWS verify, `new` fails only
      when `create_jws` does. */
  lemma NewFailsOnlyInCreateJws(hash: Hash, cap: JwsCapability, storage: MemStorage, fragment: string,
                                metadata: string, dataset: string, doc: IotaDocument, didPublisher: string)
    requires Is256(hash) && CreateThenVerify(cap)
    ensures var r := New(hash, cap, storage, fragment, metadata, dataset, doc, didPublisher);
      var created := cap.createJws(doc, storage, fragment, hash(Utf8(metadata)) + hash(Utf8(dataset)));
      r.Done? && (r.value.Ok? <==> created.Ok?) && (r.value.Err? ==> r.value.error == JwkError(created.error))
  {
    DigestPairNeverPanics(hash, metadata, dataset);
  }

  /** Soundness: the proof `new` returns verifies against the same document,
      since `verify` repeats the self-check of `new` on the same JWS. */
  lemma Soundness(hash: Hash, cap: JwsCapability, storage: MemStorage, fragment: string,
                  metadata: string, dataset: string, doc: IotaDocument, didPublisher: string)
    requires New(hash, cap, storage, fragment, metadata, dataset, doc, didPublisher).Done?
    requires New(hash, cap, storage, fragment, metadata, dataset, doc, didPublisher).value.Ok?
    ensures Verify(cap, New(hash, cap, storage, fragment, metadata, dataset, doc, didPublisher).value.value, doc) == Ok(())
  {
  }

  /** `verify` reads the `jws` field only: records with the same JWS get the same verdict. */
  lemma VerifyReadsOnlyJws(cap: JwsCapability, p: TangleProof, q: TangleProof, doc: IotaDocument)
    requires p.jws == q.jws
    ensures Verify(cap, p, doc) == Verify(cap, q, doc)
  {
  }

  /** The stored digests are not checked: a fresh proof whose digest and
      publisher fields are replaced by anything still verifies. */
  lemma TamperedDigestsStillVerify(hash: Hash, cap: JwsCapability, storage: MemStorage, fragment: string,
                                   metadata: string, dataset: string, doc: IotaDocument, didPublisher: string,
                                   otherMetadata: string, otherDataset: string, otherDid: string)
    requires New(hash, cap, storage, fragment, metadata, dataset, doc, didPublisher).Done?
    requires New(hash, cap, storage, fragment, metadata, dataset, doc, didPublisher).value.Ok?
    ensures var p := New(hash, cap, storage, fragment, metadata, dataset, doc, didPublisher).value.value;
      Verify(cap, p.(metadataDigest := otherMetadata, datasetDigest := otherDataset, didPublisher := otherDid), doc) == Ok(())
  {
    var p := New(hash, cap, storage, fragment, metadata, dataset, doc, didPublisher).value.value;
    VerifyReadsOnlyJws(cap, p, p.(metadataDigest := otherMetadata, datasetDigest := otherDataset, didPublisher := otherDid), doc);
  }

  /** A rejected proof is answered with 406 Not Acceptable; a failed creation
      with 500. */
  lemma FailureStatuses(hash: Hash, cap: JwsCapability, storage: MemStorage, fragment: string,
                        metadata: string, dataset: string, doc: IotaDocument, didPublisher: string, p: TangleProof)
    ensures Verify(cap, p, doc).Err? ==> StatusCode(Verify(cap, p, doc).error) == NotAcceptable
    ensures var r := New(hash, cap, storage, fragment, metadata, dataset, doc, didPublisher);
      r.Done? && r.value.Err? ==> StatusCode(r.value.error) == InternalServerError
  {
  }

  /** The wire record has exactly the fields metadataDigest, datasetDigest,
      jws and didPublisher. */
  lemma WireFieldNames()
    ensures Serde.CamelCaseAll(FieldNames) == ["metadataDigest", "datasetDigest", "jws", "didPublisher"]
  {
    MetadataFieldName();
    DatasetFieldName();
    JwsFieldName();
    PublisherFieldName();
    Serde.CamelCaseAllOfFour(MetadataDigestField, DatasetDigestField, JwsField, DidPublisherField,
                             "metadataDigest", "datasetDigest", "jws", "didPublisher");
  }

  lemma MetadataFieldName()
    ensures Serde.CamelCase(MetadataDigestField) == "metadataDigest"
  {
    Serde.TwoWordField("metadata", "digest", MetadataDigestField, "metadataDigest");
  }

  lemma DatasetFieldName()
    ensures Serde.CamelCase(DatasetDigestField) == "datasetDigest"
  {
    Serde.TwoWordField("dataset", "digest", DatasetDigestField, "datasetDigest");
  }

  lemma JwsFieldName()
    ensures Serde.CamelCase(JwsField) == "jws"
  {
    assert Serde.IsLowerWord(JwsField) by {
      assert JwsField[0] == 'j' && JwsField[1] == 'w' && JwsField[2] == 's';
    }
    Serde.CamelCaseOfOneWord(JwsField);
  }

  lemma PublisherFieldName()
    ensures Serde.CamelCase(DidPublisherField) == "didPublisher"
  {
    Serde.TwoWordField("did", "publisher", DidPublisherField, "didPublisher");
  }
}
