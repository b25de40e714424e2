/** The DID-document signing capability the JWS proofs use:
    `IotaDocument::create_jws` with a key storage, a method fragment and
    default options, and `IotaDocument::verify_jws` with the default EdDSA
    verifier and default options. The document and the storage are opaque. */
module DocumentSigning {
  import opened Bytes
  import opened Outcomes
  import opened Errors

  type IotaDocument(!new)
  type MemStorage(!new)

  /** A compact JWS, kept as its string form (`jws.into()` and `Jws::from`
      convert without change). */
  type Jws = string

  /** `createJws(document, storage, fragment, payload)` fails with a
      `JwkStorageDocumentError`; `verifyJws(document, jws, detachedPayload)`
      fails with an identity error and otherwise yields the decoded payload. */
  datatype JwsCapability = JwsCapability(
    createJws: (IotaDocument, MemStorage, string, seq<byte>) -> Result<Jws, Cause>,
    verifyJws: (IotaDocument, Jws, Option<seq<byte>>) -> Result<seq<byte>, Cause>)

  /** Sign/verify correctness of the document: a JWS the document created
      verifies against the same document, with the payload embedded. */
  ghost predicate CreateThenVerify(cap: JwsCapability) {
    forall doc, storage, fragment, payload :: cap.createJws(doc, storage, fragment, payload).Ok? ==>
      cap.verifyJws(doc, cap.createJws(doc, storage, fragment, payload).value, None) == Ok(payload)
  }
}
