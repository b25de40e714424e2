# Trust-proof protocol of the LINKS trust service, in Dafny

This project models the core of the trust service. A *trust proof* binds an
asset's metadata and dataset to a publisher. The two input strings are
hashed with Blake2b-256. The metadata digest followed by the dataset digest
(64 bytes) is signed. The record stores both digests and the signature,
encoded in base64, together with the publisher's DID.

The repository builds this proof in three ways, and each is modelled on its own:

- `RawTrustProof` is `trust-proof/src/trustproof.rs`. It signs with Ed25519
  over a raw key pair. Every failure except a rejected signature in
  `verify` is a panic: a wrong-length digest, a failed signing, a failed
  self-check, or malformed base64 met in `verify`. A rejected signature
  comes back from `verify` as an error value.
- `TangleProof` is `actix-server/src/models/tangle_proof.rs`. It signs
  through the `create_jws` / `verify_jws` operations of a DID document.
  Failures come back as typed `TrustServiceError` values.
- `JwsTrustProof` is `actix-server/src/models/trustproof.rs`. It is the same
  construction as `TangleProof`, with `anyhow` errors.

The parts they share:

- `Digest` models the digest step and its "Wrong length" check.
- `Bytes` models UTF-8 (`as_bytes`).
- `Base64` models the standard padded base64 alphabet of section 4 of
  RFC 4648. It decodes strictly, as the `base64` crate's `STANDARD` engine
  does: padding must be canonical and unused trailing bits must be zero.
  Both round trips are proved.

Smaller pure pieces around the core:

- `Errors` models the `TrustServiceError` enum: display texts, HTTP status
  codes, `error_response`, and the conversion from a multipart error.
- `Bson` is the part of the bson crate that the record serialisers use: an
  ordered document whose `insert` replaces an existing key in place and
  appends a new key at the end.
- `ProofRecord` and `AssetRecord` model the two `From<…> for Bson`
  serialisers. They are imperative: a new document, then one insert per
  field.
- `Serde` models serde's `rename_all = "camelCase"`. It is used to show that
  the BSON keys and the wire names are the camelCase names of the struct
  fields.
- `Writer` models `server/src/utils/writer.ts`. JavaScript values carry their
  truthiness. `Choose` picks the status code and payload, and the imperative
  `WriteJson` is proved to follow it. The Node response is a log of
  `writeHead` / `end` calls.

The cryptography and the DID document are not implemented. They are passed
in as function values, and the properties the code relies on are stated as
predicates used in `requires`:

- `Digest.Is256`: the hash always returns 32 bytes.
- `RawTrustProof.SignVerifyCorrect`: what a private key signs verifies under
  its public key.
- `RawTrustProof.Matching`: the two halves of a key pair belong together.
- `DocumentSigning.CreateThenVerify`: a JWS that a document creates verifies
  against the same document, with the payload embedded.

Because these are functions, `verify_jws` is deterministic in the model.

In these places the code's behaviour is surprising, and the model follows the code:

- In both JWS variants `verify` checks only the `jws` field against the
  document. The two digest fields are never decoded or compared
  (`TangleProof.TamperedDigestsStillVerify`).
- The raw-keypair variant handles a failed self-check and malformed base64
  with panics. It has no typed construction or encoding error.
- The publisher DID is not covered by any signature
  (`RawTrustProof.VerifyIgnoresPublisher`, `TangleProof.VerifyReadsOnlyJws`).
- In `TangleProof::new`, one `?` turns a `create_jws` failure into `JwkError`
  and the other turns a `verify_jws` failure into `ResolveError`. These are
  the `From` impls in `errors.rs` for those two error types, and both map to
  status 500. In the `anyhow` variant (`JwsTrustProof`) both `?`s produce
  plain wrapped `anyhow` errors.

## Model

| member | source | states |
|---|---|---|
| `Bytes.Utf8` | trust-proof/src/trustproof.rs:31 | the bytes hashed are the string's UTF-8 encoding: at least one and at most four bytes per character |
| `Bytes.Utf8CharDecodes` | trust-proof/src/trustproof.rs:31 | a character's encoding decodes back to it, and its lead byte gives its length |
| `Bytes.Utf8Injective` | trust-proof/src/trustproof.rs:31 | distinct strings have distinct UTF-8 bytes, so nothing is lost before hashing |
| `Base64.Encode` | trust-proof/src/trustproof.rs:48-50 | the standard padded encoding of n bytes is 4·⌈n/3⌉ characters |
| `Base64.Decode` | trust-proof/src/trustproof.rs:58-65 | the strict decoder accepts only strings whose length is a multiple of 4, and a non-empty accepted string yields non-empty bytes |
| `Base64.DecodeEncode` | trust-proof/src/trustproof.rs:47-65 | decoding the encoding of any byte string gives that byte string back |
| `Base64.EncodeDecode` | trust-proof/src/trustproof.rs:58-65 | whatever the strict decoder accepts is the canonical encoding of what it returns |
| `Digest.DigestOf` | trust-proof/src/trustproof.rs:31 | the digest is the hash of the UTF-8 bytes when that is 32 bytes long, and otherwise a "Wrong length" panic |
| `Digest.DigestPair` | trust-proof/src/trustproof.rs:31-32 | metadata digest then dataset digest; it succeeds iff both are 32 bytes and otherwise panics with "Wrong length" |
| `Digest.DigestPairNeverPanics` | trust-proof/src/trustproof.rs:31-32 | with a 32-byte hash the length check never fires |
| `RawTrustProof.New` | trust-proof/src/trustproof.rs:24-54 | a proof is returned exactly when both digests are 32 bytes, signing `metadata ‖ dataset` succeeds and the fresh signature verifies under the pair's public key; it then holds base64 of both digests and of the signature, with the DID unchanged; every other path panics |
| `RawTrustProof.Verify` | trust-proof/src/trustproof.rs:56-69 | panics through `unwrap` iff one of the three fields is not valid base64; otherwise succeeds iff Ed25519 accepts the decoded signature over decoded metadata digest ‖ decoded dataset digest under the given key |
| `RawTrustProof.NewSucceeds` | trust-proof/src/trustproof.rs:31-52 | under a 32-byte hash, sign/verify correctness and a matching key pair that can sign, construction never panics |
| `RawTrustProof.NewFieldsDecode` | trust-proof/src/trustproof.rs:34-61 | the stored fields decode back to the two 32-byte digests and the 64-byte signature, and `verify` rebuilds exactly the 64-byte message that was signed, metadata first |
| `RawTrustProof.Soundness` | trust-proof/src/trustproof.rs:34-68 | a freshly built proof verifies under the key pair's public key |
| `RawTrustProof.VerifyIgnoresPublisher` | trust-proof/src/trustproof.rs:56-68 | changing `did_publisher` never changes the verdict |
| `RawTrustProof.SwappedDigestsChangeMessage` | trust-proof/src/trustproof.rs:34-61 | when the digests differ, swapping the two digest fields makes `verify` rebuild dataset ‖ metadata, a message other than the one signed |
| `Errors.StatusCode` | actix-server/src/errors.rs:87-118 | 406 iff `ProofSignatureNotValid`; 404 iff one of the five not-found variants; 400 iff `MissingNftAddress` or `MultipartError`; 500 iff none of these |
| `Errors.StatusCodesAreFour` | actix-server/src/errors.rs:87-118 | every variant gets one of 400, 404, 406, 500 |
| `Errors.FromMultipart` | actix-server/src/errors.rs:73-77 | a multipart error becomes `MultipartError` carrying its text, with status 400 and display "Multipart error: " followed by the text |
| `Errors.Display` | actix-server/src/errors.rs:12-70 | the `#[error]` text of each of the 28 variants; one that interpolates a string adds a fixed number of characters to it (20, 16, 7 or 17) |
| `Errors.DisplayIgnoresCause` | actix-server/src/errors.rs:22-56 | the text of a `#[from]` variant does not depend on the wrapped error |
| `Errors.DisplayEndsWithMessage` | actix-server/src/errors.rs:40-65 | "Contract error: {0}", "Error: {0}" and "Multipart error: {0}" end with the interpolated string unchanged |
| `Errors.ErrorResponse` | actix-server/src/errors.rs:81-85 | the response's status is the variant's status code, its body the display text, its content type HTML |
| `Errors.RejectedProofIsClientError` | actix-server/src/errors.rs:101 | a rejected proof is a 4xx response with body "Proof signature not valid" |
| `Errors.AssetIdNotFoundBody` | actix-server/src/errors.rs:20-21 | the body for a missing asset is "Asset id: " + id + " not found" |
| `Errors.MultipartBody` | actix-server/src/errors.rs:64-77 | a converted multipart error answers 400 with the error text after "Multipart error: " |
| `TangleProof.New` | actix-server/src/models/tangle_proof.rs:34-66 | computes digests as the raw variant does; a `create_jws` failure gives `JwkError`, a failed self-check gives `ResolveError`; a proof is returned iff the JWS over metadata ‖ dataset was created and verified by the same document, and it holds base64 of both digests, the JWS and the DID |
| `TangleProof.Verify` | actix-server/src/models/tangle_proof.rs:68-80 | succeeds iff `verify_jws` accepts the stored JWS against the document with no detached payload; every failure is `ProofSignatureNotValid` |
| `TangleProof.NewFailsOnlyInCreateJws` | actix-server/src/models/tangle_proof.rs:44-57 | with a 32-byte hash and a correct document signer, construction fails exactly when `create_jws` fails, with that error |
| `TangleProof.Soundness` | actix-server/src/models/tangle_proof.rs:50-75 | a proof returned by `new` verifies against the same document |
| `TangleProof.VerifyReadsOnlyJws` | actix-server/src/models/tangle_proof.rs:68-80 | two records with the same JWS get the same verdict |
| `TangleProof.TamperedDigestsStillVerify` | actix-server/src/models/tangle_proof.rs:59-80 | a fresh proof whose digest and publisher fields are replaced by anything still verifies |
| `TangleProof.FailureStatuses` | actix-server/src/models/tangle_proof.rs:50-77 | a rejected proof answers 406 and a failed construction answers 500 |
| `TangleProof.WireFieldNames` | actix-server/src/models/tangle_proof.rs:22-29 | the wire record's fields are exactly metadataDigest, datasetDigest, jws, didPublisher |
| `JwsTrustProof.New` | actix-server/src/models/trustproof.rs:33-65 | same construction as `TangleProof.New`; both capability errors propagate wrapped as `anyhow` errors and no proof is produced |
| `JwsTrustProof.Verify` | actix-server/src/models/trustproof.rs:67-79 | succeeds iff `verify_jws` accepts the stored JWS; otherwise the error "Verification Failed" |
| `JwsTrustProof.NewFailsOnlyInCreateJws` | actix-server/src/models/trustproof.rs:43-56 | with a 32-byte hash and a correct document signer, construction fails exactly when `create_jws` fails |
| `JwsTrustProof.Soundness` | actix-server/src/models/trustproof.rs:49-74 | a proof returned by `new` verifies against the same document |
| `JwsTrustProof.VerifyReadsOnlyJws` | actix-server/src/models/trustproof.rs:67-79 | the verdict depends on the `jws` field and the document only |
| `Serde.CamelCaseOfSnake` | actix-server/src/models/proof.rs:9 | a snake_case field is renamed to its first word followed by the remaining words capitalized |
| `Bson.FromOption` | actix-server/src/models/asset.rs:21 | an absent address becomes null and a present one a BSON string of it |
| `Bson.InsertedSpec` | actix-server/src/models/proof.rs:17-19 | after an insert the key holds the new value, other keys are unchanged, keys stay distinct and a new key is appended at the end |
| `Bson.Document.constructor` | actix-server/src/models/proof.rs:17 | `Document::new` starts with no entries |
| `Bson.Document.Insert` | actix-server/src/models/proof.rs:18-19 | the document becomes the inserted entries and the displaced value is returned |
| `ProofRecord.IntoBson` | actix-server/src/models/proof.rs:15-21 | the conversion always yields a document, with exactly these entries in this order: proofId → proof_id, assetId → asset_id |
| `ProofRecord.ProofEntriesSpec` | actix-server/src/models/proof.rs:9-20 | keys are exactly proofId, assetId, in insertion order, distinct, equal to serde's camelCase names of the fields, and each holds its field unchanged |
| `AssetRecord.IntoBson` | actix-server/src/models/asset.rs:16-23 | the conversion always yields a document, with exactly these entries in this order: assetId, proofId, nftAddr |
| `AssetRecord.AssetEntriesSpec` | actix-server/src/models/asset.rs:8-22 | keys are exactly assetId, proofId, nftAddr, in that order and equal to the serde names; values are copied unchanged; nftAddr is present and null when the address is absent |
| `Writer.RespondWithCode` | server/src/utils/writer.ts:11-13 | builds a ResponsePayload holding the given code and payload |
| `Writer.Choose` | server/src/utils/writer.ts:15-45 | the chosen code is never 0; what reaches `end` is either a non-object payload (truthy, or undefined) or the stringified form of a truthy object payload |
| `Writer.ServerResponse.WriteHead` | server/src/utils/writer.ts:47 | a `writeHead` call is appended to the response's log, with its status and headers |
| `Writer.ServerResponse.End` | server/src/utils/writer.ts:48 | an `end` call is appended to the response's log, with its chunk |
| `Writer.WriteJson` | server/src/utils/writer.ts:15-49 | writes exactly one head, with the chosen code and `Content-Type: application/json`, then ends with the chosen payload |
| `Writer.RespondWithCodeAsArguments` | server/src/utils/writer.ts:19-22 | `writeJson(r, respondWithCode(c, p))` behaves as `writeJson(r, p, c)` |
| `Writer.NestedPayloadInnerCodeWins` | server/src/utils/writer.ts:19-22 | when response payloads are nested, the innermost code is used and the outer one is dropped |
| `Writer.CodePrecedence` | server/src/utils/writer.ts:24-41 | the code is a truthy-integer second argument, else a truthy-integer first argument, else 200 (so 0 gives 200) |
| `Writer.PayloadIgnoresCode` | server/src/utils/writer.ts:32-36 | the payload is the first argument when truthy and undefined otherwise, whatever the code |
| `Writer.BareCodeIsAlsoPayload` | server/src/utils/writer.ts:24-45 | `writeJson(r, 404)` sends status 404 with the number 404 as body |

## Left out

- Digest.DigestOf: a wrong-length digest panics with the fixed text "Wrong
  length". Rust appends ": TryFromSliceError(())"; the model leaves that out
  because it keeps no error values.
- RawTrustProof.New: a failed signing panics with "Wrong length" only, without
  Rust's ": " and the `Debug` text of the signing error. The error values of
  the signing library are not modelled.
- RawTrustProof.Verify: a malformed field panics with the fixed part of the
  `unwrap` message only. The ": " and the `Debug` text of base64's
  `DecodeError` (such as `InvalidByte(…)`) are left out, because the model's
  decoder reports failure as `None`, not as a position and a byte.
- Blake2b-256, Ed25519 and JWS internals are not implemented. Each is a
  function parameter constrained only by the predicates above. Key storage
  (`MemStorage`, Stronghold) and the DID document are opaque types.
- Tamper sensitivity, key mismatch and the all-zero-signature scenario are
  not proved. The model has no unforgeability assumption about Ed25519 or
  JWS, and without one a signature over a changed message could still
  verify. What is proved is that `verify` returns exactly the verifier's
  verdict on the rebuilt message, and that a swapped proof rebuilds a
  different message.
- Signing is modelled as a function of message and key, so it is
  deterministic. Randomised signers are not covered.
- JSON encoding (serde_json, `JSON.stringify` with its 2-space indent) is
  not modelled. A record is a datatype and its wire format is its list of
  field names. A stringified body is the symbolic `Stringified(value)`.
- The Node.js response is an abstract sink, only a log of `writeHead` / `end`
  calls (`Writer.ServerResponse`). Node's own
  checks are not modelled: it rejects status codes outside 100–999, and
  `end` accepts only a string or buffer, so `end(404)` throws at run time.
- TypeScript annotations are not enforced at run time, and the model does
  not enforce them either: `respondWithCode` accepts any value as code.
- The values of foreign error types (iota client, wallet, Mongo, serde) are
  kept only as a text. An actix `MultipartError` is kept only as its
  `to_string()`.
- `async` / `.await` and `log::info!` have no counterpart: the calls are
  sequential and logging has no observable effect here.
- The bson `Document` keeps only what `insert` needs. Hashing of keys and
  the many other `Bson` variants are not modelled.
