/** `TrustServiceError` of `actix-server/src/errors.rs`, its display texts,
    its HTTP status codes and the conversion from a multipart error. */
module Errors {
  import opened Outcomes

  /** A value of a foreign error type wrapped by a variant (an iota client,
      wallet, Mongo or serde error, ...); only its text is kept. */
  datatype Cause = Cause(text: string)

  datatype TrustServiceError =
    | WriteProofError
    | UserDidNotFound
    | ProofNotFound
    | ProofIdNotFound
    | AssetIdNotFound(assetId: string)
    | IotaClientError(cause: Cause)
    | ResolveError(cause: Cause)
    | IdentityCoreError(cause: Cause)
    | WalletError(cause: Cause)
    | DidError(cause: Cause)
    | InsertError
    | JwkError(cause: Cause)
    | MongoDbError(cause: Cause)
    | ContractAddressRecoveryError
    | ContractError(message: string)
    | MissingNftAddress
    | AddressError
    | IotaBlockError(cause: Cause)
    | ProofSignatureNotValid
    | SerdeJsonError(cause: Cause)
    | CustomError(message: string)
    | GenericError(cause: Cause)
    | MongoFileNotFound
    | IpfsUploadError
    | IpfsConnError
    | MultipartError(message: string)
    | FileOpenError
    | FileWriteError

  const BadRequest := 400
  const NotFound := 404
  const NotAcceptable := 406
  const InternalServerError := 500

  /** The "not found" family: lookups of users, proofs, assets and files. */
  predicate IsNotFound(e: TrustServiceError) {
    e.ProofNotFound? || e.UserDidNotFound? || e.ProofIdNotFound? || e.AssetIdNotFound? || e.MongoFileNotFound?
  }

  /** Errors caused by the request itself. */
  predicate IsBadRequest(e: TrustServiceError) {
    e.MissingNftAddress? || e.MultipartError?
  }

  /** `ResponseError::status_code`. */
  function StatusCode(e: TrustServiceError): (code: int)
    ensures code == NotAcceptable <==> e.ProofSignatureNotValid?
    ensures code == NotFound <==> IsNotFound(e)
    ensures code == BadRequest <==> IsBadRequest(e)
    ensures code == InternalServerError <==> !(e.ProofSignatureNotValid? || IsNotFound(e) || IsBadRequest(e))
  {
    match e
    case ProofNotFound => NotFound
    case IotaClientError(_) => InternalServerError
    case ResolveError(_) => InternalServerError
    case DidError(_) => InternalServerError
    case InsertError => InternalServerError
    case JwkError(_) => InternalServerError
    case UserDidNotFound => NotFound
    case MongoDbError(_) => InternalServerError
    case ProofIdNotFound => NotFound
    case AssetIdNotFound(_) => NotFound
    case IotaBlockError(_) => InternalServerError
    case SerdeJsonError(_) => InternalServerError
    case ProofSignatureNotValid => NotAcceptable
    case IdentityCoreError(_) => InternalServerError
    case WalletError(_) => InternalServerError
    case WriteProofError => InternalServerError
    case GenericError(_) => InternalServerError
    case ContractAddressRecoveryError => InternalServerError
    case ContractError(_) => InternalServerError
    case MissingNftAddress => BadRequest
    case AddressError => InternalServerError
    case CustomError(_) => InternalServerError
    case MongoFileNotFound => NotFound
    case IpfsUploadError => InternalServerError
    case IpfsConnError => InternalServerError
    case MultipartError(_) => BadRequest
    case FileOpenError => InternalServerError
    case FileWriteError => InternalServerError
  }

  /** The string a variant's `#[error(...)]` text interpolates, if any. */
  function MessageOf(e: TrustServiceError): (m: Option<string>)
    ensures m.Some? <==> e.AssetIdNotFound? || e.ContractError? || e.CustomError? || e.MultipartError?
  {
    match e
    case AssetIdNotFound(s) => Some(s)
    case ContractError(s) => Some(s)
    case CustomError(s) => Some(s)
    case MultipartError(s) => Some(s)
    case _ => None
  }

  /** The `#[error(...)]` text of each variant (`Display`). A text that
      interpolates a string adds a fixed number of characters to it. */
  function Display(e: TrustServiceError): (text: string)
    ensures e.AssetIdNotFound? ==> |text| == |e.assetId| + 20
    ensures e.ContractError? ==> |text| == |e.message| + 16
    ensures e.CustomError? ==> |text| == |e.message| + 7
    ensures e.MultipartError? ==> |text| == |e.message| + 17
  {
    match e
    case AssetIdNotFound(s) => "Asset id: " + s + " not found"
    case ContractError(s) => "Contract error: " + s
    case CustomError(s) => "Error: " + s
    case MultipartError(s) => "Multipart error: " + s
    case _ => FixedText(e)
  }

  /** The texts of the variants that interpolate nothing. */
  function FixedText(e: TrustServiceError): (text: string)
    requires MessageOf(e).None?
  {
    match e
    case WriteProofError => "Error while writing a proof"
    case UserDidNotFound => "User did not found"
    case ProofNotFound => "Proof not found"
    case ProofIdNotFound => "Proof id not found"
    case IotaClientError(_) => "Iota Client Error"
    case ResolveError(_) => "Resolve Error"
    case IdentityCoreError(_) => "Identity Core Error"
    case WalletError(_) => "Wallet Error"
    case DidError(_) => "Did Error"
    case InsertError => "Error during insert"
    case JwkError(_) => "Jwk error"
    case MongoDbError(_) => "Mongo db Error"
    case ContractAddressRecoveryError => "Smart Contract address recovery Error"
    case MissingNftAddress => "Attempting to interact with a non-existent smart contract"
    case AddressError => "Error converting to Address"
    case IotaBlockError(_) => "Error converting OutputId"
    case ProofSignatureNotValid => "Proof signature not valid"
    case SerdeJsonError(_) => "Error serde_json"
    case GenericError(_) => "Generic error"
    case MongoFileNotFound => "File not Found in Mongo"
    case IpfsUploadError => "IPFS upload error"
    case IpfsConnError => "IPFS connection error"
    case FileOpenError => "Error opening file"
    case FileWriteError => "Error while writing file"
  }

  /** The wrapped error of a `#[from]` variant never reaches the text: the
      response body is the same whatever the underlying failure was. */
  lemma DisplayIgnoresCause(e: TrustServiceError, c: Cause)
    requires e.IotaClientError? || e.ResolveError? || e.IdentityCoreError? || e.WalletError? || e.DidError?
      || e.JwkError? || e.MongoDbError? || e.IotaBlockError? || e.SerdeJsonError? || e.GenericError?
    ensures Display(e.(cause := c)) == Display(e)
  {
  }

  /** The texts `"Contract error: {0}"`, `"Error: {0}"` and
      `"Multipart error: {0}"` end with the interpolated string unchanged. */
  lemma {:induction false} DisplayEndsWithMessage(e: TrustServiceError)
    requires e.ContractError? || e.CustomError? || e.MultipartError?
    ensures var text, m := Display(e), e.message; |text| > |m| && text[|text| - |m|..] == m
  {
    var prefix := match e
      case ContractError(_) => "Contract error: "
      case CustomError(_) => "Error: "
      case _ => "Multipart error: ";
    assert Display(e) == prefix + e.message;
    assert (prefix + e.message)[|prefix|..] == e.message;
  }

  /** An actix `MultipartError`, seen through its `to_string()`. */
  datatype MultipartFailure = MultipartFailure(text: string)

  /** `impl From<MultipartError> for TrustServiceError`. */
  function FromMultipart(err: MultipartFailure): (e: TrustServiceError)
    ensures e == MultipartError(err.text)
    ensures StatusCode(e) == BadRequest
    ensures Display(e) == "Multipart error: " + err.text
  {
    MultipartError(err.text)
  }

  const TextHtmlUtf8 := "text/html; charset=utf-8"

  datatype HttpResponse = HttpResponse(status: int, contentType: string, body: string)

  /** `ResponseError::error_response`: the variant's status, an HTML content
      type and the display text as body. */
  function ErrorResponse(e: TrustServiceError): (r: HttpResponse)
    ensures r.status == StatusCode(e) && r.body == Display(e) && r.contentType == TextHtmlUtf8
  {
    HttpResponse(StatusCode(e), TextHtmlUtf8, Display(e))
  }

  /** A rejected proof answers 406, a client-error status, never a server error. */
  lemma RejectedProofIsClientError()
    ensures 400 <= ErrorResponse(ProofSignatureNotValid).status < 500
    ensures ErrorResponse(ProofSignatureNotValid).body == "Proof signature not valid"
  {
  }

  /** Every variant gets one of four statuses. */
  lemma StatusCodesAreFour(e: TrustServiceError)
    ensures StatusCode(e) in {BadRequest, NotFound, NotAcceptable, InternalServerError}
  {
  }

  /** The body of a missing-asset response names the asset id. */
  lemma {:induction false} AssetIdNotFoundBody(assetId: string)
    ensures var body := ErrorResponse(AssetIdNotFound(assetId)).body;
      |body| == |assetId| + 20 && body[10..10 + |assetId|] == assetId
      && body[..10] == "Asset id: " && body[10 + |assetId|..] == " not found"
  {
    var prefix, suffix := "Asset id: ", " not found";
    var body := prefix + assetId + suffix;
    assert |prefix| == 10 && |suffix| == 10;
    assert body[..10] == prefix;
    assert body[10..10 + |assetId|] == assetId;
    assert body[10 + |assetId|..] == suffix;
  }

  /** A multipart failure answers 400 with its text after a fixed prefix. */
  lemma {:induction false} MultipartBody(err: MultipartFailure)
    ensures var r := ErrorResponse(FromMultipart(err));
      r.status == BadRequest && r.body[..17] == "Multipart error: " && r.body[17..] == err.text
  {
    var prefix := "Multipart error: ";
    assert |prefix| == 17;
    assert (prefix + err.text)[..17] == prefix;
    assert (prefix + err.text)[17..] == err.text;
  }
}
