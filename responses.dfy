/** The response records the service returns, as the deserialiser produces
    them. A record type that extends `BaseResponse` holds it as its `base`
    field. */
module Responses {
  import opened Wrappers
  import opened Dicts

  datatype ErrorDetails = ErrorDetails(errorType: string, explanation: string, details: Option<string>)

  datatype BaseResponse = BaseResponse(
    success: Option<bool>,
    error: Option<bool>,
    errorDetails: Option<ErrorDetails>)
  {
    /** `if response_model.error:` on an `Optional[bool]`. */
    predicate ErrorFlagged() {
      error == Some(true)
    }
  }

  datatype LicenseInfo = LicenseInfo(
    base: BaseResponse,
    expired: bool,
    licenseType: Option<string>,
    expiration: Option<string>)

  /** Account variables: names to values, base64 ciphertext on the wire and
      plaintext once decrypted. */
  type Variables = Dict<string>

  datatype AuthResponse = AuthResponse(
    base: BaseResponse,
    nonce: Option<string>,
    licenseInfo: Option<LicenseInfo>,
    variables: Option<Variables>)

  datatype RegistrationResponse = RegistrationResponse(
    base: BaseResponse,
    expiration: Option<string>,
    licenseType: Option<string>)

  /** `nextReset` is the ISO-8601 text of the timestamp. */
  datatype ResetResponse = ResetResponse(
    base: BaseResponse,
    nextReset: string)
}
