/** The exceptions a client call can end with.

    `APIError` and `AuthError` are the package's own exceptions; `AuthError`
    is a subclass of `APIError`. The other alternatives are exceptions of
    the libraries the client calls, which it lets propagate unchanged. */
module Exceptions {

  datatype Error =
    | APIError(message: string)
    | AuthError(message: string)
      /** aiohttp could not complete the round trip. */
    | TransportError
      /** A `KeyError` from looking up a missing header. */
    | KeyError(key: string)
      /** The body is not JSON or does not fit the record type. */
    | ParseError
      /** An `AttributeError` from reading a field of `None`. */
    | AttributeError
      /** `binascii.Error` from `base64.b64decode`, or the `ValueError`
          it raises for a string with non-ASCII characters. */
    | Base64Error
      /** `rsa.DecryptionError` from `rsa.decrypt`. */
    | DecryptionError
      /** `UnicodeDecodeError` from `bytes.decode`. */
    | UnicodeDecodeError
      /** `rsa.PrivateKey.load_pkcs1` rejected the key text. */
    | KeyLoadError
  {
    /** `except APIError` catches this error: it is an `APIError` or an
        instance of its subclass `AuthError`. */
    predicate IsAPIError() {
      APIError? || AuthError?
    }
  }
}
