/** What the client takes from outside: the library calls it makes, and the
    transport that carries a request to the service and back. Each library
    call is a function value; one that can raise returns an `Option`, `None`
    standing for the exception. */
module Foreign {
  import opened Wrappers
  import opened Dicts
  import opened Responses

  newtype byte = x: int | 0 <= x < 256

  type Bytes = seq<byte>

  /** A request body before serialisation: field names to strings, `None`
      being JSON `null`. */
  type Payload = Dict<Option<string>>

  /** The components of an `rsa.PrivateKey`. */
  datatype PrivateKey = PrivateKey(n: nat, e: nat, d: nat, p: nat, q: nat)

  datatype Library = Library(
    /** `str.encode()` (UTF-8); total. */
    utf8Encode: string -> Bytes,
    /** `bytes.decode()` (UTF-8); `None` for `UnicodeDecodeError`. */
    utf8Decode: Bytes -> Option<string>,
    /** `hmac.new(key, msg, digestmod=hashlib.sha256).hexdigest()`. */
    hmacSha256Hex: (Bytes, Bytes) -> string,
    /** `json.dumps` of a request body. */
    jsonDumps: Payload -> string,
    /** `base64.b64decode`; `None` for `binascii.Error`. */
    b64Decode: string -> Option<Bytes>,
    /** `rsa.decrypt(ciphertext, key)`; `None` for `rsa.DecryptionError`. */
    rsaDecrypt: (Bytes, PrivateKey) -> Option<Bytes>,
    /** `rsa.PrivateKey.load_pkcs1`; `None` when it raises. */
    loadPkcs1: Bytes -> Option<PrivateKey>,
    /** `pydantic.parse_obj_as(model, await response.json())` for each of
        the three record types, from the body text; `None` when the body is
        not JSON or does not fit the record. */
    parseAuth: string -> Option<AuthResponse>,
    parseRegistration: string -> Option<RegistrationResponse>,
    parseReset: string -> Option<ResetResponse>)

  /** What is posted: the path, the serialised body and the headers. */
  datatype Request = Request(path: string, body: Bytes, headers: map<string, string>)

  /** What comes back: the body as `response.text()` gives it, and the
      response headers. */
  datatype Reply = Reply(text: string, headers: map<string, string>)

  /** `session.post(...)`: `None` when aiohttp raises. */
  type Transport = Request -> Option<Reply>
}
