# aiovegetable client core in Dafny

This project models the request/response protocol of the `aiovegetable` client (`aiovegetable/client.py`) and the helpers it uses (`aiovegetable/utils.py`) for the vegetables.inc licensing service. The model covers three operations: `authenticate`, `register` and `reset`. Each one:

1. builds an ordered field map from the caller's arguments and the client's configuration. A falsy `hwid` becomes the host's id. In `authenticate` a falsy `nonce` becomes a fresh UUID text, and `hash` is appended only when truthy.
2. serialises the map and signs the serialisation with HMAC-SHA256 under the client secret. The signature goes in the `x-vege-signature` header, and the same bytes are posted.
3. checks the reply's signature over its raw body. A mismatch raises `APIError("failed to verify hmac")`.
4. parses the body, then raises `APIError("<type>: <explanation>")` when the record's `error` flag is set.
5. (`authenticate` only) raises `AuthError` when the echoed nonce differs from the one sent. If the client has a private key and the record a variable map, it then replaces each variable with its decryption: base64-decode, RSA-decrypt, UTF-8-decode.

Modules, one per source file or concern:

- `Wrappers`: `Option` and `Result`.
- `Dicts`: Python dicts as ordered entry lists. `Put` is `d[k] = v`: it updates an existing key where it stands and appends a new one.
- `Exceptions`: the exceptions a call can end with. `IsAPIError` says which of them `except APIError` catches, because `AuthError` subclasses `APIError`.
- `Responses`: the response records. A subclass of `BaseResponse` keeps it as its `base` field.
- `Foreign`: the library calls, as function values of a `Library` record (UTF-8, HMAC-SHA256 hex, `json.dumps`, base64, `rsa.decrypt`, `load_pkcs1`, and the parsers for the three record types). It also holds the transport `post`, the request and the reply. A call that can raise returns an `Option`.
- `Utils`: `generate_random_string`, `get_hwid`, `verify_hmac` and `decrypt_variable`. The UUID value and the host's node id are inputs. Their text forms are modelled exactly: the 8-4-4-4-12 lower-case hex of `str(UUID)` and the decimal text of `str(int)`.
- `Client`: the `Client` class with its configuration as constant fields. It has one function per outcome (`AuthenticateOutcome`, `RegisterOutcome`, `ResetOutcome`), and each operation is a method proved equal to its outcome function. The payload is built by in-place updates of a literal, as in the source.
- `ClientProperties`: what the outcome functions guarantee.

`Utils.VerifyHmac` depends only on its arguments, because it is a Dafny function of them with no state.

Points where the code's behaviour is easy to misread:

- The error flag is checked inside `_parse_response`, so an error record wins over a nonce mismatch (`AuthenticateReportsServerError`).
- A signature mismatch and a server-reported error are the same `APIError` class. Only their messages tell them apart; `VerifyFailureIsNotAnApplicationError` proves the messages never coincide.
- A reply without the signature header raises `KeyError`; it is not a failed verification.
- A variable that fails to decrypt propagates the library's own exception, not a protocol error.

## Model

| member | source | states |
|---|---|---|
| `Dicts.PutKeysAndValues` | aiovegetable/client.py:172-179 | `d[k] = v` keeps the key order, appending `k` only when new; `k` then maps to `v` and every other key keeps its value |
| `Utils.GenerateRandomString` | aiovegetable/utils.py:19-20 | the default nonce is the 36-character canonical UUID text: dashes at 8, 13, 18 and 23, lower-case hex digits elsewhere (so never empty) |
| `Utils.GenerateRandomStringInjective` | aiovegetable/utils.py:19-20 | distinct UUIDs give distinct nonce texts |
| `Utils.GetHwid` | aiovegetable/utils.py:23-24 | the default hwid is a non-empty string of decimal digits |
| `Utils.GetHwidInjective` | aiovegetable/utils.py:23-24 | distinct node ids give distinct hwids |
| `Utils.VerifyHmacAcceptsExactlyTheSignature` | aiovegetable/utils.py:27-31 | `verify_hmac` holds exactly when the signature equals the hex HMAC-SHA256 of the body under the secret; a signature made by that construction always passes |
| `Utils.DecryptVariable` | aiovegetable/utils.py:38-41 | a failure is always one of the three step exceptions (base64, RSA, UTF-8) |
| `Utils.DecryptVariableSucceedsIffEveryStepDoes` | aiovegetable/utils.py:38-41 | a value is returned exactly when base64-decoding, RSA decryption and UTF-8 decoding all succeed, and it is their composition |
| `Utils.DecryptVariableRoundTrip` | aiovegetable/utils.py:38-41 | for any base64 encoder and RSA encryption that the library's decoder and `rsa.decrypt` under the key invert on all inputs, and UTF-8 decoding inverting encoding, a plaintext UTF-8-encoded, encrypted and base64-encoded decrypts back to itself |
| `Client.LoadPrivateKey` | aiovegetable/client.py:31-35 | no key exactly when the key text is falsy; a load failure exactly when the text is truthy and `load_pkcs1` rejects its bytes, reported as `KeyLoadError`; a key returned is the one `load_pkcs1` read from those bytes |
| `Client.DecryptVariables` | aiovegetable/client.py:188-193 | success exactly when every variable decrypts; then the same keys in the same order, each value its decryption; otherwise the exception of the first failing variable |
| `Client.DecryptAll` | aiovegetable/client.py:189-193 | the loop overwriting each variable in iteration order produces `DecryptVariables` of the original map |
| `Client.Client.constructor` | aiovegetable/client.py:22-36 | the secret is stored as its UTF-8 bytes and the key as `LoadPrivateKey` gives it |
| `Client.Client.BuildAuthPayload` | aiovegetable/client.py:163-179 | the literal with in-place updates of hwid and nonce and the appended hash is the `authenticate` payload |
| `Client.Client.Authenticate` | aiovegetable/client.py:154-195 | `authenticate` returns or raises what `AuthenticateOutcome` says |
| `Client.Client.Register` | aiovegetable/client.py:209-233 | `register` returns or raises what `RegisterOutcome` says |
| `Client.Client.Reset` | aiovegetable/client.py:247-268 | `reset` returns or raises what `ResetOutcome` says |
| `ClientProperties.EnvelopeSignsPostedBody` | aiovegetable/client.py:42-49 | the posted body is `json.dumps(data)` in UTF-8; its only header is the HMAC of exactly those bytes, which verifies under the client secret |
| `ClientProperties.HandleRequestParsesOnlyAuthenticReplies` | aiovegetable/client.py:95-104 | transport failure, a missing header (`KeyError`) or a bad signature (`APIError("failed to verify hmac")`) end the call; the body is parsed only from an authentic reply; a returned record came unchanged from an authentic body with a clear error flag; never `AuthError` |
| `ClientProperties.HandleRequestCaughtAsAPIError` | aiovegetable/client.py:72-104 | a failure of `_handle_request` is caught by `except APIError` exactly when the signature header is present but does not verify, or the authentic reply's record has its error flag set with details; transport, `KeyError`, parse and `AttributeError` failures escape it |
| `ClientProperties.ParseResponseErrorFlag` | aiovegetable/client.py:66-77 | unparsable body fails; flag set with details raises `APIError("<type>: <explanation>")`, without details `AttributeError`; flag `None`/`False` returns the record unchanged |
| `ClientProperties.VerifyFailureIsNotAnApplicationError` | aiovegetable/client.py:72-104 | no server error message equals the signature-failure message |
| `ClientProperties.SentValuesDefaultWhenFalsy` | aiovegetable/client.py:172-176 | falsy hwid/nonce are replaced by the generated ones, truthy ones kept verbatim; what is sent is never empty |
| `ClientProperties.AuthPayloadKeys` | aiovegetable/client.py:163-179 | keys username, password, hwid, nonce, aid, key in that order, then `hash` last, present exactly when the hash is truthy |
| `ClientProperties.AuthPayloadNonce` | aiovegetable/client.py:163-176 | the payload's nonce is the one sent: the caller's when truthy, else the generated UUID text |
| `ClientProperties.AuthPayloadCredentials` | aiovegetable/client.py:163-179 | username and password are the caller's; hwid and nonce are the values sent; `hash` holds the caller's hash when truthy |
| `ClientProperties.AuthPayloadConfig` | aiovegetable/client.py:163-170 | `aid` and `key` hold the client's application id and API key |
| `ClientProperties.AuthErrorIffNonceMismatch` | aiovegetable/client.py:181-186 | `AuthError` exactly when `_handle_request` succeeded and the record's nonce (possibly absent) differs from the one in the payload; only then, so only after an authentic, parsed, unflagged reply |
| `ClientProperties.AuthenticateCaughtAsAPIError` | aiovegetable/client.py:181-195 | a failure of `authenticate` is caught by `except APIError` exactly when `_handle_request` failed that way or the echoed nonce differs from the one sent; decryption failures escape it |
| `ClientProperties.AuthenticateReportsServerError` | aiovegetable/client.py:72-77 | an authentic reply whose record has its error flag set with details makes `authenticate` raise `APIError("<type>: <explanation>")`, whatever nonce the record echoes |
| `ClientProperties.CheckAuthResponseSuccess` | aiovegetable/client.py:185-195 | after a returned record: success exactly when the nonce matches and, if decryption applies, all variables decrypt; only the variables change, each value to its decryption |
| `ClientProperties.AuthenticateSuccess` | aiovegetable/client.py:181-195 | `authenticate` succeeds exactly when the reply is accepted, the nonce matches and every variable to decrypt decrypts; the result is the parsed record with only its variables decrypted, and only when a key and a variable map are present |
| `ClientProperties.NoKeyNoDecryption` | aiovegetable/client.py:188-195 | a client without a private key returns the parsed record exactly |
| `ClientProperties.FalsyKeyTextNeverDecrypts` | aiovegetable/client.py:31-35 | a client built from a falsy key text has no key, and `authenticate` then ends with `_handle_request`'s failure, the nonce mismatch, or the parsed record unchanged; it never decrypts |
| `ClientProperties.AuthenticateRejectsForgedReply` | aiovegetable/client.py:98-104 | a reply whose signature does not match makes `authenticate` raise `APIError("failed to verify hmac")` |
| `ClientProperties.RegisterPayloadKeys` | aiovegetable/client.py:218-229 | keys username, password, hwid, aid, key, license, contact in that order; no nonce or hash |
| `ClientProperties.RegisterPayloadCredentials` | aiovegetable/client.py:218-229 | username, password, license and contact are the caller's; hwid is the caller's when truthy, else the host's |
| `ClientProperties.RegisterPayloadConfig` | aiovegetable/client.py:218-226 | `aid` and `key` hold the client's application id and API key |
| `ClientProperties.RegisterReturnsParsedRecord` | aiovegetable/client.py:231-233 | `register` returns the record parsed from an authentic, unflagged reply unchanged and never raises `AuthError` |
| `ClientProperties.RegisterReportsServerError` | aiovegetable/client.py:72-77 | an authentic reply whose record has its error flag set with details makes `register` raise `APIError("<type>: <explanation>")` |
| `ClientProperties.ResetPayloadKeys` | aiovegetable/client.py:254-264 | keys username, password, hwid, aid, key, resetKey in that order; no nonce or hash |
| `ClientProperties.ResetPayloadCredentials` | aiovegetable/client.py:254-264 | username, password and resetKey are the caller's; hwid is the caller's when truthy, else the host's |
| `ClientProperties.ResetPayloadConfig` | aiovegetable/client.py:254-261 | `aid` and `key` hold the client's application id and API key |
| `ClientProperties.ResetReturnsParsedRecord` | aiovegetable/client.py:266-268 | `reset` returns the record parsed from an authentic, unflagged reply unchanged and never raises `AuthError` |
| `ClientProperties.ResetReportsServerError` | aiovegetable/client.py:72-77 | an authentic reply whose record has its error flag set with details makes `reset` raise `APIError("<type>: <explanation>")` |

## Left out

- Transport: the aiohttp session, its base URL `https://auth.vegetables.inc`, `async`/`await` and the headers aiohttp adds itself are outside the model. The transport is a function from request to reply, and `None` stands for any aiohttp exception.
- Response headers are an exact-case map, while aiohttp's header lookup is case-insensitive.
- Cryptography and encodings (HMAC-SHA256, RSA, base64, UTF-8, PKCS#1 loading) are function values supplied by the caller, not implementations.
- `response.text()` charset detection is not modelled: the model's reply holds the decoded text directly.
- Parsing (`response.json()` and pydantic's `parse_obj_as` with its field aliases and datetime parsing) is one partial function per record type. The parser sees only the body text, so aiohttp's content-type check on the reply is not modelled. JSON and validation errors are merged into `ParseError`, and `nextReset` is kept as text.
- The byte format of `json.dumps` is not modelled; the model only uses the fact that one serialisation is both signed and posted.
- `uuid.uuid4()` and `uuid.getnode()` are inputs. The model accepts any 128-bit value as the UUID, without the version and variant bits `uuid4` sets.
- `get_hash` reads the running program's file from disk, which is I/O.
- The `@typing.overload` stubs have no runtime behaviour.
- Constant-time comparison is not modelled; the code compares the signatures with plain `==`.
- Variable values are strings. A non-string value, which `decrypt_variable` would reject with a `TypeError`, is not modelled.
- Client.constructor: a key text that `load_pkcs1` rejects makes the Python constructor raise. The constructor here requires a loadable key instead, and `LoadPrivateKey` models the rejection as `KeyLoadError`.
- Client.DecryptAll: the source overwrites the parsed record's variable dict in place, inside `authenticate`. Here the loop is its own method over a value copy, and `Authenticate` stores the result in a new record value. Aliasing of the parsed record object is therefore not modelled.
