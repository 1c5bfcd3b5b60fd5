/** What the three operations of `Client` guarantee, stated over the
    functions that describe their outcomes. */
module ClientProperties {
  import opened Wrappers
  import opened Dicts
  import opened Exceptions
  import opened Responses
  import opened Foreign
  import opened Utils
  import opened Client

  // ---------------------------------------------------------------------
  // Signing and verification

  /** What is posted is the serialised payload, and its only header is the
      HMAC of exactly those bytes under the client secret, so the check a
      holder of the secret makes on it succeeds. */
  lemma EnvelopeSignsPostedBody(c: Client, path: string, data: Payload)
    ensures c.Envelope(path, data).path == path
    ensures c.Envelope(path, data).body == c.lib.utf8Encode(c.lib.jsonDumps(data))
    ensures c.Envelope(path, data).headers.Keys == {SIGNATURE_HEADER}
    ensures VerifyHmac(c.lib, c.Envelope(path, data).body,
                       c.Envelope(path, data).headers[SIGNATURE_HEADER], c.clientSecret)
  {
  }

  /** `_handle_request` parses a reply only when it is authentic: a reply
      without the header ends in `KeyError`, one whose signature does not
      match in `APIError("failed to verify hmac")`, and a record is returned
      only when it came from an authentic body and its error flag is clear.
      It never raises `AuthError`. */
  lemma HandleRequestParsesOnlyAuthenticReplies<R>(c: Client, path: string, data: Payload,
                                                   parse: string -> Option<R>, baseOf: R -> BaseResponse,
                                                   post: Transport)
    ensures var r := c.HandleRequest(path, data, parse, baseOf, post);
      && (post(c.Envelope(path, data)).None? ==> r == Failure(TransportError))
      && (post(c.Envelope(path, data)).Some? ==>
            var reply := post(c.Envelope(path, data)).value;
            && (SIGNATURE_HEADER !in reply.headers ==> r == Failure(KeyError(SIGNATURE_HEADER)))
            && (SIGNATURE_HEADER in reply.headers && !c.Authentic(reply) ==> r == Failure(APIError(VERIFY_FAILED)))
            && (c.Authentic(reply) ==> r == c.ParseResponse(reply.text, parse, baseOf)))
    ensures var r := c.HandleRequest(path, data, parse, baseOf, post);
      r.Success? ==>
        && post(c.Envelope(path, data)).Some?
        && c.Authentic(post(c.Envelope(path, data)).value)
        && parse(post(c.Envelope(path, data)).value.text) == Some(r.value)
        && !baseOf(r.value).ErrorFlagged()
    ensures var r := c.HandleRequest(path, data, parse, baseOf, post);
      r.Failure? ==> !r.error.AuthError?
  {
  }
  /** Which failures of `_handle_request` an `except APIError` clause
      catches: exactly a present signature header that does not verify, and
      an authentic reply whose record has its error flag set with details.
      Transport errors, the missing-header `KeyError`, parse errors and the
      `AttributeError` of a flagged record without details escape it. */
  lemma HandleRequestCaughtAsAPIError<R>(c: Client, path: string, data: Payload,
                                         parse: string -> Option<R>, baseOf: R -> BaseResponse,
                                         post: Transport)
    ensures var r := c.HandleRequest(path, data, parse, baseOf, post);
      (r.Failure? && r.error.IsAPIError()) <==>
        && post(c.Envelope(path, data)).Some?
        && var reply := post(c.Envelope(path, data)).value;
           && SIGNATURE_HEADER in reply.headers
           && (!c.Authentic(reply) ||
               (&& parse(reply.text).Some?
                && baseOf(parse(reply.text).value).ErrorFlagged()
                && baseOf(parse(reply.text).value).errorDetails.Some?))
  {
  }


  /** A parsed record with its error flag set becomes an `APIError` whose
      message is "<type>: <explanation>"; one whose flag is `None` or
      `False` is returned unchanged. */
  lemma ParseResponseErrorFlag<R>(c: Client, text: string, parse: string -> Option<R>, baseOf: R -> BaseResponse)
    ensures parse(text).None? ==> c.ParseResponse(text, parse, baseOf) == Failure(ParseError)
    ensures parse(text).Some? ==>
      var b := baseOf(parse(text).value);
      && (b.error != Some(true) ==> c.ParseResponse(text, parse, baseOf) == Success(parse(text).value))
      && (b.error == Some(true) && b.errorDetails.Some? ==>
            c.ParseResponse(text, parse, baseOf) ==
              Failure(APIError(b.errorDetails.value.errorType + ": " + b.errorDetails.value.explanation)))
      && (b.error == Some(true) && b.errorDetails.None? ==>
            c.ParseResponse(text, parse, baseOf) == Failure(AttributeError))
  {
  }

  /** Both a bad signature and a server-reported error are `APIError`s, but
      their messages never coincide: an application error's message holds
      the ": " separator, the signature failure's has no colon. */
  lemma VerifyFailureIsNotAnApplicationError(d: ErrorDetails)
    ensures ErrorMessage(d) != VERIFY_FAILED
  {
    var m := ErrorMessage(d);
    assert m[|d.errorType|] == ':';
    if |m| == |VERIFY_FAILED| {
      assert forall i :: 0 <= i < |VERIFY_FAILED| ==> VERIFY_FAILED[i] != ':';
    }
  }

  // ---------------------------------------------------------------------
  // Request building

  /** A falsy caller value is replaced by the generated one; a truthy one
      is kept verbatim. Either way what is sent is a non-empty string. */
  lemma SentValuesDefaultWhenFalsy(hwid: Option<string>, nonce: Option<string>, node: nat, uuid: Uuid)
    ensures Truthy(hwid) ==> SentHwid(hwid, node) == hwid.value
    ensures !Truthy(hwid) ==> SentHwid(hwid, node) == GetHwid(node)
    ensures Truthy(nonce) ==> SentNonce(nonce, uuid) == nonce.value
    ensures !Truthy(nonce) ==> SentNonce(nonce, uuid) == GenerateRandomString(uuid)
    ensures SentHwid(hwid, node) != "" && SentNonce(nonce, uuid) != ""
  {
  }

  /** The `authenticate` payload has the keys username, password, hwid,
      nonce, aid, key in that order, then `hash` last exactly when the
      caller's hash is truthy. */
  lemma AuthPayloadKeys(c: Client, username: string, password: string, hwid: Option<string>,
                        nonce: Option<string>, hash: Option<string>, node: nat, uuid: Uuid)
    ensures var p := c.AuthPayload(username, password, hwid, nonce, hash, node, uuid);
      && Keys(p) == ["username", "password", "hwid", "nonce", "aid", "key"] + (if Truthy(hash) then ["hash"] else [])
      && ("hash" in Keys(p) <==> Truthy(hash))
  {
    var p := c.AuthPayload(username, password, hwid, nonce, hash, node, uuid);
    assert Keys(p) == ["username", "password", "hwid", "nonce", "aid", "key"] + (if Truthy(hash) then ["hash"] else []);
  }

  /** The nonce entry of the `authenticate` payload is the nonce sent. */
  lemma AuthPayloadNonce(c: Client, username: string, password: string, hwid: Option<string>,
                         nonce: Option<string>, hash: Option<string>, node: nat, uuid: Uuid)
    ensures Get(c.AuthPayload(username, password, hwid, nonce, hash, node, uuid), "nonce") ==
            Some(Some(SentNonce(nonce, uuid)))
  {
    GetAt(c.AuthPayload(username, password, hwid, nonce, hash, node, uuid), 3);
  }

  /** The caller's entries of the `authenticate` payload: the credentials,
      the hwid and nonce sent, and the hash when truthy. */
  lemma AuthPayloadCredentials(c: Client, username: string, password: string, hwid: Option<string>,
                               nonce: Option<string>, hash: Option<string>, node: nat, uuid: Uuid)
    ensures var p := c.AuthPayload(username, password, hwid, nonce, hash, node, uuid);
      && Get(p, "username") == Some(Some(username))
      && Get(p, "password") == Some(Some(password))
      && Get(p, "hwid") == Some(Some(SentHwid(hwid, node)))
      && Get(p, "nonce") == Some(Some(SentNonce(nonce, uuid)))
      && (Truthy(hash) ==> Get(p, "hash") == Some(hash))
  {
    var p := c.AuthPayload(username, password, hwid, nonce, hash, node, uuid);
    assert Get(p, "username") == Some(Some(username)) by { GetAt(p, 0); }
    assert Get(p, "password") == Some(Some(password)) by { GetAt(p, 1); }
    assert Get(p, "hwid") == Some(Some(SentHwid(hwid, node))) by { GetAt(p, 2); }
    AuthPayloadNonce(c, username, password, hwid, nonce, hash, node, uuid);
    if Truthy(hash) {
      assert Get(p, "hash") == Some(hash) by { GetAt(p, 6); }
    }
  }

  /** The client's entries of the `authenticate` payload: its aid and API
      key. */
  lemma AuthPayloadConfig(c: Client, username: string, password: string, hwid: Option<string>,
                          nonce: Option<string>, hash: Option<string>, node: nat, uuid: Uuid)
    ensures var p := c.AuthPayload(username, password, hwid, nonce, hash, node, uuid);
      && Get(p, "aid") == Some(Some(c.aid))
      && Get(p, "key") == Some(Some(c.apiKey))
  {
    var p := c.AuthPayload(username, password, hwid, nonce, hash, node, uuid);
    assert Get(p, "aid") == Some(Some(c.aid)) by { GetAt(p, 4); }
    assert Get(p, "key") == Some(Some(c.apiKey)) by { GetAt(p, 5); }
  }

  // ---------------------------------------------------------------------
  // authenticate

  /** What `_handle_request` returns inside `authenticate`. */
  function AuthHandled(c: Client, username: string, password: string, hwid: Option<string>,
                       nonce: Option<string>, hash: Option<string>, node: nat, uuid: Uuid,
                       post: Transport): Result<AuthResponse, Error>
  {
    c.HandleRequest(AUTHENTICATE_PATH, c.AuthPayload(username, password, hwid, nonce, hash, node, uuid),
                    c.lib.parseAuth, AuthBase, post)
  }

  /** `authenticate` raises `AuthError` exactly when the signature check
      and the error-flag check passed and the record's nonce, possibly
      absent, differs from the nonce placed in the payload, generated or
      not. */
  lemma AuthErrorIffNonceMismatch(c: Client, username: string, password: string, hwid: Option<string>,
                                  nonce: Option<string>, hash: Option<string>, node: nat, uuid: Uuid,
                                  post: Transport)
    ensures var out := c.AuthenticateOutcome(username, password, hwid, nonce, hash, node, uuid, post);
            var h := AuthHandled(c, username, password, hwid, nonce, hash, node, uuid, post);
      (out.Failure? && out.error.AuthError?) <==>
        (h.Success? && h.value.nonce != Some(SentNonce(nonce, uuid)))
    ensures var out := c.AuthenticateOutcome(username, password, hwid, nonce, hash, node, uuid, post);
            var request := c.Envelope(AUTHENTICATE_PATH, c.AuthPayload(username, password, hwid, nonce, hash, node, uuid));
      out.Failure? && out.error.AuthError? ==>
        && out.error == AuthError(NONCE_MISMATCH)
        && post(request).Some?
        && c.Authentic(post(request).value)
        && c.lib.parseAuth(post(request).value.text).Some?
        && !c.lib.parseAuth(post(request).value.text).value.base.ErrorFlagged()
  {
    AuthPayloadNonce(c, username, password, hwid, nonce, hash, node, uuid);
    HandleRequestParsesOnlyAuthenticReplies(c, AUTHENTICATE_PATH,
      c.AuthPayload(username, password, hwid, nonce, hash, node, uuid), c.lib.parseAuth, AuthBase, post);
  }
  /** The failures of `authenticate` that `except APIError` catches are
      those of `_handle_request`, plus the nonce mismatch, whose `AuthError`
      is a subclass of `APIError`; a decryption failure escapes it. */
  lemma AuthenticateCaughtAsAPIError(c: Client, username: string, password: string, hwid: Option<string>,
                                     nonce: Option<string>, hash: Option<string>, node: nat, uuid: Uuid,
                                     post: Transport)
    ensures var out := c.AuthenticateOutcome(username, password, hwid, nonce, hash, node, uuid, post);
            var h := AuthHandled(c, username, password, hwid, nonce, hash, node, uuid, post);
      (out.Failure? && out.error.IsAPIError()) <==>
        || (h.Failure? && h.error.IsAPIError())
        || (h.Success? && h.value.nonce != Some(SentNonce(nonce, uuid)))
  {
    AuthPayloadNonce(c, username, password, hwid, nonce, hash, node, uuid);
  }

  /** An authentic reply whose record has its error flag set makes
      `authenticate` raise the server's `APIError`, whatever nonce the
      record echoes: the flag is checked before the nonce. */
  lemma AuthenticateReportsServerError(c: Client, username: string, password: string, hwid: Option<string>,
                                       nonce: Option<string>, hash: Option<string>, node: nat, uuid: Uuid,
                                       post: Transport, reply: Reply, m: AuthResponse, d: ErrorDetails)
    requires post(c.Envelope(AUTHENTICATE_PATH, c.AuthPayload(username, password, hwid, nonce, hash, node, uuid))) == Some(reply)
    requires c.Authentic(reply)
    requires c.lib.parseAuth(reply.text) == Some(m)
    requires m.base.error == Some(true) && m.base.errorDetails == Some(d)
    ensures c.AuthenticateOutcome(username, password, hwid, nonce, hash, node, uuid, post) ==
            Failure(APIError(ErrorMessage(d)))
  {
  }


  /** After `_handle_request` returned `model`: success exactly when the
      nonce matches and, if decryption applies, every variable decrypts;
      then only the variables change, each value becoming its decryption. */
  lemma CheckAuthResponseSuccess(c: Client, data: Payload, model: AuthResponse, sent: string)
    requires Get(data, "nonce") == Some(Some(sent))
    ensures var out := c.CheckAuthResponse(data, model);
      out.Success? <==>
        && model.nonce == Some(sent)
        && (c.rsaPrivateKey.Some? && model.variables.Some? ==>
              forall i :: 0 <= i < |model.variables.value| ==>
                DecryptVariable(c.lib, model.variables.value[i].1, c.rsaPrivateKey.value).Success?)
    ensures var out := c.CheckAuthResponse(data, model);
      out.Success? ==>
        && out.value.base == model.base
        && out.value.nonce == model.nonce
        && out.value.licenseInfo == model.licenseInfo
        && (if c.rsaPrivateKey.Some? && model.variables.Some? then
              && out.value.variables.Some?
              && |out.value.variables.value| == |model.variables.value|
              && forall i :: 0 <= i < |model.variables.value| ==>
                   out.value.variables.value[i] ==
                     (model.variables.value[i].0,
                      DecryptVariable(c.lib, model.variables.value[i].1, c.rsaPrivateKey.value).value)
            else out.value == model)
  {
  }

  /** A successful `authenticate` returns the record parsed from an
      authentic reply whose error flag is clear and whose nonce is the one
      sent. Only the variables may differ from that record: when the client
      has a key and the record a variable map, each value is replaced by its
      decryption under the same key and in the same place; otherwise the
      record is returned as parsed. */
  lemma AuthenticateSuccess(c: Client, username: string, password: string, hwid: Option<string>,
                            nonce: Option<string>, hash: Option<string>, node: nat, uuid: Uuid,
                            post: Transport)
    ensures var out := c.AuthenticateOutcome(username, password, hwid, nonce, hash, node, uuid, post);
            var h := AuthHandled(c, username, password, hwid, nonce, hash, node, uuid, post);
      out.Success? <==>
        && h.Success?
        && h.value.nonce == Some(SentNonce(nonce, uuid))
        && (c.rsaPrivateKey.Some? && h.value.variables.Some? ==>
              forall i :: 0 <= i < |h.value.variables.value| ==>
                DecryptVariable(c.lib, h.value.variables.value[i].1, c.rsaPrivateKey.value).Success?)
    ensures var out := c.AuthenticateOutcome(username, password, hwid, nonce, hash, node, uuid, post);
            var h := AuthHandled(c, username, password, hwid, nonce, hash, node, uuid, post);
      out.Success? ==>
        && h.Success?
        && out.value.base == h.value.base
        && out.value.nonce == h.value.nonce
        && out.value.licenseInfo == h.value.licenseInfo
        && (if c.rsaPrivateKey.Some? && h.value.variables.Some? then
              && out.value.variables.Some?
              && |out.value.variables.value| == |h.value.variables.value|
              && forall i :: 0 <= i < |h.value.variables.value| ==>
                   out.value.variables.value[i] ==
                     (h.value.variables.value[i].0,
                      DecryptVariable(c.lib, h.value.variables.value[i].1, c.rsaPrivateKey.value).value)
            else out.value == h.value)
  {
    var data := c.AuthPayload(username, password, hwid, nonce, hash, node, uuid);
    AuthPayloadNonce(c, username, password, hwid, nonce, hash, node, uuid);
    var h := AuthHandled(c, username, password, hwid, nonce, hash, node, uuid, post);
    if h.Success? {
      CheckAuthResponseSuccess(c, data, h.value, SentNonce(nonce, uuid));
    }
  }

  /** A client without a private key never decrypts: a successful
      `authenticate` returns the record exactly as parsed. */
  lemma NoKeyNoDecryption(c: Client, username: string, password: string, hwid: Option<string>,
                          nonce: Option<string>, hash: Option<string>, node: nat, uuid: Uuid,
                          post: Transport)
    requires c.rsaPrivateKey.None?
    ensures var out := c.AuthenticateOutcome(username, password, hwid, nonce, hash, node, uuid, post);
            var h := AuthHandled(c, username, password, hwid, nonce, hash, node, uuid, post);
      out.Success? ==> h.Success? && out.value == h.value
  {
    AuthenticateSuccess(c, username, password, hwid, nonce, hash, node, uuid, post);
  }
  /** A client built from a falsy key text has no key, so `authenticate`
      never decrypts: it ends with `_handle_request`'s failure, the nonce
      mismatch, or the parsed record exactly as returned. */
  lemma FalsyKeyTextNeverDecrypts(c: Client, keyText: Option<string>, username: string, password: string,
                                  hwid: Option<string>, nonce: Option<string>, hash: Option<string>,
                                  node: nat, uuid: Uuid, post: Transport)
    requires LoadPrivateKey(c.lib, keyText).Success? && c.rsaPrivateKey == LoadPrivateKey(c.lib, keyText).value
    requires !Truthy(keyText)
    ensures c.rsaPrivateKey.None?
    ensures var out := c.AuthenticateOutcome(username, password, hwid, nonce, hash, node, uuid, post);
            var h := AuthHandled(c, username, password, hwid, nonce, hash, node, uuid, post);
      out == match h
             case Failure(e) => Failure(e)
             case Success(m) =>
               if m.nonce != Some(SentNonce(nonce, uuid)) then Failure(AuthError(NONCE_MISMATCH)) else Success(m)
  {
    AuthPayloadNonce(c, username, password, hwid, nonce, hash, node, uuid);
  }


  /** A reply whose signature header does not match its raw body makes
      `authenticate` raise `APIError("failed to verify hmac")`, before any
      parsing, nonce check or decryption. */
  lemma AuthenticateRejectsForgedReply(c: Client, username: string, password: string, hwid: Option<string>,
                                       nonce: Option<string>, hash: Option<string>, node: nat, uuid: Uuid,
                                       post: Transport)
    requires var request := c.Envelope(AUTHENTICATE_PATH, c.AuthPayload(username, password, hwid, nonce, hash, node, uuid));
      && post(request).Some?
      && SIGNATURE_HEADER in post(request).value.headers
      && !c.Authentic(post(request).value)
    ensures c.AuthenticateOutcome(username, password, hwid, nonce, hash, node, uuid, post) ==
            Failure(APIError(VERIFY_FAILED))
  {
  }

  // ---------------------------------------------------------------------
  // register and reset

  /** The `register` payload holds exactly username, password, hwid, aid,
      key, license and contact, in that order: no nonce and no hash. */
  lemma RegisterPayloadKeys(c: Client, username: string, password: string, license: string,
                            contact: string, hwid: Option<string>, node: nat)
    ensures var p := c.RegisterPayload(username, password, license, contact, hwid, node);
      && Keys(p) == ["username", "password", "hwid", "aid", "key", "license", "contact"]
      && "nonce" !in Keys(p) && "hash" !in Keys(p)
  {
    var p := c.RegisterPayload(username, password, license, contact, hwid, node);
    assert Keys(p) == ["username", "password", "hwid", "aid", "key", "license", "contact"];
  }

  /** The caller's entries of the `register` payload; the hwid is the
      caller's when truthy, else the host's. */
  lemma RegisterPayloadCredentials(c: Client, username: string, password: string, license: string,
                                   contact: string, hwid: Option<string>, node: nat)
    ensures var p := c.RegisterPayload(username, password, license, contact, hwid, node);
      && Get(p, "username") == Some(Some(username))
      && Get(p, "password") == Some(Some(password))
      && Get(p, "hwid") == Some(Some(SentHwid(hwid, node)))
      && Get(p, "license") == Some(Some(license))
      && Get(p, "contact") == Some(Some(contact))
  {
    var p := c.RegisterPayload(username, password, license, contact, hwid, node);
    assert Get(p, "username") == Some(Some(username)) by { GetAt(p, 0); }
    assert Get(p, "password") == Some(Some(password)) by { GetAt(p, 1); }
    assert Get(p, "hwid") == Some(Some(SentHwid(hwid, node))) by { GetAt(p, 2); }
    assert Get(p, "license") == Some(Some(license)) by { GetAt(p, 5); }
    assert Get(p, "contact") == Some(Some(contact)) by { GetAt(p, 6); }
  }

  /** The client's entries of the `register` payload: its aid and API key. */
  lemma RegisterPayloadConfig(c: Client, username: string, password: string, license: string,
                              contact: string, hwid: Option<string>, node: nat)
    ensures var p := c.RegisterPayload(username, password, license, contact, hwid, node);
      && Get(p, "aid") == Some(Some(c.aid))
      && Get(p, "key") == Some(Some(c.apiKey))
  {
    var p := c.RegisterPayload(username, password, license, contact, hwid, node);
    assert Get(p, "aid") == Some(Some(c.aid)) by { GetAt(p, 3); }
    assert Get(p, "key") == Some(Some(c.apiKey)) by { GetAt(p, 4); }
  }

  /** `register` checks no nonce and decrypts nothing: it returns the record
      parsed from an authentic reply unchanged, and it never raises
      `AuthError`. */
  lemma RegisterReturnsParsedRecord(c: Client, username: string, password: string, license: string,
                                    contact: string, hwid: Option<string>, node: nat, post: Transport)
    ensures var out := c.RegisterOutcome(username, password, license, contact, hwid, node, post);
            var request := c.Envelope(REGISTER_PATH, c.RegisterPayload(username, password, license, contact, hwid, node));
      && (out.Success? ==>
            && post(request).Some?
            && c.Authentic(post(request).value)
            && c.lib.parseRegistration(post(request).value.text) == Some(out.value)
            && !out.value.base.ErrorFlagged())
      && (out.Failure? ==> !out.error.AuthError?)
  {
    HandleRequestParsesOnlyAuthenticReplies(c, REGISTER_PATH,
      c.RegisterPayload(username, password, license, contact, hwid, node),
      c.lib.parseRegistration, RegistrationBase, post);
  }
  /** An authentic reply whose record has its error flag set makes
      `register` raise the server's `APIError`. */
  lemma RegisterReportsServerError(c: Client, username: string, password: string, license: string,
                                   contact: string, hwid: Option<string>, node: nat, post: Transport,
                                   reply: Reply, m: RegistrationResponse, d: ErrorDetails)
    requires post(c.Envelope(REGISTER_PATH, c.RegisterPayload(username, password, license, contact, hwid, node))) == Some(reply)
    requires c.Authentic(reply)
    requires c.lib.parseRegistration(reply.text) == Some(m)
    requires m.base.error == Some(true) && m.base.errorDetails == Some(d)
    ensures c.RegisterOutcome(username, password, license, contact, hwid, node, post) ==
            Failure(APIError(ErrorMessage(d)))
  {
  }


  /** The `reset` payload holds exactly username, password, hwid, aid, key
      and resetKey, in that order: no nonce and no hash. */
  lemma ResetPayloadKeys(c: Client, username: string, password: string, resetKey: string,
                         hwid: Option<string>, node: nat)
    ensures var p := c.ResetPayload(username, password, resetKey, hwid, node);
      && Keys(p) == ["username", "password", "hwid", "aid", "key", "resetKey"]
      && "nonce" !in Keys(p) && "hash" !in Keys(p)
  {
    var p := c.ResetPayload(username, password, resetKey, hwid, node);
    assert Keys(p) == ["username", "password", "hwid", "aid", "key", "resetKey"];
  }

  /** The caller's entries of the `reset` payload; the hwid is the caller's
      when truthy, else the host's. */
  lemma ResetPayloadCredentials(c: Client, username: string, password: string, resetKey: string,
                                hwid: Option<string>, node: nat)
    ensures var p := c.ResetPayload(username, password, resetKey, hwid, node);
      && Get(p, "username") == Some(Some(username))
      && Get(p, "password") == Some(Some(password))
      && Get(p, "hwid") == Some(Some(SentHwid(hwid, node)))
      && Get(p, "resetKey") == Some(Some(resetKey))
  {
    var p := c.ResetPayload(username, password, resetKey, hwid, node);
    assert Get(p, "username") == Some(Some(username)) by { GetAt(p, 0); }
    assert Get(p, "password") == Some(Some(password)) by { GetAt(p, 1); }
    assert Get(p, "hwid") == Some(Some(SentHwid(hwid, node))) by { GetAt(p, 2); }
    assert Get(p, "resetKey") == Some(Some(resetKey)) by { GetAt(p, 5); }
  }

  /** The client's entries of the `reset` payload: its aid and API key. */
  lemma ResetPayloadConfig(c: Client, username: string, password: string, resetKey: string,
                           hwid: Option<string>, node: nat)
    ensures var p := c.ResetPayload(username, password, resetKey, hwid, node);
      && Get(p, "aid") == Some(Some(c.aid))
      && Get(p, "key") == Some(Some(c.apiKey))
  {
    var p := c.ResetPayload(username, password, resetKey, hwid, node);
    assert Get(p, "aid") == Some(Some(c.aid)) by { GetAt(p, 3); }
    assert Get(p, "key") == Some(Some(c.apiKey)) by { GetAt(p, 4); }
  }

  /** `reset` checks no nonce and decrypts nothing: it returns the record
      parsed from an authentic reply unchanged, and it never raises
      `AuthError`. */
  lemma ResetReturnsParsedRecord(c: Client, username: string, password: string, resetKey: string,
                                 hwid: Option<string>, node: nat, post: Transport)
    ensures var out := c.ResetOutcome(username, password, resetKey, hwid, node, post);
            var request := c.Envelope(RESET_PATH, c.ResetPayload(username, password, resetKey, hwid, node));
      && (out.Success? ==>
            && post(request).Some?
            && c.Authentic(post(request).value)
            && c.lib.parseReset(post(request).value.text) == Some(out.value)
            && !out.value.base.ErrorFlagged())
      && (out.Failure? ==> !out.error.AuthError?)
  {
    HandleRequestParsesOnlyAuthenticReplies(c, RESET_PATH,
      c.ResetPayload(username, password, resetKey, hwid, node), c.lib.parseReset, ResetBase, post);
  }
  /** An authentic reply whose record has its error flag set makes `reset`
      raise the server's `APIError`. */
  lemma ResetReportsServerError(c: Client, username: string, password: string, resetKey: string,
                                hwid: Option<string>, node: nat, post: Transport,
                                reply: Reply, m: ResetResponse, d: ErrorDetails)
    requires post(c.Envelope(RESET_PATH, c.ResetPayload(username, password, resetKey, hwid, node))) == Some(reply)
    requires c.Authentic(reply)
    requires c.lib.parseReset(reply.text) == Some(m)
    requires m.base.error == Some(true) && m.base.errorDetails == Some(d)
    ensures c.ResetOutcome(username, password, resetKey, hwid, node, post) ==
            Failure(APIError(ErrorMessage(d)))
  {
  }

}
