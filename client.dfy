/** `aiovegetable.client.Client`: builds the request of each operation,
    signs and posts it, checks the reply's signature, parses it and checks
    its error flag; `authenticate` also checks the echoed nonce and decrypts
    the account variables. */
module Client {
  import opened Wrappers
  import opened Dicts
  import opened Exceptions
  import opened Responses
  import opened Foreign
  import opened Utils

  const SIGNATURE_HEADER := "x-vege-signature"
  const VERIFY_FAILED := "failed to verify hmac"
  const NONCE_MISMATCH := "nonce does not match"
  const AUTHENTICATE_PATH := "/api/v4/authenticate"
  const REGISTER_PATH := "/api/v4/register"
  const RESET_PATH := "/api/v4/reset"

  /** Python truthiness of an `Optional[str]`: present and not empty. */
  predicate Truthy(s: Option<string>) {
    s.Some? && s.value != ""
  }

  /** The text of an `APIError` for a record whose error flag is set. */
  function ErrorMessage(d: ErrorDetails): string {
    d.errorType + ": " + d.explanation
  }

  /** The key setup of `Client.__init__`: a falsy key text gives no key;
      otherwise the UTF-8 bytes of the text are loaded as a PKCS#1 key. */
  function LoadPrivateKey(lib: Library, rsaPrivateKey: Option<string>): (r: Result<Option<PrivateKey>, Error>)
    ensures r == Success(None) <==> !Truthy(rsaPrivateKey)
    ensures r.Failure? <==> Truthy(rsaPrivateKey) && lib.loadPkcs1(lib.utf8Encode(rsaPrivateKey.value)).None?
    ensures r.Failure? ==> r.error == KeyLoadError
    ensures r.Success? && r.value.Some? ==>
      lib.loadPkcs1(lib.utf8Encode(rsaPrivateKey.value)) == Some(r.value.value)
  {
    if Truthy(rsaPrivateKey) then
      match lib.loadPkcs1(lib.utf8Encode(rsaPrivateKey.value))
      case None => Failure(KeyLoadError)
      case Some(k) => Success(Some(k))
    else Success(None)
  }

  /** The HWID placed in a payload: the caller's when truthy, else the
      host's. */
  function SentHwid(hwid: Option<string>, node: nat): string {
    if Truthy(hwid) then hwid.value else GetHwid(node)
  }

  /** The nonce placed in an `authenticate` payload: the caller's when
      truthy, else a fresh UUID text. */
  function SentNonce(nonce: Option<string>, uuid: Uuid): string {
    if Truthy(nonce) then nonce.value else GenerateRandomString(uuid)
  }

  /** Decrypts every variable in iteration order; the first failure ends
      the pass with its exception. */
  function DecryptVariables(lib: Library, vars: Variables, key: PrivateKey): (r: Result<Variables, Error>)
    ensures r.Success? <==> forall i :: 0 <= i < |vars| ==> DecryptVariable(lib, vars[i].1, key).Success?
    ensures r.Failure? ==> r.error in {Base64Error, DecryptionError, UnicodeDecodeError}
    ensures r.Success? ==>
      && |r.value| == |vars|
      && forall i :: 0 <= i < |vars| ==>
           r.value[i] == (vars[i].0, DecryptVariable(lib, vars[i].1, key).value)
    ensures forall i :: 0 <= i < |vars| && !DecryptVariable(lib, vars[i].1, key).Success? &&
                        (forall j :: 0 <= j < i ==> DecryptVariable(lib, vars[j].1, key).Success?) ==>
                        r == Failure(DecryptVariable(lib, vars[i].1, key).error)
  {
    if vars == [] then Success([])
    else
      match DecryptVariable(lib, vars[0].1, key)
      case Failure(e) => Failure(e)
      case Success(plaintext) =>
        match DecryptVariables(lib, vars[1..], key)
        case Failure(e) => Failure(e)
        case Success(rest) => Success([(vars[0].0, plaintext)] + rest)
  }

  /** The loop of `authenticate` that overwrites each variable, in
      iteration order, with its decryption; an exception ends it. */
  method DecryptAll(lib: Library, variables: Variables, key: PrivateKey) returns (r: Result<Variables, Error>)
    ensures r == DecryptVariables(lib, variables, key)
  {
    var vars := variables;
    var i := 0;
    while i < |vars|
      invariant 0 <= i <= |vars| == |variables|
      invariant forall j :: 0 <= j < i ==> DecryptVariable(lib, variables[j].1, key).Success?
      invariant forall j :: 0 <= j < i ==>
        vars[j] == (variables[j].0, DecryptVariable(lib, variables[j].1, key).value)
      invariant forall j :: i <= j < |vars| ==> vars[j] == variables[j]
    {
      var plaintext := DecryptVariable(lib, vars[i].1, key);
      if plaintext.Failure? {
        return Failure(plaintext.error);
      }
      vars := vars[i := (vars[i].0, plaintext.value)];
      i := i + 1;
    }
    ghost var expected := DecryptVariables(lib, variables, key);
    assert expected.Success?;
    assert expected.value == vars by {
      assert forall j :: 0 <= j < |vars| ==> expected.value[j] == vars[j];
    }
    return Success(vars);
  }

  /** The `BaseResponse` part of each record type. */
  function AuthBase(m: AuthResponse): BaseResponse { m.base }
  function RegistrationBase(m: RegistrationResponse): BaseResponse { m.base }
  function ResetBase(m: ResetResponse): BaseResponse { m.base }

  class Client {
    const aid: string
    const apiKey: string
    const clientSecret: Bytes
    const rsaPrivateKey: Option<PrivateKey>
    const lib: Library

    /** `Client.__init__`. The aiohttp session it opens belongs to the
        transport, which each operation takes as a parameter. */
    constructor (aid: string, apiKey: string, clientSecret: string, rsaPrivateKey: Option<string>, lib: Library)
      requires LoadPrivateKey(lib, rsaPrivateKey).Success?
      ensures this.aid == aid && this.apiKey == apiKey && this.lib == lib
      ensures this.clientSecret == lib.utf8Encode(clientSecret)
      ensures this.rsaPrivateKey == LoadPrivateKey(lib, rsaPrivateKey).value
    {
      this.aid := aid;
      this.apiKey := apiKey;
      this.clientSecret := lib.utf8Encode(clientSecret);
      this.rsaPrivateKey := LoadPrivateKey(lib, rsaPrivateKey).value;
      this.lib := lib;
    }

    /** The reply carries the signature header and it is the HMAC of the
        reply's raw body under the client secret. */
    predicate Authentic(reply: Reply) {
      && SIGNATURE_HEADER in reply.headers
      && VerifyHmac(lib, lib.utf8Encode(reply.text), reply.headers[SIGNATURE_HEADER], clientSecret)
    }

    /** The body that is posted: `json.dumps(data)` encoded as UTF-8. */
    function Body(data: Payload): Bytes {
      lib.utf8Encode(lib.jsonDumps(data))
    }

    /** `_get_headers`: the signature header over the serialised body. */
    function GetHeaders(data: Payload): map<string, string> {
      map[SIGNATURE_HEADER := lib.hmacSha256Hex(clientSecret, Body(data))]
    }

    /** What `_handle_request` posts for `data`. */
    function Envelope(path: string, data: Payload): Request {
      Request(path, Body(data), GetHeaders(data))
    }

    /** `_parse_response`: parse the body, then raise when the error flag is
        set. */
    function ParseResponse<R>(text: string, parse: string -> Option<R>, baseOf: R -> BaseResponse): Result<R, Error> {
      match parse(text)
      case None => Failure(ParseError)
      case Some(record) =>
        if !baseOf(record).ErrorFlagged() then Success(record)
        else if baseOf(record).errorDetails.None? then Failure(AttributeError)
        else Failure(APIError(ErrorMessage(baseOf(record).errorDetails.value)))
    }

    /** `_handle_request`: post the signed body, verify the reply's
        signature over its raw body, and only then parse it. */
    function HandleRequest<R>(path: string, data: Payload, parse: string -> Option<R>,
                              baseOf: R -> BaseResponse, post: Transport): Result<R, Error>
    {
      match post(Envelope(path, data))
      case None => Failure(TransportError)
      case Some(reply) =>
        if SIGNATURE_HEADER !in reply.headers then Failure(KeyError(SIGNATURE_HEADER))
        else if VerifyHmac(lib, lib.utf8Encode(reply.text), reply.headers[SIGNATURE_HEADER], clientSecret) then
          ParseResponse(reply.text, parse, baseOf)
        else Failure(APIError(VERIFY_FAILED))
    }

    /** The `authenticate` payload: username, password, hwid, nonce, aid,
        key, then hash only when given. */
    function AuthPayload(username: string, password: string, hwid: Option<string>, nonce: Option<string>,
                         hash: Option<string>, node: nat, uuid: Uuid): Payload
    {
      [("username", Some(username)), ("password", Some(password)), ("hwid", Some(SentHwid(hwid, node))),
       ("nonce", Some(SentNonce(nonce, uuid))), ("aid", Some(aid)), ("key", Some(apiKey))]
      + (if Truthy(hash) then [("hash", hash)] else [])
    }

    /** What `authenticate` returns or raises. */
    function AuthenticateOutcome(username: string, password: string, hwid: Option<string>, nonce: Option<string>,
                                 hash: Option<string>, node: nat, uuid: Uuid, post: Transport): Result<AuthResponse, Error>
    {
      var data := AuthPayload(username, password, hwid, nonce, hash, node, uuid);
      match HandleRequest(AUTHENTICATE_PATH, data, lib.parseAuth, AuthBase, post)
      case Failure(e) => Failure(e)
      case Success(model) => CheckAuthResponse(data, model)
    }

    /** What `authenticate` does with the record `_handle_request` returned
        for the payload `data`: compare the echoed nonce with the one sent,
        then decrypt the variables when there is a key and a variable map. */
    function CheckAuthResponse(data: Payload, model: AuthResponse): Result<AuthResponse, Error> {
      if Get(data, "nonce") != Some(model.nonce) then Failure(AuthError(NONCE_MISMATCH))
      else if rsaPrivateKey.Some? && model.variables.Some? then
        match DecryptVariables(lib, model.variables.value, rsaPrivateKey.value)
        case Failure(e) => Failure(e)
        case Success(vars) => Success(model.(variables := Some(vars)))
      else Success(model)
    }

    /** The payload `authenticate` builds: a literal with the caller's
        hwid and nonce, then updated in place where they are falsy, and the
        hash appended when given. */
    method BuildAuthPayload(username: string, password: string, hwid: Option<string>, nonce: Option<string>,
                            hash: Option<string>, node: nat, uuid: Uuid)
      returns (data: Payload)
      ensures data == AuthPayload(username, password, hwid, nonce, hash, node, uuid)
    {
      data := [("username", Some(username)), ("password", Some(password)), ("hwid", hwid),
                            ("nonce", nonce), ("aid", Some(aid)), ("key", Some(apiKey))];
      if !Truthy(hwid) {
        PutAt(data, "hwid", 2, Some(GetHwid(node)));
        data := Put(data, "hwid", Some(GetHwid(node)));
      }
      if !Truthy(nonce) {
        PutAt(data, "nonce", 3, Some(GenerateRandomString(uuid)));
        data := Put(data, "nonce", Some(GenerateRandomString(uuid)));
      }
      if Truthy(hash) {
        PutNew(data, "hash", hash);
        data := Put(data, "hash", hash);
      }
    }

    /** `authenticate`. */
    method Authenticate(username: string, password: string, hwid: Option<string>, nonce: Option<string>,
                        hash: Option<string>, node: nat, uuid: Uuid, post: Transport)
      returns (r: Result<AuthResponse, Error>)
      ensures r == AuthenticateOutcome(username, password, hwid, nonce, hash, node, uuid, post)
    {
      var data := BuildAuthPayload(username, password, hwid, nonce, hash, node, uuid);
      var handled := HandleRequest(AUTHENTICATE_PATH, data, lib.parseAuth, AuthBase, post);
      if handled.Failure? {
        return Failure(handled.error);
      }
      var model := handled.value;
      if Get(data, "nonce") != Some(model.nonce) {
        return Failure(AuthError(NONCE_MISMATCH));
      }
      if rsaPrivateKey.Some? && model.variables.Some? {
        var decrypted := DecryptAll(lib, model.variables.value, rsaPrivateKey.value);
        if decrypted.Failure? {
          return Failure(decrypted.error);
        }
        model := model.(variables := Some(decrypted.value));
      }
      return Success(model);
    }

    /** The `register` payload: username, password, hwid, aid, key,
        license, contact. */
    function RegisterPayload(username: string, password: string, license: string, contact: string,
                             hwid: Option<string>, node: nat): Payload
    {
      [("username", Some(username)), ("password", Some(password)), ("hwid", Some(SentHwid(hwid, node))),
       ("aid", Some(aid)), ("key", Some(apiKey)), ("license", Some(license)), ("contact", Some(contact))]
    }

    /** What `register` returns or raises. */
    function RegisterOutcome(username: string, password: string, license: string, contact: string,
                             hwid: Option<string>, node: nat, post: Transport): Result<RegistrationResponse, Error>
    {
      HandleRequest(REGISTER_PATH, RegisterPayload(username, password, license, contact, hwid, node),
                    lib.parseRegistration, RegistrationBase, post)
    }

    /** `register`. */
    method Register(username: string, password: string, license: string, contact: string,
                    hwid: Option<string>, node: nat, post: Transport)
      returns (r: Result<RegistrationResponse, Error>)
      ensures r == RegisterOutcome(username, password, license, contact, hwid, node, post)
    {
      var data: Payload := [("username", Some(username)), ("password", Some(password)), ("hwid", hwid),
                            ("aid", Some(aid)), ("key", Some(apiKey)), ("license", Some(license)),
                            ("contact", Some(contact))];
      if !Truthy(hwid) {
        PutAt(data, "hwid", 2, Some(GetHwid(node)));
        data := Put(data, "hwid", Some(GetHwid(node)));
      }
      assert data == RegisterPayload(username, password, license, contact, hwid, node);
      r := HandleRequest(REGISTER_PATH, data, lib.parseRegistration, RegistrationBase, post);
    }

    /** The `reset` payload: username, password, hwid, aid, key, resetKey. */
    function ResetPayload(username: string, password: string, resetKey: string, hwid: Option<string>, node: nat): Payload
    {
      [("username", Some(username)), ("password", Some(password)), ("hwid", Some(SentHwid(hwid, node))),
       ("aid", Some(aid)), ("key", Some(apiKey)), ("resetKey", Some(resetKey))]
    }

    /** What `reset` returns or raises. */
    function ResetOutcome(username: string, password: string, resetKey: string, hwid: Option<string>,
                          node: nat, post: Transport): Result<ResetResponse, Error>
    {
      HandleRequest(RESET_PATH, ResetPayload(username, password, resetKey, hwid, node),
                    lib.parseReset, ResetBase, post)
    }

    /** `reset`. */
    method Reset(username: string, password: string, resetKey: string, hwid: Option<string>,
                 node: nat, post: Transport)
      returns (r: Result<ResetResponse, Error>)
      ensures r == ResetOutcome(username, password, resetKey, hwid, node, post)
    {
      var data: Payload := [("username", Some(username)), ("password", Some(password)), ("hwid", hwid),
                            ("aid", Some(aid)), ("key", Some(apiKey)), ("resetKey", Some(resetKey))];
      if !Truthy(hwid) {
        PutAt(data, "hwid", 2, Some(GetHwid(node)));
        data := Put(data, "hwid", Some(GetHwid(node)));
      }
      assert data == ResetPayload(username, password, resetKey, hwid, node);
      r := HandleRequest(RESET_PATH, data, lib.parseReset, ResetBase, post);
    }
  }
}
