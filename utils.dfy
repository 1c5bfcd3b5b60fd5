/** The helpers of `aiovegetable/utils.py`: the generators of default
    nonces and hardware ids, response signature checking and the decryption
    of one variable. */
module Utils {
  import opened Wrappers
  import opened Exceptions
  import opened Foreign

  // ---------------------------------------------------------------------
  // Text of integers, as Python's `str` and `'%x'` formatting write it

  function Pow16(w: nat): (p: nat)
    ensures p >= 1
  {
    if w == 0 then 1 else 16 * Pow16(w - 1)
  }

  predicate IsHexDigit(c: char) {
    '0' <= c <= '9' || 'a' <= c <= 'f'
  }

  function HexDigit(d: nat): (c: char)
    requires d < 16
    ensures IsHexDigit(c)
  {
    if d < 10 then ('0' as int + d) as char else ('a' as int + d - 10) as char
  }

  function HexDigitValue(c: char): nat {
    if '0' <= c <= '9' then c as int - '0' as int
    else if 'a' <= c <= 'f' then c as int - 'a' as int + 10
    else 0
  }

  /** The last `w` lower-case hex digits of `n`, zero-padded: `'%0wx' % n`
      when `n < 16^w`. */
  function Hex(n: nat, w: nat): (s: string)
    ensures |s| == w
    ensures forall i :: 0 <= i < |s| ==> IsHexDigit(s[i])
  {
    if w == 0 then [] else Hex(n / 16, w - 1) + [HexDigit(n % 16)]
  }

  /** The number a string of hex digits denotes. */
  function HexValue(s: string): nat {
    if s == [] then 0 else HexValue(s[..|s| - 1]) * 16 + HexDigitValue(s[|s| - 1])
  }

  lemma {:induction false} HexRoundTrip(n: nat, w: nat)
    requires n < Pow16(w)
    ensures HexValue(Hex(n, w)) == n
  {
    if w > 0 {
      HexRoundTrip(n / 16, w - 1);
      var s := Hex(n, w);
      assert s[..|s| - 1] == Hex(n / 16, w - 1);
    }
  }

  /** The decimal text of `n`: `str(n)`. */
  function Decimal(n: nat): (s: string)
    ensures s != []
    ensures forall i :: 0 <= i < |s| ==> '0' <= s[i] <= '9'
  {
    if n < 10 then [('0' as int + n) as char]
    else Decimal(n / 10) + [('0' as int + n % 10) as char]
  }

  /** The number a string of decimal digits denotes. */
  function DecimalValue(s: string): nat {
    if s == [] then 0
    else
      var c := s[|s| - 1];
      DecimalValue(s[..|s| - 1]) * 10 + (if '0' <= c <= '9' then c as int - '0' as int else 0)
  }

  lemma {:induction false} DecimalRoundTrip(n: nat)
    ensures DecimalValue(Decimal(n)) == n
  {
    if n >= 10 {
      DecimalRoundTrip(n / 10);
      var s := Decimal(n);
      assert s[..|s| - 1] == Decimal(n / 10);
    }
  }

  // ---------------------------------------------------------------------
  // generate_random_string and get_hwid

  /** The 128-bit value of a UUID. Which value `uuid.uuid4()` draws is the
      caller's input to the model. */
  type Uuid = n: nat | n < Pow16(32)

  /** `str(uuid.uuid4())`: the canonical 8-4-4-4-12 text of the UUID drawn. */
  function GenerateRandomString(u: Uuid): (s: string)
    ensures |s| == 36
    ensures s[8] == '-' && s[13] == '-' && s[18] == '-' && s[23] == '-'
    ensures forall i :: 0 <= i < |s| && i != 8 && i != 13 && i != 18 && i != 23 ==> IsHexDigit(s[i])
  {
    var h := Hex(u, 32);
    var s := h[..8] + "-" + h[8..12] + "-" + h[12..16] + "-" + h[16..20] + "-" + h[20..];
    assert forall i :: 0 <= i < 8 ==> s[i] == h[i];
    assert forall i :: 9 <= i < 13 ==> s[i] == h[i - 1];
    assert forall i :: 14 <= i < 18 ==> s[i] == h[i - 2];
    assert forall i :: 19 <= i < 23 ==> s[i] == h[i - 3];
    assert forall i :: 24 <= i < 36 ==> s[i] == h[i - 4];
    s
  }

  /** Distinct UUIDs give distinct nonces: the text keeps every digit. */
  lemma GenerateRandomStringInjective(u1: Uuid, u2: Uuid)
    requires GenerateRandomString(u1) == GenerateRandomString(u2)
    ensures u1 == u2
  {
    forall u: Uuid ensures HexOfUuidText(GenerateRandomString(u)) == Hex(u, 32) {
      var h, s := Hex(u, 32), GenerateRandomString(u);
      assert s[..8] == h[..8];
      assert s[9..13] == h[8..12];
      assert s[14..18] == h[12..16];
      assert s[19..23] == h[16..20];
      assert s[24..] == h[20..];
      assert h == h[..8] + h[8..12] + h[12..16] + h[16..20] + h[20..];
    }
    HexRoundTrip(u1, 32);
    HexRoundTrip(u2, 32);
  }

  /** The digits of a UUID text with its four dashes taken out. */
  function HexOfUuidText(s: string): string
    requires |s| == 36
  {
    s[..8] + s[9..13] + s[14..18] + s[19..23] + s[24..]
  }

  /** `str(uuid.getnode())`: the decimal text of the host's node id, which
      the caller supplies. */
  function GetHwid(node: nat): (s: string)
    ensures s != []
    ensures forall i :: 0 <= i < |s| ==> '0' <= s[i] <= '9'
  {
    Decimal(node)
  }

  /** Distinct node ids give distinct hardware ids. */
  lemma GetHwidInjective(node1: nat, node2: nat)
    requires GetHwid(node1) == GetHwid(node2)
    ensures node1 == node2
  {
    DecimalRoundTrip(node1);
    DecimalRoundTrip(node2);
  }

  // ---------------------------------------------------------------------
  // verify_hmac

  /** `verify_hmac`: the hex HMAC-SHA256 of the raw body under the secret,
      compared with the signature by plain string equality. */
  function VerifyHmac(lib: Library, rawBody: Bytes, clientSignature: string, hmacSecret: Bytes): bool {
    lib.hmacSha256Hex(hmacSecret, rawBody) == clientSignature
  }

  /** The check accepts exactly one signature for a body and a secret: the
      one the signing construction produces, so a signature made by that
      construction always passes. */
  lemma VerifyHmacAcceptsExactlyTheSignature(lib: Library, rawBody: Bytes, clientSignature: string, hmacSecret: Bytes)
    ensures VerifyHmac(lib, rawBody, lib.hmacSha256Hex(hmacSecret, rawBody), hmacSecret)
    ensures VerifyHmac(lib, rawBody, clientSignature, hmacSecret) <==>
            clientSignature == lib.hmacSha256Hex(hmacSecret, rawBody)
  {
  }

  // ---------------------------------------------------------------------
  // decrypt_variable

  /** `decrypt_variable`: base64-decode, RSA-decrypt with the key, then
      UTF-8-decode. The exception of the first step that fails propagates. */
  function DecryptVariable(lib: Library, variable: string, key: PrivateKey): (r: Result<string, Error>)
    ensures r.Failure? ==> r.error in {Base64Error, DecryptionError, UnicodeDecodeError}
  {
    match lib.b64Decode(variable)
    case None => Failure(Base64Error)
    case Some(decoded) =>
      match lib.rsaDecrypt(decoded, key)
      case None => Failure(DecryptionError)
      case Some(decrypted) =>
        match lib.utf8Decode(decrypted)
        case None => Failure(UnicodeDecodeError)
        case Some(plaintext) => Success(plaintext)
  }

  /** The value returned is the plaintext exactly when every step
      succeeds; a step that fails makes the call fail, so nothing partial
      is ever returned. */
  lemma DecryptVariableSucceedsIffEveryStepDoes(lib: Library, variable: string, key: PrivateKey)
    ensures DecryptVariable(lib, variable, key).Success? <==>
      && lib.b64Decode(variable).Some?
      && lib.rsaDecrypt(lib.b64Decode(variable).value, key).Some?
      && lib.utf8Decode(lib.rsaDecrypt(lib.b64Decode(variable).value, key).value).Some?
    ensures DecryptVariable(lib, variable, key).Success? ==>
      DecryptVariable(lib, variable, key).value ==
        lib.utf8Decode(lib.rsaDecrypt(lib.b64Decode(variable).value, key).value).value
  {
  }

  /** Round trip with the service's side: whenever base64 decoding undoes
      `b64Encode`, RSA decryption under `key` undoes `rsaEncrypt` and UTF-8
      decoding undoes encoding, a plaintext UTF-8-encoded, encrypted and
      base64-encoded decrypts back to itself. */
  lemma DecryptVariableRoundTrip(lib: Library, key: PrivateKey, b64Encode: Bytes -> string,
                                 rsaEncrypt: Bytes -> Bytes, plaintext: string)
    requires forall b :: lib.b64Decode(b64Encode(b)) == Some(b)
    requires forall m :: lib.rsaDecrypt(rsaEncrypt(m), key) == Some(m)
    requires forall s :: lib.utf8Decode(lib.utf8Encode(s)) == Some(s)
    ensures DecryptVariable(lib, b64Encode(rsaEncrypt(lib.utf8Encode(plaintext))), key) == Success(plaintext)
  {
  }
}
