/** The password and envelope layer of `src/crypto.js`. PBKDF2 with SHA-256,
    AES-GCM, UTF-8 (`TextEncoder`/`TextDecoder`) and JSON are foreign calls; they
    are function-valued fields of `Primitives`, and what the code relies on them
    for is stated once, as the predicate `Sound`. Randomness
    (`crypto.getRandomValues`) is a parameter. On top of those the module proves
    the credential and envelope plumbing. */
module Crypto {
  import opened Wrappers
  import opened JsValue
  import JsText
  import opened Base64

  /** PBKDF2 iteration count and output size, and the sizes of salt and iv. */
  const Iterations: nat := 100000
  const KeyBits: nat := 256
  const SaltLength: nat := 16
  const IvLength: nat := 12

  /** Characters a pairing code is drawn from. */
  const PairingAlphabet: string := "ABCDEFGHIJKLMNOPQRSTUVWXYZ0123456789"
  const PairingCodeLength: nat := 6

  /** A source of random bytes: the i-th byte `crypto.getRandomValues` writes. */
  type Random = nat -> Byte

  datatype Primitives = Primitives(
    /** `TextEncoder.encode` */
    utf8Encode: string -> seq<Byte>,
    /** `TextDecoder.decode` */
    utf8Decode: seq<Byte> -> string,
    /** PBKDF2-HMAC-SHA-256 (password bytes, salt, iterations, output bits) */
    pbkdf2: (seq<Byte>, seq<Byte>, nat, nat) -> seq<Byte>,
    /** AES-GCM encryption (key, iv, plaintext); the result includes the tag */
    aesGcmEncrypt: (seq<Byte>, seq<Byte>, seq<Byte>) -> seq<Byte>,
    /** AES-GCM decryption (key, iv, ciphertext); None when `decrypt` rejects */
    aesGcmDecrypt: (seq<Byte>, seq<Byte>, seq<Byte>) -> Option<seq<Byte>>,
    /** `JSON.stringify` */
    stringify: Value -> string,
    /** `JSON.parse`; None when it throws */
    parse: string -> Option<Value>)

  /** What the code relies on the primitives for: UTF-8 decoding inverts
      encoding on the text `JSON.stringify` produces (which escapes lone
      surrogates, so it is always well-formed; for arbitrary text `TextEncoder`
      replaces them and the round trip would not hold), PBKDF2 yields the
      requested number of bits, AES-GCM decryption with the same key and iv
      inverts encryption, and JSON parsing inverts stringifying for values
      without `undefined` or NaN. (Determinism needs no axiom: the primitives
      are functions.) */
  ghost predicate Sound(P: Primitives)
  {
    && (forall v :: P.utf8Decode(P.utf8Encode(P.stringify(v))) == P.stringify(v))
    && (forall pwd: seq<Byte>, salt: seq<Byte>, n: nat, bits: nat :: |P.pbkdf2(pwd, salt, n, bits)| == bits / 8)
    && (forall key, iv, pt :: P.aesGcmDecrypt(key, iv, P.aesGcmEncrypt(key, iv, pt)) == Some(pt))
    && (forall v :: JsonSafe(v) ==> P.parse(P.stringify(v)) == Some(v))
  }

  /** `crypto.getRandomValues(new Uint8Array(n))` */
  function RandomBytes(rnd: Random, n: nat): (r: seq<Byte>)
    ensures |r| == n
    ensures forall i :: 0 <= i < n ==> r[i] == rnd(i)
  {
    seq(n, (i: int) requires 0 <= i => rnd(i))
  }

  /** `generateSalt()`: sixteen random bytes. */
  function GenerateSalt(rnd: Random): (salt: seq<Byte>)
    ensures |salt| == SaltLength
    ensures forall i :: 0 <= i < SaltLength ==> salt[i] == rnd(i)
  {
    RandomBytes(rnd, SaltLength)
  }

  /** The 256 bits PBKDF2 derives from a password and salt. `deriveBits` with 256
      bits and `deriveKey` for AES-GCM with length 256 both take exactly these
      bits, so the same function gives the password hash and the AES key. */
  function DerivedBits(P: Primitives, pwd: string, salt: seq<Byte>): seq<Byte>
  {
    P.pbkdf2(P.utf8Encode(pwd), salt, Iterations, KeyBits)
  }

  /** The `{hash, salt}` pair `hashPassword` returns. */
  datatype PasswordHash = PasswordHash(hash: string, salt: string)

  /** `hashPassword(pwd)`: a fresh salt, and the base64 of the PBKDF2 bits of the
      password under that salt. */
  function HashPassword(P: Primitives, pwd: string, rnd: Random): PasswordHash
  {
    var salt := GenerateSalt(rnd);
    PasswordHash(Ab2Base64(DerivedBits(P, pwd, salt)), Ab2Base64(salt))
  }

  /** The salt text is 24 characters and, with 256-bit PBKDF2, the hash text 44. */
  lemma HashPasswordLengths(P: Primitives, pwd: string, rnd: Random)
    ensures var r := HashPassword(P, pwd, rnd);
      && |r.salt| == 24
      && (Sound(P) ==> |r.hash| == 44)
  {
    var salt := GenerateSalt(rnd);
    var bits := DerivedBits(P, pwd, salt);
    Ab2Base64Length(salt);
    Ab2Base64Length(bits);
    if Sound(P) {
      assert |bits| == KeyBits / 8 == 32;
    }
  }

  /** Both fields of `hashPassword`'s result decode back to the bytes used: the
      salt to the 16 generated bytes, the hash to the derived bits; the salt text
      is 24 characters and, with 256-bit PBKDF2, the hash text 44. */
  lemma HashPasswordSpec(P: Primitives, pwd: string, rnd: Random)
    ensures var r := HashPassword(P, pwd, rnd);
      && Base64ToBytes(r.salt) == Ok(GenerateSalt(rnd))
      && Base64ToBytes(r.hash) == Ok(DerivedBits(P, pwd, GenerateSalt(rnd)))
      && |r.salt| == 24
      && (Sound(P) ==> |r.hash| == 44)
  {
    var salt := GenerateSalt(rnd);
    RoundTrip(salt);
    RoundTrip(DerivedBits(P, pwd, salt));
    HashPasswordLengths(P, pwd, rnd);
  }

  /** Errors of the envelope and credential functions. `atob` failures in
      `base642ab` and a destructuring of null or undefined happen outside the
      `try` and propagate as they are; everything inside the `try` becomes the
      one error "Invalid password or corrupted data". */
  datatype CryptoError =
    | Base64Failure(cause: DomError)
    | DestructuringFailure
    | DecryptionFailed

  function Message(e: CryptoError): string
  {
    match e
    case Base64Failure(_) => "The string to be decoded is not correctly encoded."
    case DestructuringFailure => "Cannot destructure an undefined or null envelope"
    case DecryptionFailed => "Invalid password or corrupted data"
  }

  /** `base642ab(String(v))`: `atob` converts its argument to a string first. */
  function DecodeField(v: Value): Result<seq<Byte>, CryptoError>
  {
    match Base64ToBytes(JsText.ToStr(v))
    case Ok(b) => Ok(b)
    case Err(e) => Err(Base64Failure(e))
  }

  /** A field holding the base64 of some bytes decodes to those bytes. */
  lemma DecodeEncoded(b: seq<Byte>)
    ensures DecodeField(Str(Ab2Base64(b))) == Ok(b)
  {
    RoundTrip(b);
  }

  /** `verifyPassword(pwd, storedHash, storedSalt)`: decodes the salt (a failure
      propagates), derives the bits and compares their base64 with `===`. */
  function VerifyPassword(P: Primitives, pwd: string, storedHash: Value, storedSalt: Value): Result<bool, CryptoError>
  {
    match DecodeField(storedSalt)
    case Err(e) => Err(e)
    case Ok(salt) => Ok(Str(Ab2Base64(DerivedBits(P, pwd, salt))) == storedHash)
  }

  /** For a salt that decodes, verification is true exactly when the stored hash
      is the string base64(PBKDF2(pwd, salt, 100000, 256 bits)). */
  lemma VerifyPasswordIff(P: Primitives, pwd: string, storedHash: Value, salt: seq<Byte>)
    ensures VerifyPassword(P, pwd, storedHash, Str(Ab2Base64(salt))) == Ok(true)
        <==> storedHash == Str(Ab2Base64(DerivedBits(P, pwd, salt)))
    ensures VerifyPassword(P, pwd, storedHash, Str(Ab2Base64(salt))).Ok?
  {
    RoundTrip(salt);
  }

  /** A password verifies against the `{hash, salt}` that hashing it produced. */
  lemma VerifyOwnHash(P: Primitives, pwd: string, rnd: Random)
    ensures var h := HashPassword(P, pwd, rnd);
      VerifyPassword(P, pwd, Str(h.hash), Str(h.salt)) == Ok(true)
  {
    RoundTrip(GenerateSalt(rnd));
  }

  /** A missing salt is converted to the string "undefined", nine characters, which
      `atob` rejects: verification then throws instead of returning false. */
  lemma VerifyMissingSaltThrows(P: Primitives, pwd: string, storedHash: Value)
    ensures VerifyPassword(P, pwd, storedHash, Undefined) == Err(Base64Failure(InvalidCharacterError))
  {
    assert |JsText.ToStr(Undefined)| == 9;
    RejectsRemainderOne(JsText.ToStr(Undefined));
  }

  /** The object `encryptData` returns. */
  function EnvelopeValue(encrypted: string, iv: string, salt: string): Value
  {
    Obj(map["encrypted" := Str(encrypted), "iv" := Str(iv), "salt" := Str(salt)])
  }

  /** `encryptData(data, pwd)`: a fresh salt, a key derived from it, a fresh 12-byte
      iv, and the AES-GCM encryption of the UTF-8 of the JSON text. */
  function EncryptData(P: Primitives, data: Value, pwd: string, saltRnd: Random, ivRnd: Random): Value
  {
    var salt := GenerateSalt(saltRnd);
    var iv := RandomBytes(ivRnd, IvLength);
    var encrypted := P.aesGcmEncrypt(DerivedBits(P, pwd, salt), iv, P.utf8Encode(P.stringify(data)));
    EnvelopeValue(Ab2Base64(encrypted), Ab2Base64(iv), Ab2Base64(salt))
  }

  /** The envelope has exactly the fields `encrypted`, `iv` and `salt`, each the
      base64 of the bytes used: the salt is the one the key was derived from, the
      iv is 12 bytes. */
  lemma EnvelopeSpec(P: Primitives, data: Value, pwd: string, saltRnd: Random, ivRnd: Random)
    ensures var r := EncryptData(P, data, pwd, saltRnd, ivRnd);
      && r.Obj? && r.fields.Keys == {"encrypted", "iv", "salt"}
      && DecodeField(r.fields["salt"]) == Ok(GenerateSalt(saltRnd))
      && DecodeField(r.fields["iv"]) == Ok(RandomBytes(ivRnd, IvLength))
      && |RandomBytes(ivRnd, IvLength)| == 12
      && DecodeField(r.fields["encrypted"])
         == Ok(P.aesGcmEncrypt(DerivedBits(P, pwd, GenerateSalt(saltRnd)), RandomBytes(ivRnd, IvLength),
                               P.utf8Encode(P.stringify(data))))
  {
    var salt := GenerateSalt(saltRnd);
    var iv := RandomBytes(ivRnd, IvLength);
    var encrypted := P.aesGcmEncrypt(DerivedBits(P, pwd, salt), iv, P.utf8Encode(P.stringify(data)));
    assert EncryptData(P, data, pwd, saltRnd, ivRnd) == EnvelopeValue(Ab2Base64(encrypted), Ab2Base64(iv), Ab2Base64(salt));
    EnvelopeDecodes(encrypted, iv, salt);
  }

  /** Each field of the envelope built from three byte strings decodes to the
      bytes it was built from. */
  lemma EnvelopeDecodes(encrypted: seq<Byte>, iv: seq<Byte>, salt: seq<Byte>)
    ensures var r := EnvelopeValue(Ab2Base64(encrypted), Ab2Base64(iv), Ab2Base64(salt));
      && r.Obj? && r.fields.Keys == {"encrypted", "iv", "salt"}
      && DecodeField(r.fields["salt"]) == Ok(salt)
      && DecodeField(r.fields["iv"]) == Ok(iv)
      && DecodeField(r.fields["encrypted"]) == Ok(encrypted)
  {
    DecodeEncoded(salt);
    DecodeEncoded(iv);
    DecodeEncoded(encrypted);
    EnvelopeFields(Ab2Base64(encrypted), Ab2Base64(iv), Ab2Base64(salt), encrypted, iv, salt);
  }

  lemma EnvelopeFields(e: string, i: string, s: string, eb: seq<Byte>, ib: seq<Byte>, sb: seq<Byte>)
    requires DecodeField(Str(e)) == Ok(eb) && DecodeField(Str(i)) == Ok(ib) && DecodeField(Str(s)) == Ok(sb)
    ensures var r := EnvelopeValue(e, i, s);
      && r.Obj? && r.fields.Keys == {"encrypted", "iv", "salt"}
      && DecodeField(r.fields["salt"]) == Ok(sb)
      && DecodeField(r.fields["iv"]) == Ok(ib)
      && DecodeField(r.fields["encrypted"]) == Ok(eb)
  {
    var r := EnvelopeValue(e, i, s);
    assert r.fields["salt"] == Str(s) && r.fields["iv"] == Str(i) && r.fields["encrypted"] == Str(e);
  }

  /** A property of the destructured envelope: absent on a primitive or a missing key. */
  function Field(envelope: Value, key: string): Value
  {
    if envelope.Obj? then Get(envelope.fields, key) else Undefined
  }

  /** The step inside the `try`: AES-GCM decryption, UTF-8 decoding and
      `JSON.parse`; every failure becomes DecryptionFailed. */
  function DecryptAndParse(P: Primitives, key: seq<Byte>, iv: seq<Byte>, encrypted: seq<Byte>): Result<Value, CryptoError>
  {
    match P.aesGcmDecrypt(key, iv, encrypted)
    case None => Err(DecryptionFailed)
    case Some(plain) =>
      match P.parse(P.utf8Decode(plain))
      case None => Err(DecryptionFailed)
      case Some(v) => Ok(v)
  }

  /** `decryptData(envelope, pwd)`: destructures the envelope, decodes salt,
      ciphertext and iv in that order (outside the `try`), derives the key, then
      decrypts and parses. No length or shape check is made on the fields. */
  function DecryptData(P: Primitives, envelope: Value, pwd: string): (r: Result<Value, CryptoError>)
    ensures r.Err? && r.error.DestructuringFailure? <==> envelope == Undefined || envelope == Null
  {
    if envelope == Undefined || envelope == Null then Err(DestructuringFailure)
    else
      match DecodeField(Field(envelope, "salt"))
      case Err(e) => Err(e)
      case Ok(salt) =>
        var key := DerivedBits(P, pwd, salt);
        match DecodeField(Field(envelope, "encrypted"))
        case Err(e) => Err(e)
        case Ok(encrypted) =>
          match DecodeField(Field(envelope, "iv"))
          case Err(e) => Err(e)
          case Ok(iv) => DecryptAndParse(P, key, iv, encrypted)
  }

  /** Decryption with the same password inverts encryption, for any data JSON can
      carry unchanged. */
  lemma DecryptEncrypt(P: Primitives, data: Value, pwd: string, saltRnd: Random, ivRnd: Random)
    requires Sound(P)
    requires JsonSafe(data)
    ensures DecryptData(P, EncryptData(P, data, pwd, saltRnd, ivRnd), pwd) == Ok(data)
  {
    var env := EncryptData(P, data, pwd, saltRnd, ivRnd);
    EnvelopeSpec(P, data, pwd, saltRnd, ivRnd);
    var salt := GenerateSalt(saltRnd);
    var key := DerivedBits(P, pwd, salt);
    var iv := RandomBytes(ivRnd, IvLength);
    var encrypted := P.aesGcmEncrypt(key, iv, P.utf8Encode(P.stringify(data)));
    DecryptOfDecoded(P, env, pwd, salt, encrypted, iv);
    DecryptAndParseOfEncrypted(P, key, iv, data);
  }

  /** With all three fields decoded, `decryptData` is the step inside the `try`. */
  lemma DecryptOfDecoded(P: Primitives, envelope: Value, pwd: string, salt: seq<Byte>, encrypted: seq<Byte>, iv: seq<Byte>)
    requires envelope.Obj? && envelope.fields.Keys == {"encrypted", "iv", "salt"}
    requires DecodeField(envelope.fields["salt"]) == Ok(salt)
    requires DecodeField(envelope.fields["encrypted"]) == Ok(encrypted)
    requires DecodeField(envelope.fields["iv"]) == Ok(iv)
    ensures DecryptData(P, envelope, pwd) == DecryptAndParse(P, DerivedBits(P, pwd, salt), iv, encrypted)
  {
    assert Field(envelope, "salt") == envelope.fields["salt"];
    assert Field(envelope, "encrypted") == envelope.fields["encrypted"];
    assert Field(envelope, "iv") == envelope.fields["iv"];
  }

  /** Decrypting and parsing what was encrypted under the same key and iv gives
      the data back. */
  lemma DecryptAndParseOfEncrypted(P: Primitives, key: seq<Byte>, iv: seq<Byte>, data: Value)
    requires Sound(P)
    requires JsonSafe(data)
    ensures DecryptAndParse(P, key, iv, P.aesGcmEncrypt(key, iv, P.utf8Encode(P.stringify(data)))) == Ok(data)
  {
    var plain := P.utf8Encode(P.stringify(data));
    assert P.aesGcmDecrypt(key, iv, P.aesGcmEncrypt(key, iv, plain)) == Some(plain);
    assert P.utf8Decode(plain) == P.stringify(data);
  }

  /** Which error `decryptData` raises: a field that does not decode gives the
      `atob` error unchanged, and only a failure of decryption or parsing, with
      all three fields decoded, gives "Invalid password or corrupted data". */
  lemma DecryptFailureKinds(P: Primitives, envelope: Value, pwd: string)
    requires envelope != Undefined && envelope != Null
    ensures var decoded := DecodeField(Field(envelope, "salt")).Ok?
                        && DecodeField(Field(envelope, "encrypted")).Ok?
                        && DecodeField(Field(envelope, "iv")).Ok?;
      && (!decoded <==> DecryptData(P, envelope, pwd) == Err(Base64Failure(InvalidCharacterError)))
      && (DecryptData(P, envelope, pwd) == Err(DecryptionFailed) <==>
            decoded &&
            var key := DerivedBits(P, pwd, DecodeField(Field(envelope, "salt")).value);
            var iv := DecodeField(Field(envelope, "iv")).value;
            var encrypted := DecodeField(Field(envelope, "encrypted")).value;
            (P.aesGcmDecrypt(key, iv, encrypted).None?
             || P.parse(P.utf8Decode(P.aesGcmDecrypt(key, iv, encrypted).value)).None?))
  {
  }

  // ---- pairing codes ----

  predicate IsPairingChar(c: char)
  {
    'A' <= c <= 'Z' || '0' <= c <= '9'
  }

  /** Six characters from A–Z and 0–9. */
  predicate IsPairingCode(s: string)
  {
    |s| == PairingCodeLength && forall i :: 0 <= i < |s| ==> IsPairingChar(s[i])
  }

  /** Every pairing character is reached by some byte, and every byte maps to a
      pairing character. */
  lemma PairingAlphabetIsUpperAndDigits(b: Byte, c: char)
    ensures IsPairingChar(PairingAlphabet[b % 36])
    ensures IsPairingChar(c) ==>
      var v := if c <= '9' then c as int - '0' as int + 26 else c as int - 'A' as int;
      0 <= v < 36 && PairingAlphabet[v] == c
  {
  }

  /** The code that the random bytes `rnd` select: character i is the
      alphabet entry at byte i modulo 36. */
  function PairingCodeOf(rnd: Random): (code: string)
    ensures |code| == PairingCodeLength
    ensures forall i :: 0 <= i < PairingCodeLength ==> code[i] == PairingAlphabet[rnd(i) % |PairingAlphabet|]
  {
    seq(PairingCodeLength, (i: int) requires 0 <= i => PairingAlphabet[rnd(i) % |PairingAlphabet|])
  }

  /** `generatePairingCode()`: six random bytes, each reduced modulo 36 and used as
      an index into the pairing alphabet, appended one by one. */
  method GeneratePairingCode(rnd: Random) returns (code: string)
    ensures code == PairingCodeOf(rnd)
    ensures |code| == PairingCodeLength
    ensures forall i :: 0 <= i < PairingCodeLength ==> code[i] == PairingAlphabet[rnd(i) % |PairingAlphabet|]
    ensures IsPairingCode(code)
  {
    var randomBytes := RandomBytes(rnd, PairingCodeLength);
    code := "";
    for i := 0 to PairingCodeLength
      invariant |code| == i
      invariant forall k :: 0 <= k < i ==> code[k] == PairingAlphabet[randomBytes[k] % |PairingAlphabet|]
      invariant forall k :: 0 <= k < i ==> IsPairingChar(code[k])
    {
      PairingAlphabetIsUpperAndDigits(randomBytes[i], 'A');
      code := code + [PairingAlphabet[randomBytes[i] % |PairingAlphabet|]];
    }
  }

  /** Upper-casing leaves a pairing code unchanged. */
  lemma UpperPairingCode(s: string)
    requires IsPairingCode(s)
    ensures JsText.ToUpper(s) == s
  {
  }
}
