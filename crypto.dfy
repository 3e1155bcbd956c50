/** The cryptographic service of the client (web/src/app/services/crypto.service.ts).

    The WebCrypto, base64-js and TextEncoder/TextDecoder calls are foreign code: they are
    the arrow-typed fields of `Primitives`, and what the service relies on them for is
    stated by the predicate `Sound`.  What is modelled exactly is the plumbing between
    them and the lower-case hexadecimal rendering of the SHA-256 digest. */
module Crypto {
  import opened Wrappers

  type byte = x: int | 0 <= x < 256

  // ---------------------------------------------------------------------------
  // Hexadecimal rendering of a digest: Array.from + map + join

  /** The digit that `Number.prototype.toString(16)` prints for a value below 16. */
  function HexDigit(n: int): (c: char)
    requires 0 <= n < 16
  {
    if n < 10 then ('0' as int + n) as char else ('a' as int + n - 10) as char
  }

  /** The characters `toString(16)` may print: `0-9a-f`. */
  predicate IsLowerHexDigit(c: char) {
    '0' <= c <= '9' || 'a' <= c <= 'f'
  }

  /** `n.toString(16)` for a non-negative integer: its base-16 digits, most significant
      first, without leading zeros ("0" for zero). */
  function ToRadix16(n: nat): (s: string)
    ensures 1 <= |s|
    ensures forall j :: 0 <= j < |s| ==> IsLowerHexDigit(s[j])
    decreases n
  {
    if n < 16 then [HexDigit(n)] else ToRadix16(n / 16) + [HexDigit(n % 16)]
  }

  /** `('00' + b.toString(16)).slice(-2)`: the last two characters of the padded digits. */
  function ByteToHex(b: byte): (s: string)
    ensures |s| == 2 && IsLowerHexDigit(s[0]) && IsLowerHexDigit(s[1])
  {
    var padded := "00" + ToRadix16(b);
    padded[|padded| - 2..]
  }

  /** The padded rendering of one byte is its high nibble digit followed by its low one. */
  lemma ByteToHexDigits(b: byte)
    ensures ByteToHex(b) == [HexDigit(b / 16), HexDigit(b % 16)]
  {
    if b < 16 {
      assert ToRadix16(b) == [HexDigit(b)];
      assert "00" + ToRadix16(b) == ['0', '0', HexDigit(b)];
      assert HexDigit(b / 16) == '0';
    } else {
      assert ToRadix16(b / 16) == [HexDigit(b / 16)];
      assert ToRadix16(b) == [HexDigit(b / 16), HexDigit(b % 16)];
    }
  }

  /** `hashArray.map(b => …).join('')`: each byte in turn, as two lower-case hex digits. */
  function Hex(bytes: seq<byte>): (s: string)
    ensures |s| == 2 * |bytes|
    ensures forall j :: 0 <= j < |s| ==> IsLowerHexDigit(s[j])
  {
    if bytes == [] then ""
    else
      ByteToHexDigits(bytes[0]);
      ByteToHex(bytes[0]) + Hex(bytes[1..])
  }

  /** Characters 2i and 2i+1 of the rendering encode byte i, high nibble first. */
  lemma {:induction false} HexAt(bytes: seq<byte>, i: nat)
    requires i < |bytes|
    ensures Hex(bytes)[2 * i] == HexDigit(bytes[i] / 16)
    ensures Hex(bytes)[2 * i + 1] == HexDigit(bytes[i] % 16)
  {
    ByteToHexDigits(bytes[0]);
    if i > 0 {
      HexAt(bytes[1..], i - 1);
    }
  }

  /** The value of a lower-case hex digit; the inverse of `HexDigit`. */
  function DigitValue(c: char): (r: Option<int>)
    ensures r.Some? <==> IsLowerHexDigit(c)
    ensures r.Some? ==> 0 <= r.value < 16 && HexDigit(r.value) == c
  {
    if '0' <= c <= '9' then Some(c as int - '0' as int)
    else if 'a' <= c <= 'f' then Some(c as int - 'a' as int + 10)
    else None
  }

  /** Reads a hex rendering back into bytes, two digits per byte. */
  function FromHex(s: string): Option<seq<byte>>
    decreases |s|
  {
    if |s| == 0 then Some([])
    else if |s| == 1 then None
    else
      match (DigitValue(s[0]), DigitValue(s[1]), FromHex(s[2..]))
      case (Some(hi), Some(lo), Some(rest)) => Some([hi * 16 + lo] + rest)
      case _ => None
  }

  /** De-hexing the rendering gives back the digest bytes. */
  lemma {:induction false} FromHexInvertsHex(bytes: seq<byte>)
    ensures FromHex(Hex(bytes)) == Some(bytes)
  {
    if bytes != [] {
      var b := bytes[0];
      ByteToHexDigits(b);
      FromHexInvertsHex(bytes[1..]);
      FromHexPair(b, Hex(bytes[1..]));
      assert [b] + bytes[1..] == bytes;
    }
  }

  /** Reading back one rendered byte in front of the rest. */
  lemma FromHexPair(b: byte, rest: string)
    ensures FromHex([HexDigit(b / 16), HexDigit(b % 16)] + rest) ==
      match FromHex(rest) case Some(tail) => Some([b] + tail) case None => None
  {
    var s := [HexDigit(b / 16), HexDigit(b % 16)] + rest;
    assert s[2..] == rest;
    assert DigitValue(s[0]) == Some(b / 16);
    assert DigitValue(s[1]) == Some(b % 16);
  }

  /** Distinct digests have distinct renderings. */
  lemma HexInjective(a: seq<byte>, b: seq<byte>)
    requires Hex(a) == Hex(b)
    ensures a == b
  {
    FromHexInvertsHex(a);
    FromHexInvertsHex(b);
  }

  // ---------------------------------------------------------------------------
  // Keys and the foreign primitives

  /** An opaque WebCrypto key handle. */
  datatype PublicKey = PublicKey(handle: nat)
  datatype PrivateKey = PrivateKey(handle: nat)

  /** The `CryptoKeyPair` generated once, when the service is constructed. */
  datatype KeyPair = KeyPair(publicKey: PublicKey, privateKey: PrivateKey)

  /** The library and platform calls the service makes; `None` is a thrown error or a
      rejected promise. */
  datatype Primitives = Primitives(
    utf8Encode: string -> seq<byte>,                           // new TextEncoder().encode
    utf8Decode: seq<byte> -> string,                           // new TextDecoder('utf-8').decode
    base64Encode: seq<byte> -> string,                         // base64-js fromByteArray
    base64Decode: string -> Option<seq<byte>>,                 // base64-js toByteArray
    exportSpki: PublicKey -> seq<byte>,                        // subtle.exportKey('spki', …)
    importSpki: seq<byte> -> Option<PublicKey>,                // subtle.importKey('spki', …, RSA-OAEP)
    rsaEncrypt: (PublicKey, seq<byte>) -> Option<seq<byte>>,   // subtle.encrypt(RSA-OAEP, …)
    rsaDecrypt: (PrivateKey, seq<byte>) -> Option<seq<byte>>,  // subtle.decrypt(RSA-OAEP, …)
    sha256: seq<byte> -> seq<byte>)                            // subtle.digest('SHA-256', …)

  /** The service: the primitives together with the session's key pair. */
  datatype CryptoService = CryptoService(prims: Primitives, keys: KeyPair) {

    function GetPublicKey(): PublicKey {
      keys.publicKey
    }

    /** The base64 text of the SPKI export of the public key, as stored once the
        key pair has been generated. */
    function GetBase64PublicKey(): (r: string)
      ensures Sound() ==> prims.base64Decode(r) == Some(prims.exportSpki(keys.publicKey))
      ensures Sound() ==> DecodeBase64PublicKey(r) == Some(GetPublicKey())
    {
      prims.base64Encode(prims.exportSpki(keys.publicKey))
    }

    /** `decodeBase64PublicKey`: base64 text to bytes, then an SPKI import for RSA-OAEP. */
    function DecodeBase64PublicKey(base64Encoded: string): (r: Option<PublicKey>)
      ensures prims.base64Decode(base64Encoded).None? ==> r.None?
      ensures prims.base64Decode(base64Encoded).Some? ==>
        r == prims.importSpki(prims.base64Decode(base64Encoded).value)
    {
      match prims.base64Decode(base64Encoded)
      case None => None
      case Some(bytes) => prims.importSpki(bytes)
    }

    /** `encrypt`: UTF-8 bytes of the text, RSA-OAEP under the given key, base64 text. */
    function Encrypt(text: string, publicKey: PublicKey): (r: Option<string>)
      ensures r.Some? <==> prims.rsaEncrypt(publicKey, prims.utf8Encode(text)).Some?
      ensures Sound() && r.Some? ==>
        prims.base64Decode(r.value) == prims.rsaEncrypt(publicKey, prims.utf8Encode(text))
    {
      match prims.rsaEncrypt(publicKey, prims.utf8Encode(text))
      case None => None
      case Some(encrypted) => Some(prims.base64Encode(encrypted))
    }

    /** `decrypt`: base64 text to bytes, RSA-OAEP with the own private key, UTF-8 text. */
    function Decrypt(base64Encoded: string): (r: Option<string>)
      ensures r.Some? <==>
        && prims.base64Decode(base64Encoded).Some?
        && prims.rsaDecrypt(keys.privateKey, prims.base64Decode(base64Encoded).value).Some?
      ensures r.Some? ==>
        r.value == prims.utf8Decode(prims.rsaDecrypt(keys.privateKey, prims.base64Decode(base64Encoded).value).value)
    {
      match prims.base64Decode(base64Encoded)
      case None => None
      case Some(bytes) =>
        match prims.rsaDecrypt(keys.privateKey, bytes)
        case None => None
        case Some(decrypted) => Some(prims.utf8Decode(decrypted))
    }

    /** `sha256`: the hex rendering of the SHA-256 digest of the UTF-8 bytes. */
    function Sha256(message: string): (r: string)
      ensures |r| == 2 * |prims.sha256(prims.utf8Encode(message))|
      ensures FromHex(r) == Some(prims.sha256(prims.utf8Encode(message)))
    {
      FromHexInvertsHex(prims.sha256(prims.utf8Encode(message)));
      Hex(prims.sha256(prims.utf8Encode(message)))
    }

    /** What the service assumes of the foreign code: UTF-8 decoding inverts encoding,
        base64 decoding inverts encoding, importing the SPKI export of the own public key
        gives that key back, RSA-OAEP decryption with the private key inverts a
        successful encryption under the matching public key, and a SHA-256 digest has
        32 bytes. */
    ghost predicate Sound() {
      && (forall t :: prims.utf8Decode(prims.utf8Encode(t)) == t)
      && (forall b :: prims.base64Decode(prims.base64Encode(b)) == Some(b))
      && prims.importSpki(prims.exportSpki(keys.publicKey)) == Some(keys.publicKey)
      && (forall m, c ::
            prims.rsaEncrypt(keys.publicKey, m) == Some(c) ==>
            prims.rsaDecrypt(keys.privateKey, c) == Some(m))
      && (forall m :: |prims.sha256(m)| == 32)
    }
  }

  /** A message encrypted for the own public key decrypts to itself. */
  lemma DecryptEncryptRoundTrip(svc: CryptoService, text: string, ciphertext: string)
    requires svc.Sound()
    requires svc.Encrypt(text, svc.GetPublicKey()) == Some(ciphertext)
    ensures svc.Decrypt(ciphertext) == Some(text)
  {
    var data := svc.prims.utf8Encode(text);
    var encrypted := svc.prims.rsaEncrypt(svc.keys.publicKey, data).value;
    assert svc.prims.base64Decode(ciphertext) == Some(encrypted);
    assert svc.prims.rsaDecrypt(svc.keys.privateKey, encrypted) == Some(data);
  }

  /** The digest text is 64 lower-case hex digits and depends only on the UTF-8 bytes
      of the secret, so equal secrets give equal digests. */
  lemma Sha256Digest(svc: CryptoService, a: string, b: string)
    requires svc.Sound()
    ensures |svc.Sha256(a)| == 64
    ensures forall j :: 0 <= j < 64 ==> IsLowerHexDigit(svc.Sha256(a)[j])
    ensures svc.prims.utf8Encode(a) == svc.prims.utf8Encode(b) ==> svc.Sha256(a) == svc.Sha256(b)
  {
  }
}
