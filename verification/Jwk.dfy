// JSON web keys and EC signatures: fixed-width big-endian integers as in sections 3.4, 6.2.1
// and 6.3.1 of RFC 7518.
module Jwk {
  import opened Arithmetic
  import opened Wrappers
  import opened Bytes

  /** Base64url; only its inverse law is used. */
  datatype Base64 = Base64(encode: seq<byte> -> string, decode: string -> Option<seq<byte>>)

  ghost predicate Lawful(b64: Base64) {
    && b64.encode([]) == ""
    && forall b :: b64.decode(b64.encode(b)) == Some(b)
  }

  datatype JsonWebKey = JsonWebKey(
    kid: string, kty: string, keyOps: seq<string>,
    n: string, e: string, d: string, p: string, q: string,
    crv: string, x: string, y: string, k: string)

  datatype Curve = P256 | P384 | P521
  datatype RsaPublic = RsaPublic(n: nat, e: nat)
  datatype RsaPrivate = RsaPrivate(pub: RsaPublic, d: nat, primes: Option<(nat, nat)>)
  datatype EcPublic = EcPublic(curve: Curve, x: nat, y: nat)
  datatype EcPrivate = EcPrivate(pub: EcPublic, d: nat)

  datatype KeyMaterial = KeyMaterial(
    rsa: Option<RsaPrivate>, rsaPub: Option<RsaPublic>,
    ecdsa: Option<EcPrivate>, ecdsaPub: Option<EcPublic>,
    aes: Option<seq<byte>>)

  const NO_MATERIAL := KeyMaterial(None, None, None, None, None)

  datatype KeyError =
    | MissingKeyMaterial
    | MissingRsaParts
    | MissingEcCoordinates
    | BadBase64
    | InvalidRsaExponent
    | RsaExponentOutOfRange
    | UnsupportedCurve
    | UnsupportedKeyType
    | NoPrivateKey
    | NoPublicKey

  // ----- padding to a fixed width -----

  function Padded(data: seq<byte>, size: nat): (out: seq<byte>) {
    if |data| >= size then data else Zeros(size - |data|) + data
  }

  /** `padBytes`: a zeroed buffer with the data copied to its end. */
  method PadBytes(data: seq<byte>, size: nat) returns (out: seq<byte>)
    ensures out == Padded(data, size)
  {
    if |data| >= size {
      return data;
    }
    var buf := new byte[size](_ => 0);
    var at := size - |data|;
    forall k | 0 <= k < |data| {
      buf[at + k] := data[k];
    }
    out := buf[..];
  }

  lemma PaddedKeepsValue(data: seq<byte>, size: nat)
    ensures ToNat(Padded(data, size)) == ToNat(data)
  {
    if |data| < size {
      LeadingZeros(size - |data|, data);
    }
  }

  /** A number below 256^size pads to its unique `size`-byte form; any other to more bytes. */
  lemma PaddedWidth(n: nat, size: nat)
    ensures |Padded(MinimalBytes(n), size)| == size <==> n < Pow256(size)
    ensures |Padded(MinimalBytes(n), size)| >= size
    ensures n < Pow256(size) ==> Padded(MinimalBytes(n), size) == ToBytes(n, size)
  {
    MinimalBytesFit(n, size);
    if n < Pow256(size) {
      var s := Padded(MinimalBytes(n), size);
      PaddedKeepsValue(MinimalBytes(n), size);
      MinimalBytesValue(n);
      ToBytesOfValue(s);
    }
  }

  function CoordinateSize(curve: Curve): nat {
    match curve
    case P256 => (256 + 7) / 8
    case P384 => (384 + 7) / 8
    case P521 => (521 + 7) / 8
  }

  function CurveName(curve: Curve): string {
    match curve
    case P256 => "P-256"
    case P384 => "P-384"
    case P521 => "P-521"
  }

  function ResolveCurve(crv: string): Option<Curve> {
    if crv == "" || crv == "P-256" then Some(P256)
    else if crv == "P-384" then Some(P384)
    else if crv == "P-521" then Some(P521)
    else None
  }

  /** The curves by their JWK names, an empty name meaning P-256, and the bytes that hold a field element of theirs. */
  lemma CurvesByName(crv: string)
    ensures ResolveCurve(crv).Some? <==> crv in {"", "P-256", "P-384", "P-521"}
    ensures ResolveCurve(crv).Some? ==>
              var size := CoordinateSize(ResolveCurve(crv).value);
              && (crv == "P-256" || crv == "" ==> size == 32)
              && (crv == "P-384" ==> size == 48)
              && (crv == "P-521" ==> size == 66)
              && (crv != "" ==> CurveName(ResolveCurve(crv).value) == crv)
              && (crv == "" ==> CurveName(ResolveCurve(crv).value) == "P-256")
  {
    assert "P-256"[2] != "P-384"[2] && "P-384"[2] != "P-521"[2] && "P-256"[2] != "P-521"[2];
  }

  // ----- public keys out and in -----

  function RsaToJwk(b64: Base64, kid: string, kty: string, ops: seq<string>, pub: RsaPublic): JsonWebKey {
    JsonWebKey(kid, kty, ops, b64.encode(MinimalBytes(pub.n)), b64.encode(MinimalBytes(pub.e)),
               "", "", "", "", "", "", "")
  }

  function EcdsaToJwk(b64: Base64, kid: string, kty: string, ops: seq<string>, crv: string, pub: EcPublic): JsonWebKey {
    var size := CoordinateSize(pub.curve);
    JsonWebKey(kid, kty, ops, "", "", "", "", "", crv,
               b64.encode(Padded(MinimalBytes(pub.x), size)), b64.encode(Padded(MinimalBytes(pub.y), size)), "")
  }

  function SymmetricToJwk(kid: string, kty: string, ops: seq<string>): JsonWebKey {
    JsonWebKey(kid, kty, ops, "", "", "", "", "", "", "", "", "")
  }

  function DecodeBigInt(b64: Base64, value: string): Option<nat> {
    match b64.decode(value)
    case None => None
    case Some(data) => Some(ToNat(data))
  }

  /** The private part of an RSA key: absent, malformed, or present with or without its primes. */
  function ImportRsaPrivate(b64: Base64, jwk: JsonWebKey, pub: RsaPublic): Result<Option<RsaPrivate>, KeyError> {
    if jwk.d == "" then Ok(None)
    else if DecodeBigInt(b64, jwk.d) == None then Err(BadBase64)
    else
      var d := DecodeBigInt(b64, jwk.d).value;
      if jwk.p == "" || jwk.q == "" then Ok(Some(RsaPrivate(pub, d, None)))
      else match (DecodeBigInt(b64, jwk.p), DecodeBigInt(b64, jwk.q))
        case (Some(p), Some(q)) => Ok(Some(RsaPrivate(pub, d, Some((p, q)))))
        case _ => Err(BadBase64)
  }

  function ImportRsa(b64: Base64, jwk: JsonWebKey, kid: string): Result<(KeyMaterial, JsonWebKey), KeyError> {
    if jwk.n == "" || jwk.e == "" then Err(MissingRsaParts)
    else match (DecodeBigInt(b64, jwk.n), DecodeBigInt(b64, jwk.e))
      case (Some(n), Some(e)) =>
        if e <= 1 then Err(InvalidRsaExponent)
        else if e > MAX_INT then Err(RsaExponentOutOfRange)
        else
          var pub := RsaPublic(n, e);
          (match ImportRsaPrivate(b64, jwk, pub)
           case Err(error) => Err(error)
           case Ok(priv) => Ok((NO_MATERIAL.(rsa := priv, rsaPub := Some(pub)),
                                RsaToJwk(b64, kid, jwk.kty, jwk.keyOps, pub))))
      case _ => Err(BadBase64)
  }

  function ImportEc(b64: Base64, jwk: JsonWebKey, kid: string): Result<(KeyMaterial, JsonWebKey), KeyError> {
    if ResolveCurve(jwk.crv) == None then Err(UnsupportedCurve)
    else if jwk.x == "" || jwk.y == "" then Err(MissingEcCoordinates)
    else match (DecodeBigInt(b64, jwk.x), DecodeBigInt(b64, jwk.y))
      case (Some(x), Some(y)) =>
        var curve := ResolveCurve(jwk.crv).value;
        var pub := EcPublic(curve, x, y);
        var out := EcdsaToJwk(b64, kid, jwk.kty, jwk.keyOps, CurveName(curve), pub);
        if jwk.d == "" then Ok((NO_MATERIAL.(ecdsaPub := Some(pub)), out))
        else (match DecodeBigInt(b64, jwk.d)
              case None => Err(BadBase64)
              case Some(d) => Ok((NO_MATERIAL.(ecdsa := Some(EcPrivate(pub, d)), ecdsaPub := Some(pub)), out)))
      case _ => Err(BadBase64)
  }

  function ImportOct(b64: Base64, jwk: JsonWebKey, kid: string): Result<(KeyMaterial, JsonWebKey), KeyError> {
    if jwk.k == "" then Err(MissingKeyMaterial)
    else match b64.decode(jwk.k)
      case None => Err(BadBase64)
      case Some(key) => Ok((NO_MATERIAL.(aes := Some(key)), SymmetricToJwk(kid, jwk.kty, jwk.keyOps)))
  }

  function ImportKey(b64: Base64, jwk: JsonWebKey, kid: string): Result<(KeyMaterial, JsonWebKey), KeyError> {
    if jwk.kty == "oct" || jwk.kty == "oct-HSM" then ImportOct(b64, jwk, kid)
    else if jwk.kty == "RSA" || jwk.kty == "RSA-HSM" then ImportRsa(b64, jwk, kid)
    else if jwk.kty == "EC" || jwk.kty == "EC-HSM" then ImportEc(b64, jwk, kid)
    else Err(UnsupportedKeyType)
  }

  lemma EncodeNonEmpty(b64: Base64, b: seq<byte>)
    requires Lawful(b64)
    ensures b64.encode(b) == "" <==> b == []
  {
    assert b64.decode(b64.encode(b)) == Some(b) && b64.decode(b64.encode([])) == Some([]);
  }

  lemma PaddedDecodes(b64: Base64, n: nat, size: nat)
    requires Lawful(b64) && size > 0
    ensures var s := b64.encode(Padded(MinimalBytes(n), size)); s != "" && DecodeBigInt(b64, s) == Some(n)
  {
    PaddedKeepsValue(MinimalBytes(n), size);
    MinimalBytesValue(n);
    EncodeNonEmpty(b64, Padded(MinimalBytes(n), size));
  }

  lemma MinimalDecodes(b64: Base64, n: nat)
    requires Lawful(b64)
    ensures var s := b64.encode(MinimalBytes(n)); (s == "" <==> n == 0) && DecodeBigInt(b64, s) == Some(n)
  {
    MinimalBytesValue(n);
    EncodeNonEmpty(b64, MinimalBytes(n));
  }

  /** Section 6.3.1 of RFC 7518: n and e are the modulus and exponent, most significant byte first and none of it zero. */
  lemma RsaJwkFields(b64: Base64, kid: string, kty: string, ops: seq<string>, pub: RsaPublic)
    requires Lawful(b64)
    ensures var jwk := RsaToJwk(b64, kid, kty, ops, pub);
            var n, e := b64.decode(jwk.n), b64.decode(jwk.e);
            && n.Some? && ToNat(n.value) == pub.n && (n.value == [] || n.value[0] != 0)
            && e.Some? && ToNat(e.value) == pub.e && (e.value == [] || e.value[0] != 0)
            && jwk.kid == kid && jwk.kty == kty && jwk.keyOps == ops
            && jwk.d == jwk.p == jwk.q == jwk.crv == jwk.x == jwk.y == jwk.k == ""
  {
    MinimalBytesValue(pub.n);
    MinimalBytesValue(pub.e);
  }

  /** Section 6.2.1 of RFC 7518: x and y are the coordinates, in as many bytes as a field element takes. */
  lemma EcJwkFields(b64: Base64, kid: string, kty: string, ops: seq<string>, crv: string, pub: EcPublic)
    requires Lawful(b64)
    ensures var jwk := EcdsaToJwk(b64, kid, kty, ops, crv, pub);
            var x, y, size := b64.decode(jwk.x), b64.decode(jwk.y), CoordinateSize(pub.curve);
            && x.Some? && ToNat(x.value) == pub.x && (pub.x < Pow256(size) ==> |x.value| == size)
            && y.Some? && ToNat(y.value) == pub.y && (pub.y < Pow256(size) ==> |y.value| == size)
            && jwk.kid == kid && jwk.kty == kty && jwk.keyOps == ops && jwk.crv == crv
            && jwk.n == jwk.e == jwk.d == jwk.p == jwk.q == jwk.k == ""
  {
    var size := CoordinateSize(pub.curve);
    PaddedDecodes(b64, pub.x, size);
    PaddedDecodes(b64, pub.y, size);
    PaddedWidth(pub.x, size);
    PaddedWidth(pub.y, size);
  }

  lemma KeyTypesDiffer()
    ensures "oct" != "RSA" && "oct" != "RSA-HSM" && "oct" != "EC" && "oct" != "EC-HSM"
    ensures "oct-HSM" != "RSA" && "oct-HSM" != "RSA-HSM" && "oct-HSM" != "EC" && "oct-HSM" != "EC-HSM"
    ensures "RSA" != "EC" && "RSA" != "EC-HSM" && "RSA-HSM" != "EC" && "RSA-HSM" != "EC-HSM"
  {
    assert "oct"[0] == "oct-HSM"[0] == 'o' && "RSA"[0] == "RSA-HSM"[0] == 'R' && "EC"[0] == "EC-HSM"[0] == 'E';
  }

  /** A field that decodes to this number. */
  ghost predicate Holds(b64: Base64, field: string, n: nat) {
    field != "" && b64.decode(field).Some? && ToNat(b64.decode(field).value) == n
  }

  /**
   * Importing an RSA private key takes modulus, exponent and private exponent from n, e and d, and the
   * primes from p and q if both are there; the JWK that comes back has the public part alone.
   */
  lemma RsaPrivateImport(b64: Base64, jwk: JsonWebKey, kid: string, n: nat, e: nat, d: nat, p: nat, q: nat)
    requires Lawful(b64) && (jwk.kty == "RSA" || jwk.kty == "RSA-HSM")
    requires Holds(b64, jwk.n, n) && Holds(b64, jwk.e, e) && Holds(b64, jwk.d, d) && 2 <= e <= MAX_INT
    requires jwk.p != "" && jwk.q != "" ==> Holds(b64, jwk.p, p) && Holds(b64, jwk.q, q)
    ensures var r, pub := ImportKey(b64, jwk, kid), RsaPublic(n, e);
            && r.Ok? && r.value.1 == RsaToJwk(b64, kid, jwk.kty, jwk.keyOps, pub)
            && r.value.0.rsaPub == Some(pub) && r.value.0.rsa.Some? && r.value.0.rsa.value.pub == pub
            && r.value.0.rsa.value.d == d
            && r.value.0.rsa.value.primes == (if jwk.p != "" && jwk.q != "" then Some((p, q)) else None)
            && r.value.0.ecdsa == None && r.value.0.ecdsaPub == None && r.value.0.aes == None
  {
    KeyTypesDiffer();
  }

  /** Importing an EC private key takes curve, coordinates and private number from crv, x, y and d. */
  lemma EcPrivateImport(b64: Base64, jwk: JsonWebKey, kid: string, x: nat, y: nat, d: nat)
    requires Lawful(b64) && (jwk.kty == "EC" || jwk.kty == "EC-HSM") && ResolveCurve(jwk.crv).Some?
    requires Holds(b64, jwk.x, x) && Holds(b64, jwk.y, y) && Holds(b64, jwk.d, d)
    ensures var r, pub := ImportKey(b64, jwk, kid), EcPublic(ResolveCurve(jwk.crv).value, x, y);
            && r.Ok? && r.value.0.ecdsaPub == Some(pub) && r.value.0.ecdsa == Some(EcPrivate(pub, d))
            && r.value.1 == EcdsaToJwk(b64, kid, jwk.kty, jwk.keyOps, CurveName(pub.curve), pub)
            && r.value.0.rsa == None && r.value.0.rsaPub == None && r.value.0.aes == None
  {
    KeyTypesDiffer();
  }

  /** Importing a symmetric key keeps its bytes, and none of them in the JWK that comes back. */
  lemma OctImport(b64: Base64, jwk: JsonWebKey, kid: string, key: seq<byte>)
    requires Lawful(b64) && (jwk.kty == "oct" || jwk.kty == "oct-HSM") && jwk.k != "" && b64.decode(jwk.k) == Some(key)
    ensures var r := ImportKey(b64, jwk, kid);
            && r.Ok? && r.value.0.aes == Some(key) && r.value.1.k == "" && r.value.1.kid == kid
            && r.value.1.kty == jwk.kty && r.value.1.keyOps == jwk.keyOps
            && r.value.0.rsa == None && r.value.0.rsaPub == None && r.value.0.ecdsa == None && r.value.0.ecdsaPub == None
  {
    KeyTypesDiffer();
  }

  /** What importing refuses, by kind: other types, missing or undecodable parts, and exponents out of 2..2^63-1. */
  lemma ImportRefuses(b64: Base64, jwk: JsonWebKey, kid: string)
    requires Lawful(b64)
    ensures var r := ImportKey(b64, jwk, kid);
            && (r == Err(UnsupportedKeyType) <==> jwk.kty !in {"oct", "oct-HSM", "RSA", "RSA-HSM", "EC", "EC-HSM"})
            && (jwk.kty in {"oct", "oct-HSM"} ==> (r == Err(MissingKeyMaterial) <==> jwk.k == ""))
            && (jwk.kty in {"RSA", "RSA-HSM"} ==> (r == Err(MissingRsaParts) <==> jwk.n == "" || jwk.e == ""))
            && (jwk.kty in {"EC", "EC-HSM"} ==> (r == Err(UnsupportedCurve) <==> jwk.crv !in {"", "P-256", "P-384", "P-521"}))
            && (jwk.kty in {"EC", "EC-HSM"} && r != Err(UnsupportedCurve) ==>
                  (r == Err(MissingEcCoordinates) <==> jwk.x == "" || jwk.y == ""))
            && (jwk.kty in {"RSA", "RSA-HSM"} && jwk.n != "" && jwk.e != ""
                && b64.decode(jwk.n).Some? && b64.decode(jwk.e).Some? ==>
                  var e := ToNat(b64.decode(jwk.e).value);
                  && (r == Err(InvalidRsaExponent) <==> e < 2)
                  && (r == Err(RsaExponentOutOfRange) <==> e > 0x7FFF_FFFF_FFFF_FFFF))
  {
    KeyTypesDiffer();
    CurvesByName(jwk.crv);
  }

  /** A part that is not base64url is refused as such, once the parts are there. */
  lemma UndecodableRefused(b64: Base64, jwk: JsonWebKey, kid: string)
    requires Lawful(b64)
    ensures var r := ImportKey(b64, jwk, kid);
            && (jwk.kty in {"oct", "oct-HSM"} && jwk.k != "" ==> (r == Err(BadBase64) <==> b64.decode(jwk.k) == None))
            && (jwk.kty in {"EC", "EC-HSM"} && ResolveCurve(jwk.crv).Some? && jwk.x != "" && jwk.y != "" ==>
                  (r == Err(BadBase64) <==> b64.decode(jwk.x) == None || b64.decode(jwk.y) == None
                                            || (jwk.d != "" && b64.decode(jwk.d) == None)))
            && (jwk.kty in {"RSA", "RSA-HSM"} && jwk.n != "" && jwk.e != ""
                && (b64.decode(jwk.n) == None || b64.decode(jwk.e) == None) ==>
                  r == Err(BadBase64))
  {
    KeyTypesDiffer();
  }

  /** Importing an exported EC public key gives the same curve and coordinates, and the same JWK again. */
  lemma EcKeyRoundTrip(b64: Base64, kid: string, kty: string, ops: seq<string>, pub: EcPublic)
    requires Lawful(b64) && (kty == "EC" || kty == "EC-HSM")
    ensures var jwk := EcdsaToJwk(b64, kid, kty, ops, CurveName(pub.curve), pub);
            ImportKey(b64, jwk, kid) == Ok((NO_MATERIAL.(ecdsaPub := Some(pub)), jwk))
  {
    var size := CoordinateSize(pub.curve);
    PaddedDecodes(b64, pub.x, size);
    PaddedDecodes(b64, pub.y, size);
    assert ResolveCurve(CurveName(pub.curve)) == Some(pub.curve) by {
      assert "P-256"[2] != "P-384"[2] && "P-384"[2] != "P-521"[2] && "P-256"[2] != "P-521"[2];
    }
    assert kty[0] == 'E' && kty != "oct" && kty != "oct-HSM" && kty != "RSA" && kty != "RSA-HSM" by {
      assert "oct"[0] == "oct-HSM"[0] == 'o' && "RSA"[0] == "RSA-HSM"[0] == 'R';
    }
  }

  /** The same for RSA, for exactly the keys whose modulus is not zero and whose exponent the program admits. */
  lemma RsaKeyRoundTripIff(b64: Base64, kid: string, kty: string, ops: seq<string>, pub: RsaPublic)
    requires Lawful(b64) && (kty == "RSA" || kty == "RSA-HSM")
    ensures var jwk := RsaToJwk(b64, kid, kty, ops, pub);
            ImportKey(b64, jwk, kid) == Ok((NO_MATERIAL.(rsaPub := Some(pub)), jwk))
            <==> pub.n > 0 && 2 <= pub.e <= MAX_INT
  {
    MinimalDecodes(b64, pub.n);
    MinimalDecodes(b64, pub.e);
    assert kty[0] == 'R' && kty != "oct" && kty != "oct-HSM" by {
      assert "oct"[0] == "oct-HSM"[0] == 'o';
    }
  }

  // ----- EC signatures -----

  /** `Sign` for an EC key, (r, s) being what the curve library produced. */
  function SignEc(material: KeyMaterial, r: nat, s: nat): Result<seq<byte>, KeyError> {
    match material.ecdsa
    case None => Err(NoPrivateKey)
    case Some(priv) =>
      var size := CoordinateSize(priv.pub.curve);
      Ok(Padded(MinimalBytes(r), size) + Padded(MinimalBytes(s), size))
  }

  /** `Verify` for an EC key, `check` being the curve library's verdict on the digest. */
  function VerifyEc(material: KeyMaterial, signature: seq<byte>,
                    check: (EcPublic, nat, nat) -> bool): Result<bool, KeyError> {
    var pub := if material.ecdsa.Some? then Some(material.ecdsa.value.pub) else material.ecdsaPub;
    match pub
    case None => Err(NoPublicKey)
    case Some(key) =>
      var size := CoordinateSize(key.curve);
      if |signature| != size * 2 then Ok(false)
      else Ok(check(key, ToNat(signature[..size]), ToNat(signature[size..])))
  }

  /** Section 3.4 of RFC 7518: a signature is r and then s, each in as many bytes as a field element takes. */
  lemma SignatureLayout(material: KeyMaterial, r: nat, s: nat)
    requires material.ecdsa.Some?
    requires var bound := Pow256(CoordinateSize(material.ecdsa.value.pub.curve)); r < bound && s < bound
    ensures var size, signature := CoordinateSize(material.ecdsa.value.pub.curve), SignEc(material, r, s);
            && signature.Ok? && |signature.value| == 2 * size
            && ToNat(signature.value[..size]) == r && ToNat(signature.value[size..]) == s
  {
    var size := CoordinateSize(material.ecdsa.value.pub.curve);
    PaddedWidth(r, size);
    PaddedWidth(s, size);
    ToBytesValue(r, size);
    ToBytesValue(s, size);
    var signature := SignEc(material, r, s).value;
    assert signature[..size] == ToBytes(r, size) && signature[size..] == ToBytes(s, size);
  }

  /** Signing needs the private key, verifying either; a signature of another length is not accepted. */
  lemma SigningKeys(material: KeyMaterial, r: nat, s: nat, signature: seq<byte>, check: (EcPublic, nat, nat) -> bool)
    ensures SignEc(material, r, s) == Err(NoPrivateKey) <==> material.ecdsa == None
    ensures VerifyEc(material, signature, check) == Err(NoPublicKey) <==> material.ecdsa == None && material.ecdsaPub == None
    ensures material.ecdsa == None && material.ecdsaPub.Some?
            && |signature| != 2 * CoordinateSize(material.ecdsaPub.value.curve) ==>
              VerifyEc(material, signature, check) == Ok(false)
  {
  }

  /** Verification sees the very (r, s) that signing packed, unless one of them outgrows its field. */
  lemma SignatureRoundTrip(material: KeyMaterial, r: nat, s: nat, check: (EcPublic, nat, nat) -> bool)
    requires material.ecdsa.Some?
    ensures var pub := material.ecdsa.value.pub;
            var bound := Pow256(CoordinateSize(pub.curve));
            VerifyEc(material, SignEc(material, r, s).value, check) == Ok(r < bound && s < bound && check(pub, r, s))
  {
    var size := CoordinateSize(material.ecdsa.value.pub.curve);
    PaddedWidth(r, size);
    PaddedWidth(s, size);
    var rb, sb := Padded(MinimalBytes(r), size), Padded(MinimalBytes(s), size);
    if |rb + sb| == size * 2 {
      assert (rb + sb)[..size] == rb && (rb + sb)[size..] == sb;
      ToBytesValue(r, size);
      ToBytesValue(s, size);
    }
  }

  /** A public key imported from its own JWK gives the verdict on a signature that the private key's owner gets. */
  lemma ImportedKeyVerifies(b64: Base64, kid: string, ops: seq<string>, priv: EcPrivate, r: nat, s: nat,
                            check: (EcPublic, nat, nat) -> bool)
    requires Lawful(b64)
    ensures var own := NO_MATERIAL.(ecdsa := Some(priv));
            var imported := ImportKey(b64, EcdsaToJwk(b64, kid, "EC", ops, CurveName(priv.pub.curve), priv.pub), kid);
            var bound := Pow256(CoordinateSize(priv.pub.curve));
            && imported.Ok? && SignEc(own, r, s).Ok?
            && VerifyEc(imported.value.0, SignEc(own, r, s).value, check) == VerifyEc(own, SignEc(own, r, s).value, check)
            && VerifyEc(own, SignEc(own, r, s).value, check) == Ok(r < bound && s < bound && check(priv.pub, r, s))
  {
    EcKeyRoundTrip(b64, kid, "EC", ops, priv.pub);
    SignatureRoundTrip(NO_MATERIAL.(ecdsa := Some(priv)), r, s, check);
  }
}
