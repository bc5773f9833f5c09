// Framing of encrypted strings: a nonce followed by the sealed text, written in hexadecimal.
module Encryption {
  import opened Wrappers
  import opened Bytes

  const NONCE_SIZE := 12
  const KEY_SIZE := 32

  type Key = seq<byte>
  type Nonce = n: seq<byte> | |n| == 12 witness Zeros(12)

  /** AES-GCM; Go strings are byte strings, so the text is sealed and opened as it is. */
  datatype Aead = Aead(seal: (Key, Nonce, string) -> seq<byte>, open: (Key, Nonce, seq<byte>) -> Option<string>)

  /** Opening what was sealed under the same key and nonce gives the text back. */
  ghost predicate Correct(g: Aead) {
    forall k: Key, n: Nonce, p: string :: |k| == KEY_SIZE ==> g.open(k, n, g.seal(k, n, p)) == Some(p)
  }

  /** Sealed text opens under no other key. */
  ghost predicate Committing(g: Aead) {
    forall k: Key, k': Key, n: Nonce, p: string ::
      |k| == KEY_SIZE && |k'| == KEY_SIZE && g.open(k', n, g.seal(k, n, p)).Some? ==> k' == k
  }

  datatype CipherError = BadKey | TooShort | NotAuthentic | BadHex

  function Encrypt(g: Aead, key: Key, nonce: Nonce, plaintext: string): Result<seq<byte>, CipherError> {
    if |key| != KEY_SIZE then Err(BadKey) else Ok(nonce + g.seal(key, nonce, plaintext))
  }

  function Decrypt(g: Aead, key: Key, ciphertext: seq<byte>): Result<string, CipherError> {
    if |key| != KEY_SIZE then Err(BadKey)
    else if |ciphertext| < NONCE_SIZE then Err(TooShort)
    else
      match g.open(key, ciphertext[..NONCE_SIZE], ciphertext[NONCE_SIZE..])
      case None => Err(NotAuthentic)
      case Some(p) => Ok(p)
  }

  /** An encrypted text is the 12-byte nonce and then the sealed text, under a key of 32 bytes and no other length. */
  lemma EncryptLaw(g: Aead, key: Key, nonce: Nonce, plaintext: string)
    ensures var r := Encrypt(g, key, nonce, plaintext);
            && (r.Ok? <==> |key| == 32) && (r.Err? ==> r.error == BadKey)
            && (r.Ok? ==> r.value[..12] == nonce && r.value[12..] == g.seal(key, nonce, plaintext))
  {
  }

  lemma DecryptLaw(g: Aead, key: Key, ciphertext: seq<byte>)
    ensures var r := Decrypt(g, key, ciphertext);
            && (|key| != 32 ==> r == Err(BadKey))
            && (|key| == 32 && |ciphertext| < 12 ==> r == Err(TooShort))
            && (|key| == 32 && |ciphertext| >= 12 ==>
                  var p := g.open(key, ciphertext[..12], ciphertext[12..]);
                  r == if p.Some? then Ok(p.value) else Err(NotAuthentic))
  {
  }

  // ----- hexadecimal -----

  function HexDigit(d: nat): (c: char)
    requires d < 16
  {
    if d < 10 then '0' + d as char else 'a' + (d - 10) as char
  }

  function HexValue(c: char): (r: Option<nat>)
    ensures r.Some? ==> r.value < 16
  {
    if '0' <= c <= '9' then Some((c - '0') as nat)
    else if 'a' <= c <= 'f' then Some((c - 'a') as nat + 10)
    else if 'A' <= c <= 'F' then Some((c - 'A') as nat + 10)
    else None
  }

  function HexEncode(b: seq<byte>): (s: string)
    ensures |s| == 2 * |b|
  {
    if b == [] then []
    else [HexDigit(b[0] as nat / 16), HexDigit(b[0] as nat % 16)] + HexEncode(b[1..])
  }

  function HexDecode(s: string): Option<seq<byte>> {
    if s == [] then Some([])
    else if |s| == 1 then None
    else
      match (HexValue(s[0]), HexValue(s[1]), HexDecode(s[2..]))
      case (Some(h), Some(l), Some(rest)) => Some([(16 * h + l) as byte] + rest)
      case _ => None
  }

  lemma HexDigitValue(d: nat)
    requires d < 16
    ensures HexValue(HexDigit(d)) == Some(d)
  {
  }

  lemma {:induction false} HexRoundTrip(b: seq<byte>)
    ensures HexDecode(HexEncode(b)) == Some(b)
  {
    if b != [] {
      var h, l := b[0] as nat / 16, b[0] as nat % 16;
      HexDigitValue(h);
      HexDigitValue(l);
      HexRoundTrip(b[1..]);
      var s := HexEncode(b);
      assert s[2..] == HexEncode(b[1..]);
      assert b == [b[0]] + b[1..];
    }
  }

  /** Each byte is two digits of 0..9 and a..f, the more significant one first. */
  lemma {:induction false} HexAt(b: seq<byte>, i: nat)
    requires i < |b|
    ensures HexEncode(b)[2 * i] == "0123456789abcdef"[b[i] as nat / 16]
    ensures HexEncode(b)[2 * i + 1] == "0123456789abcdef"[b[i] as nat % 16]
  {
    if i > 0 {
      HexAt(b[1..], i - 1);
    }
  }

  /** The digits read: both cases of the letters. */
  lemma HexValueIff(c: char, d: nat)
    requires d < 16
    ensures HexValue(c) == Some(d) <==> c == "0123456789abcdef"[d] || c == "0123456789ABCDEF"[d]
  {
  }

  /** A text decodes exactly if it has an even number of characters, all of them digits. */
  lemma {:induction false} HexDecodesIff(s: string)
    ensures HexDecode(s).Some? <==> |s| % 2 == 0 && forall i :: 0 <= i < |s| ==> HexValue(s[i]).Some?
  {
    if |s| >= 2 {
      HexDecodesIff(s[2..]);
      assert forall i :: 2 <= i < |s| ==> s[i] == s[2..][i - 2];
    }
  }

  lemma {:induction false} HexDecodedAt(s: string, i: nat)
    requires HexDecode(s).Some? && 2 * i + 1 < |s|
    ensures |HexDecode(s).value| == |s| / 2 && HexValue(s[2 * i]).Some? && HexValue(s[2 * i + 1]).Some?
    ensures HexDecode(s).value[i] as nat == 16 * HexValue(s[2 * i]).value + HexValue(s[2 * i + 1]).value
  {
    if i > 0 {
      HexDecodedAt(s[2..], i - 1);
    } else if |s| > 2 {
      HexDecodedAt(s[2..], 0);
    }
  }

  // ----- strings -----

  function EncryptString(g: Aead, key: Key, nonce: Nonce, s: string): Result<string, CipherError> {
    match Encrypt(g, key, nonce, s)
    case Err(e) => Err(e)
    case Ok(ciphertext) => Ok(HexEncode(ciphertext))
  }

  function DecryptString(g: Aead, key: Key, s: string): Result<string, CipherError> {
    match HexDecode(s)
    case None => Err(BadHex)
    case Some(ciphertext) => Decrypt(g, key, ciphertext)
  }

  /** Strings go in and out in hexadecimal; what is not hexadecimal is refused as such. */
  lemma StringLaw(g: Aead, key: Key, nonce: Nonce, s: string)
    ensures var e := Encrypt(g, key, nonce, s);
            EncryptString(g, key, nonce, s) == if e.Ok? then Ok(HexEncode(e.value)) else Err(e.error)
    ensures var c := HexDecode(s);
            DecryptString(g, key, s) == if c.Some? then Decrypt(g, key, c.value) else Err(BadHex)
  {
  }

  /** What is encrypted under a 32-byte key is never empty and decrypts to itself. */
  lemma EncryptedDecrypts(g: Aead, key: Key, nonce: Nonce, s: string)
    requires Correct(g) && |key| == KEY_SIZE
    ensures var e := EncryptString(g, key, nonce, s);
            e.Ok? && e.value != "" && DecryptString(g, key, e.value) == Ok(s)
  {
    var ciphertext := nonce + g.seal(key, nonce, s);
    HexRoundTrip(ciphertext);
    assert ciphertext[..NONCE_SIZE] == nonce && ciphertext[NONCE_SIZE..] == g.seal(key, nonce, s);
  }

  /** Under a committing cipher only the key that encrypted decrypts. */
  lemma DecryptsOnlyUnder(g: Aead, key: Key, nonce: Nonce, s: string, other: Key)
    requires Committing(g) && |key| == KEY_SIZE
    requires DecryptString(g, other, EncryptString(g, key, nonce, s).value).Ok?
    ensures other == key
  {
    var ciphertext := nonce + g.seal(key, nonce, s);
    HexRoundTrip(ciphertext);
    assert ciphertext[..NONCE_SIZE] == nonce && ciphertext[NONCE_SIZE..] == g.seal(key, nonce, s);
  }
}
