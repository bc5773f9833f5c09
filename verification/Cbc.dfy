// CBC mode (section 6.2 of NIST SP 800-38A) and PKCS#7 padding (section 6.3 of RFC 5652).
module Cbc {
  import opened Arithmetic
  import opened Wrappers
  import opened Bytes
  import opened BlockCiphers

  // ----- padding -----

  function Repeat(b: byte, n: nat): (s: seq<byte>)
    ensures |s| == n && forall k :: 0 <= k < n ==> s[k] == b
  {
    seq(n, _ => b)
  }

  /** `pkcs7Pad`; the padding byte is the pad length cut to eight bits. */
  function Pad(data: seq<byte>, blockSize: nat): (d: seq<byte>)
    requires blockSize > 0
    ensures data <= d && |d| % blockSize == 0
  {
    var padLen := blockSize - |data| % blockSize;
    PadFills(|data|, blockSize);
    data + Repeat((padLen % 256) as byte, padLen)
  }

  lemma PadFills(n: nat, blockSize: nat)
    requires blockSize > 0
    ensures (n + (blockSize - n % blockSize)) % blockSize == 0
  {
    var q := n / blockSize;
    assert n + (blockSize - n % blockSize) == (q + 1) * blockSize;
    MultipleMod(q + 1, blockSize);
  }

  /** The padding length that the last byte announces is present and uniform. */
  predicate PaddedBy(d: seq<byte>, padLen: nat) {
    padLen <= |d| && forall k :: |d| - padLen <= k < |d| ==> d[k] as nat == padLen
  }

  function Unpad(d: seq<byte>, blockSize: nat): Result<seq<byte>, CryptoError>
    requires blockSize > 0
  {
    if |d| == 0 || |d| % blockSize != 0 then Err(InvalidPaddedData)
    else
      var padLen := d[|d| - 1] as nat;
      if padLen == 0 || padLen > blockSize || !PaddedBy(d, padLen) then Err(InvalidPadding)
      else Ok(d[..|d| - padLen])
  }

  /** `pkcs7Unpad`: the loop over the trailing bytes. */
  method Pkcs7Unpad(d: seq<byte>, blockSize: nat) returns (res: Result<seq<byte>, CryptoError>)
    requires blockSize > 0
    ensures res == Unpad(d, blockSize)
  {
    if |d| == 0 || |d| % blockSize != 0 {
      return Err(InvalidPaddedData);
    }
    var padLen := d[|d| - 1] as nat;
    if padLen == 0 || padLen > blockSize || padLen > |d| {
      return Err(InvalidPadding);
    }
    for k := |d| - padLen to |d|
      invariant forall i :: |d| - padLen <= i < k ==> d[i] as nat == padLen
    {
      if d[k] as nat != padLen {
        return Err(InvalidPadding);
      }
    }
    return Ok(d[..|d| - padLen]);
  }

  /** Cutting `padLen` bytes off a whole number of blocks leaves what needs exactly `padLen`. */
  lemma PadLenRecovered(n: nat, padLen: nat, blockSize: nat)
    requires 1 <= padLen <= blockSize && padLen <= n && n % blockSize == 0
    ensures blockSize - (n - padLen) % blockSize == padLen
  {
    var q := n / blockSize;
    assert n == q * blockSize;
    assert q > 0;
    assert n - padLen == (q - 1) * blockSize + (blockSize - padLen);
    if padLen < blockSize {
      RemainderUnique(n - padLen, blockSize, q - 1, blockSize - padLen);
    } else {
      MultipleMod(q - 1, blockSize);
    }
  }

  /** For block sizes that fit a byte, padding appends that many copies of the pad length. */
  lemma PadIs(p: seq<byte>, blockSize: nat, padLen: nat)
    requires 1 <= blockSize <= 255 && padLen == blockSize - |p| % blockSize
    ensures 1 <= padLen <= blockSize && Pad(p, blockSize) == p + Repeat(padLen as byte, padLen)
  {
  }

  lemma UnpaddedPads(d: seq<byte>, blockSize: nat)
    requires 1 <= blockSize <= 255 && Unpad(d, blockSize).Ok?
    ensures Pad(Unpad(d, blockSize).value, blockSize) == d
  {
    var padLen := d[|d| - 1] as nat;
    var p := d[..|d| - padLen];
    PadLenRecovered(|d|, padLen, blockSize);
    PadIs(p, blockSize, padLen);
    hide Pad;
    assert d == p + Repeat(padLen as byte, padLen);
  }

  lemma PaddedUnpads(p: seq<byte>, blockSize: nat)
    requires 1 <= blockSize <= 255
    ensures Unpad(Pad(p, blockSize), blockSize) == Ok(p)
  {
    hide Pad;
    var padLen := blockSize - |p| % blockSize;
    var d := Pad(p, blockSize);
    PadIs(p, blockSize, padLen);
    assert d[|d| - 1] as nat == padLen;
    assert d[..|d| - padLen] == p;
  }

  lemma UnpadIffPadded(d: seq<byte>, p: seq<byte>, blockSize: nat)
    requires 1 <= blockSize <= 255
    ensures Unpad(d, blockSize) == Ok(p) <==> d == Pad(p, blockSize)
  {
    hide Pad, Unpad;
    if Unpad(d, blockSize) == Ok(p) {
      UnpaddedPads(d, blockSize);
    }
    PaddedUnpads(p, blockSize);
  }

  /** The two refusals: no whole blocks, or a last byte that the end of the text does not bear out. */
  lemma UnpadRefuses(d: seq<byte>, blockSize: nat)
    requires 1 <= blockSize <= 255
    ensures Unpad(d, blockSize) == Err(InvalidPaddedData) <==> d == [] || |d| % blockSize != 0
    ensures Unpad(d, blockSize).Err? ==> Unpad(d, blockSize).error in {InvalidPaddedData, InvalidPadding}
  {
  }

  lemma PadInjective(p: seq<byte>, q: seq<byte>, blockSize: nat)
    requires 1 <= blockSize <= 255
    requires Pad(p, blockSize) == Pad(q, blockSize)
    ensures p == q
  {
    UnpadIffPadded(Pad(p, blockSize), p, blockSize);
    UnpadIffPadded(Pad(p, blockSize), q, blockSize);
  }

  /** Padding can be undone for every input exactly when the pad length fits in a byte. */
  lemma PadInvertibleIff(blockSize: nat)
    requires blockSize > 0
    ensures blockSize <= 255 <==> forall p :: Unpad(Pad(p, blockSize), blockSize) == Ok(p)
  {
    if blockSize <= 255 {
      forall p
        ensures Unpad(Pad(p, blockSize), blockSize) == Ok(p)
      {
        UnpadIffPadded(Pad(p, blockSize), p, blockSize);
      }
    } else {
      var d := Pad([], blockSize);
      assert d[|d| - 1] as nat == blockSize % 256 < blockSize == |d|;
      assert Unpad(d, blockSize) != Ok([]);
    }
  }

  // ----- chaining -----

  /** C[1] = E(P[1] xor IV), C[j] = E(P[j] xor C[j-1]). */
  function EncryptBlocks(c: BlockCipher, iv: Block, p: seq<byte>): (out: seq<byte>)
    requires |p| % 16 == 0
    ensures |out| == |p|
    decreases |p|
  {
    if p == [] then []
    else
      var b := c.encrypt(XorSeq(p[..16], iv));
      b + EncryptBlocks(c, b, p[16..])
  }

  /** P[1] = D(C[1]) xor IV, P[j] = D(C[j]) xor C[j-1]. */
  function DecryptBlocks(c: BlockCipher, iv: Block, ct: seq<byte>): (out: seq<byte>)
    requires |ct| % 16 == 0
    ensures |out| == |ct|
    decreases |ct|
  {
    if ct == [] then []
    else XorSeq(c.decrypt(ct[..16]), iv) + DecryptBlocks(c, ct[..16], ct[16..])
  }

  /** Block j of a text. */
  function BlockAt(s: seq<byte>, j: nat): Block
    requires 16 * (j + 1) <= |s|
  {
    s[16 * j..16 * (j + 1)]
  }

  lemma LaterBlock(b: Block, rest: seq<byte>, j: nat)
    requires j > 0 && 16 * j <= |rest|
    ensures BlockAt(b + rest, j) == BlockAt(rest, j - 1)
    ensures BlockAt(b + rest, 0) == b
  {
  }

  /** The equations of section 6.2 of NIST SP 800-38A, block by block. */
  lemma {:induction false} EncryptedBlock(c: BlockCipher, iv: Block, p: seq<byte>, j: nat)
    requires |p| % 16 == 0 && 16 * (j + 1) <= |p|
    ensures var out := EncryptBlocks(c, iv, p);
            BlockAt(out, j) == c.encrypt(XorSeq(BlockAt(p, j), if j == 0 then iv else BlockAt(out, j - 1)))
    decreases j
  {
    var out := EncryptBlocks(c, iv, p);
    var b: Block := c.encrypt(XorSeq(p[..16], iv));
    if j == 0 {
      assert BlockAt(out, 0) == b && BlockAt(p, 0) == p[..16];
    } else {
      var rest := EncryptBlocks(c, b, p[16..]);
      EncryptedBlock(c, b, p[16..], j - 1);
      assert out == b + rest;
      hide EncryptBlocks, XorSeq;
      LaterBlock(b, rest, j);
      LaterBlock(p[..16], p[16..], j);
      assert p == p[..16] + p[16..];
      if j > 1 {
        LaterBlock(b, rest, j - 1);
      }
    }
  }

  lemma {:induction false} DecryptedBlock(c: BlockCipher, iv: Block, ct: seq<byte>, j: nat)
    requires |ct| % 16 == 0 && 16 * (j + 1) <= |ct|
    ensures BlockAt(DecryptBlocks(c, iv, ct), j)
            == XorSeq(c.decrypt(BlockAt(ct, j)), if j == 0 then iv else BlockAt(ct, j - 1))
    decreases j
  {
    var out := DecryptBlocks(c, iv, ct);
    var b: Block := XorSeq(c.decrypt(ct[..16]), iv);
    if j == 0 {
      assert BlockAt(out, 0) == b && BlockAt(ct, 0) == ct[..16];
    } else {
      var rest := DecryptBlocks(c, ct[..16], ct[16..]);
      DecryptedBlock(c, ct[..16], ct[16..], j - 1);
      assert out == b + rest;
      hide DecryptBlocks, XorSeq;
      LaterBlock(b, rest, j);
      LaterBlock(ct[..16], ct[16..], j);
      assert ct == ct[..16] + ct[16..];
      if j > 1 {
        LaterBlock(ct[..16], ct[16..], j - 1);
      }
    }
  }

  lemma {:induction false} DecryptUndoesEncrypt(c: BlockCipher, iv: Block, p: seq<byte>)
    requires Inverse(c) && |p| % 16 == 0
    decreases |p|
    ensures DecryptBlocks(c, iv, EncryptBlocks(c, iv, p)) == p
  {
    if p != [] {
      var x: Block := XorSeq(p[..16], iv);
      var b := c.encrypt(x);
      var ct := EncryptBlocks(c, iv, p);
      assert ct[..16] == b && ct[16..] == EncryptBlocks(c, b, p[16..]);
      XorSeqUndo(p[..16], iv);
      DecryptUndoesEncrypt(c, b, p[16..]);
      assert p[..16] + p[16..] == p;
    }
  }

  lemma {:induction false} EncryptUndoesDecrypt(c: BlockCipher, iv: Block, ct: seq<byte>)
    requires Inverse(c) && |ct| % 16 == 0
    decreases |ct|
    ensures EncryptBlocks(c, iv, DecryptBlocks(c, iv, ct)) == ct
  {
    if ct != [] {
      var b: Block := ct[..16];
      var p := DecryptBlocks(c, iv, ct);
      assert p[..16] == XorSeq(c.decrypt(b), iv) && p[16..] == DecryptBlocks(c, b, ct[16..]);
      XorSeqUndo(c.decrypt(b), iv);
      EncryptUndoesDecrypt(c, b, ct[16..]);
      assert ct[..16] + ct[16..] == ct;
    }
  }

  /** `NewCBCEncrypter(...).CryptBlocks(out, input)` as a loop carrying the previous block. */
  method CryptBlocksEncrypt(c: BlockCipher, iv: Block, input: seq<byte>) returns (out: seq<byte>)
    requires |input| % 16 == 0
    ensures out == EncryptBlocks(c, iv, input)
  {
    out := [];
    var prev := iv;
    var rest := input;
    while rest != []
      invariant |rest| % 16 == 0
      invariant out + EncryptBlocks(c, prev, rest) == EncryptBlocks(c, iv, input)
      decreases |rest|
    {
      var b := c.encrypt(XorSeq(rest[..16], prev));
      ghost var tail := EncryptBlocks(c, b, rest[16..]);
      assert out + (b + tail) == (out + b) + tail;
      out := out + b;
      prev := b;
      rest := rest[16..];
    }
  }

  method CryptBlocksDecrypt(c: BlockCipher, iv: Block, input: seq<byte>) returns (out: seq<byte>)
    requires |input| % 16 == 0
    ensures out == DecryptBlocks(c, iv, input)
  {
    out := [];
    var prev := iv;
    var rest := input;
    while rest != []
      invariant |rest| % 16 == 0
      invariant out + DecryptBlocks(c, prev, rest) == DecryptBlocks(c, iv, input)
      decreases |rest|
    {
      var b: Block := rest[..16];
      var p := XorSeq(c.decrypt(b), prev);
      ghost var tail := DecryptBlocks(c, b, rest[16..]);
      assert out + (p + tail) == (out + p) + tail;
      out := out + p;
      prev := b;
      rest := rest[16..];
    }
  }

  // ----- the program's entry points -----

  predicate HasPadSuffix(alg: string) {
    |alg| >= 3 && alg[|alg| - 3..] == "PAD"
  }

  /** What `encryptCBC` returns: ciphertext and the IV it used, which is `random` if none was given. */
  function Encrypted(aes: Aes, key: seq<byte>, alg: string, plaintext: seq<byte>, iv: seq<byte>, random: Block)
    : Result<(seq<byte>, seq<byte>), CryptoError>
  {
    var used := if |iv| == 0 then random else iv;
    if |used| != 16 then Err(BadIv)
    else if SelectAesKey(key, alg).Err? then Err(SelectAesKey(key, alg).error)
    else if HasPadSuffix(alg) then Ok((EncryptBlocks(aes(key), used, Pad(plaintext, 16)), used))
    else if |plaintext| % 16 != 0 then Err(BadPlaintextSize)
    else Ok((EncryptBlocks(aes(key), used, plaintext), used))
  }

  function Decrypted(aes: Aes, key: seq<byte>, alg: string, ciphertext: seq<byte>, iv: seq<byte>)
    : Result<(seq<byte>, seq<byte>), CryptoError>
  {
    if |iv| != 16 then Err(BadIv)
    else if |ciphertext| % 16 != 0 then Err(BadCiphertextSize)
    else if SelectAesKey(key, alg).Err? then Err(SelectAesKey(key, alg).error)
    else
      var out := DecryptBlocks(aes(key), iv, ciphertext);
      if !HasPadSuffix(alg) then Ok((out, iv))
      else match Unpad(out, 16)
        case Ok(p) => Ok((p, iv))
        case Err(e) => Err(e)
  }

  lemma SelectedKeySize(key: seq<byte>, alg: string)
    ensures SelectAesKey(key, alg).Ok? ==> KeySize(|key|)
  {
  }

  /** Of the algorithms with a key, exactly the two PAD ones are padded. */
  lemma PaddedAlgorithms(key: seq<byte>, alg: string)
    requires SelectAesKey(key, alg).Ok?
    ensures HasPadSuffix(alg) <==> alg == "A128CBCPAD" || alg == "A256CBCPAD"
  {
    KeyAcceptedIff(key, alg);
    assert "A128CBCPAD"[7..] == "PAD" && "A256CBCPAD"[7..] == "PAD";
    assert "A128CBC"[6] == "A256CBC"[6] == 'C' && "A128KW"[5] == "A192KW"[5] == "A256KW"[5] == 'W';
    if HasPadSuffix(alg) {
      assert alg[|alg| - 1] == alg[|alg| - 3..][2] == 'D';
    }
  }

  /**
   * What encryption does with a key that fits its algorithm: with the caller's IV or, if it is empty,
   * the drawn one, it chains the padded text under the PAD algorithms, and the text itself, which must
   * be whole blocks, under the others.
   */
  lemma EncryptionLaw(aes: Aes, key: seq<byte>, alg: string, p: seq<byte>, iv: seq<byte>, random: Block)
    requires SelectAesKey(key, alg).Ok?
    ensures |iv| != 0 && |iv| != 16 ==> Encrypted(aes, key, alg, p, iv, random) == Err(BadIv)
    ensures |iv| == 0 || |iv| == 16 ==>
              var used: Block := if iv == [] then random else iv;
              var n := 16 - |p| % 16;
              var text := if alg == "A128CBCPAD" || alg == "A256CBCPAD" then p + Repeat(n as byte, n) else p;
              Encrypted(aes, key, alg, p, iv, random)
              == if |text| % 16 == 0 then Ok((EncryptBlocks(aes(key), used, text), used)) else Err(BadPlaintextSize)
  {
    PaddedAlgorithms(key, alg);
    PadIs(p, 16, 16 - |p| % 16);
  }

  /** And decryption: a 16-byte IV and whole blocks, chained back. */
  lemma DecryptionLaw(aes: Aes, key: seq<byte>, alg: string, ct: seq<byte>, iv: seq<byte>)
    requires SelectAesKey(key, alg).Ok?
    ensures |iv| != 16 ==> Decrypted(aes, key, alg, ct, iv) == Err(BadIv)
    ensures |iv| == 16 && |ct| % 16 != 0 ==> Decrypted(aes, key, alg, ct, iv) == Err(BadCiphertextSize)
    ensures |iv| == 16 && |ct| % 16 == 0 && alg != "A128CBCPAD" && alg != "A256CBCPAD" ==>
              Decrypted(aes, key, alg, ct, iv) == Ok((DecryptBlocks(aes(key), iv, ct), iv))
  {
    PaddedAlgorithms(key, alg);
    hide SelectAesKey, HasPadSuffix, DecryptBlocks, Unpad;
  }

  /** A key that does not fit is found out after the IV and, when decrypting, the text's length. */
  lemma RefusedKey(aes: Aes, key: seq<byte>, alg: string, text: seq<byte>, iv: seq<byte>, random: Block)
    requires SelectAesKey(key, alg).Err?
    ensures Encrypted(aes, key, alg, text, iv, random)
            == if |iv| != 0 && |iv| != 16 then Err(BadIv) else Err(SelectAesKey(key, alg).error)
    ensures Decrypted(aes, key, alg, text, iv)
            == if |iv| != 16 then Err(BadIv)
               else if |text| % 16 != 0 then Err(BadCiphertextSize)
               else Err(SelectAesKey(key, alg).error)
  {
    hide SelectAesKey;
  }

  /** Under the PAD algorithms it answers p exactly if the blocks are p and its padding. */
  lemma PaddedDecryptionIff(aes: Aes, key: seq<byte>, alg: string, ct: seq<byte>, iv: Block, p: seq<byte>)
    requires SelectAesKey(key, alg).Ok? && |ct| % 16 == 0 && (alg == "A128CBCPAD" || alg == "A256CBCPAD")
    ensures Decrypted(aes, key, alg, ct, iv) == Ok((p, iv))
            <==> DecryptBlocks(aes(key), iv, ct) == p + Repeat((16 - |p| % 16) as byte, 16 - |p| % 16)
  {
    PaddedAlgorithms(key, alg);
    hide SelectAesKey, HasPadSuffix, DecryptBlocks, Unpad, Pad, Repeat;
    UnpadIffPadded(DecryptBlocks(aes(key), iv, ct), p, 16);
    PadIs(p, 16, 16 - |p| % 16);
  }

  /** Under a key of the algorithm's size and a 16-byte IV, decryption inverts encryption both ways. */
  lemma DecryptedIffEncrypted(aes: Aes, key: seq<byte>, alg: string, p: seq<byte>, ct: seq<byte>, iv: Block)
    requires Lawful(aes)
    ensures Decrypted(aes, key, alg, ct, iv) == Ok((p, iv)) <==> Encrypted(aes, key, alg, p, iv, iv) == Ok((ct, iv))
  {
    if SelectAesKey(key, alg).Ok? && |ct| % 16 == 0 {
      SelectedKeySize(key, alg);
      var c := aes(key);
      var out := DecryptBlocks(c, iv, ct);
      EncryptUndoesDecrypt(c, iv, ct);
      UnpadIffPadded(out, p, 16);
      DecryptUndoesEncrypt(c, iv, Pad(p, 16));
      if |p| % 16 == 0 {
        DecryptUndoesEncrypt(c, iv, p);
      }
    }
  }

  /** The round trip as a caller sees it, the returned IV being passed back. */
  lemma CbcRoundTrip(aes: Aes, key: seq<byte>, alg: string, p: seq<byte>, iv: seq<byte>, random: Block)
    requires Lawful(aes)
    requires SelectAesKey(key, alg).Ok? && (|iv| == 0 || |iv| == 16)
    requires HasPadSuffix(alg) || |p| % 16 == 0
    ensures Encrypted(aes, key, alg, p, iv, random).Ok?
    ensures var (ct, used) := Encrypted(aes, key, alg, p, iv, random).value;
            Decrypted(aes, key, alg, ct, used) == Ok((p, used))
  {
    var (ct, used) := Encrypted(aes, key, alg, p, iv, random).value;
    DecryptedIffEncrypted(aes, key, alg, p, ct, used);
  }

  method EncryptCBC(aes: Aes, key: seq<byte>, alg: string, plaintext: seq<byte>, iv: seq<byte>, random: Block)
    returns (res: Result<(seq<byte>, seq<byte>), CryptoError>)
    ensures res == Encrypted(aes, key, alg, plaintext, iv, random)
  {
    var used := iv;
    if |used| == 0 {
      used := random;
    }
    if |used| != 16 {
      return Err(BadIv);
    }
    var selected := SelectAesKey(key, alg);
    if selected.Err? {
      return Err(selected.error);
    }
    var input := plaintext;
    if HasPadSuffix(alg) {
      input := Pad(input, 16);
    } else if |input| % 16 != 0 {
      return Err(BadPlaintextSize);
    }
    var out := CryptBlocksEncrypt(aes(key), used, input);
    return Ok((out, used));
  }

  method DecryptCBC(aes: Aes, key: seq<byte>, alg: string, ciphertext: seq<byte>, iv: seq<byte>)
    returns (res: Result<(seq<byte>, seq<byte>), CryptoError>)
    ensures res == Decrypted(aes, key, alg, ciphertext, iv)
  {
    if |iv| != 16 {
      return Err(BadIv);
    }
    if |ciphertext| % 16 != 0 {
      return Err(BadCiphertextSize);
    }
    var selected := SelectAesKey(key, alg);
    if selected.Err? {
      return Err(selected.error);
    }
    var out := CryptBlocksDecrypt(aes(key), iv, ciphertext);
    if HasPadSuffix(alg) {
      var unpadded := Pkcs7Unpad(out, 16);
      if unpadded.Err? {
        return Err(unpadded.error);
      }
      out := unpadded.value;
    }
    return Ok((out, iv));
  }
}
