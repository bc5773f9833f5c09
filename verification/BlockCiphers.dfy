// The block cipher under key wrapping and CBC, and the choice of its key.
module BlockCiphers {
  import opened Wrappers
  import opened Bytes

  type Block = s: seq<byte> | |s| == 16 witness Zeros(16)

  /** One keyed instance of a 16-byte block cipher. */
  datatype BlockCipher = BlockCipher(encrypt: Block -> Block, decrypt: Block -> Block)

  /** `aes.NewCipher`: a cipher for every key; only 16, 24 and 32 byte keys are ever passed. */
  type Aes = seq<byte> -> BlockCipher

  ghost predicate Inverse(c: BlockCipher) {
    forall x: Block :: c.decrypt(c.encrypt(x)) == x && c.encrypt(c.decrypt(x)) == x
  }

  predicate KeySize(n: nat) {
    n == 16 || n == 24 || n == 32
  }

  /** The one fact assumed of AES: under a proper key its two directions undo each other. */
  ghost predicate Lawful(aes: Aes) {
    forall k :: KeySize(|k|) ==> Inverse(aes(k))
  }

  datatype CryptoError =
    | UnsupportedAlgorithm
    | WrongKeySize
    | BadPlaintextSize
    | BadCiphertextSize
    | BadIv
    | IntegrityCheckFailed
    | InvalidPaddedData
    | InvalidPadding

  function SelectAesKey(key: seq<byte>, alg: string): Result<seq<byte>, CryptoError> {
    var size :=
      if alg == "A128CBC" || alg == "A128CBCPAD" || alg == "A128KW" then 16
      else if alg == "A192KW" then 24
      else if alg == "A256CBC" || alg == "A256CBCPAD" || alg == "A256KW" then 32
      else 0;
    if size == 0 then Err(UnsupportedAlgorithm)
    else if |key| != size then Err(WrongKeySize)
    else Ok(key)
  }

  function MapKwAlg(keyLen: nat): string {
    if keyLen == 16 then "A128KW" else if keyLen == 24 then "A192KW" else "A256KW"
  }

  /** The algorithms the program knows, and the key length each demands. */
  lemma KeyAcceptedIff(key: seq<byte>, alg: string)
    ensures SelectAesKey(key, alg).Ok? <==>
              || (|key| == 16 && alg in {"A128CBC", "A128CBCPAD", "A128KW"})
              || (|key| == 24 && alg == "A192KW")
              || (|key| == 32 && alg in {"A256CBC", "A256CBCPAD", "A256KW"})
    ensures SelectAesKey(key, alg).Ok? ==> SelectAesKey(key, alg).value == key
    ensures SelectAesKey(key, alg) == Err(UnsupportedAlgorithm) <==>
              alg !in {"A128CBC", "A128CBCPAD", "A128KW", "A192KW", "A256CBC", "A256CBCPAD", "A256KW"}
  {
    assert "A128CBC"[1] == "A128KW"[1] == "A128CBCPAD"[1] == '1' && "A192KW"[1] == '1';
    assert "A128CBC"[2] == "A128KW"[2] == "A128CBCPAD"[2] == '2' && "A192KW"[2] == '9';
    assert "A256CBC"[1] == "A256KW"[1] == "A256CBCPAD"[1] == '2';
  }

  /** Deriving the algorithm from the key's own length accepts exactly the three AES sizes. */
  lemma KwKeyAccepted(kek: seq<byte>)
    ensures SelectAesKey(kek, MapKwAlg(|kek|)) == if KeySize(|kek|) then Ok(kek) else Err(WrongKeySize)
    ensures MapKwAlg(|kek|) == if |kek| == 16 then "A128KW" else if |kek| == 24 then "A192KW" else "A256KW"
    ensures KeySize(|kek|) <==> |kek| == 16 || |kek| == 24 || |kek| == 32
  {
    assert "A128KW" != "A192KW" by { assert "A128KW"[2] != "A192KW"[2]; }
    assert "A192KW"[2] != "A128CBC"[2] && |"A192KW"| != |"A128CBCPAD"|;
    assert "A256KW"[1] != "A128CBC"[1] && "A256KW"[1] != "A192KW"[1];
    assert |"A256KW"| == |"A128KW"| == 6;
  }

  /** Go's `copy(dst[at:], src)` where `src` fits. */
  method CopyInto(dst: array<byte>, at: nat, src: seq<byte>)
    requires at + |src| <= dst.Length
    modifies dst
    ensures dst[..] == old(dst[..at]) + src + old(dst[at + |src|..])
  {
    forall k | 0 <= k < |src| {
      dst[at + k] := src[k];
    }
  }
}
