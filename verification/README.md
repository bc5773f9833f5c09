# Key vault emulator: verified model

A model of the emulator's two components with hard properties, and proofs about it.

**Key wrapping and byte codecs.** AES key wrap and unwrap as the program runs them, nested loops over
an array of registers, proved to compute the shift-register definition of RFC 3394 and to be inverse
to each other on exactly the wrapped texts; CBC mode and PKCS#7 padding; big-endian integers of fixed
width in JWKs and signatures. The 16-byte block cipher is an abstract pair of inverse functions.

**The versioned vault.** The in-memory store (objects updated in place), the SQL store (rows, JSON
payloads, separate statements without a transaction), the encrypting store around either, and the
setup/unlock/session state in front of them.

## How it is organised

| files | contents |
|---|---|
| `Bytes`, `Arithmetic`, `BlockCiphers`, `KeyWrap`, `Cbc`, `Jwk` | `internal/crypto` |
| `Paging`, `Names` | pages, next links, sorted names |
| `Model`, `Shelves`, `Vault` | records; the versions of one kind as values, generic in what never changes (`C`, the core) and what updates may replace (`F`, the facet); the three kinds with the certificate cross-writes |
| `ShelfLaws` | what each operation on one kind answers and leaves behind, in a caller's terms |
| `Memory`, `Store` | the in-memory store as heap objects, refining `Shelves` and `Vault` |
| `Tables`, `SqlStore` | the tables, each operation as the states its statements go through; the class that executes the statements |
| `SqlRuns`, `SqlHalfway`, `SqlRefinement`, `SqlCycles` | no loss under interruption; what interruption leaves behind; refinement of the in-memory store; repeated delete and recover |
| `Encryption`, `EncryptedStore` | framing; the encrypting store against the plain one |
| `Auth` | users and sessions, what each operation on them does, and their runs |
| `Web`, `WebRuns`, `WebSql` | the handler's key and config; whole runs with restarts, of config and key and of the secrets; the same over the SQL tables |

Operations are functions on values (`Shelves.Delete`, `Tables.DeleteStates`, `WebModel.HandleUnlock`,
`AuthModel.Login` and their siblings), and the classes' methods, which update fields in place, are
proved equal to them. The theorems are about these functions and runs of them. What one function does
is stated beside it in terms that do not name it (`KeyWrap.StepEquations`, `Vault.CreationLaw`,
`AuthLaws.LoginLaw`, module `ShelfLaws`), so the theorems above them speak of the right thing.

What the program reads from outside is a parameter: clock readings, version and user ids, nonces and
salts, generated keys and certificates, the SQL engine's choice among ties, failing config reads and
writes. Hypotheses on them are stated where they are used: `Tables.Faithful` (the engine answers by
the table, ties in any order), `SqlRefinement.WellRun` (a version id not yet used for the name, a
timestamp later than those stored for it, restores of issued tokens), `AuthRuns.Proper` (a clock that
does not go back, fresh tokens), `Encryption.Correct` (AES-GCM opens what it sealed under the same key
and nonce) and, only where a wrong passphrase must be excluded, `WebGates.Binds`: of the keys that the
salt in place derives, no other opens the one verification token to its mark. AES-GCM does not promise
this of all keys; a cipher that does (`Encryption.Committing`) is an idealisation, shown to be enough
and not assumed.

Names may be active and deleted at once for secrets and keys, because certificate creation does not
look at their deleted maps; every property above holds in that state too.

Findings, each with its exact condition and an input that shows it:

- A locked vault can be written in plaintext. The lock check treats an unreadable config as "not set
  up", so a set request is refused while locked exactly if the config can be read
  (`WebRuns.LockedRefusesIff`, `WebRuns.UnreadableConfigStoresPlaintext`).
- A passphrase can stop unlocking. It unlocks after a run exactly if it derives, from the salt written
  last, the key of the token written last (`WebGates.PassphraseUnlocksIff`). Only a setup that finds no
  admin writes either, so nothing changes while the admin stays; once the admin is deleted, a second
  setup shuts the first passphrase out, both when it completes and when it fails between its two config
  writes, unless that passphrase derives with the new salt the key then in place
  (`WebGates.SetupKeepsPassphraseIff`, `WebGates.SecondSetupLocksOut`). Which values still read back
  then is `WebRuns.SecretReadsBackIff`.
- A name can get stuck in both tables of the SQL store, by a delete or recover that stops between its
  statements, or by a certificate's creation while the name is deleted, and in no other way
  (`SqlHalfway.EntersIff`). Only a purge or a restore of the name ends it (`SqlHalfway.LeavesIff`);
  until then it can be neither recovered nor deleted nor set. No version is lost, but of those that are
  only in the payload exactly the last can be read, as the deleted item
  (`SqlHalfway.StrandedReadableIff`, `SqlHalfway.StrandedReadableAfterIff`); a purge loses them all.

## Model

| member | source | states |
|---|---|---|
| KeyWrap.AesKeyWrap | internal/crypto/keys.go:480-513 | the whole wrap, loops over the register array included, returns what the shift-register definition (section 2.2.1 of RFC 3394) gives, and the same errors for a bad key or a length that is zero or no multiple of 8 |
| KeyWrap.WrapRound | internal/crypto/keys.go:496-504 | one turn of the inner loop: from a register file that is the shift register rotated by i, one block encryption and one counter value lead to the file rotated by i+1 |
| KeyWrap.WrapPass | internal/crypto/keys.go:495-505 | one pass over the n registers advances the shift register by exactly n steps |
| KeyWrap.WrapPasses | internal/crypto/keys.go:494-506 | the six passes advance it by 6n steps, so the counter takes each value 1..6n once, in order |
| KeyWrap.AesKeyUnwrap | internal/crypto/keys.go:515-551 | the whole unwrap returns what running the shift register backwards gives, releasing the data exactly if the final A is the initial value |
| KeyWrap.UnwrapRound | internal/crypto/keys.go:532-541 | one turn of the reversed inner loop undoes one shift-register step |
| KeyWrap.UnwrapPass | internal/crypto/keys.go:531-542 | one reversed pass undoes n steps |
| KeyWrap.UnwrapPasses | internal/crypto/keys.go:530-543 | the six reversed passes undo 6n steps |
| KeyWrap.Xor64 | internal/crypto/keys.go:564-571 | the byte-by-byte loop XORs the register with the big-endian counter |
| KeyWrap.EncryptInPlace | internal/crypto/keys.go:497-500 | a block buffer encrypted in place holds E of what it held |
| KeyWrap.DecryptInPlace | internal/crypto/keys.go:535-538 | a block buffer decrypted in place holds D of what it held |
| KeyWrap.UnshiftUndoesShift | internal/crypto/keys.go:491-542 | running any number of steps forward and back gives the state back |
| KeyWrap.ShiftUndoesUnshift | internal/crypto/keys.go:491-542 | and the other way round |
| KeyWrap.RunsInvert | internal/crypto/keys.go:491-542 | going forward from s ends in s' exactly if going back from s' ends in s |
| KeyWrap.FlattenRegisters | internal/crypto/keys.go:488-493 | splitting the plaintext into 8-byte registers and joining them loses nothing |
| KeyWrap.RegistersFlatten | internal/crypto/keys.go:507-513 | joining registers and splitting again gives the registers |
| KeyWrap.UnwrapUndoesWrap | internal/crypto/keys.go:480-551 | for every accepted key and every plaintext of positive length divisible by 8, unwrapping the wrapped text returns the plaintext |
| KeyWrap.UnwrapAcceptsOnlyWrapped | internal/crypto/keys.go:515-551 | whatever unwrap accepts is the wrapping of what it returns, 8 bytes longer |
| KeyWrap.UnwrapIffWrapped | internal/crypto/keys.go:480-551 | unwrap returns p for c exactly if wrap returns c for p: the integrity check of section 2.2.3 of RFC 3394 is exact |
| KeyWrap.WrapInjective | internal/crypto/keys.go:480-513 | two plaintexts with the same wrapping are equal |
| KeyWrap.StepEquations | internal/crypto/keys.go:496-504 | one shift-register step bit by bit: every bit of the new A differs from the encrypted block's first half exactly where the counter's big-endian bit is set, the block's second half becomes the last register, and the others move down |
| KeyWrap.WrapLayout | internal/crypto/keys.go:486-513 | the wrapped text in full: started with eight bytes 0xA6 and the plaintext's 8-byte slices, its first 8 bytes are the final A and the next slices the final registers, in order |
| KeyWrap.WrapAcceptsIff | internal/crypto/keys.go:480-485 | which keys and plaintexts are accepted, and which error answers the others |
| KeyWrap.UnwrapReleasesIff | internal/crypto/keys.go:515-551 | a well-formed text is released exactly if running back from its slices ends in eight bytes 0xA6, and what is released are the registers then left, in order |
| KeyWrap.UnwrapRefuses | internal/crypto/keys.go:515-521 | which error answers a bad key, a bad length, and a failed integrity check |
| BlockCiphers.KwKeyAccepted | internal/crypto/keys.go:436-456 | the algorithm name chosen from the key length is one whose key check accepts the key exactly for 16, 24 and 32 bytes |
| BlockCiphers.KeyAcceptedIff | internal/crypto/keys.go:440-456 | which (algorithm, key length) pairs are accepted, each named, the key coming back unchanged, and which algorithms are unsupported |
| Cbc.Pkcs7Unpad | internal/crypto/keys.go:464-478 | the scanning loop accepts and strips exactly what the definition of padding says |
| Cbc.UnpadIffPadded | internal/crypto/keys.go:458-478 | for block sizes 1..255, unpadding d gives p exactly if d is p padded |
| Cbc.PadInjective | internal/crypto/keys.go:458-462 | padding is injective for these block sizes |
| Cbc.PadInvertibleIff | internal/crypto/keys.go:458-478 | padding followed by unpadding is the identity on all data exactly for block sizes 1..255; for 256 the padding byte wraps to zero |
| Cbc.CryptBlocksEncrypt | internal/crypto/keys.go:398-412 | the chaining loop computes CBC encryption block by block |
| Cbc.CryptBlocksDecrypt | internal/crypto/keys.go:424-434 | the chaining loop computes CBC decryption block by block |
| Cbc.DecryptUndoesEncrypt | internal/crypto/keys.go:385-434 | CBC decryption undoes encryption for every IV and block-multiple text |
| Cbc.EncryptUndoesDecrypt | internal/crypto/keys.go:385-434 | CBC encryption undoes decryption |
| Cbc.EncryptCBC | internal/crypto/keys.go:385-412 | the encryption routine with its algorithm, key, length and IV checks |
| Cbc.DecryptCBC | internal/crypto/keys.go:414-434 | the decryption routine with its checks and unpadding |
| Cbc.DecryptedIffEncrypted | internal/crypto/keys.go:385-434 | under one key, algorithm and IV, decrypting ct gives p exactly if encrypting p gives ct |
| Cbc.CbcRoundTrip | internal/crypto/keys.go:385-434 | what encryption accepts, decryption gives back: all plaintexts under the PAD algorithms, block multiples under the others |
| Cbc.EncryptedBlock | internal/crypto/keys.go:385-412 | block j of the ciphertext is the encryption of plaintext block j xor the ciphertext block before it, the IV for the first |
| Cbc.DecryptedBlock | internal/crypto/keys.go:414-434 | block j of the plaintext is the decryption of ciphertext block j xor the ciphertext block before it, the IV for the first |
| Cbc.PaddedAlgorithms | internal/crypto/keys.go:398-438 | of the accepted algorithms exactly A128CBCPAD and A256CBCPAD pad |
| Cbc.EncryptionLaw | internal/crypto/keys.go:385-412 | under an accepted key: which IV is used or refused, what is padded and by how much, and which lengths are refused |
| Cbc.DecryptionLaw | internal/crypto/keys.go:414-434 | the same of decryption, up to the unpadding |
| Cbc.PaddedDecryptionIff | internal/crypto/keys.go:414-434 | under the PAD algorithms decryption answers p exactly if the decrypted blocks are p followed by its PKCS#7 padding |
| Cbc.RefusedKey | internal/crypto/keys.go:385-434 | which error comes first if the key is refused |
| Cbc.UnpadRefuses | internal/crypto/keys.go:464-478 | which error answers data of a bad length |
| Bytes.XorBitsAt | internal/crypto/keys.go:564-571 | the arithmetic exclusive or is exclusive or in each binary digit |
| Bytes.XorByteAt | internal/crypto/keys.go:564-571 | a bit of the exclusive or of two bytes is set exactly if the bytes differ there |
| Bytes.XorSeqAt | internal/crypto/keys.go:564-571 | the same at every bit of every byte of two sequences |
| Bytes.ToBytesAt | internal/crypto/keys.go:564-571 | byte k of a number's big-endian form is the digit of weight 256^(size-1-k) |
| Bytes.XorSeqUndo | internal/crypto/keys.go:564-571 | exclusive or with the same bytes twice changes nothing |
| Bytes.ToBytesValue | internal/crypto/keys.go:573-588 | a number below 256^size keeps its value as size big-endian bytes |
| Bytes.ToBytesOfValue | internal/crypto/keys.go:573-588 | bytes are recovered from their value and length |
| Bytes.MinimalBytesValue | internal/crypto/keys.go:573-579 | the minimal big-endian form keeps the value |
| Bytes.MinimalBytesFit | internal/crypto/keys.go:581-588 | and has at most size bytes exactly if the value is below 256^size |
| Jwk.PadBytes | internal/crypto/keys.go:581-588 | the copying loop pads with zeros on the left, or returns longer data unchanged |
| Jwk.PaddedKeepsValue | internal/crypto/keys.go:581-588 | padding keeps the big-endian value |
| Jwk.PaddedWidth | internal/crypto/keys.go:581-588 | a value below 256^size becomes exactly size bytes, its size-byte form |
| Jwk.EcKeyRoundTrip | internal/crypto/keys.go:145-188 | importing the JWK written for an EC public key gives the key back, curve and both coordinates |
| Jwk.RsaKeyRoundTripIff | internal/crypto/keys.go:95-176 | importing the JWK written for an RSA public key gives the key back exactly if its modulus is positive and the exponent lies in 2..MaxInt |
| Jwk.SignatureRoundTrip | internal/crypto/keys.go:268-323 | Verify splits out of a signature the r and s that Sign packed into it |
| Jwk.ImportedKeyVerifies | internal/crypto/keys.go:145-323 | the key imported from an EC public key's JWK gives every signature made with the private key the verdict that the own key gives it |
| Jwk.CurvesByName | internal/crypto/keys.go:353-364 | the accepted curve names, no name meaning P-256, with coordinates of 32, 48 and 66 bytes |
| Jwk.RsaJwkFields | internal/crypto/keys.go:168-176 | an RSA JWK holds modulus and exponent without leading zeros, id, type and operations, and no private part |
| Jwk.EcJwkFields | internal/crypto/keys.go:178-188 | an EC JWK holds x and y at the curve's width, and no private part |
| Jwk.RsaPrivateImport | internal/crypto/keys.go:95-136 | an RSA private key takes each number from its own field, the primes if both are there, and the answered JWK shows the public part only |
| Jwk.EcPrivateImport | internal/crypto/keys.go:137-162 | an EC private key takes curve, coordinates and d from their own fields |
| Jwk.OctImport | internal/crypto/keys.go:84-94 | a symmetric key is kept and not shown |
| Jwk.ImportRefuses | internal/crypto/keys.go:84-166 | exactly which types, curves, missing fields and exponents each error answers |
| Jwk.UndecodableRefused | internal/crypto/keys.go:84-166 | exactly which fields that do not decode refuse a symmetric or EC key, and those that refuse an RSA key |
| Jwk.SignatureLayout | internal/crypto/keys.go:268-283 | the first half of a signature is r and the second s, each at the curve's width |
| Jwk.SigningKeys | internal/crypto/keys.go:254-327 | which key material signing and verifying need, and that a signature of another length is invalid |
| Paging.AtoiItoa | internal/store/store.go:308-327 | the decimal token printed for an offset parses back to it |
| Paging.AtoiReads | internal/store/store.go:308-327 | a token of digits reads as its decimal value, with or without a sign, exactly if the value fits 64 bits |
| Paging.IsDigitIff | internal/store/store.go:308-327 | the digits are the ten characters 0 to 9 |
| Paging.DigitsValueIff | internal/store/store.go:308-327 | a string reads as a number exactly if all its characters are digits |
| Paging.FirstDigitWeighsMost | internal/store/store.go:308-327 | the first of n+1 digits weighs 10^n |
| Paging.PageLaw | internal/store/store.go:300-328 | which tokens are refused, which items a page of 1..100 (25 by default) shows, and exactly when a token to the next one comes with it |
| Paging.FirstValue | internal/handler/handler.go:87-114 | of a parameter given more than once the first value counts |
| Paging.ParseLaw | internal/handler/handler.go:87-114 | which sizes are refused, and that a given one is taken up to 100; the names with the dollar sign win |
| Paging.NextQueryLaw | internal/handler/handler.go:116-127 | a next link carries the token and the API version, every other parameter as it was |
| Paging.CloneValues | internal/handler/handler.go:129-136 | the copying loop gives an equal query |
| Paging.NextQueryParses | internal/handler/handler.go:87-127 | the query of a next link parses to the same page size and to the token it was built with |
| Paging.WalkUnique | internal/handler/handler.go:87-127 | a client following links has one possible sequence of pages |
| Paging.WalkChunks | internal/handler/handler.go:87-127 | from any offset that a token can carry, that sequence is the consecutive chunks from there |
| Paging.FollowingLinksEnumerates | internal/store/store.go:300-328 | from a request without a token, the pages exist, are unique, concatenate to the whole list, are non-empty if the list is, hold at most min(size, 100) items, and end after max(1, ceil(n/size)) requests |
| Names.SortStrings | internal/store/secrets.go:66-76 | sorting the names gives the one ascending sequence of them |
| Names.SortedIsAscending | internal/store/secrets.go:66-76 | that sequence is strictly ascending and lists exactly the names |
| Names.LessIff | internal/store/secrets.go:66-76 | of two names that first differ at k, the one that ends there or has the smaller character comes first |
| Shelves.StepKeepsSound | internal/store/secrets.go:18-288 | every operation keeps each history non-empty and filed under its own name |
| Shelves.PutThenGet | internal/store/secrets.go:18-49 | a put fails exactly for a missing field, a deleted name or failed generation and then changes nothing; otherwise the record holds the given content, tags and attributes, each under its own name, and the times, an unversioned get returns it next, it follows all earlier versions, and nothing else has changed |
| Shelves.BuiltAttributes | internal/store/store.go:238-260 | enabled, not-before and expiry are the given ones, or none; the times and the recovery settings the vault's |
| ShelfLaws.PutRefuses | internal/store/secrets.go:18-34 | which error answers a refused put, the missing fields first |
| ShelfLaws.GetLaw | internal/store/secrets.go:51-64 | a get answers the last version, or the first with the given id, exactly of an active name |
| ShelfLaws.DeleteLaw | internal/store/secrets.go:134-161 | exactly when a delete succeeds; the whole history is then deleted, dated now and 90 days on, and its last version is the answer, now and on later gets of the deleted item |
| ShelfLaws.GetDeletedLaw | internal/store/secrets.go:191-206 | the last deleted version with its dates, exactly of a deleted name |
| ShelfLaws.PurgeLaw | internal/store/secrets.go:208-216 | exactly the deleted history is forgotten |
| ShelfLaws.RecoverLaw | internal/store/secrets.go:218-231 | exactly when a recover succeeds, conflict on an active name even if it is deleted too; the history is then active as it was |
| ShelfLaws.BackUpLaw | internal/store/secrets.go:233-250 | the token is the name and its whole history |
| ShelfLaws.RestoreLaw | internal/store/secrets.go:252-277 | exactly which tokens are restored; each version keeps content, id, times and tags, under the token's name and the vault's recovery settings |
| ShelfLaws.SetFacetLaw | internal/store/certificates.go:227-238 | a policy change touches the latest version's policy and update time only |
| ShelfLaws.UpdateRefuses | internal/store/secrets.go:112-119 | a refused update says not found and changes nothing |
| ShelfLaws.NamesListed | internal/store/secrets.go:66-89 | a page of names is the page of their one ascending list |
| ShelfLaws.ListLaw | internal/store/secrets.go:66-89 | a listing shows for each name of the page its latest version, the value blanked |
| ShelfLaws.ListDeletedLaw | internal/store/secrets.go:163-189 | the same of deleted names, as a get of the deleted item shows them |
| ShelfLaws.ListVersionsLaw | internal/store/secrets.go:91-110 | a listing of versions is the page of the history from last to first, values blanked |
| Shelves.UpdateTouchesOne | internal/store/secrets.go:112-132 | an update changes only content type, tags and attributes of the one addressed version, given fields replacing and absent ones staying, and a get of the same version returns it |
| Shelves.RecoverUndoesDelete | internal/store/secrets.go:134-231 | recovering what was just deleted restores the whole shelf and returns the deleted record |
| Shelves.RestoreBringsBack | internal/store/secrets.go:233-277 | restoring a backup brings back exactly the history backed up, whatever happened in between |
| Shelves.StepCarries | internal/store/secrets.go:112-288 | no operation takes a version of a name away, or changes its value or creation time, except a purge or restore of that name, even when the name is both active and deleted |
| Shelves.CarriedTransitive | internal/store/secrets.go:134-231 | what each of two steps carries, both together carry |
| Shelves.CarriedHolds | internal/store/secrets.go:134-231 | a carried name still holds the same (version, value, creation time) |
| Shelves.FirstFromUnchanged | internal/store/secrets.go:290-300 | which version an id finds depends on the version ids alone |
| Vault.StepKeepsSoundVault | internal/store/certificates.go:16-342 | every offered operation, certificate cross-writes included, keeps all three kinds sound and active and deleted certificates disjoint |
| Vault.CertificatesStayApart | internal/store/certificates.go:251-342 | no certificate operation makes a name active and deleted at once |
| Vault.ReachableSound | internal/store/certificates.go:16-342 | so does every run: no latest version is ever looked for in an empty history |
| Vault.StepCarriesIn | internal/store/certificates.go:67-82 | per kind and name, no operation takes versions away except a purge or restore of that name in that kind |
| Vault.RunCarries | internal/store/certificates.go:67-342 | the same over whole runs: histories grow at the end only, content and creation time fixed |
| Vault.CertificateSurvives | internal/store/certificates.go:67-82 | every creation with a free name, an issuer that is absent or there, and material generated writes a certificate, key and secret version that are all still held after any run that purges or restores none of the three |
| Vault.CreationLaw | internal/store/certificates.go:16-84 | exactly when a creation succeeds, which error it answers otherwise with nothing changed, and that the three unversioned gets then answer the certificate, the managed key and the managed secret, each on top of its history with its own content, operations or content type, attributes and tags, everything else as it was |
| Vault.ImportLaw | internal/store/certificates.go:86-143 | the same of an import |
| Vault.WritesAre | internal/store/certificates.go:57-83 | what the three writes leave, record by record |
| Vault.CertificateWriteSound | internal/store/certificates.go:57-142 | the three writes of a creation or import keep the vault sound |
| Vault.PolicySound | internal/store/certificates.go:227-238 | a policy change keeps the vault sound and every version in place |
| Memory.CloneTags | internal/store/store.go:210-219 | the copying loop gives a new map object with the same entries, or nil for nil |
| Memory.CloneRecord | internal/store/secrets.go:302-311 | the record handed out shows the version, and its tag map is a new object |
| Memory.Version.Revise | internal/store/secrets.go:120-131 | the in-place update of a version object |
| Memory.Items.constructor | internal/store/store.go:196-205 | a new store is empty |
| Memory.Items.Append | internal/store/secrets.go:279-288 | appending a version object in place: the new contents, and the new objects owned by the store alone |
| Memory.Items.Put | internal/store/secrets.go:18-49 | SetSecret and key creation: new contents and answer, the returned tag map not shared with the store |
| Memory.Items.FindVersion | internal/store/secrets.go:290-300 | the scanning loop finds the first version with the id, the latest for none |
| Memory.Items.Get | internal/store/secrets.go:51-64 | the addressed version or not found; the returned tag map is new |
| Memory.Items.Update | internal/store/secrets.go:112-132 | mutates one version object in place: new contents, answer, no sharing |
| Memory.Items.Delete | internal/store/secrets.go:134-161 | moves the entry to the deleted map with its dates |
| Memory.Items.GetDeleted | internal/store/secrets.go:191-206 | the deleted entry's latest version and dates |
| Memory.Items.Purge | internal/store/secrets.go:208-216 | removes the deleted entry or reports not found |
| Memory.Items.Recover | internal/store/secrets.go:218-231 | moves the entry back, or conflict, or not found |
| Memory.Items.BackUp | internal/store/secrets.go:233-250 | the loop collects the whole history, oldest first |
| Memory.Items.Restore | internal/store/secrets.go:252-277 | rebuilds the history in new objects, replacing the active one and dropping the deleted one |
| Memory.Items.List | internal/store/secrets.go:66-89 | a page of latest versions by ascending name, values blanked, in new tag maps |
| Memory.Items.ListVersions | internal/store/secrets.go:91-110 | a page of versions, newest first, values blanked, in new tag maps |
| Memory.Items.ListDeleted | internal/store/secrets.go:163-189 | a page of deleted names, values blanked, in new tag maps |
| Memory.Items.SetLatestFacet | internal/store/certificates.go:227-238 | the policy of the latest version, changed in place |
| Memory.PlacesApart | internal/store/store.go:90-98 | any two places of the store (active or deleted, name, index), those of a name on both sides included, hold different version objects and share no tag map |
| Memory.StoresAppend | internal/store/secrets.go:279-288 | filing a fresh version object keeps the store's objects apart and its contents as specified |
| Memory.StoresJoin | internal/store/secrets.go:120-131 | changing one version object changes the contents at that one place only |
| Memory.StoresDelete | internal/store/secrets.go:134-161 | moving an entry to the deleted map shares nothing |
| Memory.StoresRecover | internal/store/secrets.go:218-231 | moving it back shares nothing |
| Memory.StoresRestore | internal/store/secrets.go:252-277 | a restored history shares nothing with what it replaces |
| Store.Store.constructor | internal/store/store.go:196-205 | the three kinds start empty and own separate objects |
| Store.Store.SetSecret | internal/store/secrets.go:18-49 | writes secrets only |
| Store.Store.CreateKey | internal/store/keys.go:13-86 | writes keys only; generation or import may fail |
| Store.Store.CreateCertificate | internal/store/certificates.go:16-84 | issuer lookup, errors, and the three writes |
| Store.Store.ImportCertificate | internal/store/certificates.go:86-143 | errors, and the three writes |
| Store.Store.WriteCertificate | internal/store/certificates.go:57-83 | the certificate, key and secret versions under one version id, in separate objects |
| Store.Store.UpdateCertificatePolicy | internal/store/certificates.go:227-238 | changes the latest certificate version only |
| SqlStore.SqlItems.SelectAscending | internal/store/sqlstore/sqlstore.go:763-796 | rows of a name in an order that creation time allows, each once |
| SqlStore.SqlItems.SelectRow | internal/store/sqlstore/sqlstore.go:579-611 | the row of the version, or a newest row of the name |
| SqlStore.SqlItems.Put | internal/store/sqlstore/sqlstore.go:538-577 | performs exactly the statements of the specification, with its answer |
| SqlStore.SqlItems.Get | internal/store/sqlstore/sqlstore.go:613-615 | the addressed row or not found |
| SqlStore.SqlItems.Update | internal/store/sqlstore/sqlstore.go:691-718 | one update statement on the addressed row |
| SqlStore.SqlItems.Delete | internal/store/sqlstore/sqlstore.go:720-761 | insert of the payload, then delete of the rows |
| SqlStore.SqlItems.GetDeleted | internal/store/sqlstore/sqlstore.go:798-833 | the payload's last version and the dates |
| SqlStore.SqlItems.Purge | internal/store/sqlstore/sqlstore.go:880-886 | one delete statement, or not found |
| SqlStore.SqlItems.Recover | internal/store/sqlstore/sqlstore.go:888-934 | one insert per snapshot, stopping at the first that fails, then the delete of the payload |
| SqlStore.SqlItems.InsertSnapshots | internal/store/sqlstore/sqlstore.go:907-919 | the insert loop |
| SqlStore.SqlItems.BackUp | internal/store/sqlstore/sqlstore.go:936-960 | the history in creation order |
| SqlStore.SqlItems.Restore | internal/store/sqlstore/sqlstore.go:962-993 | delete of rows, delete of payload, one insert per version |
| SqlRefinement.PutRow | internal/store/sqlstore/sqlstore.go:538-577 | a successful put leaves one row, under its name and version id, at its timestamp, with the answered record; an id already used for the name is the database error |
| SqlRefinement.RestoredRows | internal/store/sqlstore/sqlstore.go:962-993 | a successful restore leaves each version of the token in its row, the j-th at time j |
| SqlRuns.DeleteKeeps | internal/store/sqlstore/sqlstore.go:720-761 | after either statement of a delete every (version, value, creation time) of every name is in the table or the payload |
| SqlRuns.RecoverKeeps | internal/store/sqlstore/sqlstore.go:888-934 | after any statement of a recover, too |
| SqlRuns.RestoreKeeps | internal/store/sqlstore/sqlstore.go:962-993 | a restore takes nothing from any other name |
| SqlRuns.InsertsOnlyAdd | internal/store/sqlstore/sqlstore.go:907-919 | each insert of a recover leaves the payload and all earlier rows alone |
| SqlRuns.InsertsArrive | internal/store/sqlstore/sqlstore.go:907-919 | when all inserts succeed every snapshot has its row |
| SqlRuns.EveryStateKeeps | internal/store/sqlstore/sqlstore.go:538-993 | for every operation, stopped after any statement: nothing of a name is lost unless the operation purges or restores it |
| SqlRuns.InterruptedRunsKeep | internal/store/sqlstore/sqlstore.go:720-934 | over every run of complete and interrupted operations, only purges and restores of a name remove its versions |
| SqlRuns.EveryStateHasPayloads | internal/store/sqlstore/sqlstore.go:811-833 | in every such state no deleted item has an empty payload |
| SqlRefinement.SelectsUnique | internal/store/sqlstore/sqlstore.go:763-796 | with distinct creation times the engine has one possible order |
| SqlRefinement.AnswersAre | internal/store/sqlstore/sqlstore.go:579-689 | on such a table, every faithful engine answers the in-memory history, its reverse, and its last version |
| SqlRefinement.FindAgrees | internal/store/sqlstore/sqlstore.go:579-611 | both stores resolve a version id to the same version |
| SqlRefinement.InsertOnTop | internal/store/sqlstore/sqlstore.go:563-577 | an insert with a later timestamp is an append |
| SqlRefinement.UpdateRefines | internal/store/sqlstore/sqlstore.go:691-718 | the update statement is the in-place update |
| SqlRefinement.DeleteRefines | internal/store/sqlstore/sqlstore.go:720-761 | the two statements are the move to the deleted map |
| SqlRefinement.InsertsSucceed | internal/store/sqlstore/sqlstore.go:907-919 | on a free name all inserts of a recover succeed and leave the bumped rows |
| SqlRefinement.BumpedIncreases | internal/store/sqlstore/sqlstore.go:907-919 | adding i to the i-th of non-decreasing timestamps makes them strictly increasing without changing the records |
| SqlRefinement.RecoverLands | internal/store/sqlstore/sqlstore.go:888-934 | a recover ends with the rows listed exactly in payload order |
| SqlRefinement.RecoverRefines | internal/store/sqlstore/sqlstore.go:888-934 | the recover is the move back |
| SqlRefinement.RestoreRefines | internal/store/sqlstore/sqlstore.go:962-993 | the restore of an issued token, from either store, is the in-memory restore |
| SqlRefinement.BackUpRefines | internal/store/sqlstore/sqlstore.go:936-960 | both stores issue equal tokens, which a restore may use |
| SqlRefinement.ListRefines | internal/store/sqlstore/sqlstore.go:617-648 | equal pages of names |
| SqlRefinement.ListVersionsRefines | internal/store/sqlstore/sqlstore.go:650-689 | equal pages of versions |
| SqlRefinement.ListDeletedRefines | internal/store/sqlstore/sqlstore.go:835-870 | equal pages of deleted names |
| SqlRefinement.StepRefines | internal/store/sqlstore/sqlstore.go:538-993 | one operation: equal answers, records and error codes, and corresponding states |
| SqlRefinement.RunRefines | internal/store/sqlstore/sqlstore.go:538-1459 | every serial run with fresh ids, later clock readings and issued tokens: equal answers throughout, corresponding final states |
| SqlRefinement.FromTheStart | internal/store/sqlstore/sqlstore.go:538-1459 | in particular every such run from an empty database and an empty store |
| SqlHalfway.StoppedDelete | internal/store/sqlstore/sqlstore.go:720-761 | a delete stopped between its two statements leaves the name in both tables |
| SqlHalfway.StoppedRecover | internal/store/sqlstore/sqlstore.go:888-934 | a recover leaves the name in both tables after each of its statements except the last of a recover that succeeds |
| SqlHalfway.HalfwayAnswers | internal/store/sqlstore/sqlstore.go:538-934 | a name in both tables is answered conflict on recover, not found on delete, and reserved on set, with no statement executed |
| SqlHalfway.StaysStuck | internal/store/sqlstore/sqlstore.go:538-993 | no statement of an operation other than a purge or restore of the name changes its payload or takes its rows, and none but a certificate's append gives it a row |
| SqlHalfway.EntersIff | internal/store/sqlstore/sqlstore.go:538-993 | a name gets into both tables by exactly three kinds of statement: the first of its delete, any of its recover but the last of one that succeeds, and the version that a certificate's creation appends while the name is deleted |
| SqlHalfway.LeavesIff | internal/store/sqlstore/sqlstore.go:538-993 | and it leaves exactly by a purge or restore of the name |
| SqlHalfway.EveryStateDistinct | internal/store/sqlstore/sqlstore.go:538-993 | no statement of any operation leaves a payload that has a version id twice |
| SqlHalfway.RunsDistinct | internal/store/sqlstore/sqlstore.go:538-993 | so payloads name each version once in every state of every run, stopped operations included |
| SqlHalfway.RecoverSucceedsIff | internal/store/sqlstore/sqlstore.go:888-934 | a recover succeeds exactly if the name is deleted and has no rows |
| SqlHalfway.StoppedRecoverStrandsIff | internal/store/sqlstore/sqlstore.go:888-934 | stopped after its k-th insert a recover strands (leaves in the payload and not in the table) exactly the later versions |
| SqlHalfway.AppendStrands | internal/store/sqlstore/sqlstore.go:1671-1746 | a certificate's append under a deleted name strands exactly the versions with another id |
| SqlHalfway.ShownIsRow | internal/store/sqlstore/sqlstore.go:579-689 | get, backup and the listings of the table show only versions that are in the table |
| SqlHalfway.ShownIsLast | internal/store/sqlstore/sqlstore.go:811-878 | the operations on deleted items show only the last version of a payload |
| SqlHalfway.StrandedReadableIff | internal/store/sqlstore/sqlstore.go:579-878 | of the stranded versions exactly the payload's last can be read: reading the deleted item answers it, value included, and no reading operation shows any other |
| SqlHalfway.StrandedStaysIff | internal/store/sqlstore/sqlstore.go:538-993 | over every run of complete and stopped operations that neither purges nor restores the name it stays in both tables with its payload unchanged, cannot be recovered, and a version stays stranded exactly if nothing appends one under its very id |
| SqlHalfway.StrandedReadableAfterIff | internal/store/sqlstore/sqlstore.go:538-993 | and after any such run it can be read exactly if it is the payload's last |
| SqlHalfway.PurgeLosesStranded | internal/store/sqlstore/sqlstore.go:880-886 | the purge that frees the name loses the stranded versions |
| SqlHalfway.RestoreFrees | internal/store/sqlstore/sqlstore.go:962-993 | a restore of the name frees it too |
| SqlHalfway.RestoreHalfwayIff | internal/store/sqlstore/sqlstore.go:962-993 | after no statement of a restore is the restored name in both tables |
| SqlHalfway.RestoreStopKeepsIff | internal/store/sqlstore/sqlstore.go:962-993 | what each stop of a restore keeps of its own name: the payload's versions after the first statement, nothing after the second, and then exactly the token's versions inserted so far |
| SqlCycles.CycleLands | internal/store/sqlstore/sqlstore.go:720-934 | delete then recover succeeds, leaves the history in the same order at strictly increasing times, other names and the deleted table as they were |
| SqlCycles.RecoveredIsLatest | internal/store/sqlstore/sqlstore.go:888-934 | the record a recover returns is the one an unversioned get returns, ties included |
| SqlCycles.CyclesShift | internal/store/sqlstore/sqlstore.go:720-934 | after any number of cycles version i is exactly i*cycles later and the first order of ties has stayed |
| SqlCycles.DriftBound | internal/store/sqlstore/sqlstore.go:888-934 | the drift lies in 0..cycles*(n-1) |
| Encryption.HexRoundTrip | internal/encryption/encryption.go:66-85 | hexadecimal decoding undoes encoding |
| Encryption.HexAt | internal/encryption/encryption.go:66-73 | byte i is the two lower-case digits at 2i and 2i+1, high half first |
| Encryption.HexDecodesIff | internal/encryption/encryption.go:74-85 | a string decodes exactly if its length is even and each character a digit |
| Encryption.HexDecodedAt | internal/encryption/encryption.go:74-85 | and then byte i is the value of digits 2i and 2i+1 |
| Encryption.HexValueIff | internal/encryption/encryption.go:74-85 | a digit of each value is its lower- or upper-case character |
| Encryption.EncryptLaw | internal/encryption/encryption.go:34-50 | exactly 32-byte keys encrypt, and the text is the 12-byte nonce followed by what the cipher seals |
| Encryption.DecryptLaw | internal/encryption/encryption.go:52-64 | which error answers a bad key, a short text and one that does not authenticate |
| Encryption.StringLaw | internal/encryption/encryption.go:66-85 | strings are encrypted and then written as hexadecimal |
| Encryption.EncryptedDecrypts | internal/encryption/encryption.go:34-85 | what is encrypted under a 32-byte key is non-empty and decrypts to itself |
| Encryption.DecryptsOnlyUnder | internal/encryption/encryption.go:34-85 | under a committing cipher nothing decrypts under another key |
| EncryptedStore.OpenPut | internal/web/encryptedstore.go:27-41 | setting a secret through the wrapper is setting it in the plain store |
| EncryptedStore.OpenUpdate | internal/web/encryptedstore.go:72-78 | updating |
| EncryptedStore.OpenDelete | internal/web/encryptedstore.go:81-88 | deleting |
| EncryptedStore.OpenRecover | internal/web/encryptedstore.go:63-69 | recovering |
| EncryptedStore.OpenRestore | internal/store/secrets.go:252-277 | restoring a token of encrypted versions is restoring its decryption |
| EncryptedStore.OpenGet | internal/web/encryptedstore.go:44-50 | getting |
| EncryptedStore.OpenGetDeleted | internal/web/encryptedstore.go:53-60 | getting a deleted secret |
| EncryptedStore.OpenBackUp | internal/store/secrets.go:233-250 | the token of the encrypted versions decrypts to the plain store's token |
| EncryptedStore.OpenListVersions | internal/store/secrets.go:91-110 | listings, which blank values, are the plain store's |
| EncryptedStore.StepSimulates | internal/web/encryptedstore.go:27-105 | one operation under a fixed key: decrypting every stored value gives the plain store's next state; the five reading operations answer exactly as the plain store, the others with ciphertext that decrypts to its answer |
| EncryptedStore.RunSimulates | internal/web/encryptedstore.go:27-105 | the same over every run that restores only tokens the store issued |
| EncryptedStore.ShownValue | internal/web/encryptedstore.go:92-105 | a stored value is shown decrypted if it decrypts under the key held, and as it is stored otherwise |
| EncryptedStore.PlainBeforeSetup | internal/web/encryptedstore.go:27-105 | without a key and not locked the wrapper is the plain store, operation by operation |
| EncryptedStore.SetRefused | internal/web/encryptedstore.go:27-41 | a set while locked, or under a key of the wrong size, answers an internal error and changes nothing |
| EncryptingWrapper.Wrapper.SetSecret | internal/web/encryptedstore.go:27-41 | refusal while locked, encryption of a non-empty value, delegation |
| EncryptingWrapper.Wrapper.GetSecret | internal/web/encryptedstore.go:44-50 | the wrapped answer, decrypted |
| EncryptingWrapper.Wrapper.GetDeletedSecret | internal/web/encryptedstore.go:53-60 | the wrapped answer, decrypted |
| EncryptingWrapper.Wrapper.RecoverDeletedSecret | internal/web/encryptedstore.go:63-69 | the wrapped effect, and the answer decrypted |
| EncryptingWrapper.Wrapper.UpdateSecret | internal/web/encryptedstore.go:72-78 | the wrapped effect, and the answer decrypted |
| EncryptingWrapper.Wrapper.DeleteSecret | internal/web/encryptedstore.go:81-88 | the wrapped effect, and the answer decrypted |
| Web.Handler.SetEncryptionKey | internal/web/handler.go:205-213 | keeps a copy in a new buffer, so later writes to the caller's do not reach the key; an empty key clears it |
| Web.Handler.GetEncryptionKey | internal/web/handler.go:215-222 | hands out a new buffer with the key, or none |
| Web.Handler.IsLocked | internal/web/handler.go:302-313 | locked exactly if the salt can be read and is there and no key is held |
| Web.Handler.HandleSetup | internal/web/handler.go:249-300 | status, config writes, rollback and key, for every combination of failing writes |
| Web.Handler.HandleUnlock | internal/web/handler.go:315-364 | status and key, for every combination of failing reads |
| WebModel.SetupStatus | internal/web/handler.go:249-300 | the status of a setup, guard by guard, for every combination of failing writes |
| WebModel.SetupUsers | internal/web/handler.go:282-300 | a setup leaves exactly the new admin if it succeeds, or if it gets past the admin's creation and then neither its write nor its rollback works; otherwise the users are what they were |
| WebModel.SetupCanBeRetried | internal/web/handler.go:282-300 | after every setup that failed and was rolled back, a complete retry succeeds |
| WebModel.SetupSessions | internal/web/handler.go:249-300 | a setup ends no session but those of the user it takes back |
| WebModel.SetupConfig | internal/web/handler.go:249-300 | a setup that succeeds leaves the salt in hexadecimal, a token that decrypts to "verify" under the derived key, that key held, and the rest of the config as it was |
| WebModel.UnlockStatus | internal/web/handler.go:315-364 | the status of an unlock, guard by guard, and that a refused one changes nothing |
| WebModel.LockedIff | internal/web/handler.go:302-313 | locked exactly if the salt is readable and there and no key is held |
| WebModel.RestartLaw | internal/web/handler.go:150-157 | a restart drops key and sessions and keeps users and config |
| WebModel.HeldIff | internal/web/handler.go:205-213 | an empty key counts as none, every other is held |
| WebGates.StepKeepsVerified | internal/web/handler.go:249-364 | a held key opens the stored verification token to "verify": kept by every event |
| WebGates.RunKeepsVerified | internal/web/handler.go:249-364 | and so in every reachable state, failed setups and deleted admins included |
| WebGates.SetupMakesReady | internal/web/handler.go:249-300 | a setup that succeeds found no admin and leaves the server unlocked with its key |
| WebGates.StepKeepsReady | internal/web/handler.go:249-364 | while the admin exists no event replaces salt, token or key by others |
| WebGates.RunKeepsReady | internal/web/handler.go:249-364 | over every run that keeps the admin the key is absent or the setup's |
| WebGates.UnlocksIff | internal/web/handler.go:315-364 | unlock succeeds exactly if salt and token are there and readable and the passphrase derives the token's key from the salt; it then holds that key, and otherwise changes nothing |
| WebRuns.LockedRefusesIff | internal/web/encryptedstore.go:27-41 | between setup and unlock, setting a secret is refused and changes nothing exactly if the config can be read |
| WebRuns.UnreadableConfigStoresPlaintext | internal/web/encryptedstore.go:27-41 | the input that shows it: while the config read fails the plaintext is stored, and an unversioned get of the store returns it |
| WebRuns.GatesRun | internal/web/handler.go:205-222 | using secrets changes neither config nor key, so the results on those hold for the whole server |
| WebRuns.SetKeeps | internal/web/encryptedstore.go:27-41 | a secret set while unlocked is found under its version id, sealed under the key |
| WebRuns.RunKeeps | internal/web/handler.go:249-364 | and stays found, active or deleted, over every run that neither purges nor restores its name |
| WebRuns.KeptReadsBack | internal/web/encryptedstore.go:44-50 | reading it while unlocked gives the value |
| WebRuns.SecretSurvives | internal/web/handler.go:249-364 | a value set while unlocked reads back unchanged after any run of restarts, unlocks and other events that keep the admin and neither purge nor restore the name, once the setup's passphrase has unlocked the server |
| WebRuns.SecretReadsBackIff | internal/web/encryptedstore.go:44-50 | exactly when a value reads back after any run, admin deleted or not: while a key is held and the version is active, exactly if the last token a setup wrote is one of the key the value was sealed under |
| WebRuns.StepKeepsSealed | internal/web/encryptedstore.go:27-105 | one event, locked or unlocked, leaves every stored value and every issued token sealed under the setup's key |
| WebRuns.RunKeepsSealed | internal/web/encryptedstore.go:27-105 | the locked property over runs: with the admin kept, issued tokens restored, and the config readable at every set while locked, no value is ever stored unsealed |
| WebSql.SqlStepRefines | internal/store/sqlstore/sqlstore.go:538-993 | one event of the server over the SQL tables: the replies, key and config of the server over the in-memory store |
| WebSql.SqlServerRunRefines | internal/store/sqlstore/sqlstore.go:538-993 | the same over whole runs, in which restarts leave the tables and nothing else |
| WebSql.SecretSurvivesInTables | internal/web/encryptedstore.go:27-50 | a value set while unlocked reads back from the SQL tables after any such run and an unlock, with no assumption on what outlives the process |
| WebGates.SetupWrites | internal/web/handler.go:249-300 | a setup changes config and key exactly if it passes its guards and its first write succeeds, and then to what; the existing admin is one of the guards |
| WebGates.StepKeepsConfigured | internal/web/handler.go:249-364 | every event leaves the config as the salt and token that setups wrote last, and a held key as that token's key |
| WebGates.RunKeepsConfigured | internal/web/handler.go:249-364 | so over every run, admins deleted and setups repeated, a held key is the key of the token in place |
| WebGates.PassphraseUnlocksIff | internal/web/handler.go:249-364 | after any run a passphrase unlocks exactly if it derives, from the last salt written, the key of the last token written |
| WebGates.SetupKeepsPassphraseIff | internal/web/handler.go:249-300 | a passphrase that unlocks goes on unlocking after a setup request exactly if the request does not write the salt, or the passphrase derives with the new salt the key of the token then in place |
| WebGates.SecondSetupLocksOut | internal/web/handler.go:282-300 | the inputs that show it: the admin is deleted, and then a setup that completes or that fails at its second write shuts the first passphrase out, unless it derives with the new salt the key then in place; the deletion alone does not |
| WebGates.CommittingBinds | internal/encryption/encryption.go:52-64 | a cipher whose texts open under one key only meets the hypothesis on tokens |
| WebServer.Site.SetSecret | internal/web/encryptedstore.go:27-41 | handler and store together: the key the callback hands out, the lock check, and the write make one step of the server runs |
| WebServer.Site.GetSecret | internal/web/encryptedstore.go:44-50 | reading through them is the get step of the runs |
| Auth.Service.CreateUser | internal/auth/auth.go:140-157 | validation, hashing, insertion under the table's constraints |
| Auth.Service.Setup | internal/auth/auth.go:100-138 | only if there is no admin |
| Auth.Service.GetUserByUsername | internal/auth/auth.go:353-360 | the user with the name |
| Auth.Service.Login | internal/auth/auth.go:159-200 | the credentials check, and the loop that drops expired sessions before the new one is stored |
| Auth.Service.ValidateSession | internal/auth/auth.go:202-224 | with both clock readings |
| Auth.Service.Logout | internal/auth/auth.go:226-230 | drops the token |
| Auth.Service.DeleteUser | internal/auth/auth.go:258-280 | the user, and by the loop every session of the user |
| Auth.Service.SetConfig | internal/auth/auth.go:298-309 | sets one entry, or answers an error for an empty key |
| AuthLaws.LoginLaw | internal/auth/auth.go:159-200 | a login succeeds exactly if name and password are given and a user with that name has a hash that matches; the session then names that user and ends 86400 seconds later, and unexpired sessions stay; a refusal changes nothing |
| AuthLaws.AuthenticatedIff | internal/auth/auth.go:166-174 | the user a login is for, exactly |
| AuthLaws.ValidateLaw | internal/auth/auth.go:202-224 | a token is accepted exactly if its session is there and not yet over; a refused one is dropped |
| AuthLaws.LogoutLaw | internal/auth/auth.go:226-230 | exactly the token is dropped |
| AuthLaws.DeleteUserLaw | internal/auth/auth.go:258-280 | exactly the user and the user's sessions are dropped, or which error |
| AuthLaws.CreateUserLaw | internal/auth/auth.go:140-157 | a user is created exactly if name, password, role and hash are good and neither name, id nor a second admin is taken; which error otherwise |
| AuthLaws.SetupLaw | internal/auth/auth.go:100-138 | the same of the first admin; an existing admin is its own error |
| AuthLaws.SetConfigLaw | internal/auth/auth.go:298-309 | one entry is set and every other stays |
| AuthRuns.StepKeepsSessionsOk | internal/auth/auth.go:100-280 | every stored session's user exists with the same name and role: kept by every operation |
| AuthRuns.RunKeepsSessionsOk | internal/auth/auth.go:100-280 | and so in every reachable state |
| AuthRuns.StepEntry | internal/auth/auth.go:159-280 | an entry of the next session map was just issued, or was there and was not ended |
| AuthRuns.StepStays | internal/auth/auth.go:159-280 | an entry that is neither expired nor ended stays |
| AuthRuns.RunAgrees | internal/auth/auth.go:159-280 | after every run the unexpired entries are exactly the standing logins |
| AuthRuns.ValidationIsHistory | internal/auth/auth.go:202-224 | a token is accepted exactly if a login with the name and matching password of a user who then existed issued it less than 86400 seconds ago, and neither its logout nor the deletion of that user has happened since; the answer names a user who exists, with the same name and role |

## Left out

- Locks and true concurrency: operations are serial; SQL operations may stop between statements, but two never interleave. The second look under the write lock in session validation is kept as a second clock reading.
- Object identity below tag maps and versions: attribute pointers, key-operation slices, policies and byte slices are values, and an entry (`*secretEntry`) is the sequence of its version objects, so sharing is excluded for version objects and tag maps only.
- RSA, ECDSA, AES, GCM, PBKDF2, bcrypt and X.509: functions passed in, with inverse laws only where a theorem states them. RSA encryption and signatures are not modelled.
- JSON, base64 and URL encoding: assumed to be inverse to their decoding; a backup token stands for what it decodes to, or for nothing if it does not decode.
- Serialization of key material in the SQL store: an imported RSA private key without prime factors cannot be serialized there; such imports are outside the model.
- Database errors other than a stop between statements and a duplicate primary key; config reads and writes of the web handler do fail. A failing statement is taken to have no effect.
- SQL dialects, drivers, migrations, collations: names compare byte by byte.
- The 64-bit width of timestamps: `SqlCycles.DriftBound` says how far recovers move them.
- Certificates in the SQL store: creation and import are the separate inserts (`AppendOp`) of the three tables, in no joint operation; the managed secret's content type differs between the stores, so creation is not part of the refinement.
- Managed secrets of certificates are written past the encrypting store: nothing is claimed about their encryption, nor about decryption of what RestoreSecret returns.
- `KeyWrap.UnwrapUndoesWrap` covers one register, as the program does, where RFC 3394 asks for at least two; wrap and unwrap look at the length of the key and not at the requested algorithm.
- Default policies, default key operations, id strings and error texts; error status and code are modelled.
- Closing the service, listing users, HTTP routing, cookies, request decoding, and the user interface.
- `AuthRuns.ValidationIsHistory` is about one process: a restart drops all sessions (`WebModel.Restarted`).
- `WebRuns.SecretSurvives` is about a store that keeps its secrets over a restart; the in-memory store does not, the tables of `WebSql.SecretSurvivesInTables` do. Events of the server are complete there; interruption is `SqlRuns` and `SqlHalfway`.
