// The encrypting store: secret values sealed on their way in and opened on their way out.
module EncryptedStore {
  import opened Wrappers
  import opened Model
  import opened Shelves
  import opened Encryption
  import Paging

  type Secret = Record<string, string>
  type SecretShelf = Shelf<string, string>
  type SecretOp = Op<string, string>
  type SecretResponse = Response<string, string>

  const VAULT_LOCKED := Error(500, "InternalServerError")

  /** Listings show no value. */
  function NoValue(v: string): string {
    ""
  }

  /** The value as it is if there is no key, no value, or the value does not open under the key. */
  function DecryptValue(g: Aead, key: Option<Key>, v: string): string {
    if key == None || v == "" then v
    else
      match DecryptString(g, key.value, v)
      case Err(_) => v
      case Ok(plain) => plain
  }

  function DecryptRecord(g: Aead, key: Option<Key>, r: Secret): Secret {
    r.(core := DecryptValue(g, key, r.core))
  }

  /** A stored value is shown opened if it can be, and otherwise as it is stored. */
  lemma ShownValue(g: Aead, key: Option<Key>, v: string)
    ensures key == None || v == "" ==> DecryptValue(g, key, v) == v
    ensures key.Some? && v != "" ==>
              var plain := DecryptString(g, key.value, v);
              DecryptValue(g, key, v) == if plain.Ok? then plain.value else v
  {
  }

  function DecryptDeleted(g: Aead, key: Option<Key>, d: DeletedRecord<string, string>): DeletedRecord<string, string> {
    d.(record := DecryptRecord(g, key, d.record))
  }

  function DecryptResponse(g: Aead, key: Option<Key>, r: SecretResponse): SecretResponse {
    match r
    case One(x) => One(DecryptRecord(g, key, x))
    case OneDeleted(d) => OneDeleted(DecryptDeleted(g, key, d))
    case _ => r
  }

  /** What the wrapper turns a set request into, or its refusal: locked, or encryption failed. */
  function SealedOp(g: Aead, key: Option<Key>, locked: bool, nonce: Nonce, op: SecretOp): Result<SecretOp, Error> {
    if !op.PutOp? || op.made == None then Ok(op)
    else if key == None then (if locked then Err(VAULT_LOCKED) else Ok(op))
    else if op.made.value.0 == "" then Ok(op)
    else
      match EncryptString(g, key.value, nonce, op.made.value.0)
      case Err(_) => Err(VAULT_LOCKED)
      case Ok(sealed) => Ok(op.(complete := sealed != "", made := Some((sealed, op.made.value.1))))
  }

  /** The operations whose answer the wrapper decrypts. */
  predicate Overridden(op: SecretOp) {
    op.GetOp? || op.GetDeletedOp? || op.RecoverOp? || op.UpdateOp? || op.DeleteOp?
  }

  /** The store's own operation, and its answer decrypted where the wrapper does so. */
  ghost function DecryptedStep(g: Aead, s: SecretShelf, key: Option<Key>, op: SecretOp): (SecretShelf, SecretResponse)
    requires Sound(s)
  {
    var (s', r) := Step(s, Secrets, NoValue, op);
    (s', if Overridden(op) then DecryptResponse(g, key, r) else r)
  }

  /** An operation of the encrypting store over the store it wraps. */
  ghost function EncryptedStep(g: Aead, s: SecretShelf, key: Option<Key>, locked: bool, nonce: Nonce, op: SecretOp)
    : (SecretShelf, SecretResponse)
    requires Sound(s)
  {
    match SealedOp(g, key, locked, nonce, op)
    case Err(e) => (s, Failed(e))
    case Ok(inner) =>
      DecryptedStep(g, s, key, inner)
  }

  /** Before setup, without a key and not locked, the wrapper is the store itself. */
  lemma PlainBeforeSetup(g: Aead, s: SecretShelf, nonce: Nonce, op: SecretOp)
    requires Sound(s)
    ensures EncryptedStep(g, s, None, false, nonce, op) == Step(s, Secrets, NoValue, op)
  {
  }

  /** While locked, and when encryption fails, setting a value is an internal error and nothing is stored. */
  lemma SetRefused(g: Aead, s: SecretShelf, key: Option<Key>, locked: bool, nonce: Nonce, op: SecretOp)
    requires Sound(s) && op.PutOp? && op.made.Some?
    requires (key == None && locked) || (key.Some? && op.made.value.0 != "" && |key.value| != 32)
    ensures EncryptedStep(g, s, key, locked, nonce, op) == (s, Failed(Error(500, "InternalServerError")))
  {
  }

  // ----- the plain store behind the encrypted one -----

  function OpenHistory(g: Aead, key: Key, h: History<string, string>): (r: History<string, string>)
    ensures |r| == |h|
  {
    seq(|h|, i requires 0 <= i < |h| => DecryptRecord(g, Some(key), h[i]))
  }

  function OpenDeleted(g: Aead, key: Key, d: Deleted<string, string>): Deleted<string, string> {
    d.(versions := OpenHistory(g, key, d.versions))
  }

  /** The store with every value decrypted. */
  function OpenShelf(g: Aead, key: Key, s: SecretShelf): SecretShelf {
    Shelf(map n | n in s.active :: OpenHistory(g, key, s.active[n]),
          map n | n in s.deleted :: OpenDeleted(g, key, s.deleted[n]))
  }

  function OpenBackup(g: Aead, key: Key, b: Backup<string, string>): Backup<string, string> {
    b.(versions := OpenHistory(g, key, b.versions))
  }

  /** The operation on the plain store: the same, with the plain token if it restores one. */
  function PlainOp(g: Aead, key: Key, op: SecretOp): SecretOp {
    match op
    case RestoreOp(Some(b)) => RestoreOp(Some(OpenBackup(g, key, b)))
    case _ => op
  }

  /** The value is there and opens under the key. */
  predicate Opens(g: Aead, key: Key, r: Secret) {
    r.core != "" && DecryptString(g, key, r.core).Ok?
  }

  predicate AllOpen(g: Aead, key: Key, h: History<string, string>) {
    forall i :: 0 <= i < |h| ==> Opens(g, key, h[i])
  }

  /** Everything stored was sealed under the key. */
  predicate Sealed(g: Aead, key: Key, s: SecretShelf) {
    && (forall n :: n in s.active ==> AllOpen(g, key, s.active[n]))
    && (forall n :: n in s.deleted ==> AllOpen(g, key, s.deleted[n].versions))
  }

  /** A set request carries a value exactly if it is complete; a token that restores is one of the store's own. */
  predicate Proper(g: Aead, key: Key, op: SecretOp) {
    && !op.AppendOp?
    && (op.PutOp? ==> op.made.Some? && (op.complete <==> op.made.value.0 != ""))
    && (op.RestoreOp? && Restorable(op.token) ==> AllOpen(g, key, op.token.value.versions))
  }

  /** The answer of the encrypting store that corresponds to the plain store's. */
  function Expected(g: Aead, key: Key, op: SecretOp, r: SecretResponse): SecretResponse {
    if Overridden(op) then r
    else
      match r
      case One(x) => One(DecryptRecord(g, Some(key), x))
      case Token(b) => Token(OpenBackup(g, key, b))
      case _ => r
  }

  lemma OpenSound(g: Aead, key: Key, s: SecretShelf)
    requires Sound(s)
    ensures Sound(OpenShelf(g, key, s))
  {
    hide DecryptValue;
  }

  lemma OpenAt(g: Aead, key: Key, h: History<string, string>, i: nat)
    requires i < |h|
    ensures OpenHistory(g, key, h)[i] == DecryptRecord(g, Some(key), h[i])
  {
  }

  lemma FiledSome(h: History<string, string>, name: string)
    requires Filed(h, name)
    ensures h != []
  {
  }

  lemma OpenLatest(g: Aead, key: Key, h: History<string, string>)
    requires h != []
    ensures Latest(OpenHistory(g, key, h)) == DecryptRecord(g, Some(key), Latest(h))
  {
  }

  lemma OpenLookup(g: Aead, key: Key, s: SecretShelf, name: string, version: string)
    ensures Lookup(OpenShelf(g, key, s), name, version) == Lookup(s, name, version)
  {
    if name in s.active && version != "" {
      FirstFromUnchanged(s.active[name], OpenHistory(g, key, s.active[name]), version, 0);
    }
  }

  /** Filing a record under a history, and then opening it, is opening both and then filing. */
  lemma OpenPut(g: Aead, key: Key, nonce: Nonce, s: SecretShelf, op: SecretOp)
    requires Correct(g) && |key| == KEY_SIZE && Sealed(g, key, s) && Sound(s)
    requires op.PutOp? && Proper(g, key, op)
    ensures var (s', r) := EncryptedStep(g, s, Some(key), false, nonce, op);
            var (p', q) := Step(OpenShelf(g, key, s), Secrets, NoValue, op);
            OpenShelf(g, key, s') == p' && Sealed(g, key, s') && Expected(g, key, op, r) == q
  {
    var v := op.made.value.0;
    if v != "" {
      EncryptedDecrypts(g, key, nonce, v);
      var sealed := EncryptString(g, key, nonce, v).value;
      if op.name != "" && op.name !in s.deleted {
        var r := Record(op.name, op.version, sealed, op.made.value.1, BuildAttributes(op.attrs, op.now, op.now), op.tags);
        assert DecryptRecord(g, Some(key), r) == r.(core := v);
        OpenAppend(g, key, s, r);
      }
    }
  }

  lemma OpenAppend(g: Aead, key: Key, s: SecretShelf, r: Secret)
    requires Sealed(g, key, s) && Opens(g, key, r)
    ensures OpenShelf(g, key, Appended(s, r)) == Appended(OpenShelf(g, key, s), DecryptRecord(g, Some(key), r))
    ensures Sealed(g, key, Appended(s, r))
  {
    var h := HistoryOf(s, r.name);
    assert OpenHistory(g, key, h + [r]) == OpenHistory(g, key, h) + [DecryptRecord(g, Some(key), r)];
    assert HistoryOf(OpenShelf(g, key, s), r.name) == OpenHistory(g, key, h);
  }

  lemma OpenRevised(g: Aead, key: Key, h: History<string, string>, i: nat, r: Secret)
    requires i < |h| && AllOpen(g, key, h) && r.core == h[i].core
    ensures OpenHistory(g, key, h[i := r]) == OpenHistory(g, key, h)[i := DecryptRecord(g, Some(key), r)]
    ensures OpenHistory(g, key, h)[i] == DecryptRecord(g, Some(key), h[i])
    ensures AllOpen(g, key, h[i := r])
  {
    assert Opens(g, key, h[i]);
  }

  lemma OpenUpdate(g: Aead, key: Key, s: SecretShelf, name: string, version: string, facet: Option<string>,
                   attrs: Option<Attributes>, tags: Tags, now: int)
    requires Sealed(g, key, s)
    ensures var (s', r) := Update(s, Secrets, name, version, facet, attrs, tags, now);
            var (p', q) := Update(OpenShelf(g, key, s), Secrets, name, version, facet, attrs, tags, now);
            && OpenShelf(g, key, s') == p' && Sealed(g, key, s')
            && DecryptResponse(g, Some(key), AsOne(r)) == AsOne(q)
  {
    hide DecryptValue, Lookup, MergeAttributes, OpenHistory, AllOpen;
    OpenLookup(g, key, s, name, version);
    var at := Lookup(s, name, version);
    if at.Some? {
      var h, i := s.active[name], at.value;
      var r := Revised(h[i], facet, attrs, tags, now);
      OpenRevised(g, key, h, i, r);
      var s' := Update(s, Secrets, name, version, facet, attrs, tags, now).0;
      assert OpenShelf(g, key, s').active
             == OpenShelf(g, key, s).active[name := OpenHistory(g, key, h)[i := DecryptRecord(g, Some(key), r)]];
    }
  }

  lemma OpenRestoredHistory(g: Aead, key: Key, b: Backup<string, string>)
    requires AllOpen(g, key, b.versions)
    ensures OpenHistory(g, key, RestoredHistory(b)) == RestoredHistory(OpenBackup(g, key, b))
    ensures AllOpen(g, key, RestoredHistory(b)) && |RestoredHistory(b)| == |b.versions|
  {
    hide DecryptValue;
    forall i | 0 <= i < |b.versions|
      ensures Opens(g, key, RestoredHistory(b)[i])
    {
      assert Opens(g, key, b.versions[i]);
    }
  }

  lemma OpenRestore(g: Aead, key: Key, s: SecretShelf, token: Option<Backup<string, string>>)
    requires Sealed(g, key, s) && (Restorable(token) ==> AllOpen(g, key, token.value.versions))
    ensures var plain := if token.Some? then Some(OpenBackup(g, key, token.value)) else None;
            var (s', r) := Restore(s, token);
            var (p', q) := Restore(OpenShelf(g, key, s), plain);
            && OpenShelf(g, key, s') == p' && Sealed(g, key, s')
            && DecryptResponse(g, Some(key), AsOne(r)) == AsOne(q)
  {
    hide DecryptValue, OpenHistory, AllOpen, RestoredHistory;
    if Restorable(token) {
      var b := token.value;
      OpenRestoredHistory(g, key, b);
      OpenLatest(g, key, RestoredHistory(b));
      var s' := Restore(s, token).0;
      assert OpenShelf(g, key, s').active
             == OpenShelf(g, key, s).active[b.name := OpenHistory(g, key, RestoredHistory(b))];
      assert OpenShelf(g, key, s').deleted == OpenShelf(g, key, s).deleted - {b.name};
    }
  }

  lemma OpenGet(g: Aead, key: Key, s: SecretShelf, name: string, version: string)
    ensures DecryptResponse(g, Some(key), AsOne(Get(s, Secrets, name, version)))
            == AsOne(Get(OpenShelf(g, key, s), Secrets, name, version))
  {
    hide DecryptValue, OpenHistory, Lookup;
    OpenLookup(g, key, s, name, version);
    if Lookup(s, name, version).Some? {
      OpenAt(g, key, s.active[name], Lookup(s, name, version).value);
    }
  }

  lemma OpenGetDeleted(g: Aead, key: Key, s: SecretShelf, name: string)
    requires Sound(s)
    ensures Sound(OpenShelf(g, key, s))
    ensures DecryptResponse(g, Some(key), AsDeleted(GetDeleted(s, Secrets, name)))
            == AsDeleted(GetDeleted(OpenShelf(g, key, s), Secrets, name))
  {
    hide DecryptValue, OpenHistory;
    OpenSound(g, key, s);
    if name in s.deleted {
      OpenLatest(g, key, s.deleted[name].versions);
    }
  }

  lemma OpenPurge(g: Aead, key: Key, s: SecretShelf, name: string)
    requires Sealed(g, key, s)
    ensures var (s', r) := Purge(s, Secrets, name);
            Sealed(g, key, s') && Purge(OpenShelf(g, key, s), Secrets, name) == (OpenShelf(g, key, s'), r)
  {
    hide OpenHistory, AllOpen;
    var s' := Purge(s, Secrets, name).0;
    var plain := OpenShelf(g, key, s).deleted;
    assert OpenShelf(g, key, s').deleted == if name in s.deleted then plain - {name} else plain;
  }

  lemma OpenBackUp(g: Aead, key: Key, s: SecretShelf, name: string)
    ensures var (r, q) := (AsToken(BackUp(s, Secrets, name)), AsToken(BackUp(OpenShelf(g, key, s), Secrets, name)));
            q == if r.Token? then Token(OpenBackup(g, key, r.backup)) else r
  {
    hide OpenHistory;
  }

  lemma OpenDelete(g: Aead, key: Key, s: SecretShelf, name: string, recoveryId: string, now: int)
    requires Sealed(g, key, s) && Sound(s)
    ensures Sound(OpenShelf(g, key, s))
    ensures var (s', r) := Delete(s, Secrets, name, recoveryId, now);
            var (p', q) := Delete(OpenShelf(g, key, s), Secrets, name, recoveryId, now);
            && OpenShelf(g, key, s') == p' && Sealed(g, key, s')
            && DecryptResponse(g, Some(key), AsDeleted(r)) == AsDeleted(q)
  {
    hide DecryptRecord, OpenHistory, AllOpen, Filed, Latest;
    OpenSound(g, key, s);
    if name in s.active && name !in s.deleted {
      assert Filed(s.active[name], name);
      FiledSome(s.active[name], name);
      OpenLatest(g, key, s.active[name]);
      var s' := Delete(s, Secrets, name, recoveryId, now).0;
      var p := OpenShelf(g, key, s);
      assert OpenShelf(g, key, s').active == p.active - {name};
      assert OpenShelf(g, key, s').deleted ==
        p.deleted[name := Deleted(OpenHistory(g, key, s.active[name]), recoveryId, now, now + PURGE_DELAY)];
    }
  }

  lemma OpenRecover(g: Aead, key: Key, s: SecretShelf, name: string)
    requires Sealed(g, key, s) && Sound(s)
    ensures Sound(OpenShelf(g, key, s))
    ensures var (s', r) := Recover(s, Secrets, name);
            var (p', q) := Recover(OpenShelf(g, key, s), Secrets, name);
            && OpenShelf(g, key, s') == p' && Sealed(g, key, s')
            && DecryptResponse(g, Some(key), AsOne(r)) == AsOne(q)
  {
    hide DecryptRecord, OpenHistory, AllOpen, Filed, Latest;
    OpenSound(g, key, s);
    if name !in s.active && name in s.deleted {
      assert Filed(s.deleted[name].versions, name);
      FiledSome(s.deleted[name].versions, name);
      OpenLatest(g, key, s.deleted[name].versions);
      var s' := Recover(s, Secrets, name).0;
      var p := OpenShelf(g, key, s);
      assert OpenShelf(g, key, s').deleted == p.deleted - {name};
      assert OpenShelf(g, key, s').active == p.active[name := OpenHistory(g, key, s.deleted[name].versions)];
    }
  }

  /** Listings blank the values, so they cannot tell the stores apart. */
  lemma OpenList(g: Aead, key: Key, s: SecretShelf, skipToken: string, maxResults: int)
    requires Sound(s)
    ensures Sound(OpenShelf(g, key, s))
    ensures List(s, NoValue, skipToken, maxResults) == List(OpenShelf(g, key, s), NoValue, skipToken, maxResults)
  {
    hide DecryptValue, NamePage;
    OpenSound(g, key, s);
    var p := OpenShelf(g, key, s);
    assert p.active.Keys == s.active.Keys;
    var paged := NamePage(s.active.Keys, skipToken, maxResults);
    if paged.Ok? {
      assert Latests(s, paged.value.0, NoValue) == Latests(p, paged.value.0, NoValue);
    }
  }

  lemma OpenListDeleted(g: Aead, key: Key, s: SecretShelf, skipToken: string, maxResults: int)
    requires Sound(s)
    ensures Sound(OpenShelf(g, key, s))
    ensures ListDeleted(s, NoValue, skipToken, maxResults) == ListDeleted(OpenShelf(g, key, s), NoValue, skipToken, maxResults)
  {
    hide DecryptValue, NamePage;
    OpenSound(g, key, s);
    var p := OpenShelf(g, key, s);
    assert p.deleted.Keys == s.deleted.Keys;
    var paged := NamePage(s.deleted.Keys, skipToken, maxResults);
    if paged.Ok? {
      assert DeletedLatests(s, paged.value.0, NoValue) == DeletedLatests(p, paged.value.0, NoValue);
    }
  }

  lemma OpenListVersions(g: Aead, key: Key, s: SecretShelf, name: string, skipToken: string, maxResults: int)
    ensures ListVersions(s, Secrets, NoValue, name, skipToken, maxResults)
            == ListVersions(OpenShelf(g, key, s), Secrets, NoValue, name, skipToken, maxResults)
  {
    hide DecryptValue, Paging.Paginate;
    if name in s.active {
      var h, plain := s.active[name], OpenHistory(g, key, s.active[name]);
      forall i | 0 <= i < |h|
        ensures Newest(h, NoValue)[i] == Newest(plain, NoValue)[i]
      {
        assert Blanked(plain[|h| - 1 - i], NoValue) == Blanked(h[|h| - 1 - i], NoValue);
      }
      assert Newest(h, NoValue) == Newest(plain, NoValue);
    }
  }

  lemma SealedKeepsSound(g: Aead, s: SecretShelf, key: Key, nonce: Nonce, op: SecretOp)
    requires Sound(s) && Fit(op)
    ensures Sound(EncryptedStep(g, s, Some(key), false, nonce, op).0)
  {
    hide Step, Sound, EncryptString;
    var inner := SealedOp(g, Some(key), false, nonce, op);
    if inner.Ok? {
      StepKeepsSound(s, Secrets, NoValue, inner.value);
    }
  }

  /**
   * One operation under a fixed key: decrypting the encrypted store's values gives the plain
   * store's next state, the answers of the overridden operations are the plain store's own, and
   * the other answers carry ciphertext that decrypts to the plain store's.
   */
  lemma StepSimulates(g: Aead, key: Key, nonce: Nonce, s: SecretShelf, op: SecretOp)
    requires Correct(g) && |key| == KEY_SIZE
    requires Sealed(g, key, s) && Sound(s) && Proper(g, key, op)
    ensures Sound(OpenShelf(g, key, s))
    ensures var (s', r) := EncryptedStep(g, s, Some(key), false, nonce, op);
            var (p', q) := Step(OpenShelf(g, key, s), Secrets, NoValue, PlainOp(g, key, op));
            && Sound(s') && Sealed(g, key, s') && OpenShelf(g, key, s') == p'
            && Expected(g, key, op, r) == q
  {
    hide Put, Update, Delete, Recover, Restore, Get, GetDeleted, Purge, BackUp, List, ListDeleted, ListVersions;
    hide OpenShelf, Sealed, Sound, EncryptString, DecryptValue;
    OpenSound(g, key, s);
    SealedKeepsSound(g, s, key, nonce, op);
    match op
    case PutOp(_, _, _, _, _, _, _) =>
      OpenPut(g, key, nonce, s, op);
    case UpdateOp(name, version, facet, attrs, tags, now) =>
      OpenUpdate(g, key, s, name, version, facet, attrs, tags, now);
    case DeleteOp(name, recoveryId, now) =>
      OpenDelete(g, key, s, name, recoveryId, now);
    case RecoverOp(name) =>
      OpenRecover(g, key, s, name);
    case RestoreOp(token) =>
      OpenRestore(g, key, s, token);
    case ListOp(skip, max) =>
      OpenList(g, key, s, skip, max);
    case ListVersionsOp(name, skip, max) =>
      OpenListVersions(g, key, s, name, skip, max);
    case ListDeletedOp(skip, max) =>
      OpenListDeleted(g, key, s, skip, max);
    case GetOp(name, version) =>
      OpenGet(g, key, s, name, version);
    case GetDeletedOp(name) =>
      OpenGetDeleted(g, key, s, name);
    case PurgeOp(name) =>
      OpenPurge(g, key, s, name);
    case BackupOp(name) =>
      OpenBackUp(g, key, s, name);
  }

  // ----- runs under one key -----

  /** An operation with the nonce drawn for it. */
  datatype Request = Request(op: SecretOp, nonce: Nonce)

  /** A request that restores uses a token given out earlier, or one the store rejects. */
  predicate Usual(op: SecretOp, issued: set<Backup<string, string>>) {
    && !op.AppendOp?
    && (op.PutOp? ==> op.made.Some? && (op.complete <==> op.made.value.0 != ""))
    && (op.RestoreOp? && Restorable(op.token) ==> op.token.value in issued)
  }

  ghost predicate UsualRun(g: Aead, key: Key, s: SecretShelf, requests: seq<Request>,
                           issued: set<Backup<string, string>>)
    requires Sound(s)
    decreases |requests|
  {
    requests == [] ||
    var op, nonce := requests[0].op, requests[0].nonce;
    Usual(op, issued) &&
    var (s', r) := EncryptedStep(g, s, Some(key), false, nonce, op);
    SealedKeepsSound(g, s, key, nonce, op);
    UsualRun(g, key, s', requests[1..], issued + IssuedTo(r))
  }

  ghost function EncryptedRun(g: Aead, key: Key, s: SecretShelf, requests: seq<Request>): (SecretShelf,
                              seq<SecretResponse>)
    requires Sound(s) && forall q :: q in requests ==> Fit(q.op)
    decreases |requests|
  {
    if requests == [] then (s, [])
    else
      var op, nonce := requests[0].op, requests[0].nonce;
      var (s', r) := EncryptedStep(g, s, Some(key), false, nonce, op);
      SealedKeepsSound(g, s, key, nonce, op);
      var (last, rest) := EncryptedRun(g, key, s', requests[1..]);
      (last, [r] + rest)
  }

  ghost function PlainRun(g: Aead, key: Key, s: SecretShelf, requests: seq<Request>): (SecretShelf, seq<SecretResponse>)
    requires Sound(s) && forall q :: q in requests ==> Fit(q.op)
    decreases |requests|
  {
    if requests == [] then (s, [])
    else
      var op := PlainOp(g, key, requests[0].op);
      var (s', r) := Step(s, Secrets, NoValue, op);
      StepKeepsSound(s, Secrets, NoValue, op);
      var (last, rest) := PlainRun(g, key, s', requests[1..]);
      (last, [r] + rest)
  }

  lemma IssuedOpen(g: Aead, key: Key, nonce: Nonce, s: SecretShelf, op: SecretOp)
    requires Sound(s) && Sealed(g, key, s)
    ensures forall b :: b in IssuedTo(EncryptedStep(g, s, Some(key), false, nonce, op).1) ==> AllOpen(g, key, b.versions)
  {
    hide Put, Update, Delete, Recover, Restore, Get, GetDeleted, Purge, List, ListDeleted, ListVersions;
    hide DecryptValue, EncryptString;
  }

  /**
   * Over every run under one key, from a store whose values were sealed under it: the answers of
   * the encrypting store are the plain store's (with ciphertext instead of the value where the
   * wrapper does not decrypt), and the state is the plain store's, value by value.
   */
  lemma {:induction false} RunSimulates(g: Aead, key: Key, s: SecretShelf, requests: seq<Request>,
                                        issued: set<Backup<string, string>>)
    requires Correct(g) && |key| == KEY_SIZE
    requires Sound(s) && Sealed(g, key, s)
    requires forall q :: q in requests ==> Fit(q.op)
    requires UsualRun(g, key, s, requests, issued)
    requires forall b :: b in issued ==> AllOpen(g, key, b.versions)
    ensures Sound(OpenShelf(g, key, s))
    ensures var (last, answers) := EncryptedRun(g, key, s, requests);
            var (plain, wanted) := PlainRun(g, key, OpenShelf(g, key, s), requests);
            && Sealed(g, key, last) && OpenShelf(g, key, last) == plain
            && |answers| == |wanted| == |requests|
            && forall i :: 0 <= i < |requests| ==> Expected(g, key, requests[i].op, answers[i]) == wanted[i]
    decreases |requests|
  {
    hide OpenShelf, Sealed, Sound, EncryptedStep, Step, AllOpen, Expected;
    OpenSound(g, key, s);
    if requests != [] {
      var op, nonce := requests[0].op, requests[0].nonce;
      assert requests[0] in requests;
      StepSimulates(g, key, nonce, s, op);
      IssuedOpen(g, key, nonce, s, op);
      var (s', r) := EncryptedStep(g, s, Some(key), false, nonce, op);
      RunSimulates(g, key, s', requests[1..], issued + IssuedTo(r));
    }
  }
}

/** The wrapper itself, over the in-memory store's secrets. */
module EncryptingWrapper {
  import opened Wrappers
  import opened Model
  import opened Shelves
  import opened Memory
  import opened Encryption
  import opened EncryptedStore

  /** The answer handed out is the expected response. */
  ghost predicate Shows(res: Result<Copy<string, string>, Error>, want: SecretResponse)
    reads if res.Ok? then {res.value.tags} else {}
  {
    match want
    case One(r) => Answers(res, Ok(r))
    case Failed(e) => res == Err(e)
    case _ => false
  }

  ghost predicate ShowsDeleted(res: Result<DeletedCopy<string, string>, Error>, want: SecretResponse)
    reads if res.Ok? then {res.value.copy.tags} else {}
  {
    match want
    case OneDeleted(r) => AnswersDeleted(res, Ok(r))
    case Failed(e) => res == Err(e)
    case _ => false
  }

  /** `key` and `locked` stand for what the two callbacks answer during the call. */
  class Wrapper {
    const items: Items<string, string>
    const g: Aead

    constructor (items: Items<string, string>, g: Aead)
      ensures this.items == items && this.g == g
    {
      this.items, this.g := items, g;
    }

    ghost predicate Valid()
      reads items, items.Repr
    {
      items.Valid() && items.kind == Secrets
    }

    method SetSecret(name: string, value: string, contentType: string, version: string, attrs: Option<Attributes>,
                     tags: TagMap?, now: int, key: Option<Key>, locked: bool, nonce: Nonce)
      returns (res: Result<Copy<string, string>, Error>)
      requires Valid()
      modifies items
      ensures Valid()
      ensures Sound(old(items.contents))
      ensures var op := PutOp(name, value != "", Some((value, contentType)), version, attrs, Content(tags), now);
              var (s, r) := EncryptedStep(g, old(items.contents), key, locked, nonce, op);
              items.contents == s && Shows(res, r)
    {
      hide Put, EncryptString, Sound, Stores;
      items.Opened();
      var stored := value;
      if key == None {
        if locked {
          return Err(VAULT_LOCKED);
        }
      } else if value != "" {
        var encrypted := EncryptString(g, key.value, nonce, value);
        if encrypted.Err? {
          return Err(VAULT_LOCKED);
        }
        stored := encrypted.value;
      }
      res := items.Put(name, stored != "", Some((stored, contentType)), version, attrs, tags, now);
    }

    method GetSecret(name: string, version: string, key: Option<Key>) returns (res: Result<Copy<string, string>, Error>)
      requires Valid()
      ensures Sound(items.contents)
      ensures Shows(res, DecryptedStep(g, items.contents, key, GetOp(name, version)).1)
    {
      hide Get, DecryptValue, Sound, Stores;
      items.Opened();
      res := items.Get(name, version);
      if res.Ok? {
        res := Ok(Decrypted(res.value, key));
      }
    }

    function Decrypted(c: Copy<string, string>, key: Option<Key>): Copy<string, string> {
      c.(core := DecryptValue(g, key, c.core))
    }

    method GetDeletedSecret(name: string, key: Option<Key>) returns (res: Result<DeletedCopy<string, string>, Error>)
      requires Valid()
      ensures Sound(items.contents)
      ensures ShowsDeleted(res, DecryptedStep(g, items.contents, key, GetDeletedOp(name)).1)
    {
      hide GetDeleted, DecryptValue, Sound, Stores;
      items.Opened();
      res := items.GetDeleted(name);
      if res.Ok? {
        res := Ok(res.value.(copy := Decrypted(res.value.copy, key)));
      }
    }

    method RecoverDeletedSecret(name: string, key: Option<Key>) returns (res: Result<Copy<string, string>, Error>)
      requires Valid()
      modifies items
      ensures Valid()
      ensures Sound(old(items.contents))
      ensures var (s, r) := DecryptedStep(g, old(items.contents), key, RecoverOp(name));
              items.contents == s && Shows(res, r)
    {
      hide Recover, DecryptValue, Sound, Stores;
      items.Opened();
      res := items.Recover(name);
      if res.Ok? {
        res := Ok(Decrypted(res.value, key));
      }
    }

    method UpdateSecret(name: string, version: string, contentType: Option<string>, attrs: Option<Attributes>,
                        tags: TagMap?, now: int, key: Option<Key>)
      returns (res: Result<Copy<string, string>, Error>)
      requires Valid()
      modifies items, items.Repr
      ensures Valid()
      ensures Sound(old(items.contents))
      ensures var op := UpdateOp(name, version, contentType, attrs, old(Content(tags)), now);
              var (s, r) := DecryptedStep(g, old(items.contents), key, op);
              items.contents == s && Shows(res, r)
    {
      hide Update, DecryptValue, Sound, Stores;
      items.Opened();
      res := items.Update(name, version, contentType, attrs, tags, now);
      if res.Ok? {
        res := Ok(Decrypted(res.value, key));
      }
    }

    method DeleteSecret(name: string, recoveryId: string, now: int, key: Option<Key>)
      returns (res: Result<DeletedCopy<string, string>, Error>)
      requires Valid()
      modifies items
      ensures Valid()
      ensures Sound(old(items.contents))
      ensures var (s, r) := DecryptedStep(g, old(items.contents), key, DeleteOp(name, recoveryId, now));
              items.contents == s && ShowsDeleted(res, r)
    {
      hide Delete, DecryptValue, Sound, Stores;
      items.Opened();
      res := items.Delete(name, recoveryId, now);
      if res.Ok? {
        res := Ok(res.value.(copy := Decrypted(res.value.copy, key)));
      }
    }
  }
}
