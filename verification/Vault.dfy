// The whole in-memory vault: secrets, keys and certificates, whose creation writes into all three.
module Vault {
  import opened Wrappers
  import opened Bytes
  import opened Model
  import opened Shelves
  import Jwk

  /** A key's immutable part: its public JWK without the operations, and its material. */
  datatype KeyCore = KeyCore(jwk: Jwk.JsonWebKey, material: Jwk.KeyMaterial)

  datatype CertCore = CertCore(cer: seq<byte>, kid: string, sid: string, pem: seq<byte>)

  /** A certificate policy after defaulting; each part is a JSON object or absent. */
  datatype Policy = Policy(
    issuer: Option<string>, keyProps: Option<string>, secretProps: Option<string>, x509Props: Option<string>)

  type SecretShelf = Shelf<string, string>
  type KeyShelf = Shelf<KeyCore, seq<string>>
  type CertShelf = Shelf<CertCore, Policy>

  datatype Vault = Vault(secrets: SecretShelf, keys: KeyShelf, certs: CertShelf)

  const EMPTY_VAULT := Vault(Shelf(map[], map[]), Shelf(map[], map[]), Shelf(map[], map[]))

  const RSA_OPS := ["encrypt", "decrypt", "sign", "verify", "wrapKey", "unwrapKey"]
  const PEM_TYPE := "application/x-pem-file"

  /** What the certificate library produced: the certificate, the managed secret, and the RSA key if it is one. */
  datatype Issued = Issued(cer: seq<byte>, pem: seq<byte>, managed: string, key: Option<KeyCore>)

  const INVALID_ISSUER := Error(400, "InvalidIssuer")
  const INVALID_OPERATION := Error(400, "InvalidOperation")

  /** The version a certificate operation writes into each of the three shelves. */
  function CertRecord(name: string, version: string, issued: Issued, policy: Policy, attrs: Attributes, tags: Tags)
    : Record<CertCore, Policy>
  {
    Record(name, version, CertCore(issued.cer, name, name, issued.pem), policy, attrs, tags)
  }

  function ManagedKey(name: string, version: string, core: KeyCore, attrs: Attributes,
                      tags: Tags): Record<KeyCore, seq<string>> {
    Record(name, version, core, RSA_OPS, attrs, tags)
  }

  function ManagedSecret(name: string, version: string, value: string, attrs: Attributes,
                         tags: Tags): Record<string, string> {
    Record(name, version, value, PEM_TYPE, attrs, tags)
  }

  /** The three writes of `CreateCertificate` and `ImportCertificate`. */
  function WithCertificate(v: Vault, name: string, version: string, issued: Issued, policy: Policy, attrs: Attributes,
                           tags: Tags): Vault {
    Vault(
      Appended(v.secrets, ManagedSecret(name, version, issued.managed, attrs, tags)),
      if issued.key.Some? then Appended(v.keys, ManagedKey(name, version, issued.key.value, attrs, tags)) else v.keys,
      Appended(v.certs, CertRecord(name, version, issued, policy, attrs, tags)))
  }

  /**
   * `CreateCertificate`. `issuer` is the issuer name in the policy, `parses` whether the issuer's
   * secret holds a certificate with a private key, `issued` what generation returns, if it succeeds.
   */
  function CreateCertificate(v: Vault, name: string, version: string, issuer: Option<string>, parses: bool,
                             issued: Option<Issued>,
                             policy: Policy, attrs: Option<Attributes>, tags: Tags, now: int)
    : (Vault, Result<Record<CertCore, Policy>, Error>)
  {
    if name == "" then (v, Err(BAD_PARAMETER))
    else if name in v.certs.deleted then (v, Err(RESERVED))
    else if issuer.Some? && (issuer.value !in v.secrets.active || !parses) then (v, Err(INVALID_ISSUER))
    else if issued == None then (v, Err(INVALID_OPERATION))
    else
      var a := BuildAttributes(attrs, now, now);
      (WithCertificate(v, name, version, issued.value, policy, a, tags),
       Ok(CertRecord(name, version, issued.value, policy, a, tags)))
  }

  /** `ImportCertificate`; `value` is there if the request carries one, `parsed` what parsing it yields. */
  function ImportCertificate(v: Vault, name: string, version: string, value: bool, parsed: Option<Issued>,
                             policy: Policy, attrs: Option<Attributes>, tags: Tags, now: int)
    : (Vault, Result<Record<CertCore, Policy>, Error>)
  {
    if name == "" || !value || parsed == None then (v, Err(BAD_PARAMETER))
    else if name in v.certs.deleted then (v, Err(RESERVED))
    else
      var a := BuildAttributes(attrs, now, now);
      (WithCertificate(v, name, version, parsed.value, policy, a, tags),
       Ok(CertRecord(name, version, parsed.value, policy, a, tags)))
  }

  function UpdatePolicy(v: Vault, name: string, policy: Policy, now: int): (Vault, Result<Policy, Error>)
    requires Sound(v.certs)
  {
    var (certs, r) := SetFacet(v.certs, Certificates, name, policy, now);
    (v.(certs := certs), r)
  }

  // ----- what creation and import answer and leave behind -----

  /** The latest versions under the name are those of this certificate, on top of what each kind had. */
  ghost predicate Written(v: Vault, v': Vault, name: string, version: string, issued: Issued, policy: Policy,
                          attrs: Option<Attributes>, tags: Tags, now: int) {
    var a := Attributes(if attrs.Some? then attrs.value.enabled else None, if attrs.Some? then attrs.value.notBefore else None,
                        if attrs.Some? then attrs.value.expires else None, now, now, "Recoverable+Purgeable", 90);
    var cert := Record(name, version, CertCore(issued.cer, name, name, issued.pem), policy, a, tags);
    var secret := Record(name, version, issued.managed, "application/x-pem-file", a, tags);
    && Pushed(v.certs, v'.certs, Certificates, cert)
    && Pushed(v.secrets, v'.secrets, Secrets, secret)
    && (issued.key == None ==> v'.keys == v.keys)
    && (issued.key.Some? ==>
          var ops := ["encrypt", "decrypt", "sign", "verify", "wrapKey", "unwrapKey"];
          Pushed(v.keys, v'.keys, Keys, Record(name, version, issued.key.value, ops, a, tags)))
  }

  /** The record is the one change: the latest of its name, above the versions there were. */
  ghost predicate Pushed<C, F>(s: Shelf<C, F>, s': Shelf<C, F>, kind: Kind, r: Record<C, F>) {
    && Get(s', kind, r.name, "") == Ok(r)
    && HistoryOf(s', r.name) == HistoryOf(s, r.name) + [r]
    && s'.deleted == s.deleted
    && forall n :: n != r.name ==> HistoryOf(s', n) == HistoryOf(s, n)
  }

  lemma WritesAre(v: Vault, name: string, version: string, issued: Issued, policy: Policy, attrs: Option<Attributes>,
                  tags: Tags, now: int)
    ensures Written(v, WithCertificate(v, name, version, issued, policy, BuildAttributes(attrs, now, now), tags),
                    name, version, issued, policy, attrs, tags, now)
  {
    hide Appended, Get, HistoryOf;
    var a := BuildAttributes(attrs, now, now);
    AppendedOnTop(v.secrets, Secrets, ManagedSecret(name, version, issued.managed, a, tags));
    AppendedOnTop(v.certs, Certificates, CertRecord(name, version, issued, policy, a, tags));
    if issued.key.Some? {
      AppendedOnTop(v.keys, Keys, ManagedKey(name, version, issued.key.value, a, tags));
    }
  }

  /**
   * A creation succeeds exactly for a name that is given and not deleted, if generation does, and, where
   * the policy names an issuer, if its active secret holds a certificate with a key. Its answer is the
   * certificate stored; the managed secret and key are stored beside it. A refusal changes nothing.
   */
  lemma CreationLaw(v: Vault, name: string, version: string, issuer: Option<string>, parses: bool, issued: Option<Issued>,
                    policy: Policy, attrs: Option<Attributes>, tags: Tags, now: int)
    ensures var (v', r) := CreateCertificate(v, name, version, issuer, parses, issued, policy, attrs, tags, now);
            var issuerThere := issuer == None || (issuer.value in v.secrets.active && parses);
            && (r.Ok? <==> name != "" && name !in v.certs.deleted && issuerThere && issued.Some?)
            && (r.Err? ==> v' == v)
            && (r.Err? ==> r.error == if name == "" then Error(400, "BadParameter")
                                      else if name in v.certs.deleted then Error(409, "InvalidOperation")
                                      else if !issuerThere then Error(400, "InvalidIssuer") else Error(400, "InvalidOperation"))
            && (r.Ok? ==> Get(v'.certs, Certificates, name, "") == r
                          && Written(v, v', name, version, issued.value, policy, attrs, tags, now))
  {
    hide Written, Get, WithCertificate;
    if issued.Some? {
      WritesAre(v, name, version, issued.value, policy, attrs, tags, now);
      LatestCertificate(v, name, version, issued.value, policy, BuildAttributes(attrs, now, now), tags);
    }
  }

  lemma LatestCertificate(v: Vault, name: string, version: string, issued: Issued, policy: Policy, attrs: Attributes, tags: Tags)
    ensures Get(WithCertificate(v, name, version, issued, policy, attrs, tags).certs, Certificates, name, "")
            == Ok(CertRecord(name, version, issued, policy, attrs, tags))
  {
    AppendedOnTop(v.certs, Certificates, CertRecord(name, version, issued, policy, attrs, tags));
  }

  /** An import succeeds exactly for a given name that is not deleted and a value that parses, and then does the same. */
  lemma ImportLaw(v: Vault, name: string, version: string, value: bool, parsed: Option<Issued>, policy: Policy,
                  attrs: Option<Attributes>, tags: Tags, now: int)
    ensures var (v', r) := ImportCertificate(v, name, version, value, parsed, policy, attrs, tags, now);
            && (r.Ok? <==> name != "" && value && parsed.Some? && name !in v.certs.deleted)
            && (r.Err? ==> v' == v)
            && (r.Err? ==> r.error == if name != "" && value && parsed.Some? then Error(409, "InvalidOperation")
                                      else Error(400, "BadParameter"))
            && (r.Ok? ==> Get(v'.certs, Certificates, name, "") == r
                          && Written(v, v', name, version, parsed.value, policy, attrs, tags, now))
  {
    hide Written, Get, WithCertificate;
    if parsed.Some? {
      WritesAre(v, name, version, parsed.value, policy, attrs, tags, now);
      LatestCertificate(v, name, version, parsed.value, policy, BuildAttributes(attrs, now, now), tags);
    }
  }

  // ----- runs -----

  datatype Op =
    | OnSecrets(secretOp: Shelves.Op<string, string>)
    | OnKeys(keyOp: Shelves.Op<KeyCore, seq<string>>)
    | OnCertificates(certOp: Shelves.Op<CertCore, Policy>)
    | Create(name: string, version: string, issuer: Option<string>, parses: bool, issued: Option<Issued>,
             policy: Policy, attrs: Option<Attributes>, tags: Tags, now: int)
    | Import(name: string, version: string, value: bool, parsed: Option<Issued>,
             policy: Policy, attrs: Option<Attributes>, tags: Tags, now: int)
    | SetPolicy(name: string, policy: Policy, now: int)

  /**
   * The operations the store offers: nothing appends to a shelf directly, only secrets are restored,
   * and certificates are put by `Create` and `Import` alone.
   */
  predicate Offered(op: Op) {
    match op
    case OnSecrets(o) => !o.AppendOp?
    case OnKeys(o) => !o.AppendOp? && !o.RestoreOp? && !o.BackupOp?
    case OnCertificates(o) => !o.PutOp? && !o.AppendOp? && !o.RestoreOp? && !o.BackupOp?
    case _ => true
  }

  ghost function Step(v: Vault, op: Op): Vault
    requires SoundVault(v)
  {
    match op
    case OnSecrets(o) => v.(secrets := Shelves.Step(v.secrets, Secrets, _ => "", o).0)
    case OnKeys(o) => v.(keys := Shelves.Step(v.keys, Keys, k => k, o).0)
    case OnCertificates(o) => v.(certs := Shelves.Step(v.certs, Certificates, c => c, o).0)
    case Create(name, version, issuer, parses, issued, policy, attrs, tags, now) =>
      CreateCertificate(v, name, version, issuer, parses, issued, policy, attrs, tags, now).0
    case Import(name, version, value, parsed, policy, attrs, tags, now) =>
      ImportCertificate(v, name, version, value, parsed, policy, attrs, tags, now).0
    case SetPolicy(name, policy, now) => UpdatePolicy(v, name, policy, now).0
  }

  /** The representation invariant: sound shelves, and no certificate name active and deleted at once. */
  ghost predicate SoundVault(v: Vault) {
    Sound(v.secrets) && Sound(v.keys) && Sound(v.certs) && v.certs.active.Keys !! v.certs.deleted.Keys
  }

  lemma CertificateWriteSound(v: Vault, name: string, version: string, issued: Issued, policy: Policy,
                              attrs: Attributes, tags: Tags)
    requires SoundVault(v) && Stamped(attrs) && name !in v.certs.deleted
    ensures SoundVault(WithCertificate(v, name, version, issued, policy, attrs, tags))
  {
    AppendedSound(v.secrets, ManagedSecret(name, version, issued.managed, attrs, tags));
    if issued.key.Some? {
      AppendedSound(v.keys, ManagedKey(name, version, issued.key.value, attrs, tags));
    }
    AppendedSound(v.certs, CertRecord(name, version, issued, policy, attrs, tags));
  }

  /** No certificate operation but `Create` and `Import` adds a name; delete and recover move it whole. */
  lemma CertificatesStayApart(s: CertShelf, op: Shelves.Op<CertCore, Policy>)
    requires Sound(s) && s.active.Keys !! s.deleted.Keys
    requires Offered(OnCertificates(op))
    ensures var s' := Shelves.Step(s, Certificates, c => c, op).0; s'.active.Keys !! s'.deleted.Keys
  {
  }

  lemma PolicySound(v: Vault, name: string, policy: Policy, now: int)
    requires SoundVault(v)
    ensures SoundVault(UpdatePolicy(v, name, policy, now).0)
    ensures forall n :: Carried(v.certs, UpdatePolicy(v, name, policy, now).0.certs, n)
  {
    var v' := UpdatePolicy(v, name, policy, now).0;
    assert v'.certs.active.Keys == v.certs.active.Keys;
    forall n
      ensures Carried(v.certs, v'.certs, n)
    {
      assert Within(DeletedOf(v.certs, n), DeletedOf(v'.certs, n));
      assert Within(ActiveOf(v.certs, n), ActiveOf(v'.certs, n));
    }
  }

  lemma StepKeepsSoundVault(v: Vault, op: Op)
    requires SoundVault(v) && Offered(op)
    ensures SoundVault(Step(v, op))
  {
    match op
    case OnSecrets(o) => StepKeepsSound(v.secrets, Secrets, _ => "", o);
    case OnKeys(o) => StepKeepsSound(v.keys, Keys, k => k, o);
    case OnCertificates(o) =>
      StepKeepsSound(v.certs, Certificates, c => c, o);
      CertificatesStayApart(v.certs, o);
    case Create(name, version, issuer, parses, issued, policy, attrs, tags, now) =>
      if name !in v.certs.deleted && issued.Some? {
        CertificateWriteSound(v, name, version, issued.value, policy, BuildAttributes(attrs, now, now), tags);
      }
    case Import(name, version, value, parsed, policy, attrs, tags, now) =>
      if name !in v.certs.deleted && parsed.Some? {
        CertificateWriteSound(v, name, version, parsed.value, policy, BuildAttributes(attrs, now, now), tags);
      }
    case SetPolicy(name, policy, now) => PolicySound(v, name, policy, now);
  }

  /** The vault after a run of offered operations. */
  ghost function Run(v: Vault, ops: seq<Op>): Vault
    requires SoundVault(v) && forall op :: op in ops ==> Offered(op)
    decreases |ops|
  {
    if ops == [] then v
    else
      StepKeepsSoundVault(v, ops[0]);
      Run(Step(v, ops[0]), ops[1..])
  }

  /** Every reachable vault is sound, so no latest version is ever looked for in an empty history. */
  lemma {:induction false} ReachableSound(v: Vault, ops: seq<Op>)
    requires SoundVault(v) && forall op :: op in ops ==> Offered(op)
    ensures SoundVault(Run(v, ops))
    decreases |ops|
  {
    if ops != [] {
      StepKeepsSoundVault(v, ops[0]);
      ReachableSound(Step(v, ops[0]), ops[1..]);
    }
  }

  // ----- conservation and stable identity -----

  predicate FreesName(op: Op, kind: Kind, n: string) {
    match op
    case OnSecrets(o) => kind == Secrets && Frees(o, n)
    case OnKeys(o) => kind == Keys && Frees(o, n)
    case OnCertificates(o) => kind == Certificates && Frees(o, n)
    case _ => false
  }

  predicate CarriedIn(v: Vault, v': Vault, kind: Kind, n: string) {
    match kind
    case Secrets => Carried(v.secrets, v'.secrets, n)
    case Keys => Carried(v.keys, v'.keys, n)
    case Certificates => Carried(v.certs, v'.certs, n)
  }

  lemma CertificateWriteCarries(v: Vault, name: string, version: string, issued: Issued, policy: Policy,
                                attrs: Attributes, tags: Tags,
                                kind: Kind, n: string)
    ensures CarriedIn(v, WithCertificate(v, name, version, issued, policy, attrs, tags), kind, n)
  {
    AppendedCarries(v.secrets, ManagedSecret(name, version, issued.managed, attrs, tags), n);
    if issued.key.Some? {
      AppendedCarries(v.keys, ManagedKey(name, version, issued.key.value, attrs, tags), n);
    }
    AppendedCarries(v.certs, CertRecord(name, version, issued, policy, attrs, tags), n);
    UnchangedCarries(v.keys, n);
  }

  lemma NothingCarries(v: Vault, kind: Kind, n: string)
    ensures CarriedIn(v, v, kind, n)
  {
    UnchangedCarries(v.secrets, n);
    UnchangedCarries(v.keys, n);
    UnchangedCarries(v.certs, n);
  }

  lemma StepCarriesIn(v: Vault, op: Op, kind: Kind, n: string)
    requires SoundVault(v) && Offered(op) && !FreesName(op, kind, n)
    ensures CarriedIn(v, Step(v, op), kind, n)
  {
    NothingCarries(v, kind, n);
    match op
    case OnSecrets(o) => if kind == Secrets { StepCarries(v.secrets, Secrets, _ => "", o, n); }
    case OnKeys(o) => if kind == Keys { StepCarries(v.keys, Keys, k => k, o, n); }
    case OnCertificates(o) => if kind == Certificates { StepCarries(v.certs, Certificates, c => c, o, n); }
    case Create(name, version, issuer, parses, issued, policy, attrs, tags, now) =>
      if issued.Some? {
        CertificateWriteCarries(v, name, version, issued.value, policy, BuildAttributes(attrs, now, now), tags, kind, n);
      }
    case Import(name, version, value, parsed, policy, attrs, tags, now) =>
      if parsed.Some? {
        CertificateWriteCarries(v, name, version, parsed.value, policy, BuildAttributes(attrs, now, now), tags, kind, n);
      }
    case SetPolicy(name, policy, now) => PolicySound(v, name, policy, now);
  }

  /**
   * Over any run that neither purges nor restores the name, both of its histories survive with
   * content, creation time and order untouched, growing at the end only.
   */
  lemma {:induction false} RunCarries(v: Vault, ops: seq<Op>, kind: Kind, n: string)
    requires SoundVault(v) && forall op :: op in ops ==> Offered(op) && !FreesName(op, kind, n)
    ensures CarriedIn(v, Run(v, ops), kind, n)
    decreases |ops|
  {
    if ops == [] {
      NothingCarries(v, kind, n);
    } else {
      var v1 := Step(v, ops[0]);
      StepKeepsSoundVault(v, ops[0]);
      StepCarriesIn(v, ops[0], kind, n);
      RunCarries(v1, ops[1..], kind, n);
      var v2 := Run(v1, ops[1..]);
      match kind
      case Secrets => CarriedTransitive(v.secrets, v1.secrets, v2.secrets, n);
      case Keys => CarriedTransitive(v.keys, v1.keys, v2.keys, n);
      case Certificates => CarriedTransitive(v.certs, v1.certs, v2.certs, n);
    }
  }

  predicate HoldsIssued(v: Vault, name: string, version: string, issued: Issued, created: int) {
    && Holds(v.certs, name, version, CertCore(issued.cer, name, name, issued.pem), created)
    && Holds(v.secrets, name, version, issued.managed, created)
    && (issued.key.Some? ==> Holds(v.keys, name, version, issued.key.value, created))
  }

  lemma AppendedHolds<C, F>(s: Shelf<C, F>, r: Record<C, F>)
    ensures Holds(Appended(s, r), r.name, r.version, r.core, r.attributes.created)
  {
    var h := Appended(s, r).active[r.name];
    assert Identity(h[|h| - 1], r.version, r.core, r.attributes.created);
  }

  /** A created certificate, its key and its secret all stay in the vault until their name is purged or restored. */
  lemma CertificateSurvives(v: Vault, op: Op, ops: seq<Op>)
    requires SoundVault(v) && op.Create?
    requires op.name != "" && op.name !in v.certs.deleted && op.issued.Some?
    requires op.issuer.Some? ==> op.issuer.value in v.secrets.active && op.parses
    requires forall o :: o in ops ==> Offered(o) && forall k :: !FreesName(o, k, op.name)
    ensures HoldsIssued(Run(v, [op] + ops), op.name, op.version, op.issued.value, op.now)
  {
    var issued := op.issued.value;
    var a := BuildAttributes(op.attrs, op.now, op.now);
    var v1 := Step(v, op);
    AppendedHolds(v.certs, CertRecord(op.name, op.version, issued, op.policy, a, op.tags));
    AppendedHolds(v.secrets, ManagedSecret(op.name, op.version, issued.managed, a, op.tags));
    if issued.key.Some? {
      AppendedHolds(v.keys, ManagedKey(op.name, op.version, issued.key.value, a, op.tags));
    }
    assert HoldsIssued(v1, op.name, op.version, issued, op.now);
    StepKeepsSoundVault(v, op);
    var v2 := Run(v1, ops);
    assert Run(v, [op] + ops) == v2 by {
      assert ([op] + ops)[1..] == ops;
    }
    RunCarries(v1, ops, Certificates, op.name);
    RunCarries(v1, ops, Secrets, op.name);
    RunCarries(v1, ops, Keys, op.name);
    CarriedHolds(v1.certs, v2.certs, op.name, op.version, CertCore(issued.cer, op.name, op.name, issued.pem), op.now);
    CarriedHolds(v1.secrets, v2.secrets, op.name, op.version, issued.managed, op.now);
    if issued.key.Some? {
      CarriedHolds(v1.keys, v2.keys, op.name, op.version, issued.key.value, op.now);
    }
  }
}
