// The in-memory store: the three kinds side by side, and the operations that write into more than one.
module Store {
  import opened Wrappers
  import opened Model
  import opened Shelves
  import opened Memory
  import opened Vault
  import V = Vault

  class Store {
    const secrets: Items<string, string>
    const keys: Items<KeyCore, seq<string>>
    const certs: Items<CertCore, Policy>

    /** The three kinds are sound and own separate objects. */
    ghost predicate Valid()
      reads this, secrets, secrets.Repr, keys, keys.Repr, certs, certs.Repr
    {
      && secrets.Valid() && keys.Valid() && certs.Valid()
      && secrets.kind == Secrets && keys.kind == Keys && certs.kind == Certificates
      && secrets.Repr !! keys.Repr !! certs.Repr
      && Parts() !! (secrets.Repr + keys.Repr + certs.Repr)
    }

    ghost function Parts(): set<object> {
      var s: object, k: object, c: object := secrets, keys, certs;
      {s, k, c}
    }

    ghost function Abs(): Vault
      reads this, secrets, keys, certs
    {
      Vault(secrets.contents, keys.contents, certs.contents)
    }

    constructor ()
      ensures Valid() && Abs() == EMPTY_VAULT && SoundVault(Abs())
      ensures fresh(secrets) && fresh(keys) && fresh(certs)
    {
      hide Stores;
      secrets := new Items(Secrets);
      keys := new Items(Keys);
      certs := new Items(Certificates);
    }

    method SetSecret(name: string, value: string, contentType: string, version: string, attrs: Option<Attributes>,
                     tags: TagMap?, now: int)
      returns (res: Result<Copy<string, string>, Error>)
      requires Valid()
      modifies secrets
      ensures Valid()
      ensures var (s, r) := Shelves.Put(old(secrets.contents), name, value != "", Some((value, contentType)), version, attrs, Content(tags), now);
              Abs() == old(Abs()).(secrets := s) && Answers(res, r)
      ensures secrets.Separate(res)
    {
      res := secrets.Put(name, value != "", Some((value, contentType)), version, attrs, tags, now);
    }

    /** `generated` is what key generation (or import) returns; without key operations the kind's defaults apply. */
    method CreateKey(name: string, kty: string, ops: seq<string>, defaultOps: seq<string>, generated: Option<KeyCore>,
                     version: string, attrs: Option<Attributes>, tags: TagMap?, now: int)
      returns (res: Result<Copy<KeyCore, seq<string>>, Error>)
      requires Valid()
      modifies keys
      ensures Valid()
      ensures var made := if generated.Some? then Some((generated.value, if ops != [] then ops else defaultOps)) else None;
              var (s, r) := Shelves.Put(old(keys.contents), name, kty != "", made, version, attrs, Content(tags), now);
              Abs() == old(Abs()).(keys := s) && Answers(res, r)
      ensures keys.Separate(res)
    {
      var made: Option<(KeyCore, seq<string>)> := None;
      if generated.Some? {
        made := Some((generated.value, if ops != [] then ops else defaultOps));
      }
      res := keys.Put(name, kty != "", made, version, attrs, tags, now);
    }

    /** The appends to the certificate, key and secret maps, in the order of the program. */
    method WriteCertificate(name: string, version: string, issued: Issued, policy: Policy, attributes: Attributes,
                            tags: TagMap?)
      returns (c: Copy<CertCore, Policy>)
      requires Valid() && Stamped(attributes)
      modifies secrets, keys, certs
      ensures Valid()
      ensures Abs() == WithCertificate(old(Abs()), name, version, issued, policy, attributes, Content(tags))
      ensures Read(c) == CertRecord(name, version, issued, policy, attributes, Content(tags))
      ensures c.tags != null ==> fresh(c.tags) && c.tags !in secrets.Repr + keys.Repr + certs.Repr
    {
      hide Stores, Appended, Stamped, Sound;
      certs.Append(name, version, CertCore(issued.cer, name, name, issued.pem), policy, attributes, tags);
      if issued.key.Some? {
        keys.Append(name, version, issued.key.value, RSA_OPS, attributes, tags);
      }
      secrets.Append(name, version, issued.managed, PEM_TYPE, attributes, tags);
      var copy := CloneTags(tags, null);
      c := Copy(name, version, CertCore(issued.cer, name, name, issued.pem), policy, attributes, copy);
    }

    method CreateCertificate(name: string, version: string, issuer: Option<string>, parses: bool,
                             issued: Option<Issued>,
                             policy: Policy, attrs: Option<Attributes>, tags: TagMap?, now: int)
      returns (res: Result<Copy<CertCore, Policy>, Error>)
      requires Valid()
      modifies secrets, keys, certs
      ensures Valid()
      ensures var (v, r) := V.CreateCertificate(old(Abs()), name, version, issuer, parses, issued, policy, attrs, Content(tags), now);
              Abs() == v && Answers(res, r)
      ensures res.Ok? && res.value.tags != null ==> res.value.tags !in secrets.Repr + keys.Repr + certs.Repr
    {
      secrets.Opened();
      certs.Opened();
      if name == "" {
        return Err(BAD_PARAMETER);
      }
      if name in certs.deleted {
        return Err(RESERVED);
      }
      if issuer.Some? && (issuer.value !in secrets.active || !parses) {
        return Err(INVALID_ISSUER);
      }
      if issued == None {
        return Err(INVALID_OPERATION);
      }
      var c := WriteCertificate(name, version, issued.value, policy, BuildAttributes(attrs, now, now), tags);
      return Ok(c);
    }

    method ImportCertificate(name: string, version: string, value: string, parsed: Option<Issued>,
                             policy: Policy, attrs: Option<Attributes>, tags: TagMap?, now: int)
      returns (res: Result<Copy<CertCore, Policy>, Error>)
      requires Valid()
      modifies secrets, keys, certs
      ensures Valid()
      ensures var (v, r) := V.ImportCertificate(old(Abs()), name, version, value != "", parsed, policy, attrs, Content(tags), now);
              Abs() == v && Answers(res, r)
      ensures res.Ok? && res.value.tags != null ==> res.value.tags !in secrets.Repr + keys.Repr + certs.Repr
    {
      certs.Opened();
      if name == "" || value == "" || parsed == None {
        return Err(BAD_PARAMETER);
      }
      if name in certs.deleted {
        return Err(RESERVED);
      }
      var c := WriteCertificate(name, version, parsed.value, policy, BuildAttributes(attrs, now, now), tags);
      return Ok(c);
    }

    method UpdateCertificatePolicy(name: string, policy: Policy, now: int) returns (res: Result<Policy, Error>)
      requires Valid()
      modifies certs, certs.Repr
      ensures Valid()
      ensures (Abs(), res) == UpdatePolicy(old(Abs()), name, policy, now)
    {
      res := certs.SetLatestFacet(name, policy, now);
    }
  }
}
