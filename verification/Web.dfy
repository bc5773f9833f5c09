// Setup, unlock and restart of the web handler: the key held in memory, the config that verifies
// it, and the secrets written and read through it.
module WebModel {
  import opened Wrappers
  import opened Bytes
  import opened Encryption
  import opened AuthModel
  import opened AuthLaws

  /** PBKDF2 with the program's parameters, of passphrase and salt. */
  type Kdf = (string, seq<byte>) -> Key

  ghost predicate Derives(derive: Kdf) {
    forall p: string, salt: seq<byte> :: |derive(p, salt)| == KEY_SIZE
  }

  const SALT := "enc_salt"
  const VERIFY := "enc_verify"
  const MARK := "verify"

  /** What decides whether secrets can be written and read: the service's tables and the key in memory. */
  datatype Gate = Gate(auth: State, key: Option<Key>)

  /** A setup request, what the server draws for it, and which of its database writes fail. */
  datatype SetupCall = SetupCall(
    username: string, password: string, passphrase: string,
    salt: Option<seq<byte>>, nonce: Option<Nonce>, id: string, hash: Option<string>, now: int,
    saltWriteFails: bool, verifyWriteFails: bool, rollbackFails: bool)

  /** `setEncryptionKey`: an empty key counts as none. */
  function Held(key: Key): Option<Key> {
    if key == [] then None else Some(key)
  }

  /** No key is what an empty one leaves; any other is held as it is. */
  lemma HeldIff(key: Key)
    ensures Held(key) == None <==> |key| == 0
    ensures |key| > 0 ==> Held(key) == Some(key)
  {
  }

  function RolledBack(a: State, id: string, fails: bool): State {
    if fails then a else DeleteUser(a, id).0
  }

  function HandleSetup(g: Aead, derive: Kdf, s: Gate, q: SetupCall): (Gate, nat) {
    if q.passphrase == "" then (s, 400)
    else if q.salt == None || q.nonce == None then (s, 500)
    else
      var key := derive(q.passphrase, q.salt.value);
      match EncryptString(g, key, q.nonce.value, MARK)
      case Err(_) => (s, 500)
      case Ok(token) =>
        var (a, created) := Setup(s.auth, q.id, q.username, q.password, q.hash, q.now);
        match created
        case Err(e) => (s.(auth := a), if e == AlreadyInitialized then 409 else 400)
        case Ok(user) =>
          if q.saltWriteFails then (s.(auth := RolledBack(a, user.id, q.rollbackFails)), 500)
          else
            var salted := SetConfig(a, SALT, HexEncode(q.salt.value)).0;
            if q.verifyWriteFails then (s.(auth := RolledBack(salted, user.id, q.rollbackFails)), 500)
            else (Gate(SetConfig(salted, VERIFY, token).0, Held(key)), 200)
  }

  datatype UnlockCall = UnlockCall(passphrase: string, saltReadFails: bool, verifyReadFails: bool)

  function HandleUnlock(g: Aead, derive: Kdf, s: Gate, q: UnlockCall): (Gate, nat) {
    if q.passphrase == "" then (s, 400)
    else if q.saltReadFails then (s, 500)
    else if SALT !in s.auth.config then (s, 400)
    else
      match HexDecode(s.auth.config[SALT])
      case None => (s, 500)
      case Some(salt) =>
        if q.verifyReadFails || VERIFY !in s.auth.config then (s, 500)
        else
          var key := derive(q.passphrase, salt);
          match DecryptString(g, key, s.auth.config[VERIFY])
          case Err(_) => (s, 401)
          case Ok(plaintext) => if plaintext != MARK then (s, 500) else (s.(key := Held(key)), 200)
  }

  /** `isLocked`: a config that cannot be read counts as not set up. */
  function IsLocked(s: Gate, readFails: bool): bool {
    !readFails && SALT in s.auth.config && s.key == None
  }

  /** A new process over the same database: no sessions, no key. */
  function Restarted(s: Gate): Gate {
    Gate(s.auth.(sessions := map[]), None)
  }

  // ----- what the handlers answer and leave behind -----

  lemma RestartLaw(s: Gate)
    ensures var s' := Restarted(s);
            s'.key == None && |s'.auth.sessions| == 0 && s'.auth.users == s.auth.users && s'.auth.config == s.auth.config
  {
  }

  lemma LockedIff(s: Gate, readFails: bool)
    ensures IsLocked(s, readFails) <==> !readFails && "enc_salt" in s.auth.config && s.key == None
  {
  }

  /** The request and the draws are there, so that the user is what decides next. */
  predicate Drawn(q: SetupCall) {
    q.passphrase != "" && q.salt.Some? && q.nonce.Some?
  }

  /** The status of a setup, guard by guard. */
  lemma SetupStatus(g: Aead, derive: Kdf, s: Gate, q: SetupCall)
    requires Derives(derive)
    ensures var code := HandleSetup(g, derive, s, q).1;
            var addable := Addable(s.auth.users, q.id, q.username, q.password, Admin, q.hash);
            && (q.passphrase == "" ==> code == 400)
            && (q.passphrase != "" && !Drawn(q) ==> code == 500)
            && (Drawn(q) && !addable ==>
                  code == if q.username != "" && q.password != "" && exists i :: i in s.auth.users && s.auth.users[i].role == Admin
                          then 409 else 400)
            && (Drawn(q) && addable ==> code == if q.saltWriteFails || q.verifyWriteFails then 500 else 200)
  {
    hide EncryptString, HexEncode, AuthModel.Setup, SetConfig, RolledBack;
    SetupLaw(s.auth, q.id, q.username, q.password, q.hash, q.now);
    if Drawn(q) {
      SealsUnderDerived(g, derive, q);
    }
  }

  lemma SealsUnderDerived(g: Aead, derive: Kdf, q: SetupCall)
    requires Derives(derive) && Drawn(q)
    ensures EncryptString(g, derive(q.passphrase, q.salt.value), q.nonce.value, MARK).Ok?
  {
  }

  /**
   * The users after a setup: the new admin is added exactly if the setup succeeds, or fails and cannot
   * be rolled back either; otherwise they are as before.
   */
  lemma SetupUsers(g: Aead, derive: Kdf, s: Gate, q: SetupCall)
    requires Derives(derive) && q.id != ""
    ensures var (s', code) := HandleSetup(g, derive, s, q);
            var admin := User(q.id, q.username, if q.hash.Some? then q.hash.value else "", Admin, q.now);
            var addable := Addable(s.auth.users, q.id, q.username, q.password, Admin, q.hash);
            s'.auth.users == if code == 200 || (Drawn(q) && addable && q.rollbackFails) then s.auth.users[q.id := admin]
                             else s.auth.users
  {
    hide EncryptString, HexEncode;
    SetupStatus(g, derive, s, q);
    SetupLaw(s.auth, q.id, q.username, q.password, q.hash, q.now);
    if Drawn(q) {
      SealsUnderDerived(g, derive, q);
    }
    var admin := User(q.id, q.username, if q.hash.Some? then q.hash.value else "", Admin, q.now);
    assert q.id !in s.auth.users ==> s.auth.users[q.id := admin] - {q.id} == s.auth.users;
  }

  /** No setup touches a session of another user than the one it adds and takes back. */
  lemma SetupSessions(g: Aead, derive: Kdf, s: Gate, q: SetupCall, t: string)
    ensures var sessions := HandleSetup(g, derive, s, q).0.auth.sessions;
            && (t in sessions ==> t in s.auth.sessions && sessions[t] == s.auth.sessions[t])
            && (t in s.auth.sessions && s.auth.sessions[t].userId != q.id ==> t in sessions)
  {
    hide EncryptString, HexEncode;
  }

  /** A setup that fails and is rolled back can be tried again: the next complete request succeeds. */
  lemma SetupCanBeRetried(g: Aead, derive: Kdf, s: Gate, q: SetupCall, again: SetupCall)
    requires Derives(derive) && q.id != "" && !q.rollbackFails && HandleSetup(g, derive, s, q).1 != 200
    requires Drawn(again) && !again.saltWriteFails && !again.verifyWriteFails
    requires Addable(s.auth.users, again.id, again.username, again.password, Admin, again.hash)
    ensures HandleSetup(g, derive, HandleSetup(g, derive, s, q).0, again).1 == 200
  {
    hide HandleSetup, Addable;
    SetupUsers(g, derive, s, q);
    SetupStatus(g, derive, HandleSetup(g, derive, s, q).0, again);
  }

  /** What a successful setup writes: the salt in hexadecimal, and "verify" sealed under the key then held. */
  lemma SetupConfig(g: Aead, derive: Kdf, s: Gate, q: SetupCall, k: string)
    requires Correct(g) && Derives(derive) && HandleSetup(g, derive, s, q).1 == 200
    ensures q.salt.Some?
    ensures var s' := HandleSetup(g, derive, s, q).0;
            var key := derive(q.passphrase, q.salt.value);
            && s'.key == Some(key)
            && "enc_salt" in s'.auth.config && s'.auth.config["enc_salt"] == HexEncode(q.salt.value)
            && "enc_verify" in s'.auth.config && DecryptString(g, key, s'.auth.config["enc_verify"]) == Ok("verify")
            && (k != "enc_salt" && k != "enc_verify" ==>
                  (k in s'.auth.config <==> k in s.auth.config) && (k in s.auth.config ==> s'.auth.config[k] == s.auth.config[k]))
  {
    hide EncryptString, DecryptString, HexEncode;
    EncryptedDecrypts(g, derive(q.passphrase, q.salt.value), q.nonce.value, "verify");
    assert |"enc_salt"| != |"enc_verify"|;
  }

  /** The status of an unlock, guard by guard; a wrong passphrase is a 401. */
  lemma UnlockStatus(g: Aead, derive: Kdf, s: Gate, q: UnlockCall)
    ensures var (s', code) := HandleUnlock(g, derive, s, q);
            var config := s.auth.config;
            && (q.passphrase == "" ==> code == 400)
            && (q.passphrase != "" && q.saltReadFails ==> code == 500)
            && (q.passphrase != "" && !q.saltReadFails && "enc_salt" !in config ==> code == 400)
            && (q.passphrase != "" && !q.saltReadFails && "enc_salt" in config ==>
                  var salt := HexDecode(config["enc_salt"]);
                  && (salt == None || q.verifyReadFails || "enc_verify" !in config ==> code == 500)
                  && (salt.Some? && !q.verifyReadFails && "enc_verify" in config ==>
                        var plain := DecryptString(g, derive(q.passphrase, salt.value), config["enc_verify"]);
                        code == if plain.Err? then 401 else if plain.value == "verify" then 200 else 500))
            && (code != 200 ==> s' == s)
            && s'.auth == s.auth
  {
    hide DecryptString, HexDecode;
  }
}

/** The handler, which keeps its own copy of the key. */
module Web {
  import opened Wrappers
  import opened Bytes
  import opened Encryption
  import opened AuthModel
  import Auth
  import opened WebModel

  class Handler {
    const service: Auth.Service
    const g: Aead
    const derive: Kdf
    var encKey: array?<byte>

    ghost function Key(): Option<Encryption.Key>
      reads this, encKey
    {
      if encKey == null || encKey.Length == 0 then None else Some(encKey[..])
    }

    ghost function Abs(): Gate
      reads this, encKey, service
    {
      Gate(service.Abs(), Key())
    }

    /** A starting process. */
    constructor (service: Auth.Service, g: Aead, derive: Kdf)
      ensures this.service == service && this.g == g && this.derive == derive
      ensures Abs() == Gate(service.Abs(), None)
    {
      this.service, this.g, this.derive, encKey := service, g, derive, null;
    }

    /** The caller's buffer is copied, so later writes to it do not reach the key. */
    method SetEncryptionKey(key: array?<byte>)
      modifies this
      ensures Key() == if key == null then None else Held(old(key[..]))
      ensures encKey != null ==> fresh(encKey)
    {
      if key == null || key.Length == 0 {
        encKey := null;
        return;
      }
      var copy := new byte[key.Length](i requires 0 <= i < key.Length reads key => key[i]);
      assert copy[..] == key[..];
      encKey := copy;
    }

    method GetEncryptionKey() returns (key: array?<byte>)
      ensures Key() == if key == null then None else Some(key[..])
      ensures key != null ==> fresh(key)
    {
      if encKey == null || encKey.Length == 0 {
        return null;
      }
      var held: array<byte> := encKey;
      key := new byte[held.Length](i requires 0 <= i < held.Length reads held => held[i]);
      assert key[..] == held[..];
    }

    method IsLocked(readFails: bool) returns (locked: bool)
      ensures locked == WebModel.IsLocked(Abs(), readFails)
    {
      if readFails || SALT !in service.config {
        return false;
      }
      var key := GetEncryptionKey();
      return key == null;
    }

    method Install(key: Encryption.Key)
      modifies this
      ensures Key() == Held(key)
      ensures encKey != null ==> fresh(encKey)
    {
      var buffer := new byte[|key|](i requires 0 <= i < |key| => key[i]);
      assert buffer[..] == key;
      SetEncryptionKey(buffer);
    }

    method Rollback(id: string, fails: bool)
      modifies service
      ensures service.Abs() == RolledBack(old(service.Abs()), id, fails)
    {
      if !fails {
        var _ := service.DeleteUser(id);
      }
    }

    method HandleSetup(q: SetupCall) returns (status: nat)
      modifies this, service
      ensures (Abs(), status) == WebModel.HandleSetup(g, derive, old(Abs()), q)
    {
      if q.passphrase == "" {
        return 400;
      }
      if q.salt == None || q.nonce == None {
        return 500;
      }
      var key := derive(q.passphrase, q.salt.value);
      var verify := EncryptString(g, key, q.nonce.value, MARK);
      if verify.Err? {
        return 500;
      }
      var created := service.Setup(q.id, q.username, q.password, q.hash, q.now);
      if created.Err? {
        return if created.error == AlreadyInitialized then 409 else 400;
      }
      if q.saltWriteFails {
        Rollback(created.value.id, q.rollbackFails);
        return 500;
      }
      var _ := service.SetConfig(SALT, HexEncode(q.salt.value));
      if q.verifyWriteFails {
        Rollback(created.value.id, q.rollbackFails);
        return 500;
      }
      var _ := service.SetConfig(VERIFY, verify.value);
      Install(key);
      return 200;
    }

    method HandleUnlock(q: UnlockCall) returns (status: nat)
      modifies this
      ensures (Abs(), status) == WebModel.HandleUnlock(g, derive, old(Abs()), q)
    {
      if q.passphrase == "" {
        return 400;
      }
      if q.saltReadFails {
        return 500;
      }
      if SALT !in service.config {
        return 400;
      }
      var salt := HexDecode(service.config[SALT]);
      if salt == None || q.verifyReadFails || VERIFY !in service.config {
        return 500;
      }
      var key := derive(q.passphrase, salt.value);
      var plaintext := DecryptString(g, key, service.config[VERIFY]);
      if plaintext.Err? {
        return 401;
      }
      if plaintext.value != MARK {
        return 500;
      }
      Install(key);
      return 200;
    }
  }
}
