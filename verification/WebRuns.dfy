// Runs of the server, restarts included: who holds the key, what unlocks it, and what becomes of the secrets.
module WebGates {
  import opened Wrappers
  import opened Bytes
  import opened Shelves
  import opened Encryption
  import opened EncryptedStore
  import opened AuthModel
  import AuthRuns
  import opened WebModel

  /** What the server is built on: cipher, key derivation, password comparison. */
  datatype Lib = Lib(g: Aead, derive: Kdf, matches: (string, string) -> bool)

  ghost predicate LibOk(lib: Lib) {
    Correct(lib.g) && Derives(lib.derive)
  }

  datatype Event =
    | SetUp(setup: SetupCall)
    | Unlock(unlock: UnlockCall)
    | Restart
    | Account(account: AuthRuns.Event)
    | Use(op: SecretOp, nonce: Nonce, configReadFails: bool)

  datatype Reply = Status(code: nat) | Answer(response: SecretResponse) | Nothing

  /** Users are set up through `SetUp` alone; what certificates write arrives as `AppendOp`. */
  predicate Allowed(e: Event) {
    match e
    case Account(a) => !a.SetupEvent?
    case Use(op, _, _) => Fit(op)
    case _ => true
  }

  /** What an event does to tables and key; using the secrets leaves both alone. */
  ghost function GateStep(lib: Lib, s: Gate, e: Event): (Gate, Reply) {
    match e
    case SetUp(q) => var (s', code) := HandleSetup(lib.g, lib.derive, s, q); (s', Status(code))
    case Unlock(q) => var (s', code) := HandleUnlock(lib.g, lib.derive, s, q); (s', Status(code))
    case Restart => (Restarted(s), Nothing)
    case Account(a) => (s.(auth := AuthRuns.Step(s.auth, a, lib.matches)), Nothing)
    case Use(_, _, _) => (s, Nothing)
  }

  ghost function GateRun(lib: Lib, s: Gate, events: seq<Event>): Gate
    decreases |events|
  {
    if events == [] then s else GateRun(lib, GateStep(lib, s, events[0]).0, events[1..])
  }

  // ----- the held key -----

  /** The held key opens the stored verification token. */
  ghost predicate Verified(lib: Lib, s: Gate) {
    s.key.Some? ==> |s.key.value| == KEY_SIZE && VERIFY in s.auth.config
                    && DecryptString(lib.g, s.key.value, s.auth.config[VERIFY]) == Ok(MARK)
  }

  lemma StepKeepsVerified(lib: Lib, s: Gate, e: Event)
    requires LibOk(lib) && Verified(lib, s) && Allowed(e)
    ensures Verified(lib, GateStep(lib, s, e).0)
  {
    hide DecryptString, EncryptString;
    match e
    case SetUp(q) =>
      if q.salt.Some? && q.nonce.Some? {
        EncryptedDecrypts(lib.g, lib.derive(q.passphrase, q.salt.value), q.nonce.value, MARK);
      }
    case _ =>
  }

  /** In every reachable state a held key opens the verification token, whatever setups failed or succeeded. */
  lemma {:induction false} RunKeepsVerified(lib: Lib, s: Gate, events: seq<Event>)
    requires LibOk(lib) && Verified(lib, s)
    requires forall e :: e in events ==> Allowed(e)
    ensures Verified(lib, GateRun(lib, s, events))
    decreases |events|
  {
    hide Verified, GateStep, Allowed;
    if events != [] {
      assert events[0] in events;
      StepKeepsVerified(lib, s, events[0]);
      RunKeepsVerified(lib, GateStep(lib, s, events[0]).0, events[1..]);
    }
  }

  // ----- what the config unlocks to -----

  /** The salt written last, and the key of the token written last. */
  datatype Lock = Lock(salt: Option<seq<byte>>, key: Option<Key>)

  const NO_LOCK := Lock(None, None)

  /** The guards a setup passes before its first config write succeeds; an existing admin stops it. */
  predicate WritesSalt(s: Gate, q: SetupCall) {
    && q.passphrase != "" && q.salt.Some? && q.nonce.Some? && !q.saltWriteFails
    && Setup(s.auth, q.id, q.username, q.password, q.hash, q.now).1.Ok?
  }

  /** A setup writes the salt, and then the token unless that write fails; nothing else writes either. */
  function LockAfter(lib: Lib, s: Gate, lock: Lock, e: Event): Lock {
    if e.SetUp? && WritesSalt(s, e.setup) then
      Lock(e.setup.salt, if e.setup.verifyWriteFails then lock.key else Some(lib.derive(e.setup.passphrase, e.setup.salt.value)))
    else lock
  }

  ghost function LockRun(lib: Lib, s: Gate, lock: Lock, events: seq<Event>): Lock
    decreases |events|
  {
    if events == [] then lock
    else LockRun(lib, GateStep(lib, s, events[0]).0, LockAfter(lib, s, lock, events[0]), events[1..])
  }

  /** Of the keys derived with this salt, no other opens this token to the mark. */
  ghost predicate Binds(lib: Lib, salt: seq<byte>, key: Key, token: string) {
    forall p: string :: DecryptString(lib.g, lib.derive(p, salt), token) == Ok(MARK) ==> lib.derive(p, salt) == key
  }

  /** The config holds the lock's salt and a token of its key, and a held key is that key. */
  ghost predicate Configured(lib: Lib, s: Gate, lock: Lock) {
    && (SALT in s.auth.config <==> lock.salt.Some?)
    && (lock.salt.Some? ==> s.auth.config[SALT] == HexEncode(lock.salt.value))
    && (VERIFY in s.auth.config <==> lock.key.Some?)
    && (lock.key.Some? ==> |lock.key.value| == KEY_SIZE
                           && DecryptString(lib.g, lock.key.value, s.auth.config[VERIFY]) == Ok(MARK))
    && (lock.salt.Some? && lock.key.Some? ==> Binds(lib, lock.salt.value, lock.key.value, s.auth.config[VERIFY]))
    && (s.key.Some? ==> s.key == lock.key)
  }

  /** The hypothesis on the cipher: the token in place after a setup binds its key among those the salt in place derives. */
  ghost predicate BindsNew(lib: Lib, s: Gate, lock: Lock, e: Event) {
    e.SetUp? && WritesSalt(s, e.setup) ==>
      var config, after := GateStep(lib, s, e).0.auth.config, LockAfter(lib, s, lock, e);
      VERIFY in config && after.key.Some? ==> Binds(lib, after.salt.value, after.key.value, config[VERIFY])
  }

  ghost predicate BindsThroughout(lib: Lib, s: Gate, lock: Lock, events: seq<Event>)
    decreases |events|
  {
    events == [] ||
    (BindsNew(lib, s, lock, events[0])
     && BindsThroughout(lib, GateStep(lib, s, events[0]).0, LockAfter(lib, s, lock, events[0]), events[1..]))
  }

  /** A cipher whose texts open under one key only meets the hypothesis for any salt. */
  lemma CommittingBinds(lib: Lib, salt: seq<byte>, key: Key, nonce: Nonce)
    requires LibOk(lib) && Committing(lib.g) && |key| == KEY_SIZE
    ensures Binds(lib, salt, key, EncryptString(lib.g, key, nonce, MARK).value)
  {
    var token := EncryptString(lib.g, key, nonce, MARK).value;
    forall p: string | DecryptString(lib.g, lib.derive(p, salt), token) == Ok(MARK)
      ensures lib.derive(p, salt) == key
    {
      DecryptsOnlyUnder(lib.g, key, nonce, MARK, lib.derive(p, salt));
    }
  }

  lemma AccountKeepsConfig(a: State, e: AuthRuns.Event, matches: (string, string) -> bool)
    ensures AuthRuns.Step(a, e, matches).config == a.config
  {
  }

  lemma SetupKeepsConfig(a: State, id: string, username: string, password: string, hash: Option<string>, now: int)
    ensures Setup(a, id, username, password, hash, now).0.config == a.config
  {
  }

  /** The config after a setup, guard by guard. */
  lemma SetupWrites(lib: Lib, s: Gate, q: SetupCall)
    requires LibOk(lib)
    ensures var s' := HandleSetup(lib.g, lib.derive, s, q).0;
            if !WritesSalt(s, q) then s'.auth.config == s.auth.config && s'.key == s.key
            else
              var key := lib.derive(q.passphrase, q.salt.value);
              var token := EncryptString(lib.g, key, q.nonce.value, MARK);
              var salted := s.auth.config[SALT := HexEncode(q.salt.value)];
              && |key| == KEY_SIZE && token.Ok? && DecryptString(lib.g, key, token.value) == Ok(MARK)
              && s'.auth.config == (if q.verifyWriteFails then salted else salted[VERIFY := token.value])
              && s'.key == (if q.verifyWriteFails then s.key else Some(key))
  {
    hide EncryptString, DecryptString, HexEncode, AuthModel.Setup;
    SetupKeepsConfig(s.auth, q.id, q.username, q.password, q.hash, q.now);
    if q.salt.Some? && q.nonce.Some? {
      EncryptedDecrypts(lib.g, lib.derive(q.passphrase, q.salt.value), q.nonce.value, MARK);
    }
  }

  lemma StepKeepsConfigured(lib: Lib, s: Gate, lock: Lock, e: Event)
    requires LibOk(lib) && Configured(lib, s, lock) && BindsNew(lib, s, lock, e)
    ensures Configured(lib, GateStep(lib, s, e).0, LockAfter(lib, s, lock, e))
  {
    hide Binds, EncryptString, DecryptString, HexEncode, HandleSetup, HandleUnlock, AuthModel.Setup, AuthRuns.Step;
    assert |SALT| != |VERIFY|;
    match e
    case SetUp(q) => SetupWrites(lib, s, q);
    case Unlock(q) => UnlocksIff(lib, s, lock, q);
    case Account(a) => AccountKeepsConfig(s.auth, a, lib.matches);
    case _ =>
  }

  /** Over every run the config is the one its setups wrote, and a held key is the key of the token in place. */
  lemma {:induction false} RunKeepsConfigured(lib: Lib, s: Gate, lock: Lock, events: seq<Event>)
    requires LibOk(lib) && Configured(lib, s, lock) && BindsThroughout(lib, s, lock, events)
    ensures Configured(lib, GateRun(lib, s, events), LockRun(lib, s, lock, events))
    decreases |events|
  {
    hide Configured, BindsNew, GateStep, LockAfter;
    if events != [] {
      StepKeepsConfigured(lib, s, lock, events[0]);
      RunKeepsConfigured(lib, GateStep(lib, s, events[0]).0, LockAfter(lib, s, lock, events[0]), events[1..]);
    }
  }

  /**
   * Unlocking succeeds exactly if salt and token are there and readable and the passphrase derives the
   * token's key from the salt; then it is that key that is held, and otherwise nothing changes.
   */
  lemma UnlocksIff(lib: Lib, s: Gate, lock: Lock, q: UnlockCall)
    requires LibOk(lib) && Configured(lib, s, lock)
    ensures var (s', code) := HandleUnlock(lib.g, lib.derive, s, q);
            && (code == 200 <==> q.passphrase != "" && !q.saltReadFails && !q.verifyReadFails && Opened(lib, lock, q.passphrase))
            && s' == (if code == 200 then s.(key := lock.key) else s)
  {
    hide DecryptString;
    if lock.salt.Some? {
      HexRoundTrip(lock.salt.value);
    }
  }

  /** The passphrase derives the lock's key from the lock's salt. */
  predicate Opened(lib: Lib, lock: Lock, passphrase: string) {
    lock.salt.Some? && lock.key.Some? && lib.derive(passphrase, lock.salt.value) == lock.key.value
  }

  /** Unlocking with this passphrase succeeds, if nothing fails to be read. */
  predicate Unlocks(lib: Lib, s: Gate, passphrase: string) {
    HandleUnlock(lib.g, lib.derive, s, UnlockCall(passphrase, false, false)).1 == 200
  }

  /**
   * Exactly which passphrases unlock after a run, admin deleted or not: those that derive, from the
   * last salt a setup wrote, the key of the last token a setup wrote.
   */
  lemma PassphraseUnlocksIff(lib: Lib, s: Gate, lock: Lock, events: seq<Event>, passphrase: string)
    requires LibOk(lib) && Configured(lib, s, lock) && BindsThroughout(lib, s, lock, events) && passphrase != ""
    ensures Unlocks(lib, GateRun(lib, s, events), passphrase) <==> Opened(lib, LockRun(lib, s, lock, events), passphrase)
  {
    hide Configured, HandleUnlock, LockRun, GateRun, BindsThroughout;
    RunKeepsConfigured(lib, s, lock, events);
    UnlocksIff(lib, GateRun(lib, s, events), LockRun(lib, s, lock, events), UnlockCall(passphrase, false, false));
  }

  /**
   * A passphrase that unlocks before a setup request unlocks after it exactly if the request does not
   * get to write the salt, or the passphrase derives with the new salt the key of the token then in
   * place: the old token's if the second write fails, the new passphrase's if the setup completes.
   */
  lemma SetupKeepsPassphraseIff(lib: Lib, s: Gate, lock: Lock, q: SetupCall, passphrase: string)
    requires LibOk(lib) && Configured(lib, s, lock) && BindsNew(lib, s, lock, SetUp(q))
    requires passphrase != "" && Opened(lib, lock, passphrase)
    ensures Unlocks(lib, HandleSetup(lib.g, lib.derive, s, q).0, passphrase)
            <==> (WritesSalt(s, q) ==>
                    lib.derive(passphrase, q.salt.value)
                    == if q.verifyWriteFails then lock.key.value else lib.derive(q.passphrase, q.salt.value))
  {
    hide Configured, HandleUnlock, HandleSetup, AuthModel.Setup, BindsNew;
    StepKeepsConfigured(lib, s, lock, SetUp(q));
    var after := GateStep(lib, s, SetUp(q)).0;
    UnlocksIff(lib, after, LockAfter(lib, s, lock, SetUp(q)), UnlockCall(passphrase, false, false));
  }

  // ----- while the admin stays -----

  /** Set up with this key and salt, the admin still there; unlocked with that key or locked. */
  ghost predicate Ready(lib: Lib, s: Gate, key: Key, salt: seq<byte>) {
    HasAdmin(s.auth.users) && Configured(lib, s, Lock(Some(salt), Some(key)))
  }

  /** A setup that succeeds found no admin and leaves the server unlocked with the key of its passphrase. */
  lemma SetupMakesReady(lib: Lib, s: Gate, q: SetupCall)
    requires LibOk(lib) && HandleSetup(lib.g, lib.derive, s, q).1 == 200
    requires BindsNew(lib, s, NO_LOCK, SetUp(q))
    ensures q.salt.Some?
    ensures var key := lib.derive(q.passphrase, q.salt.value);
            var s' := HandleSetup(lib.g, lib.derive, s, q).0;
            Ready(lib, s', key, q.salt.value) && s'.key == Some(key) && !HasAdmin(s.auth.users)
  {
    hide DecryptString, EncryptString, Binds, HexEncode;
    SetupWrites(lib, s, q);
    var s' := HandleSetup(lib.g, lib.derive, s, q).0;
    assert s'.auth.users[q.id].role == Admin;
  }

  /** The event deletes the administrator. */
  predicate Dethrones(s: Gate, e: Event) {
    e.Account? && e.account.DeleteEvent? && e.account.id in s.auth.users && s.auth.users[e.account.id].role == Admin
  }

  lemma AccountKeepsAdmin(lib: Lib, a: State, e: AuthRuns.Event)
    requires HasAdmin(a.users) && !e.SetupEvent?
    requires e.DeleteEvent? && e.id in a.users ==> a.users[e.id].role != Admin
    ensures HasAdmin(AuthRuns.Step(a, e, lib.matches).users)
  {
    var admin :| admin in a.users && a.users[admin].role == Admin;
    assert admin in AuthRuns.Step(a, e, lib.matches).users
           && AuthRuns.Step(a, e, lib.matches).users[admin] == a.users[admin];
  }

  lemma AdminStopsSetup(lib: Lib, s: Gate, q: SetupCall)
    requires HasAdmin(s.auth.users)
    ensures !WritesSalt(s, q) && HandleSetup(lib.g, lib.derive, s, q).0 == s
  {
  }

  /** While the admin exists, no event replaces the key or the config. */
  lemma StepKeepsReady(lib: Lib, s: Gate, e: Event, key: Key, salt: seq<byte>)
    requires LibOk(lib) && Ready(lib, s, key, salt) && Allowed(e) && !Dethrones(s, e)
    ensures Ready(lib, GateStep(lib, s, e).0, key, salt)
  {
    hide Configured, HandleSetup, HandleUnlock, WritesSalt, HasAdmin, AuthRuns.Step;
    var lock := Lock(Some(salt), Some(key));
    match e
    case SetUp(q) => AdminStopsSetup(lib, s, q);
    case Unlock(q) =>
      StepKeepsConfigured(lib, s, lock, e);
      UnlocksIff(lib, s, lock, q);
    case Account(a) =>
      StepKeepsConfigured(lib, s, lock, e);
      AccountKeepsAdmin(lib, s.auth, a);
    case _ =>
      StepKeepsConfigured(lib, s, lock, e);
  }

  /** No event of the run deletes the administrator. */
  ghost predicate KeepsAdmin(lib: Lib, s: Gate, events: seq<Event>)
    decreases |events|
  {
    events == [] || (!Dethrones(s, events[0]) && KeepsAdmin(lib, GateStep(lib, s, events[0]).0, events[1..]))
  }

  /** Over every run after the setup that keeps the admin, the key is absent or the setup's, and the config the setup's. */
  lemma {:induction false} RunKeepsReady(lib: Lib, s: Gate, events: seq<Event>, key: Key, salt: seq<byte>)
    requires LibOk(lib) && Ready(lib, s, key, salt)
    requires (forall e :: e in events ==> Allowed(e)) && KeepsAdmin(lib, s, events)
    ensures Ready(lib, GateRun(lib, s, events), key, salt)
    decreases |events|
  {
    hide Ready, GateStep, Allowed, Dethrones;
    if events != [] {
      assert events[0] in events;
      StepKeepsReady(lib, s, events[0], key, salt);
      RunKeepsReady(lib, GateStep(lib, s, events[0]).0, events[1..], key, salt);
    }
  }

  /**
   * Both ways in which a run can shut the first passphrase out: the admin is deleted, and then a setup
   * writes a salt with which that passphrase derives neither the old token's key (if the second write
   * fails) nor the new one's (if the setup completes).
   */
  lemma SecondSetupLocksOut(lib: Lib, s: Gate, key: Key, salt: seq<byte>, admin: string, q: SetupCall,
                            passphrase: string)
    requires LibOk(lib) && Ready(lib, s, key, salt)
    requires passphrase != "" && lib.derive(passphrase, salt) == key
    requires var events := [Account(AuthRuns.DeleteEvent(admin)), SetUp(q), Restart];
             BindsThroughout(lib, s, Lock(Some(salt), Some(key)), events)
    requires var alone := GateRun(lib, s, [Account(AuthRuns.DeleteEvent(admin))]);
             && WritesSalt(alone, q)
             && lib.derive(passphrase, q.salt.value) != (if q.verifyWriteFails then key else lib.derive(q.passphrase, q.salt.value))
    ensures Unlocks(lib, GateRun(lib, s, [Account(AuthRuns.DeleteEvent(admin))]), passphrase)
    ensures !Unlocks(lib, GateRun(lib, s, [Account(AuthRuns.DeleteEvent(admin)), SetUp(q), Restart]), passphrase)
  {
    hide Configured, HandleUnlock, HandleSetup, WritesSalt, BindsNew, Unlocks;
    var lock := Lock(Some(salt), Some(key));
    var deletion := Account(AuthRuns.DeleteEvent(admin));
    var events := [deletion, SetUp(q), Restart];
    var s1 := GateStep(lib, s, deletion).0;
    var s2 := GateStep(lib, s1, SetUp(q)).0;
    assert events[1..] == [SetUp(q), Restart] && events[1..][1..] == [Restart] && [Restart][1..] == [] && [deletion][1..] == [];
    assert GateRun(lib, s, [deletion]) == s1;
    assert LockRun(lib, s, lock, [deletion]) == lock;
    assert BindsThroughout(lib, s, lock, [deletion]);
    PassphraseUnlocksIff(lib, s, lock, [deletion], passphrase);
    PassphraseUnlocksIff(lib, s, lock, events, passphrase);
    assert LockRun(lib, s2, LockAfter(lib, s1, lock, SetUp(q)), [Restart]) == LockAfter(lib, s1, lock, SetUp(q));
    assert LockRun(lib, s1, lock, events[1..]) == LockAfter(lib, s1, lock, SetUp(q));
    assert LockRun(lib, s, lock, events) == LockAfter(lib, s1, lock, SetUp(q));
  }
}

/** The secrets of the server over its runs. */
module WebRuns {
  import opened Wrappers
  import opened Bytes
  import opened Model
  import opened Shelves
  import opened Encryption
  import opened EncryptedStore
  import opened WebModel
  import opened WebGates

  datatype Server = Server(gate: Gate, secrets: SecretShelf)

  ghost function Step(lib: Lib, s: Server, e: Event): (Server, Reply)
    requires Sound(s.secrets)
  {
    match e
    case Use(op, nonce, readFails) =>
      var (secrets, r) := EncryptedStep(lib.g, s.secrets, s.gate.key, IsLocked(s.gate, readFails), nonce, op);
      (s.(secrets := secrets), Answer(r))
    case _ =>
      var (gate, reply) := GateStep(lib, s.gate, e); (s.(gate := gate), reply)
  }

  lemma StepSound(lib: Lib, s: Server, e: Event)
    requires Sound(s.secrets) && Allowed(e)
    ensures Sound(Step(lib, s, e).0.secrets)
  {
    hide Sound, Shelves.Step, EncryptString, GateStep;
    if e.Use? {
      var inner := SealedOp(lib.g, s.gate.key, IsLocked(s.gate, e.configReadFails), e.nonce, e.op);
      if inner.Ok? {
        StepKeepsSound(s.secrets, Secrets, NoValue, inner.value);
      }
    }
  }

  ghost function Run(lib: Lib, s: Server, events: seq<Event>): Server
    requires Sound(s.secrets) && forall e :: e in events ==> Allowed(e)
    decreases |events|
  {
    if events == [] then s
    else
      StepSound(lib, s, events[0]);
      Run(lib, Step(lib, s, events[0]).0, events[1..])
  }

  lemma {:induction false} RunSound(lib: Lib, s: Server, events: seq<Event>)
    requires Sound(s.secrets) && forall e :: e in events ==> Allowed(e)
    ensures Sound(Run(lib, s, events).secrets)
    decreases |events|
  {
    hide Step, Sound, Allowed;
    if events != [] {
      assert events[0] in events;
      StepSound(lib, s, events[0]);
      RunSound(lib, Step(lib, s, events[0]).0, events[1..]);
    }
  }

  /** Tables and key run as they do by themselves. */
  lemma {:induction false} GatesRun(lib: Lib, s: Server, events: seq<Event>)
    requires Sound(s.secrets) && forall e :: e in events ==> Allowed(e)
    ensures Run(lib, s, events).gate == GateRun(lib, s.gate, events)
    decreases |events|
  {
    hide Sound, Allowed, EncryptedStep;
    if events != [] {
      assert events[0] in events;
      StepSound(lib, s, events[0]);
      assert Step(lib, s, events[0]).0.gate == GateStep(lib, s.gate, events[0]).0;
      GatesRun(lib, Step(lib, s, events[0]).0, events[1..]);
    }
  }

  // ----- writing while locked -----

  /**
   * Between setup and unlock, setting a secret is refused and changes nothing exactly if the config
   * can be read; if it cannot, the lock goes unnoticed and the value is stored as it is.
   */
  lemma LockedRefusesIff(lib: Lib, s: Server, key: Key, salt: seq<byte>, e: Event)
    requires Sound(s.secrets) && Ready(lib, s.gate, key, salt) && s.gate.key == None
    requires e.Use? && e.op.PutOp? && e.op.made.Some?
    ensures Step(lib, s, e) == (s, Answer(Failed(VAULT_LOCKED))) <==> !e.configReadFails
    ensures e.configReadFails ==> Step(lib, s, e).0.secrets == Shelves.Step(s.secrets, Secrets, NoValue, e.op).0
  {
  }

  /** The input that shows it: the config read fails, and the plaintext is what the store then holds and answers. */
  lemma UnreadableConfigStoresPlaintext(lib: Lib, s: Server, e: Event)
    requires Sound(s.secrets) && s.gate.key == None
    requires e.Use? && e.op.PutOp? && e.op.made.Some? && e.op.complete && e.configReadFails
    requires e.op.name != "" && e.op.name !in s.secrets.deleted
    ensures var stored := Get(Step(lib, s, e).0.secrets, Secrets, e.op.name, "");
            stored.Ok? && stored.value.core == e.op.made.value.0 && stored.value.version == e.op.version
  {
    hide Put, Get, Sound;
    PutThenGet(s.secrets, Secrets, e.op.name, e.op.complete, e.op.made, e.op.version, e.op.attrs, e.op.tags, e.op.now);
  }

  /** What a use of the secrets is to be while the vault is set up: ordinary, and with the lock noticed if it is a set. */
  predicate UsualUse(s: Gate, e: Event, issued: set<Backup<string, string>>) {
    e.Use? ==> Usual(e.op, issued) && (e.op.PutOp? && s.key == None ==> !e.configReadFails)
  }

  /** The tokens that a reply gives out. */
  ghost function IssuedBy(reply: Reply): set<Backup<string, string>> {
    match reply
    case Answer(r) => IssuedTo(r)
    case _ => {}
  }

  ghost predicate UsualThroughout(lib: Lib, s: Server, events: seq<Event>, issued: set<Backup<string, string>>)
    requires Sound(s.secrets) && forall e :: e in events ==> Allowed(e)
    decreases |events|
  {
    events == [] ||
    (StepSound(lib, s, events[0]);
     var (s', reply) := Step(lib, s, events[0]);
     UsualUse(s.gate, events[0], issued) && UsualThroughout(lib, s', events[1..], issued + IssuedBy(reply)))
  }

  /** Apart from setting secrets, the store goes the same way locked and unlocked. */
  lemma LockedStepAlike(g: Aead, s: SecretShelf, key: Key, locked: bool, nonce: Nonce, op: SecretOp)
    requires Sound(s) && !op.PutOp?
    ensures EncryptedStep(g, s, None, locked, nonce, op).0 == EncryptedStep(g, s, Some(key), false, nonce, op).0
    ensures op.BackupOp? ==> EncryptedStep(g, s, None, locked, nonce, op).1 == EncryptedStep(g, s, Some(key), false, nonce, op).1
    ensures !op.BackupOp? ==> IssuedTo(EncryptedStep(g, s, None, locked, nonce, op).1) == {}
  {
  }

  /** One event, locked or unlocked, leaves every stored value sealed under the setup's key, and every issued token. */
  lemma StepKeepsSealed(lib: Lib, s: Server, e: Event, key: Key, salt: seq<byte>, issued: set<Backup<string, string>>)
    requires LibOk(lib) && Sound(s.secrets) && Ready(lib, s.gate, key, salt) && Sealed(lib.g, key, s.secrets)
    requires Allowed(e) && UsualUse(s.gate, e, issued)
    requires forall b :: b in issued ==> AllOpen(lib.g, key, b.versions)
    ensures var (s', reply) := Step(lib, s, e);
            && Sealed(lib.g, key, s'.secrets)
            && forall b :: b in IssuedBy(reply) ==> AllOpen(lib.g, key, b.versions)
  {
    hide Sealed, AllOpen, Sound, EncryptedStep;
    ReadySize(lib, s.gate, key, salt);
    ReadyKey(lib, s.gate, key, salt);
    if e.Use? {
      var locked := IsLocked(s.gate, e.configReadFails);
      IssuedOpen(lib.g, key, e.nonce, s.secrets, e.op);
      if s.gate.key == None && e.op.PutOp? {
        LockedRefusesIff(lib, s, key, salt, e);
      } else {
        StepSimulates(lib.g, key, e.nonce, s.secrets, e.op);
        if s.gate.key == None {
          LockedStepAlike(lib.g, s.secrets, key, locked, e.nonce, e.op);
        } else {
          UnlockedStepAlike(lib.g, s.secrets, key, locked, e.nonce, e.op);
        }
      }
    }
  }

  lemma UnlockedStepAlike(g: Aead, s: SecretShelf, key: Key, locked: bool, nonce: Nonce, op: SecretOp)
    requires Sound(s)
    ensures EncryptedStep(g, s, Some(key), locked, nonce, op) == EncryptedStep(g, s, Some(key), false, nonce, op)
  {
  }

  lemma ReadyKey(lib: Lib, s: Gate, key: Key, salt: seq<byte>)
    requires Ready(lib, s, key, salt)
    ensures s.key == None || s.key == Some(key)
  {
  }

  /**
   * From setup on, over every run that keeps the admin, restores issued tokens and finds the config
   * readable whenever a secret is set while locked: every stored value is sealed under the setup's key.
   */
  lemma {:induction false} RunKeepsSealed(lib: Lib, s: Server, events: seq<Event>, key: Key, salt: seq<byte>,
                                          issued: set<Backup<string, string>>)
    requires LibOk(lib) && Sound(s.secrets) && Ready(lib, s.gate, key, salt) && Sealed(lib.g, key, s.secrets)
    requires (forall e :: e in events ==> Allowed(e)) && KeepsAdmin(lib, s.gate, events)
    requires UsualThroughout(lib, s, events, issued)
    requires forall b :: b in issued ==> AllOpen(lib.g, key, b.versions)
    ensures Sealed(lib.g, key, Run(lib, s, events).secrets)
    decreases |events|
  {
    hide Sealed, AllOpen, Sound, EncryptedStep, Ready, UsualUse, Allowed, Dethrones, GateStep;
    if events != [] {
      var e := events[0];
      assert e in events;
      StepSound(lib, s, e);
      StepKeepsSealed(lib, s, e, key, salt, issued);
      StepKeepsReady(lib, s.gate, e, key, salt);
      var (s', reply) := Step(lib, s, e);
      GateOfStep(lib, s, e);
      RunKeepsSealed(lib, s', events[1..], key, salt, issued + IssuedBy(reply));
    }
  }

  lemma GateOfStep(lib: Lib, s: Server, e: Event)
    requires Sound(s.secrets)
    ensures Step(lib, s, e).0.gate == GateStep(lib, s.gate, e).0
  {
  }

  // ----- reading back -----

  /** The first version with this id has this stored value. */
  predicate FoundIn(h: Option<History<string, string>>, version: string, stored: string) {
    h.Some? && FirstFrom(h.value, version, 0).Some? && h.value[FirstFrom(h.value, version, 0).value].core == stored
  }

  predicate Kept(s: SecretShelf, name: string, version: string, stored: string) {
    FoundIn(ActiveOf(s, name), version, stored) || FoundIn(DeletedOf(s, name), version, stored)
  }

  lemma {:induction false} FirstFromExtends(h: History<string, string>, h': History<string, string>, version: string,
                                            from: nat)
    requires Extends(h, h') && from <= |h| && FirstFrom(h, version, from).Some?
    ensures FirstFrom(h', version, from) == FirstFrom(h, version, from)
    decreases |h| - from
  {
    assert Same(h[from], h'[from]);
    if h[from].version != version {
      FirstFromExtends(h, h', version, from + 1);
    }
  }

  lemma WithinFound(h: Option<History<string, string>>, h': Option<History<string, string>>, version: string,
                    stored: string)
    requires Within(h, h') && FoundIn(h, version, stored)
    ensures FoundIn(h', version, stored)
  {
    FirstFromExtends(h.value, h'.value, version, 0);
    assert Same(h.value[FirstFrom(h.value, version, 0).value], h'.value[FirstFrom(h.value, version, 0).value]);
  }

  /** The event may take versions of the name away. */
  predicate Takes(e: Event, name: string) {
    e.Use? && Frees(e.op, name)
  }

  lemma StepCarriesSecrets(lib: Lib, s: Server, e: Event, name: string)
    requires Sound(s.secrets) && !Takes(e, name)
    ensures Carried(s.secrets, Step(lib, s, e).0.secrets, name)
  {
    hide Sound, Shelves.Step, Carried, EncryptString;
    UnchangedCarries(s.secrets, name);
    if e.Use? {
      var inner := SealedOp(lib.g, s.gate.key, IsLocked(s.gate, e.configReadFails), e.nonce, e.op);
      if inner.Ok? {
        StepCarries(s.secrets, Secrets, NoValue, inner.value, name);
      }
    }
  }

  lemma CarriedKept(s: SecretShelf, s': SecretShelf, name: string, version: string, stored: string)
    requires Carried(s, s', name) && Kept(s, name, version, stored)
    ensures Kept(s', name, version, stored)
  {
    hide FoundIn, Within;
    var straight := Within(ActiveOf(s, name), ActiveOf(s', name)) && Within(DeletedOf(s, name), DeletedOf(s', name));
    if FoundIn(ActiveOf(s, name), version, stored) {
      WithinFound(ActiveOf(s, name), if straight then ActiveOf(s', name) else DeletedOf(s', name), version, stored);
    } else {
      WithinFound(DeletedOf(s, name), if straight then DeletedOf(s', name) else ActiveOf(s', name), version, stored);
    }
  }

  lemma {:induction false} RunKeeps(lib: Lib, s: Server, events: seq<Event>, name: string, version: string,
                                    stored: string)
    requires Sound(s.secrets) && Kept(s.secrets, name, version, stored)
    requires forall e :: e in events ==> Allowed(e) && !Takes(e, name)
    ensures Kept(Run(lib, s, events).secrets, name, version, stored)
    decreases |events|
  {
    hide Kept, Carried, Step, Sound, Allowed;
    if events != [] {
      assert events[0] in events;
      var s' := Step(lib, s, events[0]).0;
      StepSound(lib, s, events[0]);
      StepCarriesSecrets(lib, s, events[0], name);
      CarriedKept(s.secrets, s'.secrets, name, version, stored);
      RunKeeps(lib, s', events[1..], name, version, stored);
    }
  }

  /** A secret set while unlocked, under a version id its name does not have yet. */
  ghost predicate SetsSecret(s: Server, key: Key, e: Event, value: string) {
    && Sound(s.secrets) && s.gate.key == Some(key)
    && e.Use? && e.op.PutOp? && e.op.version != ""
    && e.op.made.Some? && e.op.made.value.0 == value && value != "" && e.op.complete
    && e.op.name != "" && e.op.name !in s.secrets.deleted
    && forall i :: 0 <= i < |HistoryOf(s.secrets, e.op.name)| ==> HistoryOf(s.secrets, e.op.name)[i].version != e.op.version
  }

  lemma {:induction false} FirstFromAppended(h: History<string, string>, r: Secret, from: nat)
    requires from <= |h| && forall i :: 0 <= i < |h| ==> h[i].version != r.version
    ensures FirstFrom(h + [r], r.version, from) == Some(|h|)
    decreases |h| - from
  {
    if from < |h| {
      FirstFromAppended(h, r, from + 1);
    }
  }

  lemma SetKeeps(lib: Lib, s: Server, key: Key, e: Event, value: string)
    requires LibOk(lib) && |key| == KEY_SIZE && SetsSecret(s, key, e, value)
    ensures Kept(Step(lib, s, e).0.secrets, e.op.name, e.op.version, EncryptString(lib.g, key, e.nonce, value).value)
  {
    hide EncryptString, DecryptString;
    EncryptedDecrypts(lib.g, key, e.nonce, value);
    var sealed := EncryptString(lib.g, key, e.nonce, value).value;
    var h := HistoryOf(s.secrets, e.op.name);
    var r := Record(e.op.name, e.op.version, sealed, e.op.made.value.1, BuildAttributes(e.op.attrs, e.op.now, e.op.now), e.op.tags);
    FirstFromAppended(h, r, 0);
    assert Step(lib, s, e).0.secrets == Appended(s.secrets, r);
    assert FoundIn(ActiveOf(Appended(s.secrets, r), e.op.name), e.op.version, sealed);
  }

  /** The server answers a get of this version with this value. */
  ghost predicate ReadsBack(lib: Lib, s: Server, name: string, version: string, value: string, nonce: Nonce,
                            readFails: bool)
    requires Sound(s.secrets)
  {
    var reply := Step(lib, s, Use(GetOp(name, version), nonce, readFails)).1;
    && reply.Answer? && reply.response.One?
    && reply.response.record.name == name && reply.response.record.version == version
    && reply.response.record.core == value
  }

  lemma KeptReadsBack(lib: Lib, s: Server, key: Key, setNonce: Nonce, name: string, version: string, value: string,
                      nonce: Nonce, readFails: bool)
    requires LibOk(lib) && |key| == KEY_SIZE && Sound(s.secrets) && s.gate.key == Some(key) && version != ""
    requires FoundIn(ActiveOf(s.secrets, name), version, EncryptString(lib.g, key, setNonce, value).value)
    ensures ReadsBack(lib, s, name, version, value, nonce, readFails)
  {
    hide EncryptString, DecryptString;
    EncryptedDecrypts(lib.g, key, setNonce, value);
    assert Filed(s.secrets.active[name], name);
  }

  lemma NotDeletedNotFound(s: SecretShelf, name: string, version: string, stored: string)
    requires name !in s.deleted
    ensures !FoundIn(DeletedOf(s, name), version, stored)
  {
  }

  /**
   * A value set while unlocked is not lost by any run of events that neither purges nor restores its
   * name: restarts, unlocks right or wrong, other writes and moves of the name between active and
   * deleted. Once the setup's passphrase has unlocked the server again, reading the version gives the
   * value back, unless its history is then the deleted one.
   */
  lemma SecretSurvives(lib: Lib, s: Server, key: Key, salt: seq<byte>, e: Event, value: string, stored: string,
                       events: seq<Event>, q: UnlockCall, nonce: Nonce, readFails: bool)
    requires LibOk(lib) && Ready(lib, s.gate, key, salt) && SetsSecret(s, key, e, value) && Allowed(e)
    requires EncryptString(lib.g, key, e.nonce, value) == Ok(stored)
    requires forall x :: x in events ==> Allowed(x) && !Takes(x, e.op.name)
    requires KeepsAdmin(lib, s.gate, [e] + events)
    requires q.passphrase != "" && lib.derive(q.passphrase, salt) == key && !q.saltReadFails && !q.verifyReadFails
    ensures var after := Run(lib, s, [e] + events);
            Sound(after.secrets) &&
            var unlocked := Step(lib, after, Unlock(q)).0;
            && unlocked == after.(gate := after.gate.(key := Some(key)))
            && (ReadsBack(lib, unlocked, e.op.name, e.op.version, value, nonce, readFails)
                || FoundIn(DeletedOf(unlocked.secrets, e.op.name), e.op.version, stored))
            && (e.op.name !in unlocked.secrets.deleted
                ==> ReadsBack(lib, unlocked, e.op.name, e.op.version, value, nonce, readFails))
  {
    hide Sound, EncryptString, EncryptedStep, FoundIn, HandleUnlock, SetsSecret, ReadsBack, Allowed, Takes, Configured;
    var all := [e] + events;
    assert all[0] == e && all[1..] == events;
    SetIsSound(s, key, e, value);
    var s1 := Step(lib, s, e).0;
    StepSound(lib, s, e);
    ReadySize(lib, s.gate, key, salt);
    SetKeeps(lib, s, key, e, value);
    RunKeeps(lib, s1, events, e.op.name, e.op.version, stored);
    RunKeepsReady(lib, s.gate, all, key, salt);
    GatesRun(lib, s, all);
    RunSound(lib, s, all);
    var after := Run(lib, s, all);
    UnlocksIff(lib, after.gate, Lock(Some(salt), Some(key)), q);
    if FoundIn(ActiveOf(after.secrets, e.op.name), e.op.version, stored) {
      var unlocked := Step(lib, after, Unlock(q)).0;
      KeptReadsBack(lib, unlocked, key, e.nonce, e.op.name, e.op.version, value, nonce, readFails);
    } else if e.op.name !in after.secrets.deleted {
      NotDeletedNotFound(after.secrets, e.op.name, e.op.version, stored);
    }
  }

  lemma ReadySize(lib: Lib, s: Gate, key: Key, salt: seq<byte>)
    requires Ready(lib, s, key, salt)
    ensures |key| == KEY_SIZE
  {
  }

  /** Stored under this key: it opens to the value, and under no other key it opens at all. */
  ghost predicate OpensOnly(g: Aead, key: Key, stored: string, value: string) {
    && stored != "" && stored != value && DecryptString(g, key, stored) == Ok(value)
    && forall k: Key :: |k| == KEY_SIZE && DecryptString(g, k, stored).Ok? ==> k == key
  }

  /** A wrong key, if it is one of 32 bytes, gets the ciphertext. */
  lemma ReadsBackUnderIff(lib: Lib, s: Server, held: Key, key: Key, name: string, version: string, value: string,
                          stored: string, nonce: Nonce, readFails: bool)
    requires Sound(s.secrets) && s.gate.key == Some(held) && |held| == KEY_SIZE && version != ""
    requires OpensOnly(lib.g, key, stored, value) && FoundIn(ActiveOf(s.secrets, name), version, stored)
    ensures ReadsBack(lib, s, name, version, value, nonce, readFails) <==> held == key
  {
    hide DecryptString;
    assert Filed(s.secrets.active[name], name);
  }

  /**
   * Exactly when a value reads back, admin deleted or not: after any run, while a key is held and the
   * version is in the active history, exactly if the last setup to write a token wrote one of the key
   * the value was sealed under. A second setup that completes loses it unless it derives that very
   * key with its new salt.
   */
  lemma SecretReadsBackIff(lib: Lib, s: Server, lock: Lock, events: seq<Event>, key: Key, name: string, version: string,
                           value: string, stored: string, nonce: Nonce, readFails: bool)
    requires LibOk(lib) && Sound(s.secrets) && (forall e :: e in events ==> Allowed(e)) && version != ""
    requires Configured(lib, s.gate, lock) && BindsThroughout(lib, s.gate, lock, events)
    requires OpensOnly(lib.g, key, stored, value)
    requires var after := Run(lib, s, events);
             after.gate.key.Some? && FoundIn(ActiveOf(after.secrets, name), version, stored)
    ensures Sound(Run(lib, s, events).secrets)
    ensures ReadsBack(lib, Run(lib, s, events), name, version, value, nonce, readFails)
            <==> LockRun(lib, s.gate, lock, events).key == Some(key)
  {
    hide Sound, FoundIn, OpensOnly, ReadsBack, Allowed, BindsThroughout, GateRun, LockRun, Run, Binds;
    RunSound(lib, s, events);
    GatesRun(lib, s, events);
    RunKeepsConfigured(lib, s.gate, lock, events);
    var after := Run(lib, s, events);
    ReadsBackUnderIff(lib, after, after.gate.key.value, key, name, version, value, stored, nonce, readFails);
  }

  lemma SetIsSound(s: Server, key: Key, e: Event, value: string)
    requires SetsSecret(s, key, e, value)
    ensures Sound(s.secrets) && e.Use? && e.op.PutOp? && e.op.version != "" && s.gate.key == Some(key)
  {
  }
}

/** The handler with its encrypting store: the imperative pieces make the steps of the runs. */
module WebServer {
  import opened Wrappers
  import opened Model
  import opened Shelves
  import opened Memory
  import opened Encryption
  import opened EncryptedStore
  import opened EncryptingWrapper
  import opened Web
  import opened WebGates
  import opened WebRuns

  class Site {
    const handler: Handler
    const store: Wrapper
    ghost const matches: (string, string) -> bool

    constructor (handler: Handler, store: Wrapper, ghost matches: (string, string) -> bool)
      ensures this.handler == handler && this.store == store && this.matches == matches
    {
      this.handler, this.store, this.matches := handler, store, matches;
    }

    ghost predicate Valid()
      reads store.items, store.items.Repr
    {
      store.Valid() && store.g == handler.g
    }

    ghost function Given(): Lib {
      Lib(handler.g, handler.derive, matches)
    }

    ghost function Abs(): Server
      reads handler, handler.encKey, handler.service, store.items
    {
      Server(handler.Abs(), store.items.contents)
    }

    /** The key as the store's callback hands it out. */
    method Key() returns (key: Option<Key>)
      ensures key == handler.Key()
    {
      var buffer := handler.GetEncryptionKey();
      return if buffer == null then None else Some(buffer[..]);
    }

    method SetSecret(name: string, value: string, contentType: string, version: string, attrs: Option<Attributes>,
                     tags: TagMap?, now: int, nonce: Nonce, configReadFails: bool)
      returns (res: Result<Copy<string, string>, Error>)
      requires Valid()
      modifies store.items
      ensures Valid() && Sound(old(store.items.contents))
      ensures var op := PutOp(name, value != "", Some((value, contentType)), version, attrs, Content(tags), now);
              var (s, reply) := WebRuns.Step(Given(), old(Abs()), Use(op, nonce, configReadFails));
              Abs() == s && reply.Answer? && Shows(res, reply.response)
    {
      hide EncryptedStep;
      var key := Key();
      var locked := handler.IsLocked(configReadFails);
      res := store.SetSecret(name, value, contentType, version, attrs, tags, now, key, locked, nonce);
    }

    method GetSecret(name: string, version: string, ghost nonce: Nonce, ghost configReadFails: bool)
      returns (res: Result<Copy<string, string>, Error>)
      requires Valid()
      ensures Sound(store.items.contents)
      ensures var (s, reply) := WebRuns.Step(Given(), Abs(), Use(GetOp(name, version), nonce, configReadFails));
              Abs() == s && reply.Answer? && Shows(res, reply.response)
    {
      var key := Key();
      res := store.GetSecret(name, version, key);
    }
  }
}
