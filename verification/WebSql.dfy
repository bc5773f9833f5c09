// The server over the SQL store: the tables outlive the process, and with them the secrets.
module WebSql {
  import opened Wrappers
  import opened Bytes
  import opened Model
  import opened Shelves
  import opened Tables
  import opened SqlRuns
  import opened SqlRefinement
  import opened Encryption
  import opened EncryptedStore
  import opened WebModel
  import opened WebGates
  import G = WebGates
  import W = WebRuns

  type SecretDb = Db<string, string>

  /** The process (tables of users and config, sessions, key) and the tables of secrets. */
  datatype SqlServer = SqlServer(gate: Gate, db: SecretDb)

  /** An event, with the clock reading and the engine's answers its operation gets. */
  datatype Served = Served(event: G.Event, ts: int, answers: Answers<string, string>)

  /** What the encrypting store asks of the store it wraps. */
  function InnerOp(lib: Lib, gate: Gate, e: G.Event): Result<SecretOp, Error>
    requires e.Use?
  {
    SealedOp(lib.g, gate.key, IsLocked(gate, e.configReadFails), e.nonce, e.op)
  }

  ghost function SqlStep(lib: Lib, s: SqlServer, x: Served): (SqlServer, Reply)
    requires Payloads(s.db) && Faithful(s.db.rows, x.answers)
  {
    if x.event.Use? then
      match InnerOp(lib, s.gate, x.event)
      case Err(e) => (s, Answer(Failed(e)))
      case Ok(inner) =>
        var (states, r) := Exec(s.db, Secrets, NoValue, inner, x.ts, x.answers);
        (s.(db := Final(s.db, states)), Answer(if Overridden(inner) then DecryptResponse(lib.g, s.gate.key, r) else r))
    else
      var (gate, reply) := GateStep(lib, s.gate, x.event); (s.(gate := gate), reply)
  }

  /** The engine answers by the table; new versions get unused ids and later times, restores issuable tokens. */
  ghost predicate Meets(lib: Lib, s: SqlServer, x: Served) {
    && Payloads(s.db) && Faithful(s.db.rows, x.answers) && Allowed(x.event)
    && (x.event.Use? && InnerOp(lib, s.gate, x.event).Ok? ==> Fresh(s.db, InnerOp(lib, s.gate, x.event).value, x.ts))
  }

  lemma RefinesPayloads(db: SecretDb, s: SecretShelf)
    requires Refines(db, s)
    ensures Payloads(db)
  {
    forall n | n in db.deleted
      ensures db.deleted[n].versions != []
    {
      DeletedViewsAgree(db, s, n);
    }
  }

  /** One event: equal replies, equal process state, and tables that refine the in-memory store. */
  lemma SqlStepRefines(lib: Lib, s: SqlServer, shelf: SecretShelf, x: Served)
    requires Refines(s.db, shelf) && Meets(lib, s, x)
    ensures Sound(shelf)
    ensures var (s', reply) := SqlStep(lib, s, x);
            var (m, wanted) := W.Step(lib, W.Server(s.gate, shelf), x.event);
            reply == wanted && s'.gate == m.gate && Refines(s'.db, m.secrets) && Payloads(s'.db)
  {
    hide Refines, Faithful, Payloads, Fresh, Exec, Shelves.Step, SealedOp, GateStep, Sound;
    SoundOf(s.db, shelf);
    if x.event.Use? {
      var inner := InnerOp(lib, s.gate, x.event);
      if inner.Ok? {
        SealedKeepsKind(lib, s.gate, x.event);
        StepRefines(s.db, shelf, Secrets, NoValue, inner.value, x.ts, x.answers);
      }
    }
    var m := W.Step(lib, W.Server(s.gate, shelf), x.event).0;
    RefinesPayloads(SqlStep(lib, s, x).0.db, m.secrets);
  }

  lemma SealedKeepsKind(lib: Lib, gate: Gate, e: G.Event)
    requires e.Use? && InnerOp(lib, gate, e).Ok?
    ensures Overridden(InnerOp(lib, gate, e).value) == Overridden(e.op)
  {
  }

  ghost predicate MeetsThroughout(lib: Lib, s: SqlServer, xs: seq<Served>)
    decreases |xs|
  {
    xs == [] || (Meets(lib, s, xs[0]) && MeetsThroughout(lib, SqlStep(lib, s, xs[0]).0, xs[1..]))
  }

  ghost function SqlServerRun(lib: Lib, s: SqlServer, xs: seq<Served>): SqlServer
    requires MeetsThroughout(lib, s, xs)
    decreases |xs|
  {
    if xs == [] then s else SqlServerRun(lib, SqlStep(lib, s, xs[0]).0, xs[1..])
  }

  function Events(xs: seq<Served>): (events: seq<G.Event>)
    ensures |events| == |xs|
  {
    seq(|xs|, i requires 0 <= i < |xs| => xs[i].event)
  }

  lemma EventsTail(xs: seq<Served>)
    requires xs != []
    ensures Events(xs)[1..] == Events(xs[1..])
  {
  }

  lemma {:induction false} ThroughoutAllowed(lib: Lib, s: SqlServer, xs: seq<Served>)
    requires MeetsThroughout(lib, s, xs)
    ensures forall e :: e in Events(xs) ==> Allowed(e)
    decreases |xs|
  {
    hide Allowed, SqlStep;
    if xs != [] {
      ThroughoutAllowed(lib, SqlStep(lib, s, xs[0]).0, xs[1..]);
      EventsTail(xs);
      assert Events(xs) == [xs[0].event] + Events(xs)[1..];
    }
  }

  /** Whole runs, restarts included: the tables go on refining the store that the runs of `WebRuns` keep. */
  lemma {:induction false} SqlServerRunRefines(lib: Lib, s: SqlServer, shelf: SecretShelf, xs: seq<Served>)
    requires Refines(s.db, shelf) && MeetsThroughout(lib, s, xs)
    ensures Sound(shelf) && forall e :: e in Events(xs) ==> Allowed(e)
    ensures var m := W.Run(lib, W.Server(s.gate, shelf), Events(xs));
            SqlServerRun(lib, s, xs).gate == m.gate && Refines(SqlServerRun(lib, s, xs).db, m.secrets)
    decreases |xs|
  {
    hide Refines, SqlStep, W.Step, Allowed, Sound, Payloads, Faithful, Fresh, InnerOp, Events;
    SoundOf(s.db, shelf);
    ThroughoutAllowed(lib, s, xs);
    if xs != [] {
      SqlStepRefines(lib, s, shelf, xs[0]);
      EventsTail(xs);
      EventsFirst(xs);
      var m := W.Step(lib, W.Server(s.gate, shelf), xs[0].event).0;
      SqlServerRunRefines(lib, SqlStep(lib, s, xs[0]).0, m.secrets, xs[1..]);
    }
  }

  lemma EventsFirst(xs: seq<Served>)
    requires xs != []
    ensures Events(xs)[0] == xs[0].event
  {
  }

  /** The event sets a secret of a name that is not deleted, while unlocked with this key. */
  ghost predicate SetsSecret(s: SqlServer, key: Key, e: G.Event, value: string) {
    && s.gate.key == Some(key) && e.Use? && e.op.PutOp? && e.op.version != ""
    && e.op.made.Some? && e.op.made.value.0 == value && value != "" && e.op.complete
    && e.op.name != "" && e.op.name !in s.db.deleted
  }

  lemma VersionUnused(db: SecretDb, shelf: SecretShelf, name: string, version: string)
    requires Refines(db, shelf) && RowId(name, version) !in db.rows
    ensures forall i :: 0 <= i < |HistoryOf(shelf, name)| ==> HistoryOf(shelf, name)[i].version != version
  {
    if name in shelf.active {
      var snaps := StackOf(db, shelf, name);
      forall i | 0 <= i < |shelf.active[name]|
        ensures shelf.active[name][i].version != version
      {
        assert shelf.active[name][i] == SnapshotRecord(name, snaps[i]);
        assert RowId(name, snaps[i].version) in db.rows;
      }
    }
  }

  lemma SetsThere(lib: Lib, s: SqlServer, shelf: SecretShelf, key: Key, x: Served, value: string)
    requires LibOk(lib) && |key| == KEY_SIZE
    requires Refines(s.db, shelf) && Meets(lib, s, x) && SetsSecret(s, key, x.event, value)
    ensures W.SetsSecret(W.Server(s.gate, shelf), key, x.event, value)
  {
    hide Refines, Faithful, Payloads, Sound, EncryptString, DecryptString;
    SoundOf(s.db, shelf);
    EncryptedDecrypts(lib.g, key, x.event.nonce, value);
    VersionUnused(s.db, shelf, x.event.op.name, x.event.op.version);
  }

  /** The payload of the deleted name has the version with this stored value. */
  ghost predicate PayloadHolds(db: SecretDb, name: string, version: string, stored: string) {
    && name in db.deleted
    && exists i :: 0 <= i < |db.deleted[name].versions|
                   && SnapshotRecord(name, db.deleted[name].versions[i]).version == version
                   && SnapshotRecord(name, db.deleted[name].versions[i]).core == stored
  }

  lemma FoundInPayload(db: SecretDb, shelf: SecretShelf, name: string, version: string, stored: string)
    requires Refines(db, shelf) && W.FoundIn(DeletedOf(shelf, name), version, stored)
    ensures PayloadHolds(db, name, version, stored)
  {
    var h := shelf.deleted[name].versions;
    var i := FirstFrom(h, version, 0).value;
    assert Entombed(db.deleted[name], shelf.deleted[name], name);
    assert SnapshotRecords(name, db.deleted[name].versions)[i] == h[i];
  }

  /** The server answers a get of this version with this value. */
  ghost predicate ReadsBack(lib: Lib, s: SqlServer, name: string, version: string, value: string, x: Served)
    requires Payloads(s.db) && Faithful(s.db.rows, x.answers)
  {
    var reply := SqlStep(lib, s, x).1;
    && reply.Answer? && reply.response.One?
    && reply.response.record.name == name && reply.response.record.version == version
    && reply.response.record.core == value
  }

  /**
   * `WebRuns.SecretSurvives` with nothing assumed of the store: over the SQL tables, which no restart
   * touches, a value set while unlocked reads back after any admissible run and an unlock with the
   * setup's passphrase, unless the version is then in the name's deleted payload.
   */
  lemma SecretSurvivesInTables(lib: Lib, s: SqlServer, shelf: SecretShelf, key: Key, salt: seq<byte>, x: Served,
                               value: string, stored: string, xs: seq<Served>, q: UnlockCall, get: Served)
    requires LibOk(lib) && Ready(lib, s.gate, key, salt) && Refines(s.db, shelf)
    requires SetsSecret(s, key, x.event, value) && EncryptString(lib.g, key, x.event.nonce, value) == Ok(stored)
    requires MeetsThroughout(lib, s, [x] + xs) && KeepsAdmin(lib, s.gate, Events([x] + xs))
    requires forall y :: y in xs ==> !W.Takes(y.event, x.event.op.name)
    requires q.passphrase != "" && lib.derive(q.passphrase, salt) == key && !q.saltReadFails && !q.verifyReadFails
    requires get.event.Use? && get.event.op == GetOp(x.event.op.name, x.event.op.version)
    requires Faithful(SqlServerRun(lib, s, [x] + xs).db.rows, get.answers)
    ensures var after := SqlServerRun(lib, s, [x] + xs);
            var gate := GateStep(lib, after.gate, Unlock(q)).0;
            && Payloads(after.db) && gate == after.gate.(key := Some(key))
            && (ReadsBack(lib, SqlServer(gate, after.db), x.event.op.name, x.event.op.version, value, get)
                || PayloadHolds(after.db, x.event.op.name, x.event.op.version, stored))
            && (x.event.op.name !in after.db.deleted
                ==> ReadsBack(lib, SqlServer(gate, after.db), x.event.op.name, x.event.op.version, value, get))
  {
    hide Refines, Faithful, Meets, Sound, Allowed, EncryptString, Configured, HandleUnlock, SqlStep;
    hide W.FoundIn, W.ReadsBack, W.SetsSecret;
    var all := [x] + xs;
    var name, version := x.event.op.name, x.event.op.version;
    assert all[0] == x && all[1..] == xs;
    EventsTail(all);
    EventsFirst(all);
    assert Events(all) == [x.event] + Events(xs);
    W.ReadySize(lib, s.gate, key, salt);
    SetsThere(lib, s, shelf, key, x, value);
    SqlServerRunRefines(lib, s, shelf, all);
    W.SecretSurvives(lib, W.Server(s.gate, shelf), key, salt, x.event, value, stored, Events(xs), q, get.event.nonce,
                     get.event.configReadFails);
    var after, m := SqlServerRun(lib, s, all), W.Run(lib, W.Server(s.gate, shelf), Events(all));
    var gate := GateStep(lib, after.gate, Unlock(q)).0;
    SoundOf(after.db, m.secrets);
    RefinesPayloads(after.db, m.secrets);
    GetsAlike(lib, SqlServer(gate, after.db), m.secrets, get, value);
    if W.FoundIn(DeletedOf(m.secrets, name), version, stored) {
      FoundInPayload(after.db, m.secrets, name, version, stored);
    }
  }

  lemma GetsAlike(lib: Lib, s: SqlServer, shelf: SecretShelf, get: Served, value: string)
    requires Refines(s.db, shelf) && Payloads(s.db) && Faithful(s.db.rows, get.answers)
    requires get.event.Use? && get.event.op.GetOp?
    ensures Sound(shelf)
    ensures ReadsBack(lib, s, get.event.op.name, get.event.op.version, value, get)
            <==> W.ReadsBack(lib, W.Server(s.gate, shelf), get.event.op.name, get.event.op.version, value, get.event.nonce,
                             get.event.configReadFails)
  {
    hide Refines, Faithful, Exec, Shelves.Step;
    SqlStepRefines(lib, s, shelf, get);
  }
}
