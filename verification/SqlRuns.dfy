// Runs of the SQL store, each operation complete or stopped after any of its statements: no version
// is ever lost except by a purge or a restore.
module SqlRuns {
  import opened Wrappers
  import opened Model
  import opened Shelves
  import opened Tables
  import Paging

  ghost function ListResult<C(!new), F(!new)>(db: Db<C, F>, blank: C -> C, a: Answers<C, F>, skipToken: string,
                                              maxResults: int)
    : Result<(seq<Record<C, F>>, Option<string>), Error>
    requires Faithful(db.rows, a)
  {
    match NamePage(NamesOf(db.rows), skipToken, maxResults)
    case Err(e) => Err(e)
    case Ok((page, next)) =>
      assert forall n :: n in page ==> HasRows(db.rows, n);
      Ok((ListedRows(db, page, a.newest, blank), next))
  }

  ghost function ListDeletedResult<C, F>(db: Db<C, F>, blank: C -> C, skipToken: string, maxResults: int)
    : Result<(seq<DeletedRecord<C, F>>, Option<string>), Error>
    requires Payloads(db)
  {
    match NamePage(db.deleted.Keys, skipToken, maxResults)
    case Err(e) => Err(e)
    case Ok((page, next)) => Ok((ListedDeleted(db, page, blank), next))
  }

  function ListVersionsResult<C, F>(db: Db<C, F>, kind: Kind, blank: C -> C, a: Answers<C, F>, name: string,
                                    skipToken: string, maxResults: int)
    : Result<(seq<Record<C, F>>, Option<string>), Error>
  {
    if !HasRows(db.rows, name) then Err(NotFound(kind))
    else match Paging.Paginate(BlankedRecords(SnapshotRecords(name, a.descending(name)), blank), skipToken, maxResults)
      case Err(_) => Err(BAD_PARAMETER)
      case Ok(page) => Ok(page)
  }

  /** A version written beside a certificate: one insert. */
  function AppendStates<C, F>(db: Db<C, F>, r: Record<C, F>, ts: int): (States<C, F>, Response<C, F>) {
    var id := RowId(r.name, r.version);
    if id in db.rows then ([], Failed(DATABASE_ERROR))
    else ([InsertRow(db, id, Row(r.core, r.facet, r.attributes, r.tags, ts))], One(r))
  }

  /** An operation of the SQL store; `ts` is its reading of the nanosecond clock. */
  ghost function Exec<C(!new), F(!new)>(db: Db<C, F>, kind: Kind, blank: C -> C, op: Op<C, F>, ts: int,
                                        a: Answers<C, F>)
    : (States<C, F>, Response<C, F>)
    requires Payloads(db) && Faithful(db.rows, a)
  {
    match op
    case PutOp(name, complete, made, version, attrs, tags, now) =>
      var (states, r) := PutStates(db, name, complete, made, version, attrs, tags, now, ts); (states, AsOne(r))
    case AppendOp(r) => AppendStates(db, r, ts)
    case GetOp(name, version) => ([], AsOne(GetResult(db, kind, name, version, a.newest(name))))
    case UpdateOp(name, version, facet, attrs, tags, now) =>
      var (states, r) := UpdateStates(db, kind, name, version, a.newest(name), facet, attrs, tags, now); (states, AsOne(r))
    case DeleteOp(name, recoveryId, now) =>
      var (states, r) := DeleteStates(db, kind, name, a.newest(name), a.ascending(name), recoveryId, now); (states, AsDeleted(r))
    case GetDeletedOp(name) => ([], AsDeleted(GetDeletedResult(db, kind, name)))
    case PurgeOp(name) => var (states, r) := PurgeStates(db, kind, name); (states, AsDone(r))
    case RecoverOp(name) => var (states, r) := RecoverStates(db, kind, name); (states, AsOne(r))
    case BackupOp(name) => ([], AsToken(BackUpResult(db, kind, name, a.newest(name), a.ascending(name))))
    case RestoreOp(token) => var (states, r) := RestoreStates(db, token); (states, AsOne(r))
    case ListOp(skip, max) => ([], AsMany(ListResult(db, blank, a, skip, max)))
    case ListVersionsOp(name, skip, max) => ([], AsMany(ListVersionsResult(db, kind, blank, a, name, skip, max)))
    case ListDeletedOp(skip, max) => ([], AsManyDeleted(ListDeletedResult(db, blank, skip, max)))
  }

  // ----- no loss -----

  predicate RowIs<C(==), F>(row: Row<C, F>, core: C, created: int) {
    row.core == core && row.attributes.created == created
  }

  predicate InTable<C(==), F>(db: Db<C, F>, n: string, version: string, core: C, created: int) {
    RowId(n, version) in db.rows && RowIs(db.rows[RowId(n, version)], core, created)
  }

  predicate InPayload<C(==), F>(db: Db<C, F>, n: string, version: string, core: C, created: int) {
    n in db.deleted && exists i :: 0 <= i < |db.deleted[n].versions| && SnapshotIs(db.deleted[n].versions[i], version, core, created)
  }

  predicate SnapshotIs<C(==), F>(s: Snapshot<C, F>, version: string, core: C, created: int) {
    s.version == version && RowIs(s.row, core, created)
  }

  /** The version, with this content and creation time, is in the table or in the deleted payload. */
  predicate Kept<C(==), F>(db: Db<C, F>, n: string, version: string, core: C, created: int) {
    InTable(db, n, version, core, created) || InPayload(db, n, version, core, created)
  }

  /** Everything a database keeps of the name, the other keeps too. */
  ghost predicate KeepsAll<C(!new), F>(db: Db<C, F>, db': Db<C, F>, n: string) {
    forall version, core, created :: Kept(db, n, version, core, created) ==> Kept(db', n, version, core, created)
  }

  /** After however many statements the operation is stopped. */
  ghost predicate AllKeep<C(!new), F>(db: Db<C, F>, states: States<C, F>, n: string) {
    forall k :: 0 <= k < |states| ==> KeepsAll(db, states[k], n)
  }

  /** What two databases agree on about a name, they keep alike. */
  lemma SameKept<C, F>(db: Db<C, F>, db': Db<C, F>, n: string, version: string, core: C, created: int)
    requires Kept(db, n, version, core, created)
    requires RowId(n, version) in db.rows ==> RowId(n, version) in db'.rows && db'.rows[RowId(n, version)] == db.rows[RowId(n, version)]
    requires n in db.deleted ==> n in db'.deleted && db'.deleted[n].versions == db.deleted[n].versions
    ensures Kept(db', n, version, core, created)
  {
    if !InTable(db, n, version, core, created) {
      var i :| 0 <= i < |db.deleted[n].versions| && SnapshotIs(db.deleted[n].versions[i], version, core, created);
      assert SnapshotIs(db'.deleted[n].versions[i], version, core, created);
    }
  }

  lemma DeleteKeeps<C(!new), F(!new)>(db: Db<C, F>, kind: Kind, name: string, newest: string,
                                      order: seq<Snapshot<C, F>>,
                                      recoveryId: string, now: int, n: string)
    requires Enumerates(db.rows, name, order)
    ensures AllKeep(db, DeleteStates(db, kind, name, newest, order, recoveryId, now).0, n)
  {
    var states := DeleteStates(db, kind, name, newest, order, recoveryId, now).0;
    forall k | 0 <= k < |states|
      ensures KeepsAll(db, states[k], n)
    {
      forall version, core, created | Kept(db, n, version, core, created)
        ensures Kept(states[k], n, version, core, created)
      {
        if n != name {
          SameKept(db, states[k], n, version, core, created);
        } else {
          assert InTable(db, n, version, core, created);
          assert Listed(order, RowId(n, version).version);
          var i :| 0 <= i < |order| && order[i].version == version;
          assert states[k].deleted[n].versions == order;
          assert SnapshotIs(states[k].deleted[n].versions[i], version, core, created);
        }
      }
    }
  }

  /** Each insert of a recover only adds a row, and leaves the payload alone. */
  lemma {:induction false} InsertsOnlyAdd<C, F>(db: Db<C, F>, name: string, snaps: seq<Snapshot<C, F>>, i: nat)
    requires i <= |snaps|
    ensures forall k :: 0 <= k < |InsertStates(db, name, snaps, i)| ==>
              && InsertStates(db, name, snaps, i)[k].deleted == db.deleted
              && forall id :: id in db.rows ==> id in InsertStates(db, name, snaps, i)[k].rows
                                                && InsertStates(db, name, snaps, i)[k].rows[id] == db.rows[id]
    decreases |snaps| - i
  {
    if i < |snaps| && RowId(name, snaps[i].version) !in db.rows {
      var next := InsertRow(db, RowId(name, snaps[i].version), Bumped(snaps[i], i));
      InsertsOnlyAdd(next, name, snaps, i + 1);
    }
  }

  /** If every insert succeeds, every snapshot has its row, later by its position. */
  lemma {:induction false} InsertsArrive<C, F>(db: Db<C, F>, name: string, snaps: seq<Snapshot<C, F>>, i: nat)
    requires i <= |snaps| && |InsertStates(db, name, snaps, i)| == |snaps| - i
    ensures var db' := Final(db, InsertStates(db, name, snaps, i));
            forall k :: i <= k < |snaps| ==> RowId(name, snaps[k].version) in db'.rows
                                             && db'.rows[RowId(name, snaps[k].version)] == Bumped(snaps[k], k)
    decreases |snaps| - i
  {
    if i < |snaps| {
      var id := RowId(name, snaps[i].version);
      var next := InsertRow(db, id, Bumped(snaps[i], i));
      var rest := InsertStates(next, name, snaps, i + 1);
      InsertsArrive(next, name, snaps, i + 1);
      InsertsOnlyAdd(next, name, snaps, i + 1);
      assert Final(db, [next] + rest) == Final(next, rest);
      assert id in Final(next, rest).rows && Final(next, rest).rows[id] == next.rows[id];
    }
  }

  /** Once every snapshot has its row, the payload may go. */
  lemma RecoveredKeeps<C(!new), F(!new)>(db: Db<C, F>, name: string, n: string)
    requires name in db.deleted
    requires |InsertStates(db, name, db.deleted[name].versions, 0)| == |db.deleted[name].versions|
    ensures KeepsAll(db, DropDeleted(Final(db, InsertStates(db, name, db.deleted[name].versions, 0)), name), n)
  {
    var snaps := db.deleted[name].versions;
    var inserted := InsertStates(db, name, snaps, 0);
    var full := Final(db, inserted);
    var db' := DropDeleted(full, name);
    InsertsOnlyAdd(db, name, snaps, 0);
    InsertsArrive(db, name, snaps, 0);
    forall version, core, created | Kept(db, n, version, core, created)
      ensures Kept(db', n, version, core, created)
    {
      if n != name || InTable(db, n, version, core, created) {
        if InTable(db, n, version, core, created) {
          assert InTable(db', n, version, core, created);
        } else {
          SameKept(db, db', n, version, core, created);
        }
      } else {
        var i :| 0 <= i < |snaps| && SnapshotIs(snaps[i], version, core, created);
        assert full.rows[RowId(name, snaps[i].version)] == Bumped(snaps[i], i);
        assert InTable(db', n, version, core, created);
      }
    }
  }

  lemma RecoverKeeps<C(!new), F(!new)>(db: Db<C, F>, kind: Kind, name: string, n: string)
    requires Payloads(db)
    ensures AllKeep(db, RecoverStates(db, kind, name).0, n)
  {
    var states := RecoverStates(db, kind, name).0;
    if states != [] {
      var snaps := db.deleted[name].versions;
      var inserted := InsertStates(db, name, snaps, 0);
      InsertsOnlyAdd(db, name, snaps, 0);
      forall k | 0 <= k < |states|
        ensures KeepsAll(db, states[k], n)
      {
        if k < |inserted| {
          assert states[k] == inserted[k];
          forall version, core, created | Kept(db, n, version, core, created)
            ensures Kept(states[k], n, version, core, created)
          {
            SameKept(db, states[k], n, version, core, created);
          }
        } else {
          RecoveredKeeps(db, name, n);
        }
      }
    }
  }

  lemma OtherNameKeeps<C(!new), F(!new)>(db: Db<C, F>, db': Db<C, F>, n: string)
    requires forall v :: RowId(n, v) in db.rows ==> RowId(n, v) in db'.rows && db'.rows[RowId(n, v)] == db.rows[RowId(n, v)]
    requires n in db.deleted ==> n in db'.deleted && db'.deleted[n] == db.deleted[n]
    ensures KeepsAll(db, db', n)
  {
    forall version, core, created | Kept(db, n, version, core, created)
      ensures Kept(db', n, version, core, created)
    {
      SameKept(db, db', n, version, core, created);
    }
  }

  lemma UpdateKeeps<C(!new), F(!new)>(db: Db<C, F>, kind: Kind, name: string, version: string, newest: string,
                                      facet: Option<F>,
                                      attrs: Option<Attributes>, tags: Tags, now: int, n: string)
    ensures AllKeep(db, UpdateStates(db, kind, name, version, newest, facet, attrs, tags, now).0, n)
  {
    var states := UpdateStates(db, kind, name, version, newest, facet, attrs, tags, now).0;
    forall k, v, core, created | 0 <= k < |states| && Kept(db, n, v, core, created)
      ensures Kept(states[k], n, v, core, created)
    {
      if InTable(db, n, v, core, created) {
        assert InTable(states[k], n, v, core, created);
      } else {
        var i :| 0 <= i < |db.deleted[n].versions| && SnapshotIs(db.deleted[n].versions[i], v, core, created);
        assert SnapshotIs(states[k].deleted[n].versions[i], v, core, created);
      }
    }
  }

  lemma RestoreKeeps<C(!new), F(!new)>(db: Db<C, F>, token: Option<Backup<C, F>>, n: string)
    requires token.Some? ==> token.value.name != n
    ensures AllKeep(db, RestoreStates(db, token).0, n)
  {
    if Restorable(token) {
      var b := token.value;
      var dropped := DropDeleted(DeleteRows(db, b.name), b.name);
      RefillKeeps(dropped, b, 0, n);
      var states := RestoreStates(db, token).0;
      OtherNameKeeps(db, dropped, n);
      forall k | 0 <= k < |states|
        ensures KeepsAll(db, states[k], n)
      {
        if k >= 2 {
          assert states[k] == RefillStates(dropped, b, 0)[k - 2];
          assert KeepsAll(dropped, states[k], n);
        }
      }
    }
  }

  lemma {:induction false} RefillKeeps<C(!new), F(!new)>(db: Db<C, F>, b: Backup<C, F>, i: nat, n: string)
    requires i <= |b.versions| && b.name != n
    ensures AllKeep(db, RefillStates(db, b, i), n)
    decreases |b.versions| - i
  {
    if i < |b.versions| && RowId(b.name, b.versions[i].version) !in db.rows {
      var next := InsertRow(db, RowId(b.name, b.versions[i].version), RestoredRow(b.versions[i], i));
      RefillKeeps(next, b, i + 1, n);
      var states := RefillStates(db, b, i);
      OtherNameKeeps(db, next, n);
      forall k | 0 <= k < |states|
        ensures KeepsAll(db, states[k], n)
      {
        if k > 0 {
          assert states[k] == RefillStates(next, b, i + 1)[k - 1];
          assert KeepsAll(next, states[k], n);
        }
      }
    }
  }

  /**
   * Whatever an operation does, and after whichever of its statements it stops, every version of
   * a name it neither purges nor restores is still in the table or in the deleted payload.
   */
  lemma EveryStateKeeps<C(!new), F(!new)>(db: Db<C, F>, kind: Kind, blank: C -> C, op: Op<C, F>, ts: int,
                                          a: Answers<C, F>, n: string)
    requires Payloads(db) && Faithful(db.rows, a) && !Frees(op, n)
    ensures AllKeep(db, Exec(db, kind, blank, op, ts, a).0, n)
  {
    var states := Exec(db, kind, blank, op, ts, a).0;
    match op
    case PutOp(name, complete, made, version, attrs, tags, now) =>
      if states != [] {
        OtherNameKeeps(db, states[0], n);
      }
    case AppendOp(r) =>
      if states != [] {
        OtherNameKeeps(db, states[0], n);
      }
    case UpdateOp(name, version, facet, attrs, tags, now) =>
      UpdateKeeps(db, kind, name, version, a.newest(name), facet, attrs, tags, now, n);
    case DeleteOp(name, recoveryId, now) =>
      assert Selects(db.rows, name, a.ascending(name));
      DeleteKeeps(db, kind, name, a.newest(name), a.ascending(name), recoveryId, now, n);
    case PurgeOp(name) =>
      if states != [] {
        OtherNameKeeps(db, states[0], n);
      }
    case RecoverOp(name) => RecoverKeeps(db, kind, name, n);
    case RestoreOp(token) => RestoreKeeps(db, token, n);
    case _ =>
  }

  lemma {:induction false} RefillLeavesPayloads<C, F>(db: Db<C, F>, b: Backup<C, F>, i: nat)
    requires i <= |b.versions|
    ensures forall k :: 0 <= k < |RefillStates(db, b, i)| ==> RefillStates(db, b, i)[k].deleted == db.deleted
    decreases |b.versions| - i
  {
    if i < |b.versions| && RowId(b.name, b.versions[i].version) !in db.rows {
      RefillLeavesPayloads(InsertRow(db, RowId(b.name, b.versions[i].version), RestoredRow(b.versions[i], i)), b, i + 1);
    }
  }

  lemma DeleteHasPayloads<C(!new), F(!new)>(db: Db<C, F>, kind: Kind, name: string, newest: string,
                                            order: seq<Snapshot<C, F>>, recoveryId: string, now: int)
    requires Payloads(db) && Enumerates(db.rows, name, order)
    ensures forall k :: 0 <= k < |DeleteStates(db, kind, name, newest, order, recoveryId, now).0| ==>
              Payloads(DeleteStates(db, kind, name, newest, order, recoveryId, now).0[k])
  {
    var id := FindRow(db.rows, name, "", newest);
    if id.Some? {
      assert Listed(order, id.value.version);
    }
  }

  lemma RecoverHasPayloads<C, F>(db: Db<C, F>, kind: Kind, name: string)
    requires Payloads(db)
    ensures forall k :: 0 <= k < |RecoverStates(db, kind, name).0| ==> Payloads(RecoverStates(db, kind, name).0[k])
  {
    if name in db.deleted {
      InsertsOnlyAdd(db, name, db.deleted[name].versions, 0);
    }
  }

  lemma RestoreHasPayloads<C, F>(db: Db<C, F>, token: Option<Backup<C, F>>)
    requires Payloads(db)
    ensures forall k :: 0 <= k < |RestoreStates(db, token).0| ==> Payloads(RestoreStates(db, token).0[k])
  {
    if Restorable(token) {
      RefillLeavesPayloads(DropDeleted(DeleteRows(db, token.value.name), token.value.name), token.value, 0);
    }
  }

  /** No statement of any operation leaves a deleted item with an empty payload. */
  lemma EveryStateHasPayloads<C(!new), F(!new)>(db: Db<C, F>, kind: Kind, blank: C -> C, op: Op<C, F>, ts: int,
                                                a: Answers<C, F>, k: nat)
    requires Payloads(db) && Faithful(db.rows, a)
    requires k < |Exec(db, kind, blank, op, ts, a).0|
    ensures Payloads(Exec(db, kind, blank, op, ts, a).0[k])
  {
    hide DeleteStates, RecoverStates, RestoreStates, Enumerates, NonDecreasing;
    match op
    case DeleteOp(name, recoveryId, now) =>
      assert Selects(db.rows, name, a.ascending(name));
      DeleteHasPayloads(db, kind, name, a.newest(name), a.ascending(name), recoveryId, now);
    case RecoverOp(name) => RecoverHasPayloads(db, kind, name);
    case RestoreOp(token) => RestoreHasPayloads(db, token);
    case _ =>
  }

  // ----- runs with interruptions -----

  /** An operation, the engine's answers to it, and how many of its statements complete. */
  datatype Event<!C, !F> = Event(op: Op<C, F>, ts: int, answers: Answers<C, F>, completed: nat)

  ghost function After<C(!new), F(!new)>(db: Db<C, F>, kind: Kind, blank: C -> C, e: Event<C, F>): (db': Db<C, F>)
    requires Payloads(db) && Faithful(db.rows, e.answers)
    ensures Payloads(db')
  {
    var states := Exec(db, kind, blank, e.op, e.ts, e.answers).0;
    var done := if e.completed < |states| then e.completed else |states|;
    if done == 0 then db else EveryStateHasPayloads(db, kind, blank, e.op, e.ts, e.answers, done - 1); states[done - 1]
  }

  /** Every event's answers are the engine's in the state the event meets. */
  ghost predicate Runs<C(!new), F(!new)>(db: Db<C, F>, kind: Kind, blank: C -> C, events: seq<Event<C, F>>)
    requires Payloads(db)
    decreases |events|
  {
    events == [] || (Faithful(db.rows, events[0].answers) && Runs(After(db, kind, blank, events[0]), kind, blank, events[1..]))
  }

  ghost function RunTo<C(!new), F(!new)>(db: Db<C, F>, kind: Kind, blank: C -> C, events: seq<Event<C, F>>): Db<C, F>
    requires Payloads(db) && Runs(db, kind, blank, events)
    decreases |events|
  {
    if events == [] then db else RunTo(After(db, kind, blank, events[0]), kind, blank, events[1..])
  }

  /** Over any run with interruptions anywhere, only purging or restoring the name takes versions of it away. */
  lemma {:induction false} InterruptedRunsKeep<C(!new), F(!new)>(db: Db<C, F>, kind: Kind, blank: C -> C,
                                                                 events: seq<Event<C, F>>, n: string)
    requires Payloads(db) && Runs(db, kind, blank, events)
    requires forall e :: e in events ==> !Frees(e.op, n)
    ensures KeepsAll(db, RunTo(db, kind, blank, events), n)
    decreases |events|
  {
    if events != [] {
      var e := events[0];
      var next := After(db, kind, blank, e);
      EveryStateKeeps(db, kind, blank, e.op, e.ts, e.answers, n);
      assert KeepsAll(db, next, n);
      InterruptedRunsKeep(next, kind, blank, events[1..], n);
    }
  }
}
