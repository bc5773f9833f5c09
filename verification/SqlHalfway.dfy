// A name in both tables: exactly which statements bring it there and take it out again, and exactly
// which of its versions can still be read meanwhile.
module SqlHalfway {
  import opened Wrappers
  import opened Model
  import opened Shelves
  import opened Tables
  import opened SqlRuns
  import SqlRefinement
  import Paging

  /** The name has rows and a deleted payload at once. */
  predicate Halfway<C, F>(db: Db<C, F>, n: string) {
    HasRows(db.rows, n) && n in db.deleted
  }

  // ----- how it comes about -----

  /** After the first of its two statements a delete is halfway. */
  lemma StoppedDelete<C, F>(db: Db<C, F>, kind: Kind, name: string, newest: string, order: seq<Snapshot<C, F>>,
                            recoveryId: string, now: int)
    requires DeleteStates(db, kind, name, newest, order, recoveryId, now).1.Ok?
    ensures var states := DeleteStates(db, kind, name, newest, order, recoveryId, now).0;
            |states| == 2 && Halfway(states[0], name) && !HasRows(states[1].rows, name)
  {
    var states := DeleteStates(db, kind, name, newest, order, recoveryId, now).0;
    assert FindRow(db.rows, name, "", newest).value in states[0].rows;
  }

  lemma {:induction false} InsertsGiveRows<C, F>(db: Db<C, F>, name: string, snaps: seq<Snapshot<C, F>>, i: nat, k: nat)
    requires i <= |snaps| && k < |InsertStates(db, name, snaps, i)|
    ensures HasRows(InsertStates(db, name, snaps, i)[k].rows, name)
    decreases |snaps| - i
  {
    var id := RowId(name, snaps[i].version);
    var next := InsertRow(db, id, Bumped(snaps[i], i));
    if k == 0 {
      assert id in next.rows && id.name == name;
    } else {
      InsertsGiveRows(next, name, snaps, i + 1, k - 1);
    }
  }

  /** A recover is halfway after every insert; only its last statement, the delete of the payload, ends that. */
  lemma StoppedRecover<C, F>(db: Db<C, F>, kind: Kind, name: string, k: nat)
    requires Payloads(db) && k < |RecoverStates(db, kind, name).0|
    ensures var (states, r) := RecoverStates(db, kind, name);
            Halfway(states[k], name) <==> !(r.Ok? && k == |states| - 1)
  {
    var snaps := db.deleted[name].versions;
    var inserted := InsertStates(db, name, snaps, 0);
    if k < |inserted| {
      InsertsGiveRows(db, name, snaps, 0, k);
      InsertsOnlyAdd(db, name, snaps, 0);
    }
  }

  /**
   * The ways in, and no others: the first statement of a delete, any statement of a recover but the
   * last of one that succeeds, and the version that a certificate's creation appends under a deleted name.
   */
  predicate Enters<C, F>(db: Db<C, F>, op: Op<C, F>, r: Response<C, F>, last: nat, n: string, k: nat) {
    || (op.DeleteOp? && op.name == n && k == 0)
    || (op.RecoverOp? && op.name == n && !(r.One? && k == last))
    || (op.AppendOp? && op.record.name == n && n in db.deleted)
  }

  lemma {:induction false} InsertsElsewhereNot<C, F>(db: Db<C, F>, name: string, snaps: seq<Snapshot<C, F>>, i: nat,
                                                     n: string, k: nat)
    requires i <= |snaps| && k < |InsertStates(db, name, snaps, i)| && n != name
    ensures HasRows(InsertStates(db, name, snaps, i)[k].rows, n) <==> HasRows(db.rows, n)
    ensures InsertStates(db, name, snaps, i)[k].deleted == db.deleted
    decreases |snaps| - i
  {
    var id := RowId(name, snaps[i].version);
    var next := InsertRow(db, id, Bumped(snaps[i], i));
    RowsElsewhere(db.rows, id, Bumped(snaps[i], i), n);
    if k > 0 {
      InsertsElsewhereNot(next, name, snaps, i + 1, n, k - 1);
    }
  }

  lemma RowsElsewhere<C, F>(rows: Rows<C, F>, id: RowId, row: Row<C, F>, n: string)
    requires n != id.name || id in rows
    ensures HasRows(rows[id := row], n) <==> HasRows(rows, n)
  {
    if HasRows(rows, n) {
      var other :| other in rows && other.name == n;
      assert other in rows[id := row];
    }
  }

  lemma RowsButHas<C, F>(rows: Rows<C, F>, name: string, n: string)
    ensures HasRows(RowsBut(rows, name), n) <==> HasRows(rows, n) && n != name
  {
    if HasRows(rows, n) && n != name {
      var id :| id in rows && id.name == n;
      assert id in RowsBut(rows, name);
    }
  }

  lemma DeleteEntersIff<C(!new), F(!new)>(db: Db<C, F>, kind: Kind, name: string, newest: string,
                                          order: seq<Snapshot<C, F>>,
                                          recoveryId: string, now: int, n: string, k: nat)
    requires k < |DeleteStates(db, kind, name, newest, order, recoveryId, now).0| && !Halfway(db, n)
    ensures Halfway(DeleteStates(db, kind, name, newest, order, recoveryId, now).0[k], n) <==> name == n && k == 0
  {
    StoppedDelete(db, kind, name, newest, order, recoveryId, now);
    RowsButHas(db.rows, name, n);
  }

  lemma RecoverEntersIff<C, F>(db: Db<C, F>, kind: Kind, name: string, n: string, k: nat)
    requires Payloads(db) && k < |RecoverStates(db, kind, name).0| && !Halfway(db, n)
    ensures var (states, r) := RecoverStates(db, kind, name);
            Halfway(states[k], n) <==> name == n && !(r.Ok? && k == |states| - 1)
  {
    StoppedRecover(db, kind, name, k);
    var snaps := db.deleted[name].versions;
    var inserted := InsertStates(db, name, snaps, 0);
    if n != name {
      if k < |inserted| {
        InsertsElsewhereNot(db, name, snaps, 0, n, k);
      } else if inserted != [] {
        InsertsElsewhereNot(db, name, snaps, 0, n, |inserted| - 1);
      }
    }
  }

  lemma {:induction false} RefillsElsewhereNot<C, F>(db: Db<C, F>, b: Backup<C, F>, i: nat, n: string, k: nat)
    requires i <= |b.versions| && k < |RefillStates(db, b, i)|
    ensures n != b.name ==> (HasRows(RefillStates(db, b, i)[k].rows, n) <==> HasRows(db.rows, n))
    ensures RefillStates(db, b, i)[k].deleted == db.deleted
    decreases |b.versions| - i
  {
    var id := RowId(b.name, b.versions[i].version);
    var next := InsertRow(db, id, RestoredRow(b.versions[i], i));
    if n != b.name {
      RowsElsewhere(db.rows, id, RestoredRow(b.versions[i], i), n);
    }
    if k > 0 {
      RefillsElsewhereNot(next, b, i + 1, n, k - 1);
    }
  }

  /** After no statement of a restore is the restored name halfway; other names are if they were. */
  lemma RestoreHalfwayIff<C, F>(db: Db<C, F>, token: Option<Backup<C, F>>, n: string, k: nat)
    requires k < |RestoreStates(db, token).0|
    ensures Halfway(RestoreStates(db, token).0[k], n) <==> Halfway(db, n) && n != token.value.name
  {
    var b := token.value;
    RowsButHas(db.rows, b.name, n);
    if k >= 2 {
      RefillsElsewhereNot(DropDeleted(DeleteRows(db, b.name), b.name), b, 0, n, k - 2);
    }
  }

  /** A name that is not in both tables gets there by these statements and no others. */
  lemma EntersIff<C(!new), F(!new)>(db: Db<C, F>, kind: Kind, blank: C -> C, op: Op<C, F>, ts: int, a: Answers<C, F>,
                                    n: string, k: nat)
    requires Payloads(db) && Faithful(db.rows, a) && !Halfway(db, n)
    requires k < |Exec(db, kind, blank, op, ts, a).0|
    ensures var (states, r) := Exec(db, kind, blank, op, ts, a);
            Halfway(states[k], n) <==> Enters(db, op, r, |states| - 1, n, k)
  {
    hide Payloads, Faithful, DeleteStates, RecoverStates, RestoreStates, BuildAttributes, RevisedRow;
    match op
    case PutOp(name, complete, made, version, attrs, tags, now) =>
      if name != n {
        var row := Row(made.value.0, made.value.1, BuildAttributes(attrs, now, now), tags, ts);
        RowsElsewhere(db.rows, RowId(name, version), row, n);
      }
    case AppendOp(r) =>
      if r.name != n {
        RowsElsewhere(db.rows, RowId(r.name, r.version), Row(r.core, r.facet, r.attributes, r.tags, ts), n);
      } else {
        assert RowId(n, r.version) in Exec(db, kind, blank, op, ts, a).0[k].rows;
      }
    case UpdateOp(name, version, facet, attrs, tags, now) =>
      var id := FindRow(db.rows, name, version, a.newest(name)).value;
      RowsElsewhere(db.rows, id, RevisedRow(db.rows[id], facet, attrs, tags, now), n);
    case DeleteOp(name, recoveryId, now) =>
      DeleteEntersIff(db, kind, name, a.newest(name), a.ascending(name), recoveryId, now, n, k);
    case RecoverOp(name) => RecoverEntersIff(db, kind, name, n, k);
    case RestoreOp(token) => RestoreHalfwayIff(db, token, n, k);
    case _ =>
  }

  // ----- what the store answers then -----

  /** A halfway name can be neither recovered nor deleted nor set; each refusal executes nothing. */
  lemma HalfwayAnswers<C(!new), F(!new)>(db: Db<C, F>, kind: Kind, blank: C -> C, op: Op<C, F>, ts: int,
                                         a: Answers<C, F>, n: string)
    requires Payloads(db) && Faithful(db.rows, a) && Halfway(db, n)
    ensures op == RecoverOp(n) ==> Exec(db, kind, blank, op, ts, a) == ([], Failed(CONFLICT))
    ensures op.DeleteOp? && op.name == n ==> Exec(db, kind, blank, op, ts, a) == ([], Failed(NotFound(kind)))
    ensures op.PutOp? && op.name == n && n != "" && op.complete ==> Exec(db, kind, blank, op, ts, a) == ([], Failed(RESERVED))
  {
  }

  // ----- that it stays so -----

  /**
   * The name keeps its payload as it is and its rows; it gains a row only where a certificate's
   * creation appends one.
   */
  ghost predicate Stuck<C(!new), F(!new)>(db: Db<C, F>, op: Op<C, F>, db': Db<C, F>, n: string) {
    && n in db'.deleted && n in db.deleted && db'.deleted[n] == db.deleted[n]
    && (forall id: RowId :: id.name == n && id in db.rows ==> id in db'.rows)
    && (forall id: RowId :: id.name == n && id in db'.rows ==> id in db.rows || Appends(op, id))
  }

  predicate Appends<C, F>(op: Op<C, F>, id: RowId) {
    op.AppendOp? && id == RowId(op.record.name, op.record.version)
  }

  lemma {:induction false} InsertsElsewhere<C(!new), F(!new)>(db: Db<C, F>, op: Op<C, F>, name: string,
                                                              snaps: seq<Snapshot<C, F>>, i: nat, n: string, k: nat)
    requires i <= |snaps| && k < |InsertStates(db, name, snaps, i)| && n != name && n in db.deleted
    ensures Stuck(db, op, InsertStates(db, name, snaps, i)[k], n)
    decreases |snaps| - i
  {
    if k > 0 {
      InsertsElsewhere(InsertRow(db, RowId(name, snaps[i].version), Bumped(snaps[i], i)), op, name, snaps, i + 1, n, k - 1);
    }
  }

  lemma {:induction false} RefillsElsewhere<C(!new), F(!new)>(db: Db<C, F>, op: Op<C, F>, b: Backup<C, F>, i: nat,
                                                              n: string, k: nat)
    requires i <= |b.versions| && k < |RefillStates(db, b, i)| && n != b.name && n in db.deleted
    ensures Stuck(db, op, RefillStates(db, b, i)[k], n)
    decreases |b.versions| - i
  {
    if k > 0 {
      RefillsElsewhere(InsertRow(db, RowId(b.name, b.versions[i].version), RestoredRow(b.versions[i], i)), op, b, i + 1, n, k - 1);
    }
  }

  lemma StuckRecover<C(!new), F(!new)>(db: Db<C, F>, op: Op<C, F>, kind: Kind, name: string, n: string, k: nat)
    requires Payloads(db) && Halfway(db, n) && k < |RecoverStates(db, kind, name).0|
    ensures Stuck(db, op, RecoverStates(db, kind, name).0[k], n)
  {
    var inserted := InsertStates(db, name, db.deleted[name].versions, 0);
    if k < |inserted| {
      InsertsElsewhere(db, op, name, db.deleted[name].versions, 0, n, k);
    } else if inserted != [] {
      InsertsElsewhere(db, op, name, db.deleted[name].versions, 0, n, |inserted| - 1);
    }
  }

  lemma StuckRestore<C(!new), F(!new)>(db: Db<C, F>, op: Op<C, F>, token: Option<Backup<C, F>>, n: string, k: nat)
    requires Halfway(db, n) && k < |RestoreStates(db, token).0| && (token.Some? ==> token.value.name != n)
    ensures Stuck(db, op, RestoreStates(db, token).0[k], n)
  {
    var b := token.value;
    var dropped := DropDeleted(DeleteRows(db, b.name), b.name);
    if k >= 2 {
      RefillsElsewhere(dropped, op, b, 0, n, k - 2);
    }
  }

  /** No statement of an operation that neither purges nor restores the name gets it unstuck. */
  lemma StaysStuck<C(!new), F(!new)>(db: Db<C, F>, kind: Kind, blank: C -> C, op: Op<C, F>, ts: int, a: Answers<C, F>,
                                     n: string, k: nat)
    requires Payloads(db) && Faithful(db.rows, a) && Halfway(db, n) && !Frees(op, n)
    requires k < |Exec(db, kind, blank, op, ts, a).0|
    ensures Stuck(db, op, Exec(db, kind, blank, op, ts, a).0[k], n)
  {
    hide Payloads, Faithful, RecoverStates, RestoreStates;
    match op
    case RecoverOp(name) => StuckRecover(db, op, kind, name, n, k);
    case RestoreOp(token) => StuckRestore(db, op, token, n, k);
    case _ =>
  }

  lemma StuckIsHalfway<C(!new), F(!new)>(db: Db<C, F>, op: Op<C, F>, db': Db<C, F>, n: string)
    requires Halfway(db, n) && Stuck(db, op, db', n)
    ensures Halfway(db', n)
  {
    var id :| id in db.rows && id.name == n;
    assert id in db'.rows;
  }

  /** A name in both tables stays there exactly through the operations that neither purge nor restore it. */
  lemma LeavesIff<C(!new), F(!new)>(db: Db<C, F>, kind: Kind, blank: C -> C, op: Op<C, F>, ts: int, a: Answers<C, F>,
                                    n: string, k: nat)
    requires Payloads(db) && Faithful(db.rows, a) && Halfway(db, n)
    requires k < |Exec(db, kind, blank, op, ts, a).0|
    ensures Halfway(Exec(db, kind, blank, op, ts, a).0[k], n) <==> !Frees(op, n)
  {
    if !Frees(op, n) {
      hide Exec, Frees, Halfway;
      StaysStuck(db, kind, blank, op, ts, a, n, k);
      StuckIsHalfway(db, op, Exec(db, kind, blank, op, ts, a).0[k], n);
    } else if op.RestoreOp? {
      RestoreHalfwayIff(db, op.token, n, k);
    }
  }

  // ----- payloads name each version once -----

  predicate DistinctPayloads<C, F>(db: Db<C, F>) {
    forall n :: n in db.deleted ==> DistinctVersions(db.deleted[n].versions)
  }

  lemma DeleteDistinct<C, F>(db: Db<C, F>, kind: Kind, name: string, newest: string, order: seq<Snapshot<C, F>>,
                             recoveryId: string, now: int, k: nat)
    requires DistinctPayloads(db) && Enumerates(db.rows, name, order)
    requires k < |DeleteStates(db, kind, name, newest, order, recoveryId, now).0|
    ensures DistinctPayloads(DeleteStates(db, kind, name, newest, order, recoveryId, now).0[k])
  {
    SqlRefinement.EnumeratesDistinct(db.rows, name, order);
    hide DistinctVersions, Enumerates;
  }

  lemma RecoverDistinct<C, F>(db: Db<C, F>, kind: Kind, name: string, k: nat)
    requires Payloads(db) && DistinctPayloads(db) && k < |RecoverStates(db, kind, name).0|
    ensures DistinctPayloads(RecoverStates(db, kind, name).0[k])
  {
    hide DistinctVersions;
    InsertsOnlyAdd(db, name, db.deleted[name].versions, 0);
  }

  lemma RestoreDistinct<C, F>(db: Db<C, F>, token: Option<Backup<C, F>>, k: nat)
    requires DistinctPayloads(db) && k < |RestoreStates(db, token).0|
    ensures DistinctPayloads(RestoreStates(db, token).0[k])
  {
    hide DistinctVersions;
    RefillLeavesPayloads(DropDeleted(DeleteRows(db, token.value.name), token.value.name), token.value, 0);
  }

  /** No statement of any operation leaves a payload that has a version id twice. */
  lemma EveryStateDistinct<C(!new), F(!new)>(db: Db<C, F>, kind: Kind, blank: C -> C, op: Op<C, F>, ts: int,
                                             a: Answers<C, F>, k: nat)
    requires Payloads(db) && Faithful(db.rows, a) && DistinctPayloads(db)
    requires k < |Exec(db, kind, blank, op, ts, a).0|
    ensures DistinctPayloads(Exec(db, kind, blank, op, ts, a).0[k])
  {
    hide DistinctVersions, NonDecreasing, DeleteStates, RecoverStates, RestoreStates;
    match op
    case DeleteOp(name, recoveryId, now) =>
      assert Selects(db.rows, name, a.ascending(name));
      DeleteDistinct(db, kind, name, a.newest(name), a.ascending(name), recoveryId, now, k);
    case RecoverOp(name) => RecoverDistinct(db, kind, name, k);
    case RestoreOp(token) => RestoreDistinct(db, token, k);
    case _ =>
  }

  lemma AfterDistinct<C(!new), F(!new)>(db: Db<C, F>, kind: Kind, blank: C -> C, e: Event<C, F>)
    requires Payloads(db) && Faithful(db.rows, e.answers) && DistinctPayloads(db)
    ensures DistinctPayloads(After(db, kind, blank, e))
  {
    hide Payloads, Faithful, Exec, DistinctPayloads;
    var states := Exec(db, kind, blank, e.op, e.ts, e.answers).0;
    var done := if e.completed < |states| then e.completed else |states|;
    if done > 0 {
      EveryStateDistinct(db, kind, blank, e.op, e.ts, e.answers, done - 1);
    }
  }

  /** So in every state of every run, stopped operations included, payloads name each version once. */
  lemma {:induction false} RunsDistinct<C(!new), F(!new)>(db: Db<C, F>, kind: Kind, blank: C -> C,
                                                          events: seq<Event<C, F>>)
    requires Payloads(db) && Runs(db, kind, blank, events) && DistinctPayloads(db)
    ensures DistinctPayloads(RunTo(db, kind, blank, events))
    decreases |events|
  {
    hide Faithful, After, DistinctPayloads;
    if events != [] {
      AfterDistinct(db, kind, blank, events[0]);
      RunsDistinct(After(db, kind, blank, events[0]), kind, blank, events[1..]);
    }
  }

  /** Recovering succeeds exactly if the name is deleted and has no rows. */
  lemma RecoverSucceedsIff<C, F>(db: Db<C, F>, kind: Kind, n: string)
    requires Payloads(db) && DistinctPayloads(db)
    ensures RecoverStates(db, kind, n).1.Ok? <==> n in db.deleted && !HasRows(db.rows, n)
  {
    if n in db.deleted && !HasRows(db.rows, n) {
      SqlRefinement.RecoverLands(db, kind, n);
    }
  }

  // ----- stranded versions -----

  /** A version that is in the payload and not in the table of a name that is in both. */
  ghost predicate Stranded<C, F>(db: Db<C, F>, n: string, snap: Snapshot<C, F>) {
    Halfway(db, n) && snap in db.deleted[n].versions && RowId(n, snap.version) !in db.rows
  }

  lemma {:induction false} InsertedSoFar<C, F>(db: Db<C, F>, name: string, snaps: seq<Snapshot<C, F>>, from: nat,
                                               k: nat,
                                               i: nat)
    requires DistinctVersions(snaps) && from <= i < |snaps| && k < |InsertStates(db, name, snaps, from)|
    requires RowId(name, snaps[i].version) !in db.rows
    ensures RowId(name, snaps[i].version) in InsertStates(db, name, snaps, from)[k].rows <==> i <= from + k
    decreases |snaps| - from
  {
    var id := RowId(name, snaps[from].version);
    var next := InsertRow(db, id, Bumped(snaps[from], from));
    if k > 0 {
      if i > from {
        InsertedSoFar(next, name, snaps, from + 1, k - 1, i);
      } else {
        InsertsOnlyAdd(next, name, snaps, from + 1);
      }
    }
  }

  /** A recover stopped after its insert k strands exactly the versions after it, the newest among them. */
  lemma StoppedRecoverStrandsIff<C, F>(db: Db<C, F>, kind: Kind, name: string, k: nat, i: nat)
    requires Payloads(db) && DistinctPayloads(db) && name in db.deleted && !HasRows(db.rows, name)
    requires k < |db.deleted[name].versions| && i < |db.deleted[name].versions|
    ensures var states := RecoverStates(db, kind, name).0;
            && |states| == |db.deleted[name].versions| + 1
            && (Stranded(states[k], name, db.deleted[name].versions[i]) <==> k < i)
  {
    hide DistinctVersions;
    var snaps := db.deleted[name].versions;
    SqlRefinement.NoRowsEnumerate(db.rows, name);
    assert SqlRefinement.BumpedAll(snaps)[..0] == [];
    hide Enumerates;
    SqlRefinement.InsertsSucceed(db, name, snaps, 0);
    InsertedSoFar(db, name, snaps, 0, k, i);
    StoppedRecover(db, kind, name, k);
    InsertsOnlyAdd(db, name, snaps, 0);
  }

  /** A version appended under a deleted name strands every version of the payload with another id. */
  lemma AppendStrands<C, F>(db: Db<C, F>, r: Record<C, F>, ts: int, snap: Snapshot<C, F>)
    requires r.name in db.deleted && !HasRows(db.rows, r.name) && snap in db.deleted[r.name].versions
    ensures var states := AppendStates(db, r, ts).0;
            |states| == 1 && (Stranded(states[0], r.name, snap) <==> snap.version != r.version)
  {
    var states := AppendStates(db, r, ts).0;
    assert RowId(r.name, r.version) in states[0].rows;
  }

  // ----- which of them can be read -----

  predicate ReadingOp<C, F>(op: Op<C, F>) {
    op.GetOp? || op.GetDeletedOp? || op.BackupOp? || op.ListOp? || op.ListVersionsOp? || op.ListDeletedOp?
  }

  predicate IsVersion<C, F>(r: Record<C, F>, n: string, version: string) {
    r.name == n && r.version == version
  }

  /** The version is in the response: as the record, the deleted record, an item of a list or one of the token's. */
  ghost predicate Shows<C, F>(r: Response<C, F>, n: string, version: string) {
    match r
    case One(x) => IsVersion(x, n, version)
    case OneDeleted(d) => IsVersion(d.record, n, version)
    case Many(records, _) => exists i :: 0 <= i < |records| && IsVersion(records[i], n, version)
    case ManyDeleted(records, _) => exists i :: 0 <= i < |records| && IsVersion(records[i].record, n, version)
    case Token(b) => exists i :: 0 <= i < |b.versions| && IsVersion(b.versions[i], n, version)
    case _ => false
  }

  function LastSnapshot<C, F>(db: Db<C, F>, n: string): Snapshot<C, F>
    requires Payloads(db) && n in db.deleted
  {
    db.deleted[n].versions[|db.deleted[n].versions| - 1]
  }

  /** What the operations that read the table of versions show is in the table. */
  lemma ShownIsRow<C(!new), F(!new)>(db: Db<C, F>, kind: Kind, blank: C -> C, op: Op<C, F>, ts: int, a: Answers<C, F>,
                                     n: string, version: string)
    requires Payloads(db) && Faithful(db.rows, a)
    requires op.GetOp? || op.BackupOp? || op.ListOp? || op.ListVersionsOp?
    requires Shows(Exec(db, kind, blank, op, ts, a).1, n, version)
    ensures RowId(n, version) in db.rows
  {
    hide Payloads, NonDecreasing, DistinctVersions, Paging.Paginate, ListResult;
    match op
    case GetOp(_, _) =>
      hide Faithful;
    case BackupOp(name) => assert Selects(db.rows, name, a.ascending(name));
    case ListVersionsOp(name, skip, max) =>
      hide Faithful;
      ListedVersionIsRow(db, blank, a, name, skip, max, n, version);
    case ListOp(skip, max) =>
      hide Faithful;
      ListedNameIsRow(db, blank, a, skip, max, n, version);
  }

  lemma ListedNameIsRow<C(!new), F(!new)>(db: Db<C, F>, blank: C -> C, a: Answers<C, F>, skip: string, max: int,
                                          n: string, version: string)
    requires Faithful(db.rows, a) && ListResult(db, blank, a, skip, max).Ok?
    requires var records := ListResult(db, blank, a, skip, max).value.0;
             exists i :: 0 <= i < |records| && IsVersion(records[i], n, version)
    ensures RowId(n, version) in db.rows
  {
    hide NamePage;
    var page := NamePage(NamesOf(db.rows), skip, max).value.0;
    var records := ListResult(db, blank, a, skip, max).value.0;
    var i :| 0 <= i < |records| && IsVersion(records[i], n, version);
    assert page[i] in page && HasRows(db.rows, page[i]);
    assert RowId(page[i], a.newest(page[i])) in db.rows;
  }

  lemma ListedVersionIsRow<C(!new), F(!new)>(db: Db<C, F>, blank: C -> C, a: Answers<C, F>, name: string,
                                             skip: string, max: int, n: string, version: string)
    requires Faithful(db.rows, a)
    requires var page := Paging.Paginate(BlankedRecords(SnapshotRecords(name, a.descending(name)), blank), skip, max);
             page.Ok? && exists i :: 0 <= i < |page.value.0| && IsVersion(page.value.0[i], n, version)
    ensures RowId(n, version) in db.rows
  {
    var all := BlankedRecords(SnapshotRecords(name, a.descending(name)), blank);
    var page := Paging.Paginate(all, skip, max).value.0;
    var i :| 0 <= i < |page| && IsVersion(page[i], n, version);
    assert page[i] in all;
    var j :| 0 <= j < |all| && all[j] == page[i];
    var down := a.descending(name);
    assert Selects(db.rows, name, Reversed(down));
    assert Reversed(down)[|down| - 1 - j] == down[j];
  }

  /** What the operations that read the payloads show is the last version of one. */
  lemma ShownIsLast<C(!new), F(!new)>(db: Db<C, F>, kind: Kind, blank: C -> C, op: Op<C, F>, ts: int, a: Answers<C, F>,
                                      n: string, version: string)
    requires Payloads(db) && Faithful(db.rows, a)
    requires op.GetDeletedOp? || op.ListDeletedOp?
    requires Shows(Exec(db, kind, blank, op, ts, a).1, n, version)
    ensures n in db.deleted && LastSnapshot(db, n).version == version
  {
    hide Faithful, NamePage;
  }

  lemma OnlyLastShows<C(!new), F(!new)>(db: Db<C, F>, kind: Kind, blank: C -> C, op: Op<C, F>, ts: int,
                                        a: Answers<C, F>,
                                        n: string, snap: Snapshot<C, F>)
    requires Payloads(db) && Faithful(db.rows, a) && DistinctPayloads(db) && Stranded(db, n, snap)
    requires ReadingOp(op) && Shows(Exec(db, kind, blank, op, ts, a).1, n, snap.version)
    ensures snap == LastSnapshot(db, n)
  {
    hide Exec, Faithful, Shows;
    if op.GetDeletedOp? || op.ListDeletedOp? {
      ShownIsLast(db, kind, blank, op, ts, a, n, snap.version);
      var i :| 0 <= i < |db.deleted[n].versions| && db.deleted[n].versions[i] == snap;
      assert DistinctVersions(db.deleted[n].versions);
    } else {
      ShownIsRow(db, kind, blank, op, ts, a, n, snap.version);
    }
  }

  lemma LastShows<C(!new), F(!new)>(db: Db<C, F>, kind: Kind, blank: C -> C, ts: int, a: Answers<C, F>, n: string)
    requires Payloads(db) && Faithful(db.rows, a) && n in db.deleted
    ensures var r := Exec(db, kind, blank, GetDeletedOp(n), ts, a).1;
            && r.OneDeleted? && r.deleted.record == SnapshotRecord(n, LastSnapshot(db, n))
            && Shows(r, n, LastSnapshot(db, n).version)
  {
    hide Faithful;
  }

  /**
   * Of the stranded versions exactly the payload's last can be read: reading the deleted item answers
   * it, value included, and nothing answers any other.
   */
  lemma StrandedReadableIff<C(!new), F(!new)>(db: Db<C, F>, kind: Kind, blank: C -> C, ts: int, a: Answers<C, F>,
                                              n: string, snap: Snapshot<C, F>)
    requires Payloads(db) && Faithful(db.rows, a) && DistinctPayloads(db) && Stranded(db, n, snap)
    ensures (exists op :: ReadingOp(op) && Shows(Exec(db, kind, blank, op, ts, a).1, n, snap.version))
            <==> snap == LastSnapshot(db, n)
    ensures snap == LastSnapshot(db, n) ==>
              var r := Exec(db, kind, blank, GetDeletedOp(n), ts, a).1;
              r.OneDeleted? && r.deleted.record == SnapshotRecord(n, snap)
  {
    hide Exec, Faithful, Shows;
    if op :| ReadingOp(op) && Shows(Exec(db, kind, blank, op, ts, a).1, n, snap.version) {
      OnlyLastShows(db, kind, blank, op, ts, a, n, snap);
    }
    if snap == LastSnapshot(db, n) {
      LastShows(db, kind, blank, ts, a, n);
      var op: Op<C, F> := GetDeletedOp(n);
      assert ReadingOp(op) && Shows(Exec(db, kind, blank, op, ts, a).1, n, snap.version);
    }
  }

  // ----- over runs -----

  /** The event appends this row, unless it is stopped before. */
  predicate Fills<C, F>(e: Event<C, F>, id: RowId) {
    Appends(e.op, id) && e.completed > 0
  }

  lemma AppendFills<C(!new), F(!new)>(db: Db<C, F>, kind: Kind, blank: C -> C, op: Op<C, F>, ts: int, a: Answers<C, F>,
                                      id: RowId)
    requires Payloads(db) && Faithful(db.rows, a) && Appends(op, id) && id !in db.rows
    ensures var states := Exec(db, kind, blank, op, ts, a).0; |states| == 1 && id in states[0].rows
  {
    hide Faithful, Payloads;
  }

  /** What one event leaves of a stranded version. */
  lemma NextStrandedIff<C(!new), F(!new)>(db: Db<C, F>, kind: Kind, blank: C -> C, e: Event<C, F>, n: string,
                                          snap: Snapshot<C, F>)
    requires Payloads(db) && Faithful(db.rows, e.answers) && Halfway(db, n) && !Frees(e.op, n)
    ensures var db' := After(db, kind, blank, e);
            && Halfway(db', n) && db'.deleted[n] == db.deleted[n]
            && (RowId(n, snap.version) in db'.rows <==> RowId(n, snap.version) in db.rows || Fills(e, RowId(n, snap.version)))
  {
    hide Halfway, Exec, Frees, Faithful, Payloads;
    var id := RowId(n, snap.version);
    if Fills(e, id) && id !in db.rows {
      AppendFills(db, kind, blank, e.op, e.ts, e.answers, id);
    }
    var states := Exec(db, kind, blank, e.op, e.ts, e.answers).0;
    var done := if e.completed < |states| then e.completed else |states|;
    if done > 0 {
      StaysStuck(db, kind, blank, e.op, e.ts, e.answers, n, done - 1);
      StuckIsHalfway(db, e.op, states[done - 1], n);
    }
  }

  /**
   * Over every run of complete and stopped operations that neither purges nor restores the name: it
   * stays in both tables with its payload unchanged, cannot be recovered, and a version stays stranded
   * exactly if no certificate's creation appends one under its very id.
   */
  lemma {:induction false} StrandedStaysIff<C(!new), F(!new)>(db: Db<C, F>, kind: Kind, blank: C -> C,
                                                              events: seq<Event<C, F>>, n: string, snap: Snapshot<C, F>)
    requires Payloads(db) && Runs(db, kind, blank, events) && Halfway(db, n) && snap in db.deleted[n].versions
    requires forall e :: e in events ==> !Frees(e.op, n)
    ensures var db' := RunTo(db, kind, blank, events);
            && Payloads(db') && Halfway(db', n) && db'.deleted[n] == db.deleted[n]
            && RecoverStates(db', kind, n) == ([], Err(CONFLICT))
            && (Stranded(db', n, snap)
                <==> Stranded(db, n, snap) && forall e :: e in events ==> !Fills(e, RowId(n, snap.version)))
    decreases |events|
  {
    hide Frees, Faithful, After, Fills, Payloads;
    if events != [] {
      var e := events[0];
      assert e in events;
      NextStrandedIff(db, kind, blank, e, n, snap);
      StrandedStaysIff(After(db, kind, blank, e), kind, blank, events[1..], n, snap);
      assert forall x :: x in events <==> x == e || x in events[1..];
    }
  }

  /** And what can be read of them does not change: after any such run it is the payload's last version or none. */
  lemma StrandedReadableAfterIff<C(!new), F(!new)>(db: Db<C, F>, kind: Kind, blank: C -> C, events: seq<Event<C, F>>,
                                                   n: string, snap: Snapshot<C, F>, ts: int, a: Answers<C, F>)
    requires Payloads(db) && DistinctPayloads(db) && Runs(db, kind, blank, events) && Stranded(db, n, snap)
    requires forall e :: e in events ==> !Frees(e.op, n) && !Fills(e, RowId(n, snap.version))
    requires Faithful(RunTo(db, kind, blank, events).rows, a)
    ensures var db' := RunTo(db, kind, blank, events);
            && Payloads(db') && Stranded(db', n, snap)
            && ((exists op :: ReadingOp(op) && Shows(Exec(db', kind, blank, op, ts, a).1, n, snap.version))
                <==> snap == LastSnapshot(db, n))
  {
    hide Faithful, DistinctPayloads, Runs, RunTo, Exec, Frees, Fills, ReadingOp, Shows;
    RunsDistinct(db, kind, blank, events);
    StrandedStaysIff(db, kind, blank, events, n, snap);
    StrandedReadableIff(RunTo(db, kind, blank, events), kind, blank, ts, a, n, snap);
  }

  /** The purge that frees the name loses the stranded versions for good. */
  lemma PurgeLosesStranded<C, F>(db: Db<C, F>, kind: Kind, n: string, snap: Snapshot<C, F>)
    requires Stranded(db, n, snap)
    ensures var db' := Final(db, PurgeStates(db, kind, n).0);
            HasRows(db'.rows, n) && n !in db'.deleted && RowId(n, snap.version) !in db'.rows
  {
  }

  /** A restore of the name frees it, with the token's versions in place of what there was. */
  lemma RestoreFrees<C, F>(db: Db<C, F>, token: Option<Backup<C, F>>)
    requires Restorable(token)
    ensures token.value.name !in Final(db, RestoreStates(db, token).0).deleted
  {
    RefillLeavesPayloads(DropDeleted(DeleteRows(db, token.value.name), token.value.name), token.value, 0);
  }

  // ----- what a stopped restore keeps -----

  /** The token has a version with this id, content and creation time at a position up to `upTo`. */
  ghost predicate InToken<C, F>(b: Backup<C, F>, from: nat, upTo: int, version: string, core: C, created: int) {
    exists i :: from <= i <= upTo && i < |b.versions| && b.versions[i].version == version && b.versions[i].core == core
                && b.versions[i].attributes.created == created
  }

  lemma {:induction false} RefillKeepsIff<C, F>(db: Db<C, F>, b: Backup<C, F>, from: nat, k: nat, version: string,
                                                core: C,
                                                created: int)
    requires from <= |b.versions| && k < |RefillStates(db, b, from)| && b.name !in db.deleted
    ensures Kept(RefillStates(db, b, from)[k], b.name, version, core, created)
            <==> Kept(db, b.name, version, core, created) || InToken(b, from, from + k, version, core, created)
    decreases |b.versions| - from
  {
    var id := RowId(b.name, b.versions[from].version);
    var next := InsertRow(db, id, RestoredRow(b.versions[from], from));
    assert Kept(next, b.name, version, core, created)
           <==> Kept(db, b.name, version, core, created) || InToken(b, from, from, version, core, created);
    if k > 0 {
      RefillKeepsIff(next, b, from + 1, k - 1, version, core, created);
      assert InToken(b, from, from + k, version, core, created)
             <==> InToken(b, from, from, version, core, created) || InToken(b, from + 1, from + k, version, core, created);
    }
  }

  /**
   * What each stop of a restore keeps of its own name: after the first statement the payload's versions,
   * after the second nothing, and then exactly the token's versions inserted so far.
   */
  lemma RestoreStopKeepsIff<C, F>(db: Db<C, F>, token: Option<Backup<C, F>>, k: nat, version: string, core: C,
                                  created: int)
    requires k < |RestoreStates(db, token).0|
    ensures Kept(RestoreStates(db, token).0[k], token.value.name, version, core, created)
            <==> if k == 0 then InPayload(db, token.value.name, version, core, created)
                 else InToken(token.value, 0, k - 2, version, core, created)
  {
    var b := token.value;
    if k >= 2 {
      RefillKeepsIff(DropDeleted(DeleteRows(db, b.name), b.name), b, 0, k - 2, version, core, created);
    }
  }
}
