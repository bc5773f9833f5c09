// The SQL store's tables for one kind of item, its statements, and each operation as the sequence
// of database states that its statements produce.
module Tables {
  import opened Wrappers
  import opened Model
  import opened Shelves

  /** The primary key of the table of versions. */
  datatype RowId = RowId(name: string, version: string)

  datatype Row<C, F> = Row(core: C, facet: F, attributes: Attributes, tags: Tags, createdAt: int)

  /** A version as the JSON payload of a deleted item keeps it. */
  datatype Snapshot<C, F> = Snapshot(version: string, row: Row<C, F>)

  datatype DeletedRow<C, F> =
    DeletedRow(recoveryId: string, deletedDate: int, scheduledPurgeDate: int, versions: seq<Snapshot<C, F>>)

  datatype Db<C, F> = Db(rows: map<RowId, Row<C, F>>, deleted: map<string, DeletedRow<C, F>>)

  type Rows<C, F> = map<RowId, Row<C, F>>

  // ----- queries -----

  /** `SELECT COUNT(*) ... WHERE name = ?` is positive. */
  predicate HasRows<C, F>(rows: Rows<C, F>, name: string) {
    exists id :: id in rows && id.name == name
  }

  function RecordOf<C, F>(name: string, version: string, row: Row<C, F>): Record<C, F> {
    Record(name, version, row.core, row.facet, row.attributes, row.tags)
  }

  function SnapshotRecord<C, F>(name: string, s: Snapshot<C, F>): Record<C, F> {
    RecordOf(name, s.version, s.row)
  }

  function SnapshotRecords<C, F>(name: string, snaps: seq<Snapshot<C, F>>): History<C, F> {
    seq(|snaps|, i requires 0 <= i < |snaps| => SnapshotRecord(name, snaps[i]))
  }

  predicate DistinctVersions<C, F>(snaps: seq<Snapshot<C, F>>) {
    forall i, j :: 0 <= i < j < |snaps| ==> snaps[i].version != snaps[j].version
  }

  /** The snapshots are the rows of the name, each once. */
  ghost predicate Enumerates<C, F>(rows: Rows<C, F>, name: string, snaps: seq<Snapshot<C, F>>) {
    && DistinctVersions(snaps)
    && (forall i :: 0 <= i < |snaps| ==> RowId(name, snaps[i].version) in rows && rows[RowId(name, snaps[i].version)] == snaps[i].row)
    && (forall id :: id in rows && id.name == name ==> Listed(snaps, id.version))
  }

  predicate Listed<C, F>(snaps: seq<Snapshot<C, F>>, version: string) {
    exists i :: 0 <= i < |snaps| && snaps[i].version == version
  }

  predicate NonDecreasing<C, F>(snaps: seq<Snapshot<C, F>>) {
    forall i, j :: 0 <= i < j < |snaps| ==> snaps[i].row.createdAt <= snaps[j].row.createdAt
  }

  predicate Increasing<C, F>(snaps: seq<Snapshot<C, F>>) {
    forall i, j :: 0 <= i < j < |snaps| ==> snaps[i].row.createdAt < snaps[j].row.createdAt
  }

  /** A possible answer to `SELECT ... WHERE name = ? ORDER BY created_at ASC`; ties come in any order. */
  ghost predicate Selects<C, F>(rows: Rows<C, F>, name: string, snaps: seq<Snapshot<C, F>>) {
    Enumerates(rows, name, snaps) && NonDecreasing(snaps)
  }

  function Reversed<T>(s: seq<T>): (r: seq<T>)
    ensures |r| == |s|
  {
    seq(|s|, i requires 0 <= i < |s| => s[|s| - 1 - i])
  }

  /** A possible answer to `... ORDER BY created_at DESC LIMIT 1`. */
  ghost predicate IsNewest<C, F>(rows: Rows<C, F>, name: string, version: string) {
    && RowId(name, version) in rows
    && forall id :: id in rows && id.name == name ==> id in rows && rows[id].createdAt <= rows[RowId(name, version)].createdAt
  }

  /** What the engine answers in the state an operation starts from. */
  datatype Answers<!C, !F> = Answers(
    ascending: string -> seq<Snapshot<C, F>>,
    descending: string -> seq<Snapshot<C, F>>,
    newest: string -> string)

  ghost predicate Faithful<C(!new), F(!new)>(rows: Rows<C, F>, a: Answers<C, F>) {
    && (forall n :: Selects(rows, n, a.ascending(n)))
    && (forall n :: Selects(rows, n, Reversed(a.descending(n))))
    && (forall n :: HasRows(rows, n) ==> IsNewest(rows, n, a.newest(n)))
  }

  /** `getSecretVersionRow`; `newest` is the engine's answer for the name. */
  function FindRow<C, F>(rows: Rows<C, F>, name: string, version: string, newest: string): (r: Option<RowId>)
    ensures r.Some? ==> r.value in rows && r.value.name == name
  {
    var id := RowId(name, if version == "" then newest else version);
    if id in rows then Some(id) else None
  }

  function RowRecord<C, F>(rows: Rows<C, F>, id: RowId): Record<C, F>
    requires id in rows
  {
    RecordOf(id.name, id.version, rows[id])
  }

  // ----- statements -----

  function InsertRow<C, F>(db: Db<C, F>, id: RowId, row: Row<C, F>): Db<C, F> {
    db.(rows := db.rows[id := row])
  }

  function RowsBut<C, F>(rows: Rows<C, F>, name: string): Rows<C, F> {
    map id | id in rows && id.name != name :: rows[id]
  }

  function DeleteRows<C, F>(db: Db<C, F>, name: string): Db<C, F> {
    db.(rows := RowsBut(db.rows, name))
  }

  function InsertDeleted<C, F>(db: Db<C, F>, name: string, d: DeletedRow<C, F>): Db<C, F> {
    db.(deleted := db.deleted[name := d])
  }

  function DropDeleted<C, F>(db: Db<C, F>, name: string): Db<C, F> {
    db.(deleted := db.deleted - {name})
  }

  // ----- operations: the states after each statement, and the result -----

  type States<C, F> = seq<Db<C, F>>

  /** Where a sequence of completed statements leaves the database. */
  function Final<C, F>(db: Db<C, F>, states: States<C, F>): Db<C, F> {
    if states == [] then db else states[|states| - 1]
  }

  function PutStates<C, F>(db: Db<C, F>, name: string, complete: bool, made: Option<(C, F)>, version: string,
                           attrs: Option<Attributes>, tags: Tags, now: int, ts: int)
    : (States<C, F>, Result<Record<C, F>, Error>)
  {
    if name == "" || !complete then ([], Err(BAD_PARAMETER))
    else if name in db.deleted then ([], Err(RESERVED))
    else
      match made
      case None => ([], Err(BAD_PARAMETER))
      case Some((core, facet)) =>
        var row := Row(core, facet, BuildAttributes(attrs, now, now), tags, ts);
        if RowId(name, version) in db.rows then ([], Err(DATABASE_ERROR))
        else ([InsertRow(db, RowId(name, version), row)], Ok(RecordOf(name, version, row)))
  }

  function GetResult<C, F>(db: Db<C, F>, kind: Kind, name: string, version: string,
                           newest: string): Result<Record<C, F>, Error> {
    match FindRow(db.rows, name, version, newest)
    case None => Err(NotFound(kind))
    case Some(id) => Ok(RowRecord(db.rows, id))
  }

  function RevisedRow<C, F>(row: Row<C, F>, facet: Option<F>, attrs: Option<Attributes>, tags: Tags,
                            now: int): Row<C, F> {
    row.(facet := if facet.Some? then facet.value else row.facet,
         tags := if tags.Some? then tags else row.tags,
         attributes := MergeAttributes(row.attributes, attrs, now))
  }

  function UpdateStates<C, F>(db: Db<C, F>, kind: Kind, name: string, version: string, newest: string, facet: Option<F>,
                              attrs: Option<Attributes>, tags: Tags, now: int)
    : (States<C, F>, Result<Record<C, F>, Error>)
  {
    match FindRow(db.rows, name, version, newest)
    case None => ([], Err(NotFound(kind)))
    case Some(id) =>
      var row := RevisedRow(db.rows[id], facet, attrs, tags, now);
      ([InsertRow(db, id, row)], Ok(RecordOf(id.name, id.version, row)))
  }

  function DeleteStates<C, F>(db: Db<C, F>, kind: Kind, name: string, newest: string, order: seq<Snapshot<C, F>>,
                              recoveryId: string, now: int)
    : (States<C, F>, Result<DeletedRecord<C, F>, Error>)
  {
    match FindRow(db.rows, name, "", newest)
    case None => ([], Err(NotFound(kind)))
    case Some(id) =>
      if name in db.deleted then ([], Err(NotFound(kind)))
      else
        var buried := InsertDeleted(db, name, DeletedRow(recoveryId, now, now + PURGE_DELAY, order));
        ([buried, DeleteRows(buried, name)],
         Ok(DeletedRecord(RowRecord(db.rows, id), recoveryId, now, now + PURGE_DELAY)))
  }

  function ViewDeletedRow<C, F>(name: string, d: DeletedRow<C, F>): DeletedRecord<C, F>
    requires d.versions != []
  {
    DeletedRecord(SnapshotRecord(name, d.versions[|d.versions| - 1]), d.recoveryId, d.deletedDate, d.scheduledPurgeDate)
  }

  /** No deleted item has an empty payload. */
  predicate Payloads<C, F>(db: Db<C, F>) {
    forall n :: n in db.deleted ==> db.deleted[n].versions != []
  }

  function GetDeletedResult<C, F>(db: Db<C, F>, kind: Kind, name: string): Result<DeletedRecord<C, F>, Error>
    requires Payloads(db)
  {
    if name !in db.deleted then Err(NotFound(kind)) else Ok(ViewDeletedRow(name, db.deleted[name]))
  }

  function PurgeStates<C, F>(db: Db<C, F>, kind: Kind, name: string): (States<C, F>, Option<Error>) {
    if name !in db.deleted then ([], Some(NotFound(kind))) else ([DropDeleted(db, name)], None)
  }

  /** Snapshot i of a recovered item goes back i ticks later than it was. */
  function Bumped<C, F>(s: Snapshot<C, F>, i: int): Row<C, F> {
    s.row.(createdAt := s.row.createdAt + i)
  }

  /** The inserts of a recover from snapshot `i` on; a version already there fails and ends them. */
  function InsertStates<C, F>(db: Db<C, F>, name: string, snaps: seq<Snapshot<C, F>>, i: nat): (states: States<C, F>)
    requires i <= |snaps|
    ensures |states| <= |snaps| - i
    decreases |snaps| - i
  {
    if i == |snaps| || RowId(name, snaps[i].version) in db.rows then []
    else
      var next := InsertRow(db, RowId(name, snaps[i].version), Bumped(snaps[i], i));
      [next] + InsertStates(next, name, snaps, i + 1)
  }

  function RecoverStates<C, F>(db: Db<C, F>, kind: Kind, name: string): (States<C, F>, Result<Record<C, F>, Error>)
    requires Payloads(db)
  {
    if HasRows(db.rows, name) then ([], Err(CONFLICT))
    else if name !in db.deleted then ([], Err(NotFound(kind)))
    else
      var snaps := db.deleted[name].versions;
      var inserted := InsertStates(db, name, snaps, 0);
      if |inserted| < |snaps| then (inserted, Err(DATABASE_ERROR))
      else (inserted + [DropDeleted(Final(db, inserted), name)], Ok(SnapshotRecord(name, snaps[|snaps| - 1])))
  }

  function BackUpResult<C, F>(db: Db<C, F>, kind: Kind, name: string, newest: string, order: seq<Snapshot<C, F>>)
    : Result<Backup<C, F>, Error>
  {
    match FindRow(db.rows, name, "", newest)
    case None => Err(NotFound(kind))
    case Some(_) => Ok(Backup(name, SnapshotRecords(name, order)))
  }

  function RestoredRow<C, F>(r: Record<C, F>, ts: int): Row<C, F> {
    Row(r.core, r.facet, Recoverable(r.attributes), r.tags, ts)
  }

  /** The inserts of a restore from version `i` on, at timestamp i. */
  function RefillStates<C, F>(db: Db<C, F>, b: Backup<C, F>, i: nat): (states: States<C, F>)
    requires i <= |b.versions|
    ensures |states| <= |b.versions| - i
    decreases |b.versions| - i
  {
    if i == |b.versions| || RowId(b.name, b.versions[i].version) in db.rows then []
    else
      var next := InsertRow(db, RowId(b.name, b.versions[i].version), RestoredRow(b.versions[i], i));
      [next] + RefillStates(next, b, i + 1)
  }

  function RestoreStates<C, F>(db: Db<C, F>, token: Option<Backup<C, F>>): (States<C, F>, Result<Record<C, F>, Error>) {
    if !Restorable(token) then ([], Err(BAD_PARAMETER))
    else
      var b := token.value;
      var cleared := DeleteRows(db, b.name);
      var dropped := DropDeleted(cleared, b.name);
      var refilled := RefillStates(dropped, b, 0);
      ([cleared, dropped] + refilled,
       if |refilled| < |b.versions| then Err(DATABASE_ERROR) else Ok(Latest(b.versions).(name := b.name)))
  }

  function NamesOf<C, F>(rows: Rows<C, F>): set<string> {
    set id | id in rows :: id.name
  }

  function ListedRows<C, F>(db: Db<C, F>, names: seq<string>, newest: string -> string,
                            blank: C -> C): seq<Record<C, F>>
    requires forall n :: n in names ==> RowId(n, newest(n)) in db.rows
  {
    seq(|names|, i requires 0 <= i < |names| => Blanked(RowRecord(db.rows, RowId(names[i], newest(names[i]))), blank))
  }

  function ListedDeleted<C, F>(db: Db<C, F>, names: seq<string>, blank: C -> C): seq<DeletedRecord<C, F>>
    requires Payloads(db) && forall n :: n in names ==> n in db.deleted
  {
    seq(|names|, i requires 0 <= i < |names| =>
      var view := ViewDeletedRow(names[i], db.deleted[names[i]]); view.(record := Blanked(view.record, blank)))
  }

  function BlankedRecords<C, F>(h: History<C, F>, blank: C -> C): seq<Record<C, F>> {
    seq(|h|, i requires 0 <= i < |h| => Blanked(h[i], blank))
  }
}
