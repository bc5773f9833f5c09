// The SQL store of one kind of item: operations that change the tables statement by statement.
module SqlStore {
  import opened Wrappers
  import opened Model
  import opened Shelves
  import opened Tables

  lemma HasEarliest<C, F>(rows: Rows<C, F>, ids: set<RowId>)
    requires ids != {} && ids <= rows.Keys
    ensures exists id :: id in ids && forall other :: other in ids ==> rows[id].createdAt <= rows[other].createdAt
  {
    var x :| x in ids;
    var rest := ids - {x};
    if rest == {} {
      assert ids == {x};
    } else {
      HasEarliest(rows, rest);
      var y :| y in rest && forall other :: other in rest ==> rows[y].createdAt <= rows[other].createdAt;
      assert ids == rest + {x};
      var least := if rows[y].createdAt <= rows[x].createdAt then y else x;
      forall other | other in ids
        ensures rows[least].createdAt <= rows[other].createdAt
      {
        assert other == x || other in rest;
      }
    }
  }

  /** `snaps` sorts the earliest rows of the name; the others, no earlier, are still in `rest`. */
  ghost predicate PartlySorted<C, F>(rows: Rows<C, F>, name: string, snaps: seq<Snapshot<C, F>>, rest: set<RowId>) {
    && (forall id :: id in rest ==> id in rows && id.name == name && !Listed(snaps, id.version))
    && DistinctVersions(snaps) && NonDecreasing(snaps)
    && (forall i :: 0 <= i < |snaps| ==> RowId(name, snaps[i].version) in rows && rows[RowId(name, snaps[i].version)] == snaps[i].row)
    && (forall id :: id in rows && id.name == name && id !in rest ==> Listed(snaps, id.version))
    && (forall i, id :: 0 <= i < |snaps| && id in rest ==> snaps[i].row.createdAt <= rows[id].createdAt)
  }

  lemma TakeEarliest<C, F>(rows: Rows<C, F>, name: string, snaps: seq<Snapshot<C, F>>, rest: set<RowId>, id: RowId)
    requires PartlySorted(rows, name, snaps, rest)
    requires id in rest && forall other :: other in rest ==> rows[id].createdAt <= rows[other].createdAt
    ensures PartlySorted(rows, name, snaps + [Snapshot(id.version, rows[id])], rest - {id})
  {
    var more := snaps + [Snapshot(id.version, rows[id])];
    forall other | other in rows && other.name == name && other !in rest - {id}
      ensures Listed(more, other.version)
    {
      if other == id {
        assert more[|snaps|].version == id.version;
      } else {
        var i :| 0 <= i < |snaps| && snaps[i].version == other.version;
        assert more[i].version == other.version;
      }
    }
    forall other | other in rest - {id}
      ensures !Listed(more, other.version)
    {
      assert !Listed(snaps, other.version) && other != id && other.name == id.name;
    }
  }

  class SqlItems<C, F> {
    const kind: Kind
    var rows: Rows<C, F>
    var deleted: map<string, DeletedRow<C, F>>

    /** Every state the database has been in, one per completed statement. */
    ghost var trail: seq<Db<C, F>>

    ghost function State(): Db<C, F>
      reads this
    {
      Db(rows, deleted)
    }

    constructor (kind: Kind)
      ensures this.kind == kind && State() == Db(map[], map[]) && trail == []
    {
      this.kind := kind;
      rows, deleted := map[], map[];
      trail := [];
    }

    /** The operation completed these statements and no other. */
    twostate predicate Did(new states: States<C, F>)
      reads this
    {
      trail == old(trail) + states && State() == Final(old(State()), states)
    }

    // ----- the engine -----

    /** `INSERT INTO` the table of versions; the primary key may refuse it. */
    method ExecInsertRow(id: RowId, row: Row<C, F>) returns (ok: bool)
      modifies this
      ensures ok <==> id !in old(rows)
      ensures Did(if ok then [InsertRow(old(State()), id, row)] else [])
    {
      if id in rows {
        return false;
      }
      rows := rows[id := row];
      trail := trail + [State()];
      return true;
    }

    /** `UPDATE ... WHERE name = ? AND version = ?`. */
    method ExecUpdateRow(id: RowId, facet: F, attributes: Attributes, tags: Tags)
      requires id in rows
      modifies this
      ensures Did([InsertRow(old(State()), id, old(rows[id]).(facet := facet, attributes := attributes, tags := tags))])
    {
      rows := rows[id := rows[id].(facet := facet, attributes := attributes, tags := tags)];
      trail := trail + [State()];
    }

    method ExecDeleteRows(name: string)
      modifies this
      ensures Did([DeleteRows(old(State()), name)])
    {
      rows := RowsBut(rows, name);
      trail := trail + [State()];
    }

    method ExecInsertDeleted(name: string, d: DeletedRow<C, F>)
      requires name !in deleted
      modifies this
      ensures Did([InsertDeleted(old(State()), name, d)])
    {
      deleted := deleted[name := d];
      trail := trail + [State()];
    }

    method ExecDropDeleted(name: string)
      modifies this
      ensures Did([DropDeleted(old(State()), name)])
    {
      deleted := deleted - {name};
      trail := trail + [State()];
    }

    /** `SELECT ... ORDER BY created_at ASC`. */
    method SelectAscending(name: string) returns (snaps: seq<Snapshot<C, F>>)
      ensures Selects(rows, name, snaps)
    {
      snaps := [];
      var rest := set id | id in rows && id.name == name;
      while rest != {}
        invariant PartlySorted(rows, name, snaps, rest)
        decreases |rest|
      {
        HasEarliest(rows, rest);
        var id :| id in rest && forall other :: other in rest ==> rows[id].createdAt <= rows[other].createdAt;
        TakeEarliest(rows, name, snaps, rest, id);
        snaps := snaps + [Snapshot(id.version, rows[id])];
        rest := rest - {id};
      }
    }

    /** `SELECT ... ORDER BY created_at DESC LIMIT 1`, or by version if one is given. */
    method SelectRow(name: string, version: string) returns (found: Option<RowId>, ghost newest: string)
      ensures version == "" && HasRows(rows, name) ==> IsNewest(rows, name, newest)
      ensures version == "" && !HasRows(rows, name) ==> RowId(name, newest) !in rows
      ensures found == FindRow(rows, name, version, newest)
    {
      newest := "";
      if version == "" {
        var snaps := SelectAscending(name);
        if snaps == [] {
          assert forall id :: id in rows && id.name == name ==> !Listed(snaps, id.version);
          return None, newest;
        }
        var last := snaps[|snaps| - 1];
        newest := last.version;
        LastIsNewest(rows, name, snaps);
        return Some(RowId(name, last.version)), newest;
      }
      if RowId(name, version) in rows {
        return Some(RowId(name, version)), newest;
      }
      return None, newest;
    }

    // ----- the operations -----

    method Put(name: string, complete: bool, made: Option<(C, F)>, version: string, attrs: Option<Attributes>,
               tags: Tags,
               now: int, ts: int)
      returns (res: Result<Record<C, F>, Error>)
      modifies this
      ensures var (states, r) := PutStates(old(State()), name, complete, made, version, attrs, tags, now, ts);
              Did(states) && res == r
    {
      if name == "" || !complete {
        return Err(BAD_PARAMETER);
      }
      if name in deleted {
        return Err(RESERVED);
      }
      if made == None {
        return Err(BAD_PARAMETER);
      }
      var (core, facet) := made.value;
      var row := Row(core, facet, BuildAttributes(attrs, now, now), tags, ts);
      var ok := ExecInsertRow(RowId(name, version), row);
      if !ok {
        return Err(DATABASE_ERROR);
      }
      return Ok(RecordOf(name, version, row));
    }

    method Get(name: string, version: string) returns (res: Result<Record<C, F>, Error>, ghost newest: string)
      ensures version == "" && HasRows(rows, name) ==> IsNewest(rows, name, newest)
      ensures res == GetResult(State(), kind, name, version, newest)
    {
      var found;
      found, newest := SelectRow(name, version);
      if found == None {
        return Err(NotFound(kind)), newest;
      }
      return Ok(RowRecord(rows, found.value)), newest;
    }

    method Update(name: string, version: string, facet: Option<F>, attrs: Option<Attributes>, tags: Tags, now: int)
      returns (res: Result<Record<C, F>, Error>, ghost newest: string)
      modifies this
      ensures version == "" && HasRows(old(rows), name) ==> IsNewest(old(rows), name, newest)
      ensures var (states, r) := UpdateStates(old(State()), kind, name, version, newest, facet, attrs, tags, now);
              Did(states) && res == r
    {
      var found;
      found, newest := SelectRow(name, version);
      if found == None {
        return Err(NotFound(kind)), newest;
      }
      var row := rows[found.value];
      if facet.Some? {
        row := row.(facet := facet.value);
      }
      if tags.Some? {
        row := row.(tags := tags);
      }
      row := row.(attributes := MergeAttributes(row.attributes, attrs, now));
      ExecUpdateRow(found.value, row.facet, row.attributes, row.tags);
      return Ok(RecordOf(name, found.value.version, row)), newest;
    }

    method Delete(name: string, recoveryId: string, now: int)
      returns (res: Result<DeletedRecord<C, F>, Error>, ghost newest: string, ghost order: seq<Snapshot<C, F>>)
      modifies this
      ensures HasRows(old(rows), name) ==> IsNewest(old(rows), name, newest)
      ensures Selects(old(rows), name, order)
      ensures var (states, r) := DeleteStates(old(State()), kind, name, newest, order, recoveryId, now);
              Did(states) && res == r
    {
      var found;
      var snaps := SelectAscending(name);
      order := snaps;
      found, newest := SelectRow(name, "");
      if found == None || name in deleted {
        return Err(NotFound(kind)), newest, order;
      }
      var latest := RowRecord(rows, found.value);
      ExecInsertDeleted(name, DeletedRow(recoveryId, now, now + PURGE_DELAY, snaps));
      ExecDeleteRows(name);
      return Ok(DeletedRecord(latest, recoveryId, now, now + PURGE_DELAY)), newest, order;
    }

    method GetDeleted(name: string) returns (res: Result<DeletedRecord<C, F>, Error>)
      requires Payloads(State())
      ensures res == GetDeletedResult(State(), kind, name)
    {
      if name !in deleted {
        return Err(NotFound(kind));
      }
      return Ok(ViewDeletedRow(name, deleted[name]));
    }

    method Purge(name: string) returns (res: Option<Error>)
      modifies this
      ensures var (states, r) := PurgeStates(old(State()), kind, name); Did(states) && res == r
    {
      if name !in deleted {
        return Some(NotFound(kind));
      }
      ExecDropDeleted(name);
      return None;
    }

    /** The loop of a recover: one insert per snapshot, i ticks later than it was. */
    method InsertSnapshots(name: string, snaps: seq<Snapshot<C, F>>) returns (ok: bool)
      modifies this
      ensures var states := InsertStates(old(State()), name, snaps, 0); Did(states) && (ok <==> |states| == |snaps|)
    {
      ghost var all := InsertStates(State(), name, snaps, 0);
      for i := 0 to |snaps|
        invariant i <= |all| && Did(all[..i])
        invariant all[i..] == InsertStates(State(), name, snaps, i)
      {
        ghost var before := State();
        var inserted := ExecInsertRow(RowId(name, snaps[i].version), Bumped(snaps[i], i));
        if !inserted {
          assert all[..i] == all;
          return false;
        }
        assert all[i] == State();
        assert all[..i + 1] == all[..i] + [State()];
        assert all[i..][1..] == all[i + 1..];
      }
      assert all[..|snaps|] == all;
      return true;
    }

    method Recover(name: string) returns (res: Result<Record<C, F>, Error>)
      requires Payloads(State())
      modifies this
      ensures var (states, r) := RecoverStates(old(State()), kind, name); Did(states) && res == r
    {
      if HasRows(rows, name) {
        return Err(CONFLICT);
      }
      if name !in deleted {
        return Err(NotFound(kind));
      }
      var snaps := deleted[name].versions;
      var ok := InsertSnapshots(name, snaps);
      if !ok {
        return Err(DATABASE_ERROR);
      }
      ExecDropDeleted(name);
      return Ok(SnapshotRecord(name, snaps[|snaps| - 1]));
    }

    method BackUp(name: string)
      returns (res: Result<Backup<C, F>, Error>, ghost newest: string, ghost order: seq<Snapshot<C, F>>)
      ensures HasRows(rows, name) ==> IsNewest(rows, name, newest)
      ensures Selects(rows, name, order)
      ensures res == BackUpResult(State(), kind, name, newest, order)
    {
      var found;
      var snaps := SelectAscending(name);
      order := snaps;
      found, newest := SelectRow(name, "");
      if found == None {
        return Err(NotFound(kind)), newest, order;
      }
      var versions: seq<Record<C, F>> := [];
      for i := 0 to |snaps|
        invariant |versions| == i && forall k :: 0 <= k < i ==> versions[k] == SnapshotRecord(name, snaps[k])
      {
        versions := versions + [SnapshotRecord(name, snaps[i])];
      }
      assert versions == SnapshotRecords(name, snaps);
      return Ok(Backup(name, versions)), newest, order;
    }

    /** The loop of a restore: one insert per version, at timestamps 0, 1, 2, ... */
    method InsertBackup(b: Backup<C, F>) returns (ok: bool)
      modifies this
      ensures var states := RefillStates(old(State()), b, 0); Did(states) && (ok <==> |states| == |b.versions|)
    {
      ghost var all := RefillStates(State(), b, 0);
      for i := 0 to |b.versions|
        invariant i <= |all| && Did(all[..i])
        invariant all[i..] == RefillStates(State(), b, i)
      {
        var inserted := ExecInsertRow(RowId(b.name, b.versions[i].version), RestoredRow(b.versions[i], i));
        if !inserted {
          assert all[..i] == all;
          return false;
        }
        assert all[i] == State();
        assert all[..i + 1] == all[..i] + [State()];
        assert all[i..][1..] == all[i + 1..];
      }
      assert all[..|b.versions|] == all;
      return true;
    }

    method Restore(token: Option<Backup<C, F>>) returns (res: Result<Record<C, F>, Error>)
      modifies this
      ensures var (states, r) := RestoreStates(old(State()), token); Did(states) && res == r
    {
      if !Restorable(token) {
        return Err(BAD_PARAMETER);
      }
      var b := token.value;
      ExecDeleteRows(b.name);
      ExecDropDeleted(b.name);
      var ok := InsertBackup(b);
      if !ok {
        return Err(DATABASE_ERROR);
      }
      return Ok(Latest(b.versions).(name := b.name));
    }
  }

  lemma LastIsNewest<C, F>(rows: Rows<C, F>, name: string, snaps: seq<Snapshot<C, F>>)
    requires Selects(rows, name, snaps) && snaps != []
    ensures IsNewest(rows, name, snaps[|snaps| - 1].version)
  {
    var last := snaps[|snaps| - 1];
    forall id | id in rows && id.name == name
      ensures rows[id].createdAt <= rows[RowId(name, last.version)].createdAt
    {
      var i :| 0 <= i < |snaps| && snaps[i].version == id.version;
      assert id == RowId(name, snaps[i].version);
    }
  }
}
