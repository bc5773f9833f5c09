// The SQL store refines the in-memory store: sorting the rows of a name by creation time yields the
// in-memory history, the payload of a deleted item yields the in-memory entry, and both stores
// answer every operation alike.
module SqlRefinement {
  import opened Wrappers
  import opened Model
  import opened Shelves
  import opened Tables
  import opened SqlRuns
  import Paging

  /** The rows of the name in strictly ascending order of creation. */
  ghost predicate Orders<C, F>(rows: Rows<C, F>, n: string, snaps: seq<Snapshot<C, F>>) {
    Enumerates(rows, n, snaps) && Increasing(snaps)
  }

  /** Sorting the rows of the name yields the history. */
  ghost predicate Stacked<C(!new), F(!new)>(rows: Rows<C, F>, n: string, h: History<C, F>) {
    exists snaps :: Orders(rows, n, snaps) && SnapshotRecords(n, snaps) == h
  }

  /** The payload yields the deleted entry. */
  ghost predicate Entombed<C, F>(d: DeletedRow<C, F>, e: Deleted<C, F>, n: string) {
    && DistinctVersions(d.versions) && Increasing(d.versions)
    && SnapshotRecords(n, d.versions) == e.versions
    && d.recoveryId == e.recoveryId && d.deletedDate == e.deletedDate && d.scheduledPurgeDate == e.scheduledPurgeDate
  }

  ghost predicate Refines<C(!new), F(!new)>(db: Db<C, F>, s: Shelf<C, F>) {
    && Sound(s)
    && NamesOf(db.rows) == s.active.Keys && db.deleted.Keys == s.deleted.Keys
    && (forall n :: n in s.active ==> Stacked(db.rows, n, s.active[n]))
    && (forall n :: n in s.deleted ==> Entombed(db.deleted[n], s.deleted[n], n))
  }

  /** The rows of every other name are the same. */
  ghost predicate SameElsewhere<C, F>(rows: Rows<C, F>, rows': Rows<C, F>, name: string) {
    forall id: RowId :: id.name != name ==> (id in rows' <==> id in rows) && (id in rows ==> rows'[id] == rows[id])
  }

  // ----- what corresponding states share -----

  lemma SoundOf<C(!new), F(!new)>(db: Db<C, F>, s: Shelf<C, F>)
    requires Refines(db, s)
    ensures Sound(s) && db.deleted.Keys == s.deleted.Keys
  {
  }

  lemma NameKnown<C(!new), F(!new)>(db: Db<C, F>, s: Shelf<C, F>, n: string)
    requires Refines(db, s)
    ensures HasRows(db.rows, n) <==> n in s.active
    ensures n in s.active ==> Filed(s.active[n], n) && Stacked(db.rows, n, s.active[n])
    ensures n in db.deleted <==> n in s.deleted
    ensures n in s.deleted ==> Filed(s.deleted[n].versions, n) && Entombed(db.deleted[n], s.deleted[n], n)
  {
    assert HasRows(db.rows, n) <==> n in NamesOf(db.rows);
  }

  // ----- sorting has one answer when creation times differ -----

  /** The latest row of the name is the last one both ways. */
  lemma LastsAgree<C, F>(rows: Rows<C, F>, n: string, a: seq<Snapshot<C, F>>, b: seq<Snapshot<C, F>>)
    requires Orders(rows, n, a) && Selects(rows, n, b) && a != []
    ensures b != [] && a[|a| - 1] == b[|b| - 1]
  {
    var m, k := |a| - 1, |b| - 1;
    assert Listed(b, RowId(n, a[m].version).version);
    var j :| 0 <= j < |b| && b[j].version == a[m].version;
    assert Listed(a, RowId(n, b[k].version).version);
    var i :| 0 <= i < |a| && a[i].version == b[k].version;
    assert a[m].row == b[j].row && a[i].row == b[k].row;
    assert b[j].row.createdAt <= b[k].row.createdAt;
    assert i == m;
  }

  lemma WithoutLast<C, F>(rows: Rows<C, F>, n: string, a: seq<Snapshot<C, F>>)
    requires Enumerates(rows, n, a) && a != []
    ensures Enumerates(rows - {RowId(n, a[|a| - 1].version)}, n, a[..|a| - 1])
    ensures NonDecreasing(a) ==> NonDecreasing(a[..|a| - 1])
    ensures Increasing(a) ==> Increasing(a[..|a| - 1])
  {
    var m := |a| - 1;
    var fewer := rows - {RowId(n, a[m].version)};
    forall id | id in fewer && id.name == n
      ensures Listed(a[..m], id.version)
    {
      assert Listed(a, id.version);
      var i :| 0 <= i < |a| && a[i].version == id.version;
      assert i < m;
      assert a[..m][i].version == id.version;
    }
  }

  lemma {:induction false} SelectsUnique<C, F>(rows: Rows<C, F>, n: string, a: seq<Snapshot<C, F>>,
                                               b: seq<Snapshot<C, F>>)
    requires Orders(rows, n, a) && Selects(rows, n, b)
    ensures a == b
    decreases |a|
  {
    hide Enumerates, Increasing, NonDecreasing;
    if a == [] {
      if b != [] {
        SomethingListed(rows, n, a, b);
      }
    } else {
      LastsAgree(rows, n, a, b);
      WithoutLast(rows, n, a);
      WithoutLast(rows, n, b);
      var m, k := |a| - 1, |b| - 1;
      SelectsUnique(rows - {RowId(n, a[m].version)}, n, a[..m], b[..k]);
      assert a == a[..m] + [a[m]] && b == b[..k] + [b[k]];
    }
  }

  lemma SomethingListed<C, F>(rows: Rows<C, F>, n: string, a: seq<Snapshot<C, F>>, b: seq<Snapshot<C, F>>)
    requires Enumerates(rows, n, a) && Enumerates(rows, n, b) && b != []
    ensures a != []
  {
    assert Listed(a, RowId(n, b[0].version).version);
  }

  lemma NewestIsLast<C, F>(rows: Rows<C, F>, n: string, a: seq<Snapshot<C, F>>, v: string)
    requires Orders(rows, n, a) && IsNewest(rows, n, v)
    ensures a != [] && v == a[|a| - 1].version
  {
    assert Listed(a, RowId(n, v).version);
    var i :| 0 <= i < |a| && a[i].version == v;
    var last := RowId(n, a[|a| - 1].version);
    assert rows[last].createdAt <= rows[RowId(n, v)].createdAt;
  }

  /** A name's stack depends on its own rows only. */
  lemma StackedElsewhere<C(!new), F(!new)>(rows: Rows<C, F>, rows': Rows<C, F>, n: string, h: History<C, F>)
    requires Stacked(rows, n, h)
    requires forall id: RowId :: id.name == n ==> (id in rows <==> id in rows')
    requires forall id: RowId :: id.name == n && id in rows ==> rows'[id] == rows[id]
    ensures Stacked(rows', n, h)
  {
    var snaps: seq<Snapshot<C, F>> :| Orders(rows, n, snaps) && SnapshotRecords(n, snaps) == h;
    assert Orders(rows', n, snaps);
  }

  lemma AscendingIs<C(!new), F(!new)>(rows: Rows<C, F>, a: Answers<C, F>, n: string, snaps: seq<Snapshot<C, F>>)
    requires Faithful(rows, a) && Orders(rows, n, snaps)
    ensures a.ascending(n) == snaps && Reversed(a.descending(n)) == snaps
  {
    assert Selects(rows, n, a.ascending(n));
    SelectsUnique(rows, n, snaps, a.ascending(n));
    assert Selects(rows, n, Reversed(a.descending(n)));
    SelectsUnique(rows, n, snaps, Reversed(a.descending(n)));
  }

  lemma NewestIs<C(!new), F(!new)>(rows: Rows<C, F>, a: Answers<C, F>, n: string, snaps: seq<Snapshot<C, F>>)
    requires Faithful(rows, a) && Orders(rows, n, snaps) && snaps != []
    ensures a.newest(n) == snaps[|snaps| - 1].version && RowId(n, a.newest(n)) in rows
    ensures RowRecord(rows, RowId(n, a.newest(n))) == SnapshotRecord(n, snaps[|snaps| - 1])
  {
    assert RowId(n, snaps[0].version) in rows;
    assert HasRows(rows, n);
    NewestIsLast(rows, n, snaps, a.newest(n));
  }

  lemma ReversedRecords<C, F>(n: string, down: seq<Snapshot<C, F>>)
    ensures SnapshotRecords(n, down) == Reversed(SnapshotRecords(n, Reversed(down)))
  {
  }

  /** The engine's answers about a stacked name, in terms of its history. */
  lemma AnswersAre<C(!new), F(!new)>(rows: Rows<C, F>, a: Answers<C, F>, n: string, h: History<C, F>)
    requires Faithful(rows, a) && Stacked(rows, n, h) && h != []
    ensures Orders(rows, n, a.ascending(n)) && SnapshotRecords(n, a.ascending(n)) == h
    ensures SnapshotRecords(n, a.descending(n)) == Reversed(h)
    ensures RowId(n, a.newest(n)) in rows && RowRecord(rows, RowId(n, a.newest(n))) == Latest(h)
  {
    var snaps: seq<Snapshot<C, F>> :| Orders(rows, n, snaps) && SnapshotRecords(n, snaps) == h;
    hide Orders, Faithful, Reversed;
    AscendingIs(rows, a, n, snaps);
    ReversedRecords(n, a.descending(n));
    NewestIs(rows, a, n, snaps);
    assert Latest(h) == SnapshotRecord(n, snaps[|snaps| - 1]);
  }

  /** The position of a version in the history is where its row is in the order. */
  lemma RowPosition<C, F>(rows: Rows<C, F>, n: string, snaps: seq<Snapshot<C, F>>, version: string)
    requires Orders(rows, n, snaps)
    ensures var h, at := SnapshotRecords(n, snaps), FirstFrom(SnapshotRecords(n, snaps), version, 0);
            && (RowId(n, version) in rows <==> at.Some?)
            && (at.Some? ==> h[at.value].version == version && RowRecord(rows, RowId(n, version)) == h[at.value]
                             && snaps[at.value].version == version)
  {
    var h := SnapshotRecords(n, snaps);
    assert forall i :: 0 <= i < |h| ==> h[i].version == snaps[i].version;
    if RowId(n, version) in rows {
      assert Listed(snaps, RowId(n, version).version);
      var i :| 0 <= i < |snaps| && snaps[i].version == version;
      assert h[i].version == version;
    }
  }

  /** Looking a version up finds the same record on both sides. */
  lemma FindAgrees<C(!new), F(!new)>(db: Db<C, F>, s: Shelf<C, F>, a: Answers<C, F>, name: string, version: string)
    requires Refines(db, s) && Faithful(db.rows, a)
    ensures var found, at := FindRow(db.rows, name, version, a.newest(name)), Lookup(s, name, version);
            && (found.Some? <==> at.Some?)
            && (at.Some? ==> RowRecord(db.rows, found.value) == s.active[name][at.value]
                             && found.value.version == s.active[name][at.value].version)
  {
    hide Faithful, Orders;
    if name in s.active {
      var h := s.active[name];
      assert Filed(h, name);
      AnswersAre(db.rows, a, name, h);
      if version != "" {
        RowPosition(db.rows, name, a.ascending(name), version);
      }
    } else {
      assert name !in NamesOf(db.rows);
      assert FindRow(db.rows, name, version, a.newest(name)) == None;
    }
  }

  // ----- the operations that change the tables -----

  /** An id the table does not have, at a time later than those of its name. */
  ghost predicate NewVersion<C, F>(db: Db<C, F>, name: string, version: string, ts: int) {
    RowId(name, version) !in db.rows && forall id :: id in db.rows && id.name == name ==> db.rows[id].createdAt < ts
  }

  /** A version inserted later than every other of its name goes on top of the stack. */
  lemma InsertOnTop<C(!new), F(!new)>(db: Db<C, F>, s: Shelf<C, F>, r: Record<C, F>, ts: int)
    requires Refines(db, s) && Stamped(r.attributes) && NewVersion(db, r.name, r.version, ts)
    ensures Refines(InsertRow(db, RowId(r.name, r.version), Row(r.core, r.facet, r.attributes, r.tags, ts)), Appended(s, r))
  {
    hide Orders, Entombed;
    var id, row := RowId(r.name, r.version), Row(r.core, r.facet, r.attributes, r.tags, ts);
    var db', s' := InsertRow(db, id, row), Appended(s, r);
    AppendedSound(s, r);
    assert NamesOf(db'.rows) == NamesOf(db.rows) + {r.name};
    forall n | n in s'.active
      ensures Stacked(db'.rows, n, s'.active[n])
    {
      if n != r.name {
        StackedElsewhere(db.rows, db'.rows, n, s.active[n]);
      } else {
        var snaps := StackOf(db, s, n);
        StackGrows(db.rows, n, snaps, r.version, row);
        assert SnapshotRecords(n, snaps + [Snapshot(r.version, row)]) == HistoryOf(s, n) + [r];
      }
    }
  }

  lemma StackGrows<C, F>(rows: Rows<C, F>, n: string, snaps: seq<Snapshot<C, F>>, version: string, row: Row<C, F>)
    requires Orders(rows, n, snaps) && RowId(n, version) !in rows
    requires forall id :: id in rows && id.name == n ==> rows[id].createdAt < row.createdAt
    ensures Orders(rows[RowId(n, version) := row], n, snaps + [Snapshot(version, row)])
  {
    EnumeratesInsert(rows, n, snaps, version, row);
  }

  /** The snapshots under a name's history; none if the name is not active. */
  lemma StackOf<C(!new), F(!new)>(db: Db<C, F>, s: Shelf<C, F>, n: string) returns (snaps: seq<Snapshot<C, F>>)
    requires Refines(db, s)
    ensures Orders(db.rows, n, snaps) && SnapshotRecords(n, snaps) == HistoryOf(s, n)
  {
    if n in s.active {
      snaps :| Orders(db.rows, n, snaps) && SnapshotRecords(n, snaps) == s.active[n];
    } else {
      snaps := [];
      assert n !in NamesOf(db.rows);
    }
  }

  lemma EnumeratesInsert<C, F>(rows: Rows<C, F>, n: string, snaps: seq<Snapshot<C, F>>, version: string, row: Row<C, F>)
    requires Enumerates(rows, n, snaps) && RowId(n, version) !in rows
    ensures Enumerates(rows[RowId(n, version) := row], n, snaps + [Snapshot(version, row)])
  {
    var rows', more := rows[RowId(n, version) := row], snaps + [Snapshot(version, row)];
    forall id | id in rows' && id.name == n
      ensures Listed(more, id.version)
    {
      if id == RowId(n, version) {
        assert more[|snaps|].version == id.version;
      } else {
        assert Listed(snaps, id.version);
        var i :| 0 <= i < |snaps| && snaps[i].version == id.version;
        assert more[i].version == id.version;
      }
    }
  }

  lemma UpdateRefines<C(!new), F(!new)>(db: Db<C, F>, s: Shelf<C, F>, a: Answers<C, F>, kind: Kind, name: string,
                                        version: string,
                                        facet: Option<F>, attrs: Option<Attributes>, tags: Tags, now: int)
    requires Refines(db, s) && Faithful(db.rows, a)
    ensures var (states, r) := UpdateStates(db, kind, name, version, a.newest(name), facet, attrs, tags, now);
            var (s', r') := Update(s, kind, name, version, facet, attrs, tags, now);
            Refines(Final(db, states), s') && r == r'
  {
    hide Refines, Faithful;
    FindAgrees(db, s, a, name, version);
    var at := Lookup(s, name, version);
    if at.Some? {
      RevisedRefines(db, s, name, at.value, facet, attrs, tags, now);
    }
  }

  lemma RevisedRefines<C(!new), F(!new)>(db: Db<C, F>, s: Shelf<C, F>, name: string, i: nat,
                                         facet: Option<F>, attrs: Option<Attributes>, tags: Tags, now: int)
    requires Refines(db, s) && name in s.active && i < |s.active[name]|
    ensures var id := RowId(name, s.active[name][i].version);
            var r := Revised(s.active[name][i], facet, attrs, tags, now);
            && id in db.rows
            && Refines(InsertRow(db, id, RevisedRow(db.rows[id], facet, attrs, tags, now)),
                       s.(active := s.active[name := s.active[name][i := r]]))
  {
    hide Refines, Increasing, Entombed, Sound, MergeAttributes, Filed;
    NameKnown(db, s, name);
    var h := s.active[name];
    var snaps: seq<Snapshot<C, F>> :| Orders(db.rows, name, snaps) && SnapshotRecords(name, snaps) == h;
    var id := RowId(name, h[i].version);
    assert h[i] == SnapshotRecord(name, snaps[i]);
    assert id == RowId(name, snaps[i].version) && db.rows[id] == snaps[i].row;
    var row := RevisedRow(db.rows[id], facet, attrs, tags, now);
    var h' := h[i := Revised(h[i], facet, attrs, tags, now)];
    ReviseOne(db.rows, name, snaps, i, row);
    assert SnapshotRecords(name, snaps[i := Snapshot(snaps[i].version, row)]) == h';
    assert Stacked(db.rows[id := row], name, h');
    RevisedFiled(h, name, i, facet, attrs, tags, now);
    OneStackChanges(db, s, name, db.rows[id := row], h');
  }

  lemma RevisedFiled<C, F>(h: History<C, F>, name: string, i: nat, facet: Option<F>, attrs: Option<Attributes>,
                           tags: Tags, now: int)
    requires Filed(h, name) && i < |h|
    ensures Filed(h[i := Revised(h[i], facet, attrs, tags, now)], name)
  {
  }

  /** Changing rows of one active name only, to a stack of its new history. */
  lemma OneStackChanges<C(!new), F(!new)>(db: Db<C, F>, s: Shelf<C, F>, name: string, rows: Rows<C, F>,
                                          h: History<C, F>)
    requires Refines(db, s) && name in s.active
    requires rows.Keys == db.rows.Keys && forall id :: id in rows && id.name != name ==> rows[id] == db.rows[id]
    requires Filed(h, name) && Stacked(rows, name, h)
    ensures Refines(db.(rows := rows), s.(active := s.active[name := h]))
  {
    hide Stacked, Entombed, Filed;
    assert NamesOf(rows) == NamesOf(db.rows);
    forall n | n in s.active && n != name
      ensures Stacked(rows, n, s.active[n])
    {
      StackedElsewhere(db.rows, rows, n, s.active[n]);
    }
  }

  lemma ReviseOne<C, F>(rows: Rows<C, F>, n: string, snaps: seq<Snapshot<C, F>>, i: nat, row: Row<C, F>)
    requires Orders(rows, n, snaps) && i < |snaps| && row.createdAt == snaps[i].row.createdAt
    ensures Orders(rows[RowId(n, snaps[i].version) := row], n, snaps[i := Snapshot(snaps[i].version, row)])
  {
    var rows', revised := rows[RowId(n, snaps[i].version) := row], snaps[i := Snapshot(snaps[i].version, row)];
    forall id | id in rows' && id.name == n
      ensures Listed(revised, id.version)
    {
      assert Listed(snaps, id.version);
      var j :| 0 <= j < |snaps| && snaps[j].version == id.version;
      assert revised[j].version == id.version;
    }
  }

  lemma DeleteRefines<C(!new), F(!new)>(db: Db<C, F>, s: Shelf<C, F>, a: Answers<C, F>, kind: Kind, name: string,
                                        recoveryId: string, now: int)
    requires Refines(db, s) && Faithful(db.rows, a)
    ensures var (states, r) := DeleteStates(db, kind, name, a.newest(name), a.ascending(name), recoveryId, now);
            var (s', r') := Delete(s, kind, name, recoveryId, now);
            Refines(Final(db, states), s') && r == r'
  {
    hide Refines, Faithful, Orders, Enumerates, Stacked, Entombed, Sound;
    SoundOf(db, s);
    NameKnown(db, s, name);
    FindAgrees(db, s, a, name, "");
    if name in s.active && name !in s.deleted {
      AnswersAre(db.rows, a, name, s.active[name]);
      BuriedRefines(db, s, name, a.ascending(name), recoveryId, now);
    }
  }

  lemma NamesBut<C, F>(rows: Rows<C, F>, name: string)
    ensures NamesOf(RowsBut(rows, name)) == NamesOf(rows) - {name}
  {
    forall n | n in NamesOf(rows) - {name}
      ensures n in NamesOf(RowsBut(rows, name))
    {
      var id :| id in rows && id.name == n;
      assert id in RowsBut(rows, name);
    }
  }

  lemma EnumeratesDistinct<C, F>(rows: Rows<C, F>, n: string, snaps: seq<Snapshot<C, F>>)
    requires Enumerates(rows, n, snaps)
    ensures DistinctVersions(snaps)
  {
  }

  lemma OrdersDistinct<C, F>(rows: Rows<C, F>, n: string, snaps: seq<Snapshot<C, F>>)
    requires Orders(rows, n, snaps)
    ensures DistinctVersions(snaps) && Increasing(snaps)
  {
  }

  /** The name's rows gone and its payload written. */
  lemma BuriedRefines<C(!new), F(!new)>(db: Db<C, F>, s: Shelf<C, F>, name: string, snaps: seq<Snapshot<C, F>>,
                                        recoveryId: string, now: int)
    requires Refines(db, s) && name in s.active && name !in s.deleted
    requires Orders(db.rows, name, snaps) && SnapshotRecords(name, snaps) == s.active[name]
    ensures Refines(DeleteRows(InsertDeleted(db, name, DeletedRow(recoveryId, now, now + PURGE_DELAY, snaps)), name),
                    Shelf(s.active - {name}, s.deleted[name := Deleted(s.active[name], recoveryId, now, now + PURGE_DELAY)]))
  {
    hide Increasing, Enumerates, DistinctVersions;
    var rows := RowsBut(db.rows, name);
    NamesBut(db.rows, name);
    OrdersDistinct(db.rows, name, snaps);
    forall n | n in s.active && n != name
      ensures Stacked(rows, n, s.active[n])
    {
      StackedElsewhere(db.rows, rows, n, s.active[n]);
    }
  }

  // ----- recover and restore: successive inserts -----

  /** The rows that inserting the snapshots one after the other is meant to add. */
  function BumpedAll<C, F>(snaps: seq<Snapshot<C, F>>): seq<Snapshot<C, F>> {
    seq(|snaps|, i requires 0 <= i < |snaps| => Snapshot(snaps[i].version, Bumped(snaps[i], i)))
  }

  lemma NotYetInserted<C, F>(rows: Rows<C, F>, name: string, all: seq<Snapshot<C, F>>, i: nat)
    requires i < |all| && DistinctVersions(all) && Enumerates(rows, name, all[..i])
    ensures RowId(name, all[i].version) !in rows
  {
    forall j | 0 <= j < i
      ensures all[..i][j].version != all[i].version
    {
    }
    assert !Listed(all[..i], RowId(name, all[i].version).version);
  }

  /** With distinct versions and none in the table, every insert succeeds and adds its own row. */
  lemma {:induction false} InsertsSucceed<C, F>(db: Db<C, F>, name: string, snaps: seq<Snapshot<C, F>>, i: nat)
    requires i <= |snaps| && DistinctVersions(snaps)
    requires Enumerates(db.rows, name, BumpedAll(snaps)[..i])
    ensures |InsertStates(db, name, snaps, i)| == |snaps| - i
    ensures var db' := Final(db, InsertStates(db, name, snaps, i));
            && db'.deleted == db.deleted
            && Enumerates(db'.rows, name, BumpedAll(snaps))
            && SameElsewhere(db.rows, db'.rows, name)
    decreases |snaps| - i
  {
    var all := BumpedAll(snaps);
    if i == |snaps| {
      assert all[..i] == all;
    } else {
      var id := RowId(name, snaps[i].version);
      NotYetInserted(db.rows, name, all, i);
      EnumeratesInsert(db.rows, name, all[..i], snaps[i].version, Bumped(snaps[i], i));
      assert all[..i + 1] == all[..i] + [all[i]];
      var next := InsertRow(db, id, Bumped(snaps[i], i));
      InsertsSucceed(next, name, snaps, i + 1);
      var rest := InsertStates(next, name, snaps, i + 1);
      assert Final(db, [next] + rest) == Final(next, rest);
    }
  }

  lemma NoRowsEnumerate<C, F>(rows: Rows<C, F>, name: string)
    requires !HasRows(rows, name)
    ensures Enumerates(rows, name, [])
  {
  }

  /** Recovering re-inserts the payload in its order, each version i ticks later. */
  lemma RecoverLands<C, F>(db: Db<C, F>, kind: Kind, name: string)
    requires Payloads(db) && name in db.deleted && !HasRows(db.rows, name) && DistinctVersions(db.deleted[name].versions)
    ensures var (states, r) := RecoverStates(db, kind, name);
            var db' := Final(db, states);
            && r == Ok(ViewDeletedRow(name, db.deleted[name]).record)
            && db'.deleted == db.deleted - {name}
            && Enumerates(db'.rows, name, BumpedAll(db.deleted[name].versions))
            && SameElsewhere(db.rows, db'.rows, name)
  {
    var snaps := db.deleted[name].versions;
    NoRowsEnumerate(db.rows, name);
    assert BumpedAll(snaps)[..0] == [];
    InsertsSucceed(db, name, snaps, 0);
  }

  /** From non-decreasing creation times, ties included, the new ones strictly increase; the records are the same. */
  lemma BumpedIncreases<C, F>(name: string, snaps: seq<Snapshot<C, F>>)
    ensures NonDecreasing(snaps) ==> Increasing(BumpedAll(snaps))
    ensures SnapshotRecords(name, BumpedAll(snaps)) == SnapshotRecords(name, snaps)
    ensures DistinctVersions(snaps) ==> DistinctVersions(BumpedAll(snaps))
  {
    var all := BumpedAll(snaps);
    forall i | 0 <= i < |snaps|
      ensures SnapshotRecords(name, all)[i] == SnapshotRecords(name, snaps)[i]
    {
    }
  }

  lemma IncreasingNonDecreasing<C, F>(snaps: seq<Snapshot<C, F>>)
    requires Increasing(snaps)
    ensures NonDecreasing(snaps)
  {
  }

  lemma RecoverSound<C, F>(s: Shelf<C, F>, kind: Kind, name: string)
    requires Sound(s)
    ensures Sound(Recover(s, kind, name).0)
  {
  }

  lemma RecoverRefines<C(!new), F(!new)>(db: Db<C, F>, s: Shelf<C, F>, kind: Kind, name: string)
    requires Refines(db, s) && Payloads(db)
    ensures var (states, r) := RecoverStates(db, kind, name);
            var (s', r') := Recover(s, kind, name);
            Refines(Final(db, states), s') && r == r'
  {
    hide Refines, Stacked, Enumerates, Increasing, NonDecreasing, DistinctVersions, SameElsewhere, InsertStates, Filed, Sound;
    SoundOf(db, s);
    NameKnown(db, s, name);
    if name !in s.active && name in s.deleted {
      var snaps := db.deleted[name].versions;
      DeletedViewsAgree(db, s, name);
      RecoverLands(db, kind, name);
      IncreasingNonDecreasing(snaps);
      BumpedIncreases(name, snaps);
      RecoverSound(s, kind, name);
      var db' := Final(db, RecoverStates(db, kind, name).0);
      assert Orders(db'.rows, name, BumpedAll(snaps));
      ReplacedName(db, db', s, Recover(s, kind, name).0, name, BumpedAll(snaps));
    }
  }

  lemma FiledSome<C, F>(h: History<C, F>, name: string)
    requires Filed(h, name)
    ensures h != []
  {
  }

  lemma FiledOf<C, F>(s: Shelf<C, F>, name: string)
    requires Sound(s) && name in s.active
    ensures Filed(s.active[name], name) && s.active[name] != []
  {
  }

  lemma NamesReplaced<C, F>(rows: Rows<C, F>, rows': Rows<C, F>, name: string, snaps: seq<Snapshot<C, F>>)
    requires SameElsewhere(rows, rows', name) && Enumerates(rows', name, snaps) && snaps != []
    ensures NamesOf(rows') == NamesOf(rows) + {name}
  {
    assert RowId(name, snaps[0].version) in rows';
    forall n | n in NamesOf(rows) && n != name
      ensures n in NamesOf(rows')
    {
      var id :| id in rows && id.name == n;
      assert id in rows';
    }
    forall n | n in NamesOf(rows') && n != name
      ensures n in NamesOf(rows)
    {
      var id :| id in rows' && id.name == n;
      assert id in rows;
    }
  }

  /** One name's rows replaced by a stack of the history it now has, the others left alone. */
  lemma ReplacedName<C(!new), F(!new)>(db: Db<C, F>, db': Db<C, F>, s: Shelf<C, F>, s': Shelf<C, F>, name: string,
                                       snaps: seq<Snapshot<C, F>>)
    requires Refines(db, s) && Sound(s')
    requires name in s'.active && s' == Shelf(s.active[name := s'.active[name]], s.deleted - {name})
    requires db'.deleted == db.deleted - {name}
    requires SameElsewhere(db.rows, db'.rows, name)
    requires Orders(db'.rows, name, snaps) && SnapshotRecords(name, snaps) == s'.active[name]
    ensures Refines(db', s')
  {
    hide Entombed, Filed, Increasing, DistinctVersions;
    FiledOf(s', name);
    NamesReplaced(db.rows, db'.rows, name, snaps);
    forall n | n in s'.active
      ensures Stacked(db'.rows, n, s'.active[n])
    {
      if n != name {
        StackedElsewhere(db.rows, db'.rows, n, s.active[n]);
      }
    }
  }

  /** A token that a backup issues: versions under its own name, with distinct ids. */
  predicate Issuable<C, F>(b: Backup<C, F>) {
    Filed(b.versions, b.name) && forall i, j :: 0 <= i < j < |b.versions| ==> b.versions[i].version != b.versions[j].version
  }

  function RefilledAll<C, F>(b: Backup<C, F>): seq<Snapshot<C, F>> {
    seq(|b.versions|, i requires 0 <= i < |b.versions| => Snapshot(b.versions[i].version, RestoredRow(b.versions[i], i)))
  }

  lemma {:induction false} RefillsSucceed<C, F>(db: Db<C, F>, b: Backup<C, F>, i: nat)
    requires i <= |b.versions| && Issuable(b)
    requires Enumerates(db.rows, b.name, RefilledAll(b)[..i])
    ensures |RefillStates(db, b, i)| == |b.versions| - i
    ensures var db' := Final(db, RefillStates(db, b, i));
            && db'.deleted == db.deleted
            && Enumerates(db'.rows, b.name, RefilledAll(b))
            && SameElsewhere(db.rows, db'.rows, b.name)
    decreases |b.versions| - i
  {
    var all := RefilledAll(b);
    if i == |b.versions| {
      assert all[..i] == all;
    } else {
      var id := RowId(b.name, b.versions[i].version);
      NotYetInserted(db.rows, b.name, all, i);
      EnumeratesInsert(db.rows, b.name, all[..i], b.versions[i].version, RestoredRow(b.versions[i], i));
      assert all[..i + 1] == all[..i] + [all[i]];
      var next := InsertRow(db, id, RestoredRow(b.versions[i], i));
      RefillsSucceed(next, b, i + 1);
      var rest := RefillStates(next, b, i + 1);
      assert Final(db, [next] + rest) == Final(next, rest);
    }
  }

  lemma NoRowsLeft<C, F>(rows: Rows<C, F>, name: string)
    ensures Enumerates(RowsBut(rows, name), name, []) && SameElsewhere(rows, RowsBut(rows, name), name)
  {
  }

  lemma SameElsewhereTransitive<C, F>(a: Rows<C, F>, b: Rows<C, F>, c: Rows<C, F>, name: string)
    requires SameElsewhere(a, b, name) && SameElsewhere(b, c, name)
    ensures SameElsewhere(a, c, name)
  {
  }

  /** An issued token's versions come back as they are, at timestamps 0, 1, 2 and so on. */
  lemma RefilledRecords<C, F>(b: Backup<C, F>)
    requires Issuable(b)
    ensures RestoredHistory(b) == b.versions && SnapshotRecords(b.name, RefilledAll(b)) == b.versions
    ensures Increasing(RefilledAll(b))
  {
    forall i | 0 <= i < |b.versions|
      ensures RestoredHistory(b)[i] == b.versions[i]
      ensures SnapshotRecords(b.name, RefilledAll(b))[i] == b.versions[i]
    {
      assert b.versions[i].name == b.name && Stamped(b.versions[i].attributes);
    }
  }

  lemma RestoreSound<C, F>(s: Shelf<C, F>, b: Backup<C, F>)
    requires Sound(s) && Restorable(Some(b))
    ensures Sound(Restore(s, Some(b)).0)
  {
  }

  lemma RestoreRefines<C(!new), F(!new)>(db: Db<C, F>, s: Shelf<C, F>, token: Option<Backup<C, F>>)
    requires Refines(db, s)
    requires Restorable(token) ==> Issuable(token.value)
    ensures var (states, r) := RestoreStates(db, token);
            var (s', r') := Restore(s, token);
            Refines(Final(db, states), s') && r == r'
  {
    hide Refines, Stacked, Enumerates, SameElsewhere, RefillStates, Filed, Sound, Increasing;
    SoundOf(db, s);
    if Restorable(token) {
      var b := token.value;
      var dropped := DropDeleted(DeleteRows(db, b.name), b.name);
      assert RefilledAll(b)[..0] == [];
      NoRowsLeft(db.rows, b.name);
      RefillsSucceed(dropped, b, 0);
      var refilled := RefillStates(dropped, b, 0);
      var db' := Final(db, RestoreStates(db, token).0);
      assert db' == Final(dropped, refilled);
      SameElsewhereTransitive(db.rows, dropped.rows, db'.rows, b.name);
      RefilledRecords(b);
      RestoreSound(s, b);
      ReplacedName(db, db', s, Restore(s, token).0, b.name, RefilledAll(b));
    }
  }

  /** A put writes one row, stamped with the clock reading; a version id that is taken is an internal error. */
  lemma PutRow<C, F>(db: Db<C, F>, name: string, complete: bool, made: Option<(C, F)>, version: string,
                     attrs: Option<Attributes>, tags: Tags, now: int, ts: int)
    ensures var (states, r) := PutStates(db, name, complete, made, version, attrs, tags, now, ts);
            var id := RowId(name, version);
            && (r.Ok? ==> && |states| == 1 && id in states[0].rows && states[0].rows[id].createdAt == ts
                          && RecordOf(name, version, states[0].rows[id]) == r.value)
            && (r.Err? ==> states == [])
            && (name != "" && complete && name !in db.deleted && made.Some? ==>
                  (r.Ok? <==> id !in db.rows))
            && (name != "" && complete && name !in db.deleted && made.Some? && id in db.rows ==>
                  r == Err(Error(500, "InternalServerError")))
  {
  }

  lemma {:induction false} RefilledAt<C, F>(db: Db<C, F>, b: Backup<C, F>, from: nat, j: nat)
    requires from <= j < |b.versions| && |RefillStates(db, b, from)| == |b.versions| - from
    ensures var id, rows := RowId(b.name, b.versions[j].version), Final(db, RefillStates(db, b, from)).rows;
            id in rows && rows[id] == RestoredRow(b.versions[j], j)
    decreases |b.versions| - from
  {
    var id := RowId(b.name, b.versions[from].version);
    var next := InsertRow(db, id, RestoredRow(b.versions[from], from));
    assert Final(db, RefillStates(db, b, from)) == Final(next, RefillStates(next, b, from + 1));
    if j > from {
      RefilledAt(next, b, from + 1, j);
    } else {
      RefillsKeepRow(next, b, from + 1, id);
    }
  }

  lemma {:induction false} RefillsKeepRow<C, F>(db: Db<C, F>, b: Backup<C, F>, from: nat, id: RowId)
    requires from <= |b.versions| && id in db.rows
    ensures var rows := Final(db, RefillStates(db, b, from)).rows; id in rows && rows[id] == db.rows[id]
    decreases |b.versions| - from
  {
    if from < |b.versions| && RowId(b.name, b.versions[from].version) !in db.rows {
      var next := InsertRow(db, RowId(b.name, b.versions[from].version), RestoredRow(b.versions[from], from));
      assert Final(db, RefillStates(db, b, from)) == Final(next, RefillStates(next, b, from + 1));
      RefillsKeepRow(next, b, from + 1, id);
    }
  }

  /** After a restore that succeeds version j is the row stamped j, with its own content and dates. */
  lemma RestoredRows<C, F>(db: Db<C, F>, token: Option<Backup<C, F>>, j: nat)
    requires RestoreStates(db, token).1.Ok? && j < |token.value.versions|
    ensures var was, rows := token.value.versions[j], Final(db, RestoreStates(db, token).0).rows;
            var id := RowId(token.value.name, was.version);
            && id in rows && rows[id].createdAt == j && rows[id].core == was.core && rows[id].facet == was.facet
            && rows[id].tags == was.tags && rows[id].attributes.created == was.attributes.created
  {
    var b := token.value;
    var dropped := DropDeleted(DeleteRows(db, b.name), b.name);
    RefilledAt(dropped, b, 0, j);
    assert Final(db, RestoreStates(db, token).0) == Final(dropped, RefillStates(dropped, b, 0));
  }

  // ----- the reading operations -----

  lemma ListRefines<C(!new), F(!new)>(db: Db<C, F>, s: Shelf<C, F>, a: Answers<C, F>, blank: C -> C,
                                      skipToken: string, maxResults: int)
    requires Refines(db, s) && Faithful(db.rows, a)
    ensures ListResult(db, blank, a, skipToken, maxResults) == List(s, blank, skipToken, maxResults)
  {
    var paged := NamePage(s.active.Keys, skipToken, maxResults);
    if paged.Ok? {
      var page := paged.value.0;
      forall i | 0 <= i < |page|
        ensures RowId(page[i], a.newest(page[i])) in db.rows
        ensures RowRecord(db.rows, RowId(page[i], a.newest(page[i]))) == Latest(s.active[page[i]])
      {
        assert page[i] in page && Filed(s.active[page[i]], page[i]);
        AnswersAre(db.rows, a, page[i], s.active[page[i]]);
      }
      assert ListedRows(db, page, a.newest, blank) == Latests(s, page, blank);
    }
  }

  lemma DeletedViewsAgree<C(!new), F(!new)>(db: Db<C, F>, s: Shelf<C, F>, n: string)
    requires Refines(db, s) && n in s.deleted
    ensures db.deleted[n].versions != [] && ViewDeletedRow(n, db.deleted[n]) == DeletedView(s.deleted[n])
  {
    assert Entombed(db.deleted[n], s.deleted[n], n) && Filed(s.deleted[n].versions, n);
  }

  lemma ListDeletedRefines<C(!new), F(!new)>(db: Db<C, F>, s: Shelf<C, F>, blank: C -> C, skipToken: string,
                                             maxResults: int)
    requires Refines(db, s) && Payloads(db)
    ensures ListDeletedResult(db, blank, skipToken, maxResults) == ListDeleted(s, blank, skipToken, maxResults)
  {
    var paged := NamePage(s.deleted.Keys, skipToken, maxResults);
    if paged.Ok? {
      var page := paged.value.0;
      forall i | 0 <= i < |page|
        ensures page[i] in s.deleted && ViewDeletedRow(page[i], db.deleted[page[i]]) == DeletedView(s.deleted[page[i]])
      {
        assert page[i] in page;
        DeletedViewsAgree(db, s, page[i]);
      }
      assert ListedDeleted(db, page, blank) == DeletedLatests(s, page, blank);
    }
  }

  lemma ListVersionsRefines<C(!new), F(!new)>(db: Db<C, F>, s: Shelf<C, F>, a: Answers<C, F>, kind: Kind,
                                              blank: C -> C, name: string,
                                              skipToken: string, maxResults: int)
    requires Refines(db, s) && Faithful(db.rows, a)
    ensures ListVersionsResult(db, kind, blank, a, name, skipToken, maxResults)
            == ListVersions(s, kind, blank, name, skipToken, maxResults)
  {
    hide Refines, Faithful, Filed, Stacked, Entombed, Paging.Paginate;
    NameKnown(db, s, name);
    if name in s.active {
      FiledSome(s.active[name], name);
      AnswersAre(db.rows, a, name, s.active[name]);
      assert BlankedRecords(Reversed(s.active[name]), blank) == Newest(s.active[name], blank);
    }
  }

  // ----- one operation -----

  /** What is asked of an operation: fresh ids and later clock readings for new versions, tokens that a backup issued. */
  ghost predicate Fresh<C, F>(db: Db<C, F>, op: Op<C, F>, ts: int) {
    && (op.PutOp? ==> NewVersion(db, op.name, op.version, ts))
    && (op.AppendOp? ==> NewVersion(db, op.record.name, op.record.version, ts) && Stamped(op.record.attributes))
    && (op.RestoreOp? && Restorable(op.token) ==> Issuable(op.token.value))
  }

  lemma PutRefines<C(!new), F(!new)>(db: Db<C, F>, s: Shelf<C, F>, name: string, complete: bool, made: Option<(C, F)>,
                                     version: string, attrs: Option<Attributes>, tags: Tags, now: int, ts: int)
    requires Refines(db, s) && NewVersion(db, name, version, ts)
    ensures var (states, r) := PutStates(db, name, complete, made, version, attrs, tags, now, ts);
            var (s', r') := Put(s, name, complete, made, version, attrs, tags, now);
            Refines(Final(db, states), s') && r == r'
  {
    hide Refines;
    SoundOf(db, s);
    if made.Some? && name !in s.deleted {
      InsertOnTop(db, s, Record(name, version, made.value.0, made.value.1, BuildAttributes(attrs, now, now), tags), ts);
    }
  }

  /** Both stores answer the operation alike and end in corresponding states. */
  lemma StepRefines<C(!new), F(!new)>(db: Db<C, F>, s: Shelf<C, F>, kind: Kind, blank: C -> C, op: Op<C, F>, ts: int,
                                      a: Answers<C, F>)
    requires Refines(db, s) && Payloads(db) && Faithful(db.rows, a) && Fresh(db, op, ts)
    ensures var (states, r) := Exec(db, kind, blank, op, ts, a);
            var (s', r') := Step(s, kind, blank, op);
            Refines(Final(db, states), s') && r == r'
  {
    hide Refines, Faithful, Payloads, Sound, Stamped, Restorable, Issuable;
    hide PutStates, Put, UpdateStates, DeleteStates, RecoverStates, RestoreStates, BackUpResult, ListResult,
      ListDeletedResult, ListVersionsResult;
    hide Update, Delete, Recover, Restore, BackUp, List, ListDeleted, ListVersions, Purge, PurgeStates;
    SoundOf(db, s);
    match op
    case PutOp(name, complete, made, version, attrs, tags, now) =>
      PutRefines(db, s, name, complete, made, version, attrs, tags, now, ts);
    case AppendOp(r) => InsertOnTop(db, s, r, ts);
    case GetOp(name, version) => FindAgrees(db, s, a, name, version);
    case UpdateOp(name, version, facet, attrs, tags, now) => UpdateRefines(db, s, a, kind, name, version, facet, attrs, tags, now);
    case DeleteOp(name, recoveryId, now) => DeleteRefines(db, s, a, kind, name, recoveryId, now);
    case GetDeletedOp(name) =>
      if name in s.deleted {
        DeletedViewsAgree(db, s, name);
      }
    case PurgeOp(name) => PurgeRefines(db, s, kind, name);
    case RecoverOp(name) => RecoverRefines(db, s, kind, name);
    case BackupOp(name) => BackUpRefines(db, s, a, kind, name);
    case RestoreOp(token) => RestoreRefines(db, s, token);
    case ListOp(skip, max) => ListRefines(db, s, a, blank, skip, max);
    case ListVersionsOp(name, skip, max) => ListVersionsRefines(db, s, a, kind, blank, name, skip, max);
    case ListDeletedOp(skip, max) => ListDeletedRefines(db, s, blank, skip, max);
  }

  lemma PurgeRefines<C(!new), F(!new)>(db: Db<C, F>, s: Shelf<C, F>, kind: Kind, name: string)
    requires Refines(db, s)
    ensures Refines(Final(db, PurgeStates(db, kind, name).0), Purge(s, kind, name).0)
    ensures PurgeStates(db, kind, name).1 == Purge(s, kind, name).1
  {
  }

  lemma BackUpRefines<C(!new), F(!new)>(db: Db<C, F>, s: Shelf<C, F>, a: Answers<C, F>, kind: Kind, name: string)
    requires Refines(db, s) && Faithful(db.rows, a)
    ensures BackUpResult(db, kind, name, a.newest(name), a.ascending(name)) == BackUp(s, kind, name)
    ensures BackUp(s, kind, name).Ok? ==> Issuable(BackUp(s, kind, name).value)
  {
    FindAgrees(db, s, a, name, "");
    if name in s.active {
      assert Filed(s.active[name], name);
      AnswersAre(db.rows, a, name, s.active[name]);
      var snaps, h := a.ascending(name), s.active[name];
      forall i, j | 0 <= i < j < |h|
        ensures h[i].version != h[j].version
      {
        assert h[i] == SnapshotRecord(name, snaps[i]) && h[j] == SnapshotRecord(name, snaps[j]);
      }
    }
  }

  // ----- runs -----

  /** A complete operation, with the clock reading and the engine's answers it gets. */
  datatype Call<!C, !F> = Call(op: Op<C, F>, ts: int, answers: Answers<C, F>)

  /**
   * The calls meet the hypotheses in the state each finds: the engine answers by the table, new
   * versions get unused ids and later clock readings, and restores use tokens that earlier backups
   * (or `issued`) gave out, or tokens the program rejects.
   */
  ghost predicate WellRun<C(!new), F(!new)>(db: Db<C, F>, kind: Kind, blank: C -> C, calls: seq<Call<C, F>>,
                                            issued: set<Backup<C, F>>)
    requires Payloads(db)
    decreases |calls|
  {
    calls == [] ||
    var c := calls[0];
    && Faithful(db.rows, c.answers)
    && (c.op.PutOp? ==> NewVersion(db, c.op.name, c.op.version, c.ts))
    && (c.op.AppendOp? ==> NewVersion(db, c.op.record.name, c.op.record.version, c.ts) && Stamped(c.op.record.attributes))
    && (c.op.RestoreOp? && Restorable(c.op.token) ==> c.op.token.value in issued)
    && var (states, r) := Exec(db, kind, blank, c.op, c.ts, c.answers);
       CompletePayloads(db, kind, blank, c);
       WellRun(Final(db, states), kind, blank, calls[1..], issued + IssuedTo(r))
  }

  lemma CompletePayloads<C(!new), F(!new)>(db: Db<C, F>, kind: Kind, blank: C -> C, c: Call<C, F>)
    requires Payloads(db) && Faithful(db.rows, c.answers)
    ensures Payloads(Final(db, Exec(db, kind, blank, c.op, c.ts, c.answers).0))
  {
    var states := Exec(db, kind, blank, c.op, c.ts, c.answers).0;
    if states != [] {
      EveryStateHasPayloads(db, kind, blank, c.op, c.ts, c.answers, |states| - 1);
    }
  }

  /** The SQL store's responses to the calls, and the database they leave. */
  ghost function SqlRun<C(!new), F(!new)>(db: Db<C, F>, kind: Kind, blank: C -> C, calls: seq<Call<C, F>>,
                                          issued: set<Backup<C, F>>)
    : (Db<C, F>, seq<Response<C, F>>)
    requires Payloads(db) && WellRun(db, kind, blank, calls, issued)
    decreases |calls|
  {
    if calls == [] then (db, [])
    else
      var c := calls[0];
      var (states, r) := Exec(db, kind, blank, c.op, c.ts, c.answers);
      CompletePayloads(db, kind, blank, c);
      var (last, rest) := SqlRun(Final(db, states), kind, blank, calls[1..], issued + IssuedTo(r));
      (last, [r] + rest)
  }

  /** The in-memory store's responses to the same operations. */
  ghost function MemoryRun<C(!new), F(!new)>(s: Shelf<C, F>, kind: Kind, blank: C -> C, calls: seq<Call<C, F>>)
    : (Shelf<C, F>, seq<Response<C, F>>)
    requires Sound(s) && forall c :: c in calls ==> Fit(c.op)
    decreases |calls|
  {
    if calls == [] then (s, [])
    else
      var (s', r) := Step(s, kind, blank, calls[0].op);
      StepKeepsSound(s, kind, blank, calls[0].op);
      var (last, rest) := MemoryRun(s', kind, blank, calls[1..]);
      (last, [r] + rest)
  }

  lemma IssuedIssuable<C(!new), F(!new)>(db: Db<C, F>, s: Shelf<C, F>, kind: Kind, blank: C -> C, c: Call<C, F>)
    requires Refines(db, s) && Faithful(db.rows, c.answers)
    ensures Sound(s) && forall b :: b in IssuedTo(Step(s, kind, blank, c.op).1) ==> Issuable(b)
  {
    hide Refines, Faithful, Sound, Issuable;
    hide Put, Update, Delete, Recover, Restore, BackUp, List, ListDeleted, ListVersions, Purge, Get, GetDeleted;
    SoundOf(db, s);
    if c.op.BackupOp? {
      BackUpRefines(db, s, c.answers, kind, c.op.name);
    }
  }

  /**
   * Over every well-run sequence of operations from corresponding states, the SQL store and the
   * in-memory store give the same responses, records and error codes alike, and end in
   * corresponding states.
   */
  lemma {:induction false} RunRefines<C(!new), F(!new)>(db: Db<C, F>, s: Shelf<C, F>, kind: Kind, blank: C -> C,
                                                       calls: seq<Call<C, F>>, issued: set<Backup<C, F>>)
    requires Refines(db, s) && Payloads(db) && WellRun(db, kind, blank, calls, issued)
    requires forall b :: b in issued ==> Issuable(b)
    requires forall c :: c in calls ==> Fit(c.op)
    ensures Sound(s) && Refines(SqlRun(db, kind, blank, calls, issued).0, MemoryRun(s, kind, blank, calls).0)
    ensures SqlRun(db, kind, blank, calls, issued).1 == MemoryRun(s, kind, blank, calls).1
    decreases |calls|
  {
    hide Refines, Faithful, Payloads, NewVersion, Exec, Shelves.Step, Sound;
    SoundOf(db, s);
    if calls != [] {
      var c := calls[0];
      assert c in calls;
      StepRefines(db, s, kind, blank, c.op, c.ts, c.answers);
      IssuedIssuable(db, s, kind, blank, c);
      CompletePayloads(db, kind, blank, c);
      StepKeepsSound(s, kind, blank, c.op);
      var (states, r) := Exec(db, kind, blank, c.op, c.ts, c.answers);
      var (s', r') := Step(s, kind, blank, c.op);
      RunRefines(Final(db, states), s', kind, blank, calls[1..], issued + IssuedTo(r));
    }
  }

  /** An empty database corresponds to an empty store, so both stores agree on every run from the start. */
  lemma FromTheStart<C(!new), F(!new)>(kind: Kind, blank: C -> C, calls: seq<Call<C, F>>)
    requires WellRun(Db(map[], map[]), kind, blank, calls, {})
    requires forall c :: c in calls ==> Fit(c.op)
    ensures SqlRun(Db(map[], map[]), kind, blank, calls, {}).1 == MemoryRun(Shelf(map[], map[]), kind, blank, calls).1
    ensures Refines(SqlRun(Db(map[], map[]), kind, blank, calls, {}).0, MemoryRun(Shelf(map[], map[]), kind, blank, calls).0)
  {
    RunRefines(Db(map[], map[]), Shelf(map[], map[]), kind, blank, calls, {});
  }
}
