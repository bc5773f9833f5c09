// Creation times under repeated delete and recover: the order survives, ties are broken once and
// for all, and the drift is bounded.
module SqlCycles {
  import opened Arithmetic
  import opened Wrappers
  import opened Model
  import opened Tables
  import opened SqlRefinement

  /** What one cycle starts from: an active name, not deleted, whose rows the engine lists as `order`. */
  ghost predicate Ready<C, F>(db: Db<C, F>, name: string, newest: string, order: seq<Snapshot<C, F>>) {
    && Payloads(db) && name !in db.deleted && order != []
    && Selects(db.rows, name, order) && IsNewest(db.rows, name, newest)
  }

  function Buried<C, F>(db: Db<C, F>, name: string, order: seq<Snapshot<C, F>>, recoveryId: string,
                        now: int): Db<C, F> {
    DeleteRows(InsertDeleted(db, name, DeletedRow(recoveryId, now, now + PURGE_DELAY, order)), name)
  }

  /** A delete followed by a recover, both complete. */
  lemma CycleLands<C, F>(db: Db<C, F>, kind: Kind, name: string, newest: string, order: seq<Snapshot<C, F>>,
                         recoveryId: string, now: int)
    requires Ready(db, name, newest, order)
    ensures var (states, r) := DeleteStates(db, kind, name, newest, order, recoveryId, now);
            var mid := Final(db, states);
            && r.Ok? && mid == Buried(db, name, order, recoveryId, now) && Payloads(mid)
            && var (back, r') := RecoverStates(mid, kind, name);
               var db' := Final(mid, back);
               && r' == Ok(SnapshotRecord(name, order[|order| - 1]))
               && db'.deleted == db.deleted
               && Orders(db'.rows, name, BumpedAll(order))
               && SameElsewhere(db.rows, db'.rows, name)
  {
    hide Increasing, NonDecreasing, RecoverStates, SameElsewhere;
    var mid := Buried(db, name, order, recoveryId, now);
    EnumeratesDistinct(db.rows, name, order);
    hide Enumerates;
    NoRowsLeft(db.rows, name);
    RecoverLands(mid, kind, name);
    BumpedIncreases(name, order);
    SameElsewhereTransitive(db.rows, mid.rows, Final(mid, RecoverStates(mid, kind, name).0).rows, name);
    assert mid.deleted - {name} == db.deleted;
  }

  /** The record a recover returns is the one an unversioned get then returns, ties or not. */
  lemma RecoveredIsLatest<C, F>(db: Db<C, F>, kind: Kind, name: string, newest: string, order: seq<Snapshot<C, F>>,
                                recoveryId: string, now: int, newest': string)
    requires Ready(db, name, newest, order)
    requires var mid := Buried(db, name, order, recoveryId, now);
             Payloads(mid) && IsNewest(Final(mid, RecoverStates(mid, kind, name).0).rows, name, newest')
    ensures var mid := Buried(db, name, order, recoveryId, now);
            var (back, r) := RecoverStates(mid, kind, name);
            GetResult(Final(mid, back), kind, name, "", newest') == r
  {
    CycleLands(db, kind, name, newest, order, recoveryId, now);
    var mid := Buried(db, name, order, recoveryId, now);
    var db' := Final(mid, RecoverStates(mid, kind, name).0);
    NewestIsLast(db'.rows, name, BumpedAll(order), newest');
  }

  /** The snapshots with the i-th creation time i*cycles later. */
  function Shifted<C, F>(snaps: seq<Snapshot<C, F>>, cycles: nat): seq<Snapshot<C, F>> {
    seq(|snaps|, i requires 0 <= i < |snaps| =>
      Snapshot(snaps[i].version, snaps[i].row.(createdAt := snaps[i].row.createdAt + cycles * i)))
  }

  lemma ShiftedOnce<C, F>(snaps: seq<Snapshot<C, F>>, cycles: nat)
    ensures BumpedAll(Shifted(snaps, cycles)) == Shifted(snaps, cycles + 1)
    ensures Shifted(snaps, 0) == snaps
  {
    forall i | 0 <= i < |snaps|
      ensures BumpedAll(Shifted(snaps, cycles))[i] == Shifted(snaps, cycles + 1)[i]
    {
      assert (cycles + 1) * i == cycles * i + i;
    }
    forall i | 0 <= i < |snaps|
      ensures Shifted(snaps, 0)[i] == snaps[i]
    {
      assert 0 * i == 0;
    }
  }

  /** `db'` is `db` after a delete and a recover of the name, for some answers of the engine. */
  ghost predicate Cycled<C, F>(db: Db<C, F>, kind: Kind, name: string, order: seq<Snapshot<C, F>>, db': Db<C, F>) {
    exists newest, recoveryId, now ::
      && Ready(db, name, newest, order)
      && Payloads(Buried(db, name, order, recoveryId, now))
      && db' == Final(Buried(db, name, order, recoveryId, now),
                      RecoverStates(Buried(db, name, order, recoveryId, now), kind, name).0)
  }

  lemma CycledLands<C, F>(db: Db<C, F>, kind: Kind, name: string, order: seq<Snapshot<C, F>>, db': Db<C, F>)
    requires Cycled(db, kind, name, order, db')
    ensures Selects(db.rows, name, order) && Orders(db'.rows, name, BumpedAll(order))
  {
    var newest, recoveryId, now :|
      && Ready(db, name, newest, order)
      && Payloads(Buried(db, name, order, recoveryId, now))
      && db' == Final(Buried(db, name, order, recoveryId, now),
                      RecoverStates(Buried(db, name, order, recoveryId, now), kind, name).0);
    CycleLands(db, kind, name, newest, order, recoveryId, now);
  }

  /**
   * After any positive number of cycles the rows are the first listing's, version i exactly
   * i*cycles later than it was: whatever order the engine first gave to ties, it stays.
   */
  lemma {:induction false} CyclesShift<C, F>(dbs: seq<Db<C, F>>, kind: Kind, name: string,
                                             orders: seq<seq<Snapshot<C, F>>>)
    requires |orders| >= 1 && |dbs| == |orders| + 1
    requires forall k :: 0 <= k < |orders| ==> Cycled(dbs[k], kind, name, orders[k], dbs[k + 1])
    ensures Orders(dbs[|orders|].rows, name, Shifted(orders[0], |orders|))
  {
    hide Cycled, Orders, Selects;
    var c := |orders| - 1;
    CycledLands(dbs[c], kind, name, orders[c], dbs[c + 1]);
    if c == 0 {
      ShiftedOnce(orders[0], 0);
    } else {
      CyclesShift(dbs[..|dbs| - 1], kind, name, orders[..c]);
      SelectsUnique(dbs[c].rows, name, Shifted(orders[0], c), orders[c]);
      ShiftedOnce(orders[0], c);
    }
  }

  /** No creation time drifts by more than cycles*(n - 1), and none goes back. */
  lemma DriftBound<C, F>(snaps: seq<Snapshot<C, F>>, cycles: nat, i: nat)
    requires i < |snaps|
    ensures var drift := Shifted(snaps, cycles)[i].row.createdAt - snaps[i].row.createdAt;
            0 <= drift <= cycles * (|snaps| - 1)
  {
    SplitProduct(cycles, i, |snaps| - 1);
  }
}
