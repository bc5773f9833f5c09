// The in-memory store of one kind of item as the program keeps it: maps of version objects that
// operations mutate in place, each with a tag map of its own.
module Memory {
  import opened Wrappers
  import opened Model
  import opened Shelves
  import Names
  import Paging

  /** A Go map of tags: a reference, so that sharing one would be visible. */
  class TagMap {
    ghost const owner: object?
    var entries: map<string, string>

    constructor (ghost owner: object?, entries: map<string, string>)
      ensures this.owner == owner && this.entries == entries
    {
      this.owner := owner;
      this.entries := entries;
    }
  }

  /** The tags that a possibly nil map holds. */
  ghost function Content(tags: TagMap?): Tags
    reads tags
  {
    if tags == null then None else Some(tags.entries)
  }

  /** `cloneTags`: nil for nil, otherwise a new map filled entry by entry. */
  method CloneTags(tags: TagMap?, ghost owner: object?) returns (out: TagMap?)
    ensures Content(out) == Content(tags)
    ensures out != null ==> fresh(out) && out.owner == owner
  {
    if tags == null {
      return null;
    }
    out := new TagMap(owner, map[]);
    var rest := tags.entries.Keys;
    while rest != {}
      invariant fresh(out) && out.owner == owner
      invariant rest <= tags.entries.Keys && out.entries.Keys == tags.entries.Keys - rest
      invariant forall k :: k in out.entries ==> out.entries[k] == tags.entries[k]
      modifies out
      decreases |rest|
    {
      var k :| k in rest;
      out.entries := out.entries[k := tags.entries[k]];
      rest := rest - {k};
    }
    assert out.entries == tags.entries;
  }

  /** A stored version. `home` and `index` say where in the store it is filed; no two versions share both. */
  class Version<C, F> {
    ghost const home: string
    ghost const index: nat
    const name: string
    const version: string
    const core: C
    var facet: F
    var attributes: Attributes
    var tags: TagMap?

    /** A version with a clone of the given tags. */
    constructor (ghost index: nat, name: string, version: string, core: C, facet: F, attributes: Attributes, tags: TagMap?)
      ensures this.tags != null ==> fresh(this.tags)
      ensures Placed(this, Record(name, version, core, facet, attributes, Content(tags)), name, index, Own(this))
    {
      this.home, this.index := name, index;
      this.name, this.version, this.core := name, version, core;
      this.facet, this.attributes := facet, attributes;
      this.tags := null;
      new;
      this.tags := CloneTags(tags, this);
    }

    /** The assignments of `UpdateSecret` and its siblings to the version's record. */
    method Revise(newFacet: Option<F>, attrs: Option<Attributes>, newTags: TagMap?, now: int,
                  ghost r: Record<C, F>, ghost n: string, ghost i: nat, ghost objects: set<object>)
      requires Placed(this, r, n, i, objects)
      modifies this
      ensures Placed(this, Revised(r, newFacet, attrs, old(Content(newTags)), now), n, i, objects + Own(this))
      ensures tags == old(tags) || fresh(tags)
    {
      if newFacet.Some? {
        facet := newFacet.value;
      }
      if newTags != null {
        tags := CloneTags(newTags, this);
      }
      attributes := MergeAttributes(attributes, attrs, now);
    }

    /** The assignments of `UpdateCertificatePolicy`: they amount to an update without attributes or tags. */
    method Refacet(newFacet: F, now: int, ghost r: Record<C, F>, ghost n: string, ghost i: nat,
                   ghost objects: set<object>)
      requires Placed(this, r, n, i, objects) && Stamped(r.attributes)
      modifies this
      ensures Placed(this, Revised(r, Some(newFacet), None, None, now), n, i, objects + Own(this))
      ensures tags == old(tags)
    {
      facet := newFacet;
      attributes := attributes.(updated := now);
    }
  }

  /** A version object and its tag map. */
  ghost function Own<C, F>(v: Version<C, F>): set<object>
    reads v
  {
    {v} + (if v.tags == null then {} else {v.tags})
  }

  lemma OwnIs<C, F>(v: Version<C, F>)
    ensures Own(v) == {v} + (if v.tags == null then {} else {v.tags})
  {
  }

  ghost predicate ShownBy<C, F>(v: Version<C, F>, r: Record<C, F>)
    reads v, v.tags
  {
    r == Record(v.name, v.version, v.core, v.facet, v.attributes, Content(v.tags))
  }

  /** A record as it is handed out: the fields, and a reference to a tag map. */
  datatype Copy<C, F> = Copy(name: string, version: string, core: C, facet: F, attributes: Attributes, tags: TagMap?)

  datatype DeletedCopy<C, F> = DeletedCopy(copy: Copy<C, F>, recoveryId: string, deletedDate: int, scheduledPurgeDate: int)

  ghost function Read<C, F>(c: Copy<C, F>): Record<C, F>
    reads c.tags
  {
    Record(c.name, c.version, c.core, c.facet, c.attributes, Content(c.tags))
  }

  ghost function ReadDeleted<C, F>(c: DeletedCopy<C, F>): DeletedRecord<C, F>
    reads c.copy.tags
  {
    DeletedRecord(Read(c.copy), c.recoveryId, c.deletedDate, c.scheduledPurgeDate)
  }

  /** The answer is the expected record or the expected error. */
  ghost predicate Answers<C, F>(res: Result<Copy<C, F>, Error>, want: Result<Record<C, F>, Error>)
    reads if res.Ok? then {res.value.tags} else {}
  {
    match (res, want)
    case (Ok(c), Ok(r)) => Read(c) == r
    case (Err(e), Err(f)) => e == f
    case _ => false
  }

  ghost predicate AnswersDeleted<C, F>(res: Result<DeletedCopy<C, F>, Error>, want: Result<DeletedRecord<C, F>, Error>)
    reads if res.Ok? then {res.value.copy.tags} else {}
  {
    match (res, want)
    case (Ok(c), Ok(r)) =>
      r == ReadDeleted(c)
    case (Err(e), Err(f)) => e == f
    case _ => false
  }

  ghost predicate AnswersMany<C, F>(res: Result<(seq<Copy<C, F>>, Option<string>), Error>,
                                    want: Result<(seq<Record<C, F>>, Option<string>), Error>)
    reads if res.Ok? then set c | c in res.value.0 && c.tags != null :: c.tags else {}
  {
    match (res, want)
    case (Ok((copies, next)), Ok((records, wantNext))) =>
      && next == wantNext && |copies| == |records|
      && forall i :: 0 <= i < |copies| ==> Read(copies[i]) == records[i]
    case (Err(e), Err(f)) => e == f
    case _ => false
  }

  ghost predicate AnswersManyDeleted<C, F>(res: Result<(seq<DeletedCopy<C, F>>, Option<string>), Error>,
                                           want: Result<(seq<DeletedRecord<C, F>>, Option<string>), Error>)
    reads if res.Ok? then set c | c in res.value.0 && c.copy.tags != null :: c.copy.tags else {}
  {
    match (res, want)
    case (Ok((copies, next)), Ok((records, wantNext))) =>
      && next == wantNext && |copies| == |records|
      && forall i :: 0 <= i < |copies| ==> ReadDeleted(copies[i]) == records[i]
    case (Err(e), Err(f)) => e == f
    case _ => false
  }

  /** Which items a page covers depends on the length of the list only. */
  lemma PaginateMaps<C, F>(copies: seq<Copy<C, F>>, records: seq<Record<C, F>>, skipToken: string, maxResults: int)
    requires |copies| == |records| && forall i :: 0 <= i < |copies| ==> Read(copies[i]) == records[i]
    ensures var a, b := Paging.Paginate(copies, skipToken, maxResults), Paging.Paginate(records, skipToken, maxResults);
            && (a.Err? <==> b.Err?)
            && (a.Ok? ==> a.value.1 == b.value.1 && |a.value.0| == |b.value.0|
                          && forall i :: 0 <= i < |a.value.0| ==> Read(a.value.0[i]) == b.value.0[i])
  {
  }

  /** `cloneSecretRecord` and its siblings. */
  method CloneRecord<C, F>(v: Version<C, F>) returns (c: Copy<C, F>)
    ensures ShownBy(v, Read(c))
    ensures c.tags != null ==> fresh(c.tags)
  {
    var tags := CloneTags(v.tags, null);
    c := Copy(v.name, v.version, v.core, v.facet, v.attributes, tags);
  }

  datatype DeletedEntry<C, F> =
    DeletedEntry(versions: seq<Version<C, F>>, recoveryId: string, deletedDate: int, scheduledPurgeDate: int)

  // ----- ownership -----

  /** The version filed there shows the record, and it and its tag map are among the store's objects. */
  ghost predicate Placed<C, F>(v: Version<C, F>, r: Record<C, F>, n: string, i: nat, objects: set<object>)
    reads objects
  {
    && v in objects && v.home == n && v.index == i
    && (v.tags != null ==> v.tags in objects && v.tags.owner == v)
    && ShownBy(v, r)
  }

  ghost predicate Mirrors<C, F>(versions: seq<Version<C, F>>, h: History<C, F>, n: string, objects: set<object>)
    reads objects
  {
    |versions| == |h| && forall i :: 0 <= i < |h| ==> Placed(versions[i], h[i], n, i, objects)
  }

  predicate Apart<C, F>(a: seq<Version<C, F>>, b: seq<Version<C, F>>) {
    forall i, j :: 0 <= i < |a| && 0 <= j < |b| ==> a[i] != b[j]
  }

  ghost predicate Buried<C, F>(e: DeletedEntry<C, F>, d: Deleted<C, F>, n: string, objects: set<object>)
    reads objects
  {
    && Mirrors(e.versions, d.versions, n, objects)
    && e.recoveryId == d.recoveryId && e.deletedDate == d.deletedDate && e.scheduledPurgeDate == d.scheduledPurgeDate
  }

  type Active<C, F> = map<string, seq<Version<C, F>>>
  type Graves<C, F> = map<string, DeletedEntry<C, F>>

  /** The maps hold the shelf's contents, and no version object or tag map is filed twice. */
  ghost predicate Stores<C, F>(active: Active<C, F>, deleted: Graves<C, F>, s: Shelf<C, F>, objects: set<object>)
    reads objects
  {
    && Sound(s)
    && active.Keys == s.active.Keys && deleted.Keys == s.deleted.Keys
    && (forall n :: n in active ==> Mirrors(active[n], s.active[n], n, objects))
    && (forall n :: n in deleted ==> Buried(deleted[n], s.deleted[n], n, objects))
    && (forall n :: n in active && n in deleted ==> Apart(active[n], deleted[n].versions))
  }

  lemma MirrorsGrows<C, F>(versions: seq<Version<C, F>>, h: History<C, F>, n: string, objects: set<object>,
                           more: set<object>)
    requires Mirrors(versions, h, n, objects) && objects <= more
    ensures Mirrors(versions, h, n, more)
  {
    forall i | 0 <= i < |h|
      ensures Placed(versions[i], h[i], n, i, more)
    {
      assert Placed(versions[i], h[i], n, i, objects);
    }
  }

  lemma StoresGrows<C, F>(active: Active<C, F>, deleted: Graves<C, F>, s: Shelf<C, F>, objects: set<object>,
                          more: set<object>)
    requires Stores(active, deleted, s, objects) && objects <= more
    ensures Stores(active, deleted, s, more)
  {
    forall n | n in active
      ensures Mirrors(active[n], s.active[n], n, more)
    {
      MirrorsGrows(active[n], s.active[n], n, objects, more);
    }
    forall n | n in deleted
      ensures Buried(deleted[n], s.deleted[n], n, more)
    {
      MirrorsGrows(deleted[n].versions, s.deleted[n].versions, n, objects, more);
    }
  }

  /** Versions mirrored under different names are different objects; so are two of one name. */
  lemma MirroredApart<C, F>(a: seq<Version<C, F>>, g: History<C, F>, m: string, b: seq<Version<C, F>>,
                            h: History<C, F>, n: string,
                            objects: set<object>, i: nat, j: nat)
    requires Mirrors(a, g, m, objects) && Mirrors(b, h, n, objects)
    requires i < |a| && j < |b| && (m != n || i != j)
    ensures a[i] != b[j]
    ensures a[i].tags == null || a[i].tags != b[j].tags
  {
    assert Placed(a[i], g[i], m, i, objects) && Placed(b[j], h[j], n, j, objects);
  }

  /** Where a version is filed. */
  datatype Place = Place(isDeleted: bool, name: string, index: nat)

  ghost predicate Used<C, F>(active: Active<C, F>, deleted: Graves<C, F>, p: Place) {
    if p.isDeleted then p.name in deleted && p.index < |deleted[p.name].versions|
    else p.name in active && p.index < |active[p.name]|
  }

  ghost function FiledAt<C, F>(active: Active<C, F>, deleted: Graves<C, F>, p: Place): Version<C, F>
    requires Used(active, deleted, p)
  {
    if p.isDeleted then deleted[p.name].versions[p.index] else active[p.name][p.index]
  }

  /** Any two places of a store, even of a name that is active and deleted, hold different objects and share no tag map. */
  lemma PlacesApart<C, F>(active: Active<C, F>, deleted: Graves<C, F>, s: Shelf<C, F>, objects: set<object>,
                          p: Place, q: Place)
    requires Stores(active, deleted, s, objects)
    requires Used(active, deleted, p) && Used(active, deleted, q) && p != q
    ensures var v, w := FiledAt(active, deleted, p), FiledAt(active, deleted, q);
            && v in objects && w in objects && v != w
            && (v.tags != null ==> v.tags in objects && v.tags != w.tags)
  {
    PlaceIs(active, deleted, s, objects, p);
    PlaceIs(active, deleted, s, objects, q);
    if p.name == q.name && p.isDeleted != q.isDeleted {
      assert Apart(active[p.name], deleted[p.name].versions);
    }
  }

  lemma PlaceIs<C, F>(active: Active<C, F>, deleted: Graves<C, F>, s: Shelf<C, F>, objects: set<object>, p: Place)
    requires Stores(active, deleted, s, objects) && Used(active, deleted, p)
    ensures var v := FiledAt(active, deleted, p);
            && v in objects && v.home == p.name && v.index == p.index
            && (v.tags != null ==> v.tags in objects && v.tags.owner == v)
  {
    if p.isDeleted {
      assert Buried(deleted[p.name], s.deleted[p.name], p.name, objects);
      assert Placed(deleted[p.name].versions[p.index], s.deleted[p.name].versions[p.index], p.name, p.index, objects);
    } else {
      assert Mirrors(active[p.name], s.active[p.name], p.name, objects);
      assert Placed(active[p.name][p.index], s.active[p.name][p.index], p.name, p.index, objects);
    }
  }

  lemma PlacedGrows<C, F>(v: Version<C, F>, r: Record<C, F>, n: string, i: nat, objects: set<object>, more: set<object>)
    requires Placed(v, r, n, i, objects) && objects <= more
    ensures Placed(v, r, n, i, more)
  {
  }

  lemma StoresAppend<C, F>(active: Active<C, F>, deleted: Graves<C, F>, s: Shelf<C, F>, objects: set<object>,
                           entry: seq<Version<C, F>>, v: Version<C, F>, r: Record<C, F>)
    requires Stores(active, deleted, s, objects) && v !in objects && Stamped(r.attributes)
    requires entry == if r.name in active then active[r.name] else []
    requires Placed(v, r, r.name, |entry|, Own(v))
    ensures Stores(active[r.name := entry + [v]], deleted, Appended(s, r), objects + Own(v))
  {
    hide Placed, Sound, Filed, Stamped;
    var more := objects + Own(v);
    PlacedGrows(v, r, r.name, |entry|, Own(v), more);
    StoresGrows(active, deleted, s, objects, more);
    AppendedSound(s, r);
    if r.name in deleted {
      forall j | 0 <= j < |deleted[r.name].versions|
        ensures deleted[r.name].versions[j] != v
      {
        PlacedIn(deleted[r.name].versions[j], s.deleted[r.name].versions[j], r.name, j, objects);
      }
    }
  }

  lemma PlacedIn<C, F>(v: Version<C, F>, r: Record<C, F>, n: string, i: nat, objects: set<object>)
    requires Placed(v, r, n, i, objects)
    ensures v in objects
  {
  }

  /** The shelf with one version revised. */
  function Revising<C, F>(s: Shelf<C, F>, name: string, i: nat, facet: Option<F>, attrs: Option<Attributes>,
                          tags: Tags, now: int)
    : Shelf<C, F>
    requires name in s.active && i < |s.active[name]|
  {
    s.(active := s.active[name := s.active[name][i := Revised(s.active[name][i], facet, attrs, tags, now)]])
  }

  lemma RevisingAt<C, F>(s: Shelf<C, F>, name: string, i: nat, facet: Option<F>, attrs: Option<Attributes>,
                         tags: Tags, now: int)
    requires Sound(s) && name in s.active && i < |s.active[name]|
    ensures var s' := Revising(s, name, i, facet, attrs, tags, now);
            && name in s'.active && i < |s'.active[name]|
            && s'.active[name][i] == Revised(s.active[name][i], facet, attrs, tags, now)
            && s'.active[name][i].name == name
            && Sound(s')
  {
  }

  /** Everything `Stores` says except about the version filed at (name, i); `rest` need not contain that object. */
  ghost predicate StoresBut<C, F>(active: Active<C, F>, deleted: Graves<C, F>, s: Shelf<C, F>, name: string, i: nat,
                                  rest: set<object>)
    reads rest
  {
    && Sound(s)
    && active.Keys == s.active.Keys && deleted.Keys == s.deleted.Keys
    && (forall n :: n in active && n != name ==> Mirrors(active[n], s.active[n], n, rest))
    && name in active && i < |active[name]| == |s.active[name]|
    && (forall j :: 0 <= j < |active[name]| && j != i ==> Placed(active[name][j], s.active[name][j], name, j, rest))
    && (forall n :: n in deleted ==> Buried(deleted[n], s.deleted[n], n, rest))
    && (forall n :: n in active && n in deleted ==> Apart(active[n], deleted[n].versions))
  }

  lemma MirrorsShrinks<C, F>(versions: seq<Version<C, F>>, h: History<C, F>, n: string, objects: set<object>,
                             v: Version<C, F>)
    requires Mirrors(versions, h, n, objects) && v !in versions
    ensures Mirrors(versions, h, n, objects - {v})
  {
    forall i | 0 <= i < |h|
      ensures Placed(versions[i], h[i], n, i, objects - {v})
    {
      assert Placed(versions[i], h[i], n, i, objects);
    }
  }

  /** No other place refers to the version filed at (name, i), so the rest of the store does not depend on it. */
  lemma StoresSplit<C, F>(active: Active<C, F>, deleted: Graves<C, F>, s: Shelf<C, F>, objects: set<object>,
                          name: string, i: nat)
    requires Stores(active, deleted, s, objects) && name in active && i < |active[name]|
    ensures name in s.active && |s.active[name]| == |active[name]| && Own(active[name][i]) <= objects
    ensures StoresBut(active, deleted, s, name, i, objects - {active[name][i]})
    ensures Placed(active[name][i], s.active[name][i], name, i, objects)
  {
    var v := active[name][i];
    assert Mirrors(active[name], s.active[name], name, objects);
    assert Placed(v, s.active[name][i], name, i, objects);
    forall n | n in active && n != name
      ensures Mirrors(active[n], s.active[n], n, objects - {v})
    {
      assert Mirrors(active[n], s.active[n], n, objects);
      forall j | 0 <= j < |active[n]|
        ensures active[n][j] != v
      {
        MirroredApart(active[n], s.active[n], n, active[name], s.active[name], name, objects, j, i);
      }
      MirrorsShrinks(active[n], s.active[n], n, objects, v);
    }
    forall j | 0 <= j < |active[name]| && j != i
      ensures Placed(active[name][j], s.active[name][j], name, j, objects - {v})
    {
      assert Placed(active[name][j], s.active[name][j], name, j, objects);
    }
    forall n | n in deleted
      ensures Buried(deleted[n], s.deleted[n], n, objects - {v})
    {
      assert Buried(deleted[n], s.deleted[n], n, objects);
      forall j | 0 <= j < |deleted[n].versions|
        ensures deleted[n].versions[j] != v
      {
        if n != name {
          MirroredApart(deleted[n].versions, s.deleted[n].versions, n, active[name], s.active[name], name, objects, j, i);
        } else {
          assert Apart(active[n], deleted[n].versions);
        }
      }
      MirrorsShrinks(deleted[n].versions, s.deleted[n].versions, n, objects, v);
    }
  }

  /** The rest of the store and the version at (name, i), whatever it now shows, make a store again. */
  lemma StoresJoin<C, F>(active: Active<C, F>, deleted: Graves<C, F>, s: Shelf<C, F>, name: string, i: nat,
                         rest: set<object>,
                         facet: Option<F>, attrs: Option<Attributes>, tags: Tags, now: int, more: set<object>)
    requires StoresBut(active, deleted, s, name, i, rest) && rest <= more
    requires name in s.active && i < |s.active[name]| && name in active && i < |active[name]|
    requires Placed(active[name][i], Revised(s.active[name][i], facet, attrs, tags, now), name, i, more)
    ensures Stores(active, deleted, Revising(s, name, i, facet, attrs, tags, now), more)
  {
    var s' := Revising(s, name, i, facet, attrs, tags, now);
    RevisingAt(s, name, i, facet, attrs, tags, now);
    forall n | n in active
      ensures Mirrors(active[n], s'.active[n], n, more)
    {
      if n != name {
        MirrorsGrows(active[n], s.active[n], n, rest, more);
      } else {
        forall j | 0 <= j < |active[name]|
          ensures Placed(active[name][j], s'.active[name][j], name, j, more)
        {
          if j != i {
            assert Placed(active[name][j], s.active[name][j], name, j, rest);
          }
        }
      }
    }
    forall n | n in deleted
      ensures Buried(deleted[n], s'.deleted[n], n, more)
    {
      MirrorsGrows(deleted[n].versions, s.deleted[n].versions, n, rest, more);
    }
  }

  lemma StoresDelete<C, F>(active: Active<C, F>, deleted: Graves<C, F>, s: Shelf<C, F>, objects: set<object>,
                           kind: Kind, name: string, recoveryId: string, now: int)
    requires Stores(active, deleted, s, objects) && name in active && name !in deleted
    ensures Stores(active - {name}, deleted[name := DeletedEntry(active[name], recoveryId, now, now + PURGE_DELAY)],
                   Delete(s, kind, name, recoveryId, now).0, objects)
  {
  }

  lemma StoresRecover<C, F>(active: Active<C, F>, deleted: Graves<C, F>, s: Shelf<C, F>, objects: set<object>,
                            kind: Kind, name: string)
    requires Stores(active, deleted, s, objects) && name !in active && name in deleted
    ensures Stores(active[name := deleted[name].versions], deleted - {name}, Recover(s, kind, name).0, objects)
  {
  }

  lemma StoresRestore<C, F>(active: Active<C, F>, deleted: Graves<C, F>, s: Shelf<C, F>, objects: set<object>,
                            token: Backup<C, F>, versions: seq<Version<C, F>>)
    requires Stores(active, deleted, s, objects) && Restorable(Some(token))
    requires Mirrors(versions, RestoredHistory(token), token.name, objects)
    ensures Stores(active[token.name := versions], deleted - {token.name}, Restore(s, Some(token)).0, objects)
  {
  }

  lemma StampedAt<C, F>(s: Shelf<C, F>, name: string, i: nat)
    requires Sound(s) && name in s.active && i < |s.active[name]|
    ensures Stamped(s.active[name][i].attributes)
  {
  }

  lemma SetFacetIsRevising<C, F>(s: Shelf<C, F>, kind: Kind, name: string, facet: F, now: int)
    requires Sound(s) && name in s.active
    ensures SetFacet(s, kind, name, facet, now)
            == (Revising(s, name, |s.active[name]| - 1, Some(facet), None, None, now), Ok(facet))
  {
    StampedAt(s, name, |s.active[name]| - 1);
  }

  lemma SoundNonEmpty<C, F>(s: Shelf<C, F>, name: string)
    requires Sound(s) && name in s.active
    ensures s.active[name] != []
  {
  }

  class Items<C, F> {
    var active: Active<C, F>
    var deleted: Graves<C, F>
    const kind: Kind

    /** What the maps hold, and the version objects and tag maps they hold it in. */
    ghost var contents: Shelf<C, F>
    ghost var Repr: set<object>

    ghost predicate Valid()
      reads this, Repr
    {
      this !in Repr && Stores(active, deleted, contents, Repr)
    }

    constructor (kind: Kind)
      ensures Valid() && fresh(Repr) && this.kind == kind
      ensures contents == Shelf(map[], map[])
    {
      this.kind := kind;
      active, deleted := map[], map[];
      contents := Shelf(map[], map[]);
      Repr := {};
    }

    lemma Opened()
      requires Valid()
      ensures this !in Repr && Stores(active, deleted, contents, Repr) && Sound(contents)
      ensures active.Keys == contents.active.Keys && deleted.Keys == contents.deleted.Keys
    {
    }

    lemma Closed()
      requires this !in Repr && Stores(active, deleted, contents, Repr)
      ensures Valid()
    {
    }

    /** `entry.versions = append(entry.versions, ...)`, the entry being made if there is none. */
    method Append(name: string, version: string, core: C, facet: F, attributes: Attributes, tags: TagMap?)
      requires Valid() && Stamped(attributes)
      modifies this
      ensures Valid() && fresh(Repr - old(Repr)) && old(Repr) <= Repr
      ensures contents == Appended(old(contents), Record(name, version, core, facet, attributes, Content(tags)))
    {
      hide *;
      Opened();
      var entry := if name in active then active[name] else [];
      var v := new Version(|entry|, name, version, core, facet, attributes, tags);
      ghost var r := Record(name, version, core, facet, attributes, Content(tags));
      StoresAppend(active, deleted, contents, Repr, entry, v, r);
      OwnIs(v);
      active := active[name := entry + [v]];
      contents := Appended(contents, r);
      Repr := Repr + Own(v);
      Closed();
    }

    /** `SetSecret`, `CreateKey` and `ImportKey` once the kind's own fields are checked and its content is made. */
    method Put(name: string, complete: bool, made: Option<(C, F)>, version: string, attrs: Option<Attributes>,
               tags: TagMap?, now: int)
      returns (res: Result<Copy<C, F>, Error>)
      requires Valid()
      modifies this
      ensures Valid() && fresh(Repr - old(Repr)) && old(Repr) <= Repr
      ensures contents == Shelves.Put(old(contents), name, complete, made, version, attrs, Content(tags), now).0
      ensures Answers(res, Shelves.Put(old(contents), name, complete, made, version, attrs, Content(tags), now).1)
      ensures Separate(res)
    {
      if name == "" || !complete {
        return Err(BAD_PARAMETER);
      }
      if name in deleted {
        return Err(RESERVED);
      }
      if made == None {
        return Err(BAD_PARAMETER);
      }
      var (core, facet) := made.value;
      var attributes := BuildAttributes(attrs, now, now);
      Append(name, version, core, facet, attributes, tags);
      var copy := CloneTags(tags, null);
      return Ok(Copy(name, version, core, facet, attributes, copy));
    }

    /** The record handed out shares no tag map with the store. */
    ghost predicate Separate(res: Result<Copy<C, F>, Error>)
      reads this
    {
      res.Ok? && res.value.tags != null ==> res.value.tags !in Repr
    }

    ghost predicate SeparateDeleted(res: Result<DeletedCopy<C, F>, Error>)
      reads this
    {
      res.Ok? && res.value.copy.tags != null ==> res.value.copy.tags !in Repr
    }

    /** `findSecretVersion` and its siblings: a scan for the first version with this id. */
    method FindVersion(name: string, version: string) returns (i: Option<nat>)
      requires Valid()
      ensures i == Lookup(contents, name, version)
    {
      if name !in active {
        return None;
      }
      var versions := active[name];
      ghost var h := contents.active[name];
      assert Mirrors(versions, h, name, Repr);
      if version == "" {
        return Some(|versions| - 1);
      }
      for k := 0 to |versions|
        invariant FirstFrom(h, version, 0) == FirstFrom(h, version, k)
      {
        assert Placed(versions[k], h[k], name, k, Repr);
        if versions[k].version == version {
          return Some(k);
        }
      }
      return None;
    }

    method Get(name: string, version: string) returns (res: Result<Copy<C, F>, Error>)
      requires Valid()
      ensures Answers(res, Shelves.Get(contents, kind, name, version))
      ensures res.Ok? && res.value.tags != null ==> fresh(res.value.tags)
    {
      var i := FindVersion(name, version);
      if i == None {
        return Err(NotFound(kind));
      }
      var c := ViewAt(name, i.value);
      return Ok(c);
    }

    /** The in-place part of an update, on the version object filed at (name, i). */
    method UpdateAt(name: string, i: nat, facet: Option<F>, attrs: Option<Attributes>, tags: TagMap?, now: int)
      requires Valid() && name in active && i < |active[name]|
      modifies this, Repr
      ensures Valid() && fresh(Repr - old(Repr)) && old(Repr) <= Repr
      ensures contents == Revising(old(contents), name, i, facet, attrs, old(Content(tags)), now)
      ensures active == old(active)
    {
      hide *;
      Opened();
      var v := active[name][i];
      StoresSplit(active, deleted, contents, Repr, name, i);
      ghost var rest := Repr - {v};
      ghost var r := contents.active[name][i];
      ghost var wanted := Content(tags);
      v.Revise(facet, attrs, tags, now, r, name, i, Repr);
      OwnIs(v);
      StoresJoin(active, deleted, contents, name, i, rest, facet, attrs, wanted, now, Repr + Own(v));
      contents := Revising(contents, name, i, facet, attrs, wanted, now);
      Repr := Repr + Own(v);
      Closed();
    }

    method RefacetAt(name: string, i: nat, facet: F, now: int)
      requires Valid() && name in active && i < |active[name]|
      modifies this, Repr
      ensures Valid() && Repr == old(Repr)
      ensures contents == Revising(old(contents), name, i, Some(facet), None, None, now)
      ensures active == old(active)
    {
      hide *;
      Opened();
      var v := active[name][i];
      StoresSplit(active, deleted, contents, Repr, name, i);
      StampedAt(contents, name, i);
      ghost var rest := Repr - {v};
      ghost var r := contents.active[name][i];
      v.Refacet(facet, now, r, name, i, Repr);
      OwnIs(v);
      assert Repr + Own(v) == Repr;
      StoresJoin(active, deleted, contents, name, i, rest, Some(facet), None, None, now, Repr);
      contents := Revising(contents, name, i, Some(facet), None, None, now);
      Closed();
    }

    /** `UpdateCertificatePolicy`, on the latest version. */
    method SetLatestFacet(name: string, facet: F, now: int) returns (res: Result<F, Error>)
      requires Valid()
      modifies this, Repr
      ensures Valid() && Repr == old(Repr)
      ensures (contents, res) == SetFacet(old(contents), kind, name, facet, now)
    {
      Opened();
      if name !in active {
        return Err(NotFound(kind));
      }
      SoundNonEmpty(contents, name);
      assert Mirrors(active[name], contents.active[name], name, Repr);
      SetFacetIsRevising(contents, kind, name, facet, now);
      RefacetAt(name, |active[name]| - 1, facet, now);
      return Ok(facet);
    }

    /** Updates attributes, tags and facet of one version object in place. */
    method Update(name: string, version: string, facet: Option<F>, attrs: Option<Attributes>, tags: TagMap?, now: int)
      returns (res: Result<Copy<C, F>, Error>)
      requires Valid()
      modifies this, Repr
      ensures Valid() && fresh(Repr - old(Repr)) && old(Repr) <= Repr
      ensures contents == Shelves.Update(old(contents), kind, name, version, facet, attrs, old(Content(tags)), now).0
      ensures Answers(res, Shelves.Update(old(contents), kind, name, version, facet, attrs, old(Content(tags)), now).1)
      ensures Separate(res)
    {
      var i := FindVersion(name, version);
      if i == None {
        return Err(NotFound(kind));
      }
      UpdateAt(name, i.value, facet, attrs, tags, now);
      var c := ViewAt(name, i.value);
      return Ok(c);
    }

    /** The latest version of a deleted entry, with the entry's dates. */
    method ViewDeleted(name: string) returns (c: DeletedCopy<C, F>)
      requires Valid() && name in deleted
      ensures AnswersDeleted(Ok(c), Ok(DeletedView(contents.deleted[name])))
      ensures c.copy.tags != null ==> fresh(c.copy.tags)
    {
      var e := deleted[name];
      ghost var d := contents.deleted[name];
      assert Buried(e, d, name, Repr) && Filed(d.versions, name);
      var last := |e.versions| - 1;
      assert Placed(e.versions[last], d.versions[last], name, last, Repr);
      var copy := CloneRecord(e.versions[last]);
      c := DeletedCopy(copy, e.recoveryId, e.deletedDate, e.scheduledPurgeDate);
    }

    method GetDeleted(name: string) returns (res: Result<DeletedCopy<C, F>, Error>)
      requires Valid()
      ensures AnswersDeleted(res, Shelves.GetDeleted(contents, kind, name))
      ensures res.Ok? && res.value.copy.tags != null ==> fresh(res.value.copy.tags)
    {
      if name !in deleted {
        return Err(NotFound(kind));
      }
      var c := ViewDeleted(name);
      return Ok(c);
    }

    /** The move of an entry from the active to the deleted map. */
    method Bury(name: string, recoveryId: string, now: int) returns (c: DeletedCopy<C, F>)
      requires Valid() && name in active && name !in deleted
      modifies this
      ensures Valid() && Repr == old(Repr)
      ensures Sound(old(contents)) && contents == Shelves.Delete(old(contents), kind, name, recoveryId, now).0
      ensures name in contents.deleted && AnswersDeleted(Ok(c), Ok(DeletedView(contents.deleted[name])))
      ensures c.copy.tags != null ==> fresh(c.copy.tags)
    {
      hide *;
      Opened();
      StoresDelete(active, deleted, contents, Repr, kind, name, recoveryId, now);
      var entry := active[name];
      active := active - {name};
      deleted := deleted[name := DeletedEntry(entry, recoveryId, now, now + PURGE_DELAY)];
      contents := Shelves.Delete(contents, kind, name, recoveryId, now).0;
      Closed();
      Opened();
      c := ViewDeleted(name);
    }

    method Delete(name: string, recoveryId: string, now: int) returns (res: Result<DeletedCopy<C, F>, Error>)
      requires Valid()
      modifies this
      ensures Valid() && Repr == old(Repr)
      ensures contents == Shelves.Delete(old(contents), kind, name, recoveryId, now).0
      ensures AnswersDeleted(res, Shelves.Delete(old(contents), kind, name, recoveryId, now).1)
      ensures SeparateDeleted(res)
    {
      Opened();
      if name !in active || name in deleted {
        return Err(NotFound(kind));
      }
      var c := Bury(name, recoveryId, now);
      return Ok(c);
    }

    method Purge(name: string) returns (res: Option<Error>)
      requires Valid()
      modifies this
      ensures Valid() && Repr == old(Repr)
      ensures (contents, res) == Shelves.Purge(old(contents), kind, name)
    {
      if name !in deleted {
        return Some(NotFound(kind));
      }
      deleted := deleted - {name};
      contents := contents.(deleted := contents.deleted - {name});
      return None;
    }

    method ViewAt(name: string, i: nat) returns (c: Copy<C, F>)
      requires Valid() && name in active && i < |active[name]|
      ensures i < |contents.active[name]| && Read(c) == contents.active[name][i]
      ensures c.tags != null ==> fresh(c.tags)
    {
      assert Mirrors(active[name], contents.active[name], name, Repr);
      assert Placed(active[name][i], contents.active[name][i], name, i, Repr);
      c := CloneRecord(active[name][i]);
    }

    /** The latest version of an active entry. */
    method ViewLatest(name: string) returns (c: Copy<C, F>)
      requires Valid() && name in active
      ensures contents.active[name] != [] && Answers(Ok(c), Ok(Latest(contents.active[name])))
      ensures c.tags != null ==> fresh(c.tags)
    {
      SoundNonEmpty(contents, name);
      assert Mirrors(active[name], contents.active[name], name, Repr);
      c := ViewAt(name, |active[name]| - 1);
    }

    /** The move of an entry back from the deleted to the active map. */
    method Unbury(name: string) returns (c: Copy<C, F>)
      requires Valid() && name !in active && name in deleted
      modifies this
      ensures Valid() && Repr == old(Repr)
      ensures Sound(old(contents)) && contents == Shelves.Recover(old(contents), kind, name).0
      ensures name in contents.active && contents.active[name] != [] && Answers(Ok(c), Ok(Latest(contents.active[name])))
      ensures c.tags != null ==> fresh(c.tags)
    {
      hide *;
      Opened();
      StoresRecover(active, deleted, contents, Repr, kind, name);
      active := active[name := deleted[name].versions];
      deleted := deleted - {name};
      contents := Shelves.Recover(contents, kind, name).0;
      Closed();
      Opened();
      SoundNonEmpty(contents, name);
      c := ViewLatest(name);
    }

    method Recover(name: string) returns (res: Result<Copy<C, F>, Error>)
      requires Valid()
      modifies this
      ensures Valid() && Repr == old(Repr)
      ensures contents == Shelves.Recover(old(contents), kind, name).0
      ensures Answers(res, Shelves.Recover(old(contents), kind, name).1)
      ensures Separate(res)
    {
      Opened();
      if name in active {
        return Err(CONFLICT);
      }
      if name !in deleted {
        return Err(NotFound(kind));
      }
      var c := Unbury(name);
      return Ok(c);
    }

    /** `BackupSecret`: the records, oldest first, as the encoder reads them. */
    method BackUp(name: string) returns (res: Result<Backup<C, F>, Error>)
      requires Valid()
      ensures res == Shelves.BackUp(contents, kind, name)
    {
      if name !in active {
        return Err(NotFound(kind));
      }
      var versions := active[name];
      ghost var h := contents.active[name];
      assert Mirrors(versions, h, name, Repr);
      var records: seq<Record<C, F>> := [];
      for k := 0 to |versions|
        invariant records == h[..k]
      {
        var v := versions[k];
        assert Placed(v, h[k], name, k, Repr);
        var tags: Tags := if v.tags == null then None else Some(v.tags.entries);
        records := records + [Record(v.name, v.version, v.core, v.facet, v.attributes, tags)];
      }
      assert h[..|versions|] == h;
      return Ok(Backup(name, records));
    }

    /** The loop of `RestoreSecret` that makes a version object for every decoded record. */
    method Rebuild(token: Backup<C, F>) returns (versions: seq<Version<C, F>>, ghost objects: set<object>)
      ensures fresh(objects) && Mirrors(versions, RestoredHistory(token), token.name, objects)
    {
      versions, objects := [], {};
      ghost var h := RestoredHistory(token);
      for k := 0 to |token.versions|
        invariant fresh(objects) && Mirrors(versions, h[..k], token.name, objects)
      {
        var r := Restored(token.versions[k], token.name);
        var decoded: TagMap? := null;
        if r.tags.Some? {
          decoded := new TagMap(null, r.tags.value);
        }
        var v := new Version(k, r.name, r.version, r.core, r.facet, r.attributes, decoded);
        ghost var more := objects + Own(v);
        MirrorsGrows(versions, h[..k], token.name, objects, more);
        PlacedGrows(v, r, token.name, k, Own(v), more);
        assert h[..k + 1] == h[..k] + [r];
        versions := versions + [v];
        objects := more;
      }
      assert h[..|token.versions|] == h;
    }

    /** The replacement of everything filed under the token's name. */
    method Refile(b: Backup<C, F>) returns (c: Copy<C, F>)
      requires Valid() && Restorable(Some(b))
      modifies this
      ensures Valid() && fresh(Repr - old(Repr)) && old(Repr) <= Repr
      ensures contents == Shelves.Restore(old(contents), Some(b)).0
      ensures b.name in contents.active && contents.active[b.name] != []
      ensures Answers(Ok(c), Ok(Latest(contents.active[b.name])))
      ensures c.tags != null ==> fresh(c.tags) && c.tags !in Repr
    {
      hide *;
      Opened();
      var versions;
      ghost var objects;
      versions, objects := Rebuild(b);
      ghost var more := Repr + objects;
      StoresGrows(active, deleted, contents, Repr, more);
      MirrorsGrows(versions, RestoredHistory(b), b.name, objects, more);
      StoresRestore(active, deleted, contents, more, b, versions);
      active := active[b.name := versions];
      deleted := deleted - {b.name};
      contents := Shelves.Restore(contents, Some(b)).0;
      Repr := more;
      Closed();
      Opened();
      SoundNonEmpty(contents, b.name);
      c := ViewLatest(b.name);
    }

    method Restore(token: Option<Backup<C, F>>) returns (res: Result<Copy<C, F>, Error>)
      requires Valid()
      modifies this
      ensures Valid() && fresh(Repr - old(Repr)) && old(Repr) <= Repr
      ensures contents == Shelves.Restore(old(contents), token).0
      ensures Answers(res, Shelves.Restore(old(contents), token).1)
      ensures Separate(res)
    {
      if !Restorable(token) {
        return Err(BAD_PARAMETER);
      }
      var c := Refile(token.value);
      return Ok(c);
    }

    /** The loop over a page of names: the latest version of each, blanked. */
    method CopyLatests(page: seq<string>, blank: C -> C) returns (items: seq<Copy<C, F>>)
      requires Valid() && forall n :: n in page ==> n in active
      ensures Sound(contents) && forall n :: n in page ==> n in contents.active
      ensures |items| == |page|
      ensures forall i :: 0 <= i < |items| ==> Read(items[i]) == Latests(contents, page, blank)[i]
      ensures forall c :: c in items && c.tags != null ==> fresh(c.tags)
    {
      hide Stores, Mirrors, Buried, Placed, Apart, Sound, Filed;
      Opened();
      items := [];
      ghost var want := Latests(contents, page, blank);
      for k := 0 to |page|
        invariant |items| == k && forall i :: 0 <= i < k ==> Read(items[i]) == want[i]
        invariant forall c :: c in items && c.tags != null ==> fresh(c.tags)
      {
        var c := ViewLatest(page[k]);
        items := items + [c.(core := blank(c.core))];
      }
    }

    method CopyDeletedLatests(page: seq<string>, blank: C -> C) returns (items: seq<DeletedCopy<C, F>>)
      requires Valid() && forall n :: n in page ==> n in deleted
      ensures Sound(contents) && forall n :: n in page ==> n in contents.deleted
      ensures |items| == |page|
      ensures forall i :: 0 <= i < |items| ==> ReadDeleted(items[i]) == DeletedLatests(contents, page, blank)[i]
      ensures forall c :: c in items && c.copy.tags != null ==> fresh(c.copy.tags)
    {
      hide Stores, Mirrors, Buried, Placed, Apart, Sound, Filed;
      Opened();
      items := [];
      ghost var want := DeletedLatests(contents, page, blank);
      for k := 0 to |page|
        invariant |items| == k && forall i :: 0 <= i < k ==> ReadDeleted(items[i]) == want[i]
        invariant forall c :: c in items && c.copy.tags != null ==> fresh(c.copy.tags)
      {
        var c := ViewDeleted(page[k]);
        items := items + [c.(copy := c.copy.(core := blank(c.copy.core)))];
      }
    }

    /** `ListSecrets`, `ListKeys`, `ListCertificates`. */
    method List(blank: C -> C, skipToken: string, maxResults: int)
      returns (res: Result<(seq<Copy<C, F>>, Option<string>), Error>)
      requires Valid()
      ensures AnswersMany(res, Shelves.List(contents, blank, skipToken, maxResults))
      ensures res.Ok? ==> forall c :: c in res.value.0 && c.tags != null ==> fresh(c.tags)
    {
      hide Stores, Mirrors, Buried, Placed, Apart, Sound, Filed, Latests, Read;
      Opened();
      var names := Names.SortStrings(active.Keys);
      Names.SortedIsAscending(active.Keys);
      var paged := Paging.Paginate(names, skipToken, maxResults);
      if paged.Err? {
        return Err(BAD_PARAMETER);
      }
      var (page, next) := paged.value;
      var items := CopyLatests(page, blank);
      return Ok((items, next));
    }

    method ListDeleted(blank: C -> C, skipToken: string, maxResults: int)
      returns (res: Result<(seq<DeletedCopy<C, F>>, Option<string>), Error>)
      requires Valid()
      ensures AnswersManyDeleted(res, Shelves.ListDeleted(contents, blank, skipToken, maxResults))
      ensures res.Ok? ==> forall c :: c in res.value.0 && c.copy.tags != null ==> fresh(c.copy.tags)
    {
      hide Stores, Mirrors, Buried, Placed, Apart, Sound, Filed, DeletedLatests, ReadDeleted;
      Opened();
      var names := Names.SortStrings(deleted.Keys);
      Names.SortedIsAscending(deleted.Keys);
      var paged := Paging.Paginate(names, skipToken, maxResults);
      if paged.Err? {
        return Err(BAD_PARAMETER);
      }
      var (page, next) := paged.value;
      var items := CopyDeletedLatests(page, blank);
      return Ok((items, next));
    }

    /** `ListSecretVersions` and its siblings: the version objects from the last to the first. */
    method ListVersions(blank: C -> C, name: string, skipToken: string, maxResults: int)
      returns (res: Result<(seq<Copy<C, F>>, Option<string>), Error>)
      requires Valid()
      ensures AnswersMany(res, Shelves.ListVersions(contents, kind, blank, name, skipToken, maxResults))
      ensures res.Ok? ==> forall c :: c in res.value.0 && c.tags != null ==> fresh(c.tags)
    {
      Opened();
      if name !in active {
        return Err(NotFound(kind));
      }
      ghost var h := contents.active[name];
      var n := |active[name]|;
      assert Mirrors(active[name], h, name, Repr);
      var items: seq<Copy<C, F>> := [];
      ghost var want := Newest(h, blank);
      for k := 0 to n
        invariant |items| == k && forall i :: 0 <= i < k ==> Read(items[i]) == want[i]
        invariant forall c :: c in items && c.tags != null ==> fresh(c.tags)
      {
        var c := ViewAt(name, n - 1 - k);
        items := items + [c.(core := blank(c.core))];
      }
      PaginateMaps(items, want, skipToken, maxResults);
      var paged := Paging.Paginate(items, skipToken, maxResults);
      if paged.Err? {
        return Err(BAD_PARAMETER);
      }
      return Ok(paged.value);
    }
  }
}
