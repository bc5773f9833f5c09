// The versions of one kind of item, active and soft-deleted, as values: what the in-memory store
// computes, operation by operation, and what every run of operations keeps.
module Shelves {
  import opened Wrappers
  import opened Model
  import Names
  import Paging

  /** The two maps of one kind: version histories by name, oldest version first. */
  datatype Shelf<C, F> = Shelf(active: map<string, History<C, F>>, deleted: map<string, Deleted<C, F>>)

  // ----- histories -----

  function Latest<C, F>(h: History<C, F>): Record<C, F>
    requires h != []
  {
    h[|h| - 1]
  }

  /** The first position from `from` on with the given version id. */
  function FirstFrom<C, F>(h: History<C, F>, version: string, from: nat): (r: Option<nat>)
    requires from <= |h|
    ensures r.Some? ==> from <= r.value < |h| && h[r.value].version == version
    ensures r.Some? ==> forall k :: from <= k < r.value ==> h[k].version != version
    ensures r == None ==> forall k :: from <= k < |h| ==> h[k].version != version
    decreases |h| - from
  {
    if from == |h| then None else if h[from].version == version then Some(from) else FirstFrom(h, version, from + 1)
  }

  /** The version an operation addresses: the latest if none is given. */
  function Find<C, F>(h: History<C, F>, version: string): (r: Option<nat>)
    ensures r.Some? ==> r.value < |h|
  {
    if version == "" then (if h == [] then None else Some(|h| - 1)) else FirstFrom(h, version, 0)
  }

  function Lookup<C, F>(s: Shelf<C, F>, name: string, version: string): (r: Option<nat>)
    ensures r.Some? ==> name in s.active && r.value < |s.active[name]|
  {
    if name in s.active then Find(s.active[name], version) else None
  }

  // ----- the representation invariant -----

  predicate Stamped(a: Attributes) {
    a.recoveryLevel == RECOVERY_LEVEL && a.recoverableDays == RECOVERABLE_DAYS
  }

  /** At least one version, each under its own name. */
  predicate Filed<C, F>(h: History<C, F>, name: string) {
    h != [] && forall i :: 0 <= i < |h| ==> h[i].name == name && Stamped(h[i].attributes)
  }

  predicate Sound<C, F>(s: Shelf<C, F>) {
    && (forall n :: n in s.active ==> Filed(s.active[n], n))
    && (forall n :: n in s.deleted ==> Filed(s.deleted[n].versions, n))
  }

  // ----- the operations -----

  function HistoryOf<C, F>(s: Shelf<C, F>, name: string): History<C, F> {
    if name in s.active then s.active[name] else []
  }

  /** Appends a version, whether or not the name is deleted (`putSecretVersion`, `putKeyVersion`). */
  function Appended<C, F>(s: Shelf<C, F>, r: Record<C, F>): Shelf<C, F> {
    s.(active := s.active[r.name := HistoryOf(s, r.name) + [r]])
  }

  /**
   * `SetSecret`, `CreateKey`, `ImportKey`: `complete` says that the other required field is there,
   * `made` is the content, absent if key generation or import failed.
   */
  function Put<C, F>(s: Shelf<C, F>, name: string, complete: bool, made: Option<(C, F)>, version: string,
                     attrs: Option<Attributes>, tags: Tags, now: int)
    : (Shelf<C, F>, Result<Record<C, F>, Error>)
  {
    if name == "" || !complete then (s, Err(BAD_PARAMETER))
    else if name in s.deleted then (s, Err(RESERVED))
    else
      match made
      case None => (s, Err(BAD_PARAMETER))
      case Some((core, facet)) =>
        var r := Record(name, version, core, facet, BuildAttributes(attrs, now, now), tags);
        (Appended(s, r), Ok(r))
  }

  function Get<C, F>(s: Shelf<C, F>, kind: Kind, name: string, version: string): Result<Record<C, F>, Error> {
    match Lookup(s, name, version)
    case None => Err(NotFound(kind))
    case Some(i) => Ok(s.active[name][i])
  }

  function Revised<C, F>(r: Record<C, F>, facet: Option<F>, attrs: Option<Attributes>, tags: Tags,
                         now: int): Record<C, F> {
    r.(facet := if facet.Some? then facet.value else r.facet,
       tags := if tags.Some? then tags else r.tags,
       attributes := MergeAttributes(r.attributes, attrs, now))
  }

  function Update<C, F>(s: Shelf<C, F>, kind: Kind, name: string, version: string, facet: Option<F>,
                        attrs: Option<Attributes>, tags: Tags, now: int)
    : (Shelf<C, F>, Result<Record<C, F>, Error>)
  {
    match Lookup(s, name, version)
    case None => (s, Err(NotFound(kind)))
    case Some(i) =>
      var r := Revised(s.active[name][i], facet, attrs, tags, now);
      (s.(active := s.active[name := s.active[name][i := r]]), Ok(r))
  }

  /** `UpdateCertificatePolicy`: the latest version's facet and update time. */
  function SetFacet<C, F>(s: Shelf<C, F>, kind: Kind, name: string, facet: F, now: int): (Shelf<C, F>, Result<F, Error>)
    requires Sound(s)
  {
    if name !in s.active then (s, Err(NotFound(kind)))
    else
      var h := s.active[name];
      var r := Latest(h).(facet := facet, attributes := Latest(h).attributes.(updated := now));
      (s.(active := s.active[name := h[|h| - 1 := r]]), Ok(facet))
  }

  function DeletedView<C, F>(d: Deleted<C, F>): DeletedRecord<C, F>
    requires d.versions != []
  {
    DeletedRecord(Latest(d.versions), d.recoveryId, d.deletedDate, d.scheduledPurgeDate)
  }

  function Delete<C, F>(s: Shelf<C, F>, kind: Kind, name: string, recoveryId: string, now: int)
    : (Shelf<C, F>, Result<DeletedRecord<C, F>, Error>)
    requires Sound(s)
  {
    if name !in s.active || name in s.deleted then (s, Err(NotFound(kind)))
    else
      var d := Deleted(s.active[name], recoveryId, now, now + PURGE_DELAY);
      (Shelf(s.active - {name}, s.deleted[name := d]), Ok(DeletedView(d)))
  }

  function GetDeleted<C, F>(s: Shelf<C, F>, kind: Kind, name: string): Result<DeletedRecord<C, F>, Error>
    requires Sound(s)
  {
    if name !in s.deleted then Err(NotFound(kind)) else Ok(DeletedView(s.deleted[name]))
  }

  function Purge<C, F>(s: Shelf<C, F>, kind: Kind, name: string): (Shelf<C, F>, Option<Error>) {
    if name !in s.deleted then (s, Some(NotFound(kind))) else (s.(deleted := s.deleted - {name}), None)
  }

  function Recover<C, F>(s: Shelf<C, F>, kind: Kind, name: string): (Shelf<C, F>, Result<Record<C, F>, Error>)
    requires Sound(s)
  {
    if name in s.active then (s, Err(CONFLICT))
    else if name !in s.deleted then (s, Err(NotFound(kind)))
    else
      var h := s.deleted[name].versions;
      (Shelf(s.active[name := h], s.deleted - {name}), Ok(Latest(h)))
  }

  function BackUp<C, F>(s: Shelf<C, F>, kind: Kind, name: string): Result<Backup<C, F>, Error> {
    if name !in s.active then Err(NotFound(kind)) else Ok(Backup(name, s.active[name]))
  }

  /** A restored version: filed under the backup's name with the vault's own recovery settings. */
  function Restored<C, F>(r: Record<C, F>, name: string): Record<C, F> {
    r.(name := name, attributes := Recoverable(r.attributes))
  }

  function RestoredHistory<C, F>(b: Backup<C, F>): History<C, F> {
    seq(|b.versions|, i requires 0 <= i < |b.versions| => Restored(b.versions[i], b.name))
  }

  predicate Restorable<C, F>(token: Option<Backup<C, F>>) {
    token.Some? && token.value.name != "" && token.value.versions != []
  }

  /** `RestoreSecret`; the token is what its decoding yields, if it decodes. */
  function Restore<C, F>(s: Shelf<C, F>, token: Option<Backup<C, F>>): (Shelf<C, F>, Result<Record<C, F>, Error>) {
    if !Restorable(token) then (s, Err(BAD_PARAMETER))
    else
      var h := RestoredHistory(token.value);
      (Shelf(s.active[token.value.name := h], s.deleted - {token.value.name}), Ok(Latest(h)))
  }

  function Blanked<C, F>(r: Record<C, F>, blank: C -> C): Record<C, F> {
    r.(core := blank(r.core))
  }

  /** The latest version of each listed name, its value blanked out. */
  function Latests<C, F>(s: Shelf<C, F>, names: seq<string>, blank: C -> C): (r: seq<Record<C, F>>)
    requires Sound(s) && forall n :: n in names ==> n in s.active
    ensures |r| == |names|
  {
    seq(|names|, i requires 0 <= i < |names| => Blanked(Latest(s.active[names[i]]), blank))
  }

  function DeletedLatests<C, F>(s: Shelf<C, F>, names: seq<string>, blank: C -> C): (r: seq<DeletedRecord<C, F>>)
    requires Sound(s) && forall n :: n in names ==> n in s.deleted
    ensures |r| == |names|
  {
    seq(|names|, i requires 0 <= i < |names| =>
      var view := DeletedView(s.deleted[names[i]]); view.(record := Blanked(view.record, blank)))
  }

  /** Newest first, values blanked out. */
  function Newest<C, F>(h: History<C, F>, blank: C -> C): seq<Record<C, F>> {
    seq(|h|, i requires 0 <= i < |h| => Blanked(h[|h| - 1 - i], blank))
  }

  /** The page of sorted names that a listing covers. */
  ghost function NamePage(names: set<string>, skipToken: string, maxResults: int)
    : (r: Result<(seq<string>, Option<string>), Error>)
    ensures r.Ok? ==> forall n :: n in r.value.0 ==> n in names
  {
    Names.SortedIsAscending(names);
    match Paging.Paginate(Names.Sorted(names), skipToken, maxResults)
    case Err(_) => Err(BAD_PARAMETER)
    case Ok(page) => Ok(page)
  }

  ghost function List<C, F>(s: Shelf<C, F>, blank: C -> C, skipToken: string, maxResults: int)
    : Result<(seq<Record<C, F>>, Option<string>), Error>
    requires Sound(s)
  {
    match NamePage(s.active.Keys, skipToken, maxResults)
    case Err(e) => Err(e)
    case Ok((page, next)) => Ok((Latests(s, page, blank), next))
  }

  ghost function ListDeleted<C, F>(s: Shelf<C, F>, blank: C -> C, skipToken: string, maxResults: int)
    : Result<(seq<DeletedRecord<C, F>>, Option<string>), Error>
    requires Sound(s)
  {
    match NamePage(s.deleted.Keys, skipToken, maxResults)
    case Err(e) => Err(e)
    case Ok((page, next)) => Ok((DeletedLatests(s, page, blank), next))
  }

  function ListVersions<C, F>(s: Shelf<C, F>, kind: Kind, blank: C -> C, name: string, skipToken: string,
                              maxResults: int)
    : Result<(seq<Record<C, F>>, Option<string>), Error>
  {
    if name !in s.active then Err(NotFound(kind))
    else match Paging.Paginate(Newest(s.active[name], blank), skipToken, maxResults)
      case Err(_) => Err(BAD_PARAMETER)
      case Ok(page) => Ok(page)
  }

  // ----- runs of operations -----

  datatype Op<C, F> =
    | PutOp(name: string, complete: bool, made: Option<(C, F)>, version: string, attrs: Option<Attributes>, tags: Tags, now: int)
    | AppendOp(record: Record<C, F>)
    | GetOp(name: string, version: string)
    | UpdateOp(name: string, version: string, facet: Option<F>, attrs: Option<Attributes>, tags: Tags, now: int)
    | DeleteOp(name: string, recoveryId: string, now: int)
    | GetDeletedOp(name: string)
    | PurgeOp(name: string)
    | RecoverOp(name: string)
    | BackupOp(name: string)
    | RestoreOp(token: Option<Backup<C, F>>)
    | ListOp(skipToken: string, maxResults: int)
    | ListVersionsOp(name: string, skipToken: string, maxResults: int)
    | ListDeletedOp(skipToken: string, maxResults: int)

  datatype Response<C, F> =
    | Failed(error: Error)
    | Done
    | One(record: Record<C, F>)
    | OneDeleted(deleted: DeletedRecord<C, F>)
    | Many(records: seq<Record<C, F>>, next: Option<string>)
    | ManyDeleted(deletedRecords: seq<DeletedRecord<C, F>>, next: Option<string>)
    | Token(backup: Backup<C, F>)

  function AsOne<C, F>(r: Result<Record<C, F>, Error>): Response<C, F> {
    match r case Ok(x) => One(x) case Err(e) => Failed(e)
  }

  function AsDeleted<C, F>(r: Result<DeletedRecord<C, F>, Error>): Response<C, F> {
    match r case Ok(x) => OneDeleted(x) case Err(e) => Failed(e)
  }

  function AsMany<C, F>(r: Result<(seq<Record<C, F>>, Option<string>), Error>): Response<C, F> {
    match r case Ok((page, next)) => Many(page, next) case Err(e) => Failed(e)
  }

  function AsManyDeleted<C, F>(r: Result<(seq<DeletedRecord<C, F>>, Option<string>), Error>): Response<C, F> {
    match r case Ok((page, next)) => ManyDeleted(page, next) case Err(e) => Failed(e)
  }

  function AsToken<C, F>(r: Result<Backup<C, F>, Error>): Response<C, F> {
    match r case Ok(b) => Token(b) case Err(e) => Failed(e)
  }

  function AsDone<C, F>(r: Option<Error>): Response<C, F> {
    match r case None => Done case Some(e) => Failed(e)
  }

  /** The tokens a response gives out. */
  ghost function IssuedTo<C, F>(r: Response<C, F>): set<Backup<C, F>> {
    match r
    case Token(b) => {b}
    case _ => {}
  }

  ghost function Step<C, F>(s: Shelf<C, F>, kind: Kind, blank: C -> C, op: Op<C, F>): (Shelf<C, F>, Response<C, F>)
    requires Sound(s)
  {
    match op
    case PutOp(name, complete, made, version, attrs, tags, now) =>
      var (s', r) := Put(s, name, complete, made, version, attrs, tags, now); (s', AsOne(r))
    case AppendOp(r) => (Appended(s, r), One(r))
    case GetOp(name, version) => (s, AsOne(Get(s, kind, name, version)))
    case UpdateOp(name, version, facet, attrs, tags, now) =>
      var (s', r) := Update(s, kind, name, version, facet, attrs, tags, now); (s', AsOne(r))
    case DeleteOp(name, recoveryId, now) => var (s', r) := Delete(s, kind, name, recoveryId, now); (s', AsDeleted(r))
    case GetDeletedOp(name) => (s, AsDeleted(GetDeleted(s, kind, name)))
    case PurgeOp(name) => var (s', r) := Purge(s, kind, name); (s', AsDone(r))
    case RecoverOp(name) => var (s', r) := Recover(s, kind, name); (s', AsOne(r))
    case BackupOp(name) => (s, AsToken(BackUp(s, kind, name)))
    case RestoreOp(token) => var (s', r) := Restore(s, token); (s', AsOne(r))
    case ListOp(skip, max) => (s, AsMany(List(s, blank, skip, max)))
    case ListVersionsOp(name, skip, max) => (s, AsMany(ListVersions(s, kind, blank, name, skip, max)))
    case ListDeletedOp(skip, max) => (s, AsManyDeleted(ListDeleted(s, blank, skip, max)))
  }

  /** What a caller that writes a version directly must pass: a record with the vault's recovery settings. */
  predicate Fit<C, F>(op: Op<C, F>) {
    op.AppendOp? ==> Stamped(op.record.attributes)
  }

  lemma StepKeepsSound<C, F>(s: Shelf<C, F>, kind: Kind, blank: C -> C, op: Op<C, F>)
    requires Sound(s) && Fit(op)
    ensures Sound(Step(s, kind, blank, op).0)
  {
  }

  lemma AppendedSound<C, F>(s: Shelf<C, F>, r: Record<C, F>)
    requires Sound(s) && Stamped(r.attributes)
    ensures Sound(Appended(s, r))
  {
  }

  // ----- what a step carries over -----

  /** The same version: name, id, content and creation time. */
  predicate Same<C(==), F>(r: Record<C, F>, r': Record<C, F>) {
    r'.name == r.name && r'.version == r.version && r'.core == r.core && r'.attributes.created == r.attributes.created
  }

  /** `h'` is `h` with versions added at the end only. */
  predicate Extends<C(==), F>(h: History<C, F>, h': History<C, F>) {
    |h| <= |h'| && forall i :: 0 <= i < |h| ==> Same(h[i], h'[i])
  }

  predicate Within<C(==), F>(h: Option<History<C, F>>, h': Option<History<C, F>>) {
    h.Some? ==> h'.Some? && Extends(h.value, h'.value)
  }

  function ActiveOf<C, F>(s: Shelf<C, F>, n: string): Option<History<C, F>> {
    if n in s.active then Some(s.active[n]) else None
  }

  function DeletedOf<C, F>(s: Shelf<C, F>, n: string): Option<History<C, F>> {
    if n in s.deleted then Some(s.deleted[n].versions) else None
  }

  /**
   * Both histories of a name, the active and the deleted one, are still there under that name,
   * in place or having changed sides, with versions added at the end only. When a name has both
   * at once they remain two.
   */
  predicate Carried<C(==), F>(s: Shelf<C, F>, s': Shelf<C, F>, n: string) {
    || (Within(ActiveOf(s, n), ActiveOf(s', n)) && Within(DeletedOf(s, n), DeletedOf(s', n)))
    || (Within(ActiveOf(s, n), DeletedOf(s', n)) && Within(DeletedOf(s, n), ActiveOf(s', n)))
  }

  /** The operations that may take versions of `n` away. */
  predicate Frees<C, F>(op: Op<C, F>, n: string) {
    op == PurgeOp(n) || (op.RestoreOp? && op.token.Some? && op.token.value.name == n)
  }

  lemma WithinTransitive<C, F>(a: Option<History<C, F>>, b: Option<History<C, F>>, c: Option<History<C, F>>)
    requires Within(a, b) && Within(b, c)
    ensures Within(a, c)
  {
  }

  lemma CarriedTransitive<C, F>(a: Shelf<C, F>, b: Shelf<C, F>, c: Shelf<C, F>, n: string)
    requires Carried(a, b, n) && Carried(b, c, n)
    ensures Carried(a, c, n)
  {
    var a0, a1 := ActiveOf(a, n), DeletedOf(a, n);
    var b0, b1 := ActiveOf(b, n), DeletedOf(b, n);
    var c0, c1 := ActiveOf(c, n), DeletedOf(c, n);
    var straight := Within(b0, c0) && Within(b1, c1);
    if Within(a0, b0) && Within(a1, b1) {
      WithinTransitive(a0, b0, if straight then c0 else c1);
      WithinTransitive(a1, b1, if straight then c1 else c0);
    } else {
      WithinTransitive(a0, b1, if straight then c1 else c0);
      WithinTransitive(a1, b0, if straight then c0 else c1);
    }
  }

  lemma UnchangedCarries<C, F>(s: Shelf<C, F>, n: string)
    ensures Carried(s, s, n)
  {
    assert Within(ActiveOf(s, n), ActiveOf(s, n)) && Within(DeletedOf(s, n), DeletedOf(s, n));
  }

  lemma AppendedCarries<C, F>(s: Shelf<C, F>, r: Record<C, F>, n: string)
    ensures Carried(s, Appended(s, r), n)
  {
    assert Within(ActiveOf(s, n), ActiveOf(Appended(s, r), n));
    assert Within(DeletedOf(s, n), DeletedOf(Appended(s, r), n));
  }

  lemma UpdateCarries<C, F>(s: Shelf<C, F>, kind: Kind, name: string, version: string, facet: Option<F>,
                            attrs: Option<Attributes>, tags: Tags, now: int, n: string)
    ensures Carried(s, Update(s, kind, name, version, facet, attrs, tags, now).0, n)
  {
    var s' := Update(s, kind, name, version, facet, attrs, tags, now).0;
    assert Within(ActiveOf(s, n), ActiveOf(s', n)) && Within(DeletedOf(s, n), DeletedOf(s', n));
  }

  lemma DeleteCarries<C, F>(s: Shelf<C, F>, kind: Kind, name: string, recoveryId: string, now: int, n: string)
    requires Sound(s)
    ensures Carried(s, Delete(s, kind, name, recoveryId, now).0, n)
  {
    var s' := Delete(s, kind, name, recoveryId, now).0;
    if n == name && s' != s {
      assert Within(ActiveOf(s, n), DeletedOf(s', n)) && Within(DeletedOf(s, n), ActiveOf(s', n));
    } else {
      assert ActiveOf(s, n) == ActiveOf(s', n) && DeletedOf(s, n) == DeletedOf(s', n);
      UnchangedCarries(s, n);
    }
  }

  lemma RecoverCarries<C, F>(s: Shelf<C, F>, kind: Kind, name: string, n: string)
    requires Sound(s)
    ensures Carried(s, Recover(s, kind, name).0, n)
  {
    var s' := Recover(s, kind, name).0;
    if n == name && s' != s {
      assert Within(ActiveOf(s, n), DeletedOf(s', n)) && Within(DeletedOf(s, n), ActiveOf(s', n));
    } else {
      assert ActiveOf(s, n) == ActiveOf(s', n) && DeletedOf(s, n) == DeletedOf(s', n);
      UnchangedCarries(s, n);
    }
  }

  lemma PutCarries<C, F>(s: Shelf<C, F>, name: string, complete: bool, made: Option<(C, F)>, version: string,
                         attrs: Option<Attributes>, tags: Tags, now: int, n: string)
    ensures Carried(s, Put(s, name, complete, made, version, attrs, tags, now).0, n)
  {
    hide Carried;
    UnchangedCarries(s, n);
    if made.Some? {
      AppendedCarries(s, Record(name, version, made.value.0, made.value.1, BuildAttributes(attrs, now, now), tags), n);
    }
  }

  /** What two shelves hold alike of a name is carried. */
  lemma AlikeCarries<C, F>(s: Shelf<C, F>, s': Shelf<C, F>, n: string)
    requires ActiveOf(s, n) == ActiveOf(s', n) && DeletedOf(s, n) == DeletedOf(s', n)
    ensures Carried(s, s', n)
  {
    UnchangedCarries(s, n);
  }

  lemma PurgeCarries<C, F>(s: Shelf<C, F>, kind: Kind, name: string, n: string)
    requires n != name
    ensures Carried(s, Purge(s, kind, name).0, n)
  {
    hide Carried;
    AlikeCarries(s, Purge(s, kind, name).0, n);
  }

  lemma RestoreCarries<C, F>(s: Shelf<C, F>, token: Option<Backup<C, F>>, n: string)
    requires token.Some? ==> n != token.value.name
    ensures Carried(s, Restore(s, token).0, n)
  {
    hide Carried, RestoredHistory;
    AlikeCarries(s, Restore(s, token).0, n);
  }

  /** No operation takes a version of a name away except by purging or restoring that name. */
  lemma StepCarries<C, F>(s: Shelf<C, F>, kind: Kind, blank: C -> C, op: Op<C, F>, n: string)
    requires Sound(s) && !Frees(op, n)
    ensures Carried(s, Step(s, kind, blank, op).0, n)
  {
    hide Carried, Sound, Put, Update, Delete, Recover, Purge, Restore;
    UnchangedCarries(s, n);
    match op
    case PutOp(name, complete, made, version, attrs, tags, now) =>
      PutCarries(s, name, complete, made, version, attrs, tags, now, n);
    case AppendOp(r) => AppendedCarries(s, r, n);
    case UpdateOp(name, version, facet, attrs, tags, now) =>
      UpdateCarries(s, kind, name, version, facet, attrs, tags, now, n);
    case DeleteOp(name, recoveryId, now) => DeleteCarries(s, kind, name, recoveryId, now, n);
    case RecoverOp(name) => RecoverCarries(s, kind, name, n);
    case PurgeOp(name) => PurgeCarries(s, kind, name, n);
    case RestoreOp(token) => RestoreCarries(s, token, n);
    case _ =>
  }

  /** The name holds a version with this id and content, active or deleted. */
  predicate Holds<C(==), F>(s: Shelf<C, F>, n: string, version: string, core: C, created: int) {
    || (n in s.active && exists i :: 0 <= i < |s.active[n]| && Identity(s.active[n][i], version, core, created))
    || (n in s.deleted && exists i :: 0 <= i < |s.deleted[n].versions| && Identity(s.deleted[n].versions[i], version, core, created))
  }

  predicate Identity<C(==), F>(r: Record<C, F>, version: string, core: C, created: int) {
    r.version == version && r.core == core && r.attributes.created == created
  }

  lemma CarriedHolds<C, F>(s: Shelf<C, F>, s': Shelf<C, F>, n: string, version: string, core: C, created: int)
    requires Carried(s, s', n) && Holds(s, n, version, core, created)
    ensures Holds(s', n, version, core, created)
  {
    if n in s.active && exists i :: 0 <= i < |s.active[n]| && Identity(s.active[n][i], version, core, created) {
      var i :| 0 <= i < |s.active[n]| && Identity(s.active[n][i], version, core, created);
      WithinHolds(s', n, ActiveOf(s, n), i, version, core, created);
    } else {
      var i :| 0 <= i < |s.deleted[n].versions| && Identity(s.deleted[n].versions[i], version, core, created);
      WithinHolds(s', n, DeletedOf(s, n), i, version, core, created);
    }
  }

  lemma WithinHolds<C, F>(s': Shelf<C, F>, n: string, h: Option<History<C, F>>, i: nat, version: string, core: C,
                          created: int)
    requires h.Some? && i < |h.value| && Identity(h.value[i], version, core, created)
    requires Within(h, ActiveOf(s', n)) || Within(h, DeletedOf(s', n))
    ensures Holds(s', n, version, core, created)
  {
    if Within(h, ActiveOf(s', n)) {
      assert Same(h.value[i], s'.active[n][i]);
    } else {
      assert Same(h.value[i], s'.deleted[n].versions[i]);
    }
  }

  // ----- what single operations touch and undo -----

  /** What is given replaces, what is not given stays; only the update time moves. */
  ghost predicate Merged<C, F>(before: Record<C, F>, after: Record<C, F>, facet: Option<F>, attrs: Option<Attributes>,
                               tags: Tags, now: int) {
    var (a, b) := (before.attributes, after.attributes);
    && (if facet.Some? then after.facet == facet.value else after.facet == before.facet)
    && (if tags.Some? then after.tags == tags else after.tags == before.tags)
    && (if attrs.Some? && attrs.value.enabled.Some? then b.enabled == attrs.value.enabled else b.enabled == a.enabled)
    && (if attrs.Some? && attrs.value.notBefore.Some? then b.notBefore == attrs.value.notBefore else b.notBefore == a.notBefore)
    && (if attrs.Some? && attrs.value.expires.Some? then b.expires == attrs.value.expires else b.expires == a.expires)
    && b.created == a.created && b.updated == now
    && b.recoveryLevel == "Recoverable+Purgeable" && b.recoverableDays == 90
  }

  /** What the request says of the attributes, field by field, and the vault's own recovery settings. */
  predicate Given(a: Attributes, attrs: Option<Attributes>) {
    && a.enabled == (if attrs.Some? then attrs.value.enabled else None)
    && a.notBefore == (if attrs.Some? then attrs.value.notBefore else None)
    && a.expires == (if attrs.Some? then attrs.value.expires else None)
    && a.recoveryLevel == "Recoverable+Purgeable" && a.recoverableDays == 90
  }

  lemma BuiltAttributes(attrs: Option<Attributes>, created: int, updated: int)
    ensures var a := BuildAttributes(attrs, created, updated);
            Given(a, attrs) && a.created == created && a.updated == updated
  {
  }

  /**
   * A put that succeeds is what an unversioned get returns next, after every earlier version of the
   * name, and leaves every other name alone; one that fails changes nothing.
   */
  lemma PutThenGet<C, F>(s: Shelf<C, F>, kind: Kind, name: string, complete: bool, made: Option<(C, F)>,
                         version: string,
                         attrs: Option<Attributes>, tags: Tags, now: int)
    requires Sound(s)
    ensures var (s', r) := Put(s, name, complete, made, version, attrs, tags, now);
            && (r.Ok? <==> name != "" && complete && name !in s.deleted && made.Some?)
            && (r.Err? ==> s' == s)
            && (r.Ok? ==>
                  && Sound(s')
                  && Get(s', kind, name, "") == r
                  && r.value.version == version && made == Some((r.value.core, r.value.facet)) && r.value.tags == tags
                  && r.value.attributes.created == r.value.attributes.updated == now
                  && Given(r.value.attributes, attrs)
                  && HistoryOf(s', name) == HistoryOf(s, name) + [r.value]
                  && s'.deleted == s.deleted
                  && forall n :: n != name ==> HistoryOf(s', n) == HistoryOf(s, n))
  {
    hide Sound, Appended, HistoryOf, Get;
    var r := Put(s, name, complete, made, version, attrs, tags, now).1;
    if r.Ok? {
      AppendedSound(s, r.value);
      AppendedOnTop(s, kind, r.value);
    }
  }

  /** An appended version is the latest of its name, above the versions there were; other names stay. */
  lemma AppendedOnTop<C, F>(s: Shelf<C, F>, kind: Kind, r: Record<C, F>)
    ensures var s' := Appended(s, r);
            && Get(s', kind, r.name, "") == Ok(r)
            && HistoryOf(s', r.name) == HistoryOf(s, r.name) + [r]
            && s'.deleted == s.deleted
            && forall n :: n != r.name ==> HistoryOf(s', n) == HistoryOf(s, n)
  {
  }

  /** An update changes attributes, tags and facet of the one version it addresses, and nothing else. */
  lemma UpdateTouchesOne<C, F>(s: Shelf<C, F>, kind: Kind, name: string, version: string, facet: Option<F>,
                               attrs: Option<Attributes>, tags: Tags, now: int)
    ensures var (s', r) := Update(s, kind, name, version, facet, attrs, tags, now);
            && s'.deleted == s.deleted && s'.active.Keys == s.active.Keys
            && (forall n :: n in s.active && n != name ==> s'.active[n] == s.active[n])
            && (r.Err? <==> Get(s, kind, name, version).Err?)
            && (r.Ok? ==>
                  var i := Lookup(s, name, version).value;
                  && |s'.active[name]| == |s.active[name]|
                  && (forall j :: 0 <= j < |s.active[name]| && j != i ==> s'.active[name][j] == s.active[name][j])
                  && Same(s.active[name][i], s'.active[name][i])
                  && Get(s', kind, name, version) == r
                  && Merged(s.active[name][i], r.value, facet, attrs, tags, now))
  {
    if Lookup(s, name, version).Some? && version != "" {
      var h, i := s.active[name], Lookup(s, name, version).value;
      var h' := Update(s, kind, name, version, facet, attrs, tags, now).0.active[name];
      FirstFromUnchanged(h, h', version, 0);
    }
  }

  /** Searching depends on the version ids only. */
  lemma {:induction false} FirstFromUnchanged<C, F>(h: History<C, F>, h': History<C, F>, version: string, from: nat)
    requires |h| == |h'| && from <= |h| && forall j :: 0 <= j < |h| ==> h[j].version == h'[j].version
    ensures FirstFrom(h, version, from) == FirstFrom(h', version, from)
    decreases |h| - from
  {
    if from < |h| {
      FirstFromUnchanged(h, h', version, from + 1);
    }
  }

  /** Recovering what was just deleted gives the shelf back, and the deleted record's own version. */
  lemma RecoverUndoesDelete<C, F>(s: Shelf<C, F>, kind: Kind, name: string, recoveryId: string, now: int)
    requires Sound(s)
    requires Delete(s, kind, name, recoveryId, now).1.Ok?
    ensures var (s', d) := Delete(s, kind, name, recoveryId, now);
            && Sound(s')
            && GetDeleted(s', kind, name) == d
            && Recover(s', kind, name) == (s, Ok(d.value.record))
            && Get(s, kind, name, "") == Ok(d.value.record)
  {
    var (s', d) := Delete(s, kind, name, recoveryId, now);
    assert s.active - {name} + map[name := s.active[name]] == s.active;
    assert s'.active[name := s.active[name]] == s.active;
    assert s'.deleted - {name} == s.deleted;
  }

  /** Restoring a backup brings back the very history that was backed up, whatever happened in between. */
  lemma RestoreBringsBack<C, F>(s: Shelf<C, F>, later: Shelf<C, F>, kind: Kind, name: string)
    requires Sound(s) && name != ""
    requires BackUp(s, kind, name).Ok?
    ensures var (s', r) := Restore(later, Some(BackUp(s, kind, name).value));
            && s'.active == later.active[name := s.active[name]]
            && s'.deleted == later.deleted - {name}
            && r == Get(s, kind, name, "")
  {
    var h := s.active[name];
    assert RestoredHistory(Backup(name, h)) == h;
  }
}
