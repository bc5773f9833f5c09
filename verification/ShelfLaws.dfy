// What each operation on the versions of one kind answers and leaves behind, in the terms of its
// caller: when it succeeds, which error it answers otherwise, and what is then in the store.
module ShelfLaws {
  import opened Wrappers
  import opened Model
  import opened Shelves
  import Names
  import Paging

  /** The error that says an item of this kind is not there. */
  predicate IsNotFound(e: Error, kind: Kind) {
    e == Error(404, if kind == Secrets then "SecretNotFound" else if kind == Keys then "KeyNotFound" else "CertificateNotFound")
  }

  /** Everything the shelf holds under other names. */
  ghost predicate OthersStay<C, F>(s: Shelf<C, F>, s': Shelf<C, F>, name: string) {
    && (forall n :: n != name ==> (n in s'.active <==> n in s.active) && (n in s.active ==> s'.active[n] == s.active[n]))
    && (forall n :: n != name ==> (n in s'.deleted <==> n in s.deleted) && (n in s.deleted ==> s'.deleted[n] == s.deleted[n]))
  }

  /** A put is refused for a missing name or field, for a deleted name, and if there is nothing to put, in this order. */
  lemma PutRefuses<C, F>(s: Shelf<C, F>, name: string, complete: bool, made: Option<(C, F)>, version: string,
                         attrs: Option<Attributes>, tags: Tags, now: int)
    ensures var r := Put(s, name, complete, made, version, attrs, tags, now).1;
            r.Err? ==>
              r.error == if name != "" && complete && name in s.deleted then Error(409, "InvalidOperation")
                         else Error(400, "BadParameter")
  {
  }

  /** A get answers the last version, or the first with the given id, of an active name. */
  lemma GetLaw<C, F>(s: Shelf<C, F>, kind: Kind, name: string, version: string)
    requires Sound(s)
    ensures var r := Get(s, kind, name, version);
            && (r.Err? ==> IsNotFound(r.error, kind))
            && (name !in s.active ==> r.Err?)
            && (name in s.active && version == "" ==> r == Ok(s.active[name][|s.active[name]| - 1]))
            && (name in s.active && version != "" ==>
                  (r.Ok? <==> exists i :: 0 <= i < |s.active[name]| && s.active[name][i].version == version))
            && (name in s.active && version != "" && r.Ok? ==>
                  exists i :: 0 <= i < |s.active[name]| && s.active[name][i] == r.value && r.value.version == version
                              && forall j :: 0 <= j < i ==> s.active[name][j].version != version)
  {
    if name in s.active {
      assert Filed(s.active[name], name);
    }
  }

  lemma UpdateRefuses<C, F>(s: Shelf<C, F>, kind: Kind, name: string, version: string, facet: Option<F>,
                            attrs: Option<Attributes>, tags: Tags, now: int)
    ensures var (s', r) := Update(s, kind, name, version, facet, attrs, tags, now);
            r.Err? ==> IsNotFound(r.error, kind) && s' == s
  {
  }

  /**
   * A delete succeeds exactly on an active name that is not deleted too; the whole history is then
   * deleted and no longer active, the answer is its last version with the recovery id, the time, and a
   * purge date 90 days later, and so is what a get of the deleted item answers from then on.
   */
  lemma DeleteLaw<C, F>(s: Shelf<C, F>, kind: Kind, name: string, recoveryId: string, now: int)
    requires Sound(s)
    ensures var (s', r) := Delete(s, kind, name, recoveryId, now);
            && (r.Ok? <==> name in s.active && name !in s.deleted)
            && (r.Err? ==> s' == s && IsNotFound(r.error, kind))
            && (r.Ok? ==>
                  && r == Ok(DeletedRecord(s.active[name][|s.active[name]| - 1], recoveryId, now, now + 7776000))
                  && Sound(s') && GetDeleted(s', kind, name) == r
                  && name !in s'.active && name in s'.deleted && s'.deleted[name].versions == s.active[name]
                  && OthersStay(s, s', name))
  {
  }

  lemma GetDeletedLaw<C, F>(s: Shelf<C, F>, kind: Kind, name: string)
    requires Sound(s)
    ensures var r := GetDeleted(s, kind, name);
            && (r.Ok? <==> name in s.deleted)
            && (r.Err? ==> IsNotFound(r.error, kind))
            && (r.Ok? ==> var d := s.deleted[name];
                          && d.versions != []
                          && r.value == DeletedRecord(d.versions[|d.versions| - 1], d.recoveryId, d.deletedDate,
                                                      d.scheduledPurgeDate))
  {
    if name in s.deleted {
      assert Filed(s.deleted[name].versions, name);
    }
  }

  /** A purge forgets the deleted history, and nothing active. */
  lemma PurgeLaw<C, F>(s: Shelf<C, F>, kind: Kind, name: string)
    requires Sound(s)
    ensures var (s', e) := Purge(s, kind, name);
            && (e == None <==> name in s.deleted)
            && (e.Some? ==> s' == s && IsNotFound(e.value, kind))
            && (e == None ==> s'.active == s.active && name !in s'.deleted && OthersStay(s, s', name))
  {
  }

  /** A recover succeeds exactly on a deleted name that is not active; an active one is a conflict, deleted or not. */
  lemma RecoverLaw<C, F>(s: Shelf<C, F>, kind: Kind, name: string)
    requires Sound(s)
    ensures var (s', r) := Recover(s, kind, name);
            && (r.Ok? <==> name in s.deleted && name !in s.active)
            && (r.Err? ==> s' == s)
            && (name in s.active ==> r == Err(Error(409, "Conflict")))
            && (name !in s.active && name !in s.deleted ==> IsNotFound(r.error, kind))
            && (r.Ok? ==> && name in s'.active && s'.active[name] == s.deleted[name].versions && name !in s'.deleted
                          && Sound(s') && Get(s', kind, name, "") == r && OthersStay(s, s', name))
  {
  }

  /** A backup is the name and its whole history; a restore of it puts all of that back. */
  lemma BackUpLaw<C, F>(s: Shelf<C, F>, kind: Kind, name: string)
    ensures var r := BackUp(s, kind, name);
            && (r.Ok? <==> name in s.active)
            && (r.Err? ==> IsNotFound(r.error, kind))
            && (r.Ok? ==> r.value.name == name && r.value.versions == s.active[name])
  {
  }

  /**
   * A restore succeeds exactly on a token that decodes to a named, non-empty history; then that history
   * replaces the active one and drops the deleted one, each version under the token's name, with its own
   * content, id, dates and tags, and with the vault's recovery settings.
   */
  lemma RestoreLaw<C, F>(s: Shelf<C, F>, kind: Kind, token: Option<Backup<C, F>>, i: nat)
    ensures var (s', r) := Restore(s, token);
            && (r.Ok? <==> token.Some? && token.value.name != "" && token.value.versions != [])
            && (r.Err? ==> s' == s && r == Err(Error(400, "BadParameter")))
            && (r.Ok? ==>
                  var b := token.value;
                  && b.name in s'.active && |s'.active[b.name]| == |b.versions| && b.name !in s'.deleted
                  && OthersStay(s, s', b.name) && Get(s', kind, b.name, "") == r
                  && (i < |b.versions| ==>
                        var was, now := b.versions[i], s'.active[b.name][i];
                        && now.name == b.name && now.version == was.version && now.core == was.core
                        && now.facet == was.facet && now.tags == was.tags
                        && var a := was.attributes;
                           now.attributes == Attributes(a.enabled, a.notBefore, a.expires, a.created, a.updated,
                                                        "Recoverable+Purgeable", 90)))
  {
  }

  /** A policy change touches the latest version's policy and update time. */
  lemma SetFacetLaw<C, F>(s: Shelf<C, F>, kind: Kind, name: string, facet: F, now: int)
    requires Sound(s)
    ensures var (s', r) := SetFacet(s, kind, name, facet, now);
            && (r.Ok? <==> name in s.active)
            && (r.Err? ==> s' == s && IsNotFound(r.error, kind))
            && (r.Ok? ==>
                  var h, h' := s.active[name], s'.active[name];
                  && r.value == facet && OthersStay(s, s', name) && s'.deleted == s.deleted
                  && h != [] && |h'| == |h| && h'[..|h| - 1] == h[..|h| - 1]
                  && h'[|h| - 1] == h[|h| - 1].(facet := facet, attributes := h[|h| - 1].attributes.(updated := now)))
  {
    if name in s.active {
      assert Filed(s.active[name], name);
    }
  }

  // ----- listings -----

  /** A page of a set of names: they come in ascending order, each once, and the page is the token's. */
  lemma NamesListed(names: set<string>, skipToken: string, maxResults: int)
    returns (sorted: seq<string>)
    ensures forall i, j :: 0 <= i < j < |sorted| ==> Names.Less(sorted[i], sorted[j])
    ensures forall n :: n in names <==> n in sorted
    ensures var r, p := NamePage(names, skipToken, maxResults), Paging.Paginate(sorted, skipToken, maxResults);
            && (r.Ok? <==> p.Ok?) && (r.Ok? ==> r.value == p.value) && (r.Err? ==> r.error == Error(400, "BadParameter"))
  {
    Names.SortedIsAscending(names);
    sorted := Names.Sorted(names);
  }

  /** A listing shows the latest version of each name of the page, with the value blanked out. */
  lemma ListLaw<C, F>(s: Shelf<C, F>, blank: C -> C, skipToken: string, maxResults: int)
    requires Sound(s)
    ensures var r, p := List(s, blank, skipToken, maxResults), NamePage(s.active.Keys, skipToken, maxResults);
            && (r.Ok? <==> p.Ok?) && (r.Err? ==> r.error == p.error)
            && (r.Ok? ==>
                  && r.value.1 == p.value.1 && |r.value.0| == |p.value.0|
                  && forall i :: 0 <= i < |r.value.0| ==>
                       var n := p.value.0[i];
                       && n in s.active && s.active[n] != []
                       && r.value.0[i] == s.active[n][|s.active[n]| - 1].(core := blank(s.active[n][|s.active[n]| - 1].core)))
  {
    var p := NamePage(s.active.Keys, skipToken, maxResults);
    if p.Ok? {
      forall i | 0 <= i < |p.value.0|
        ensures p.value.0[i] in s.active && s.active[p.value.0[i]] != []
      {
        assert p.value.0[i] in p.value.0 && Filed(s.active[p.value.0[i]], p.value.0[i]);
      }
    }
  }

  lemma ListDeletedLaw<C, F>(s: Shelf<C, F>, blank: C -> C, skipToken: string, maxResults: int)
    requires Sound(s)
    ensures var r, p := ListDeleted(s, blank, skipToken, maxResults), NamePage(s.deleted.Keys, skipToken, maxResults);
            && (r.Ok? <==> p.Ok?) && (r.Err? ==> r.error == p.error)
            && (r.Ok? ==>
                  && r.value.1 == p.value.1 && |r.value.0| == |p.value.0|
                  && forall i :: 0 <= i < |r.value.0| ==>
                       var n := p.value.0[i];
                       && n in s.deleted && GetDeleted(s, Secrets, n).Ok?
                       && var d := GetDeleted(s, Secrets, n).value;
                          r.value.0[i] == d.(record := d.record.(core := blank(d.record.core))))
  {
    var p := NamePage(s.deleted.Keys, skipToken, maxResults);
    if p.Ok? {
      forall i | 0 <= i < |p.value.0|
        ensures p.value.0[i] in s.deleted && s.deleted[p.value.0[i]].versions != []
      {
        assert p.value.0[i] in p.value.0 && Filed(s.deleted[p.value.0[i]].versions, p.value.0[i]);
      }
    }
  }

  /** A listing of versions goes from the last to the first, values blanked out. */
  lemma ListVersionsLaw<C, F>(s: Shelf<C, F>, kind: Kind, blank: C -> C, name: string, skipToken: string, maxResults: int,
                              down: History<C, F>)
    requires name in s.active ==>
               var h := s.active[name];
               && |down| == |h|
               && forall i :: 0 <= i < |h| ==> down[i] == h[|h| - 1 - i].(core := blank(h[|h| - 1 - i].core))
    ensures var r := ListVersions(s, kind, blank, name, skipToken, maxResults);
            && (name !in s.active ==> r.Err? && IsNotFound(r.error, kind))
            && (name in s.active ==>
                  var p := Paging.Paginate(down, skipToken, maxResults);
                  r == if p.Ok? then Ok(p.value) else Err(Error(400, "BadParameter")))
  {
    if name in s.active {
      var newest := Newest(s.active[name], blank);
      forall i | 0 <= i < |down|
        ensures newest[i] == down[i]
      {
      }
      assert newest == down;
    }
  }
}
