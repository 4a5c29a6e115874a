/**
 * domain/index/RootIndex.kt: the older index of one root folder, kept as
 * two maps, `resourceById` and `pathById`, that `init` and `updateAll`
 * fill together. The native index and the filesystem facts
 * `Resource.compute` consults are inputs.
 */
module DomainRootIndexes {
  import opened Wrappers
  import opened Paths
  import opened Resources
  import LegacyIds
  import RootIndexes
  import Sets

  type Id = LegacyIds.ResourceId

  datatype IndexError =
    | LoadFailed      // NotImplementedError: the native index could not be loaded
    | UnknownDeleted  // NullPointerException: `pathById[id]!!` or `resourceById[id]!!` for a deleted id
    | FileMissing     // `Files.size` throws inside `Resource.compute`, which nothing catches

  /** Whether some added path has vanished, so that computing its resource throws. */
  predicate SomeMissing(added: map<Id, Path>, info: Path -> Option<FileInfo>)
  {
    exists id :: id in added && info(added[id]).None?
  }

  /**
   * `wrap(update)`: each deleted id must be known to both maps and becomes
   * the lost (path, resource); each added id whose resource computes
   * becomes a new resource, an empty file is dropped, and a vanished file
   * makes the whole update throw.
   */
  function Wrap(resourceById: map<Id, Resource<Id>>, pathById: map<Id, Path>, raw: RawUpdates<Id>,
                info: Path -> Option<FileInfo>): (r: Result<ResourceUpdates<Id>, IndexError>)
    ensures r == Err(UnknownDeleted) <==> !(raw.deleted <= pathById.Keys * resourceById.Keys)
    ensures r == Err(FileMissing) <==> raw.deleted <= pathById.Keys * resourceById.Keys && SomeMissing(raw.added, info)
    ensures r.Ok? ==> r.value.deleted.Keys == raw.deleted
    ensures r.Ok? ==> forall id :: id in r.value.deleted ==>
      r.value.deleted[id] == LostResource(pathById[id], resourceById[id])
    ensures r.Ok? ==> forall id :: id in raw.added ==>
      (id in r.value.added <==> Compute(id, raw.added[id], info(raw.added[id])).Ok?)
    ensures r.Ok? ==> forall id :: id in r.value.added ==>
      id in raw.added && r.value.added[id] == NewResource(raw.added[id], Compute(id, raw.added[id], info(raw.added[id])).value)
  {
    if !(raw.deleted <= pathById.Keys * resourceById.Keys) then Err(UnknownDeleted)
    else if SomeMissing(raw.added, info) then Err(FileMissing)
    else
      var deleted := map id | id in raw.deleted :: LostResource(pathById[id], resourceById[id]);
      var added := map id | id in raw.added && Compute(id, raw.added[id], info(raw.added[id])).Ok?
        :: NewResource(raw.added[id], Compute(id, raw.added[id], info(raw.added[id])).value);
      Ok(ResourceUpdates(deleted, added))
  }

  /** The two maps read as the single map of the newer index. */
  function Paired(resourceById: map<Id, Resource<Id>>, pathById: map<Id, Path>): map<Id, (Resource<Id>, Path)>
  {
    map id | id in resourceById && id in pathById :: (resourceById[id], pathById[id])
  }

  /**
   * Both generations wrap an update alike: on the same entries and with no
   * vanished file, the older `wrap` gives what the newer one gives.
   */
  lemma WrapsAgree(resourceById: map<Id, Resource<Id>>, pathById: map<Id, Path>, raw: RawUpdates<Id>,
                   info: Path -> Option<FileInfo>)
    requires resourceById.Keys == pathById.Keys && !SomeMissing(raw.added, info)
    ensures Wrap(resourceById, pathById, raw, info).Ok? <==> RootIndexes.Wrap(Paired(resourceById, pathById), raw, info).Ok?
    ensures Wrap(resourceById, pathById, raw, info).Ok? ==>
      Wrap(resourceById, pathById, raw, info).value == RootIndexes.Wrap(Paired(resourceById, pathById), raw, info).value
  {
    var m := Paired(resourceById, pathById);
    assert m.Keys == pathById.Keys * resourceById.Keys;
  }

  /** The resources of the added entries of `ids`. */
  function AddedResources(added: map<Id, NewResource<Id>>, ids: set<Id>): map<Id, Resource<Id>>
  {
    map id | id in added && id in ids :: added[id].resource
  }

  /** The paths of the added entries of `ids`. */
  function AddedPaths(added: map<Id, NewResource<Id>>, ids: set<Id>): map<Id, Path>
  {
    map id | id in added && id in ids :: added[id].path
  }

  /**
   * Applying an update to both maps, deletions and then additions, is
   * applying it to the single map of the newer index.
   */
  lemma PairedApplied(resourceById: map<Id, Resource<Id>>, pathById: map<Id, Path>, u: ResourceUpdates<Id>)
    requires resourceById.Keys == pathById.Keys
    ensures Paired((resourceById - u.deleted.Keys) + AddedResources(u.added, u.added.Keys),
                   (pathById - u.deleted.Keys) + AddedPaths(u.added, u.added.Keys))
            == RootIndexes.Applied(Paired(resourceById, pathById), u)
  {
    var lhs := Paired((resourceById - u.deleted.Keys) + AddedResources(u.added, u.added.Keys),
                      (pathById - u.deleted.Keys) + AddedPaths(u.added, u.added.Keys));
    var rhs := RootIndexes.Applied(Paired(resourceById, pathById), u);
    forall id | true
      ensures id in lhs <==> id in rhs
      ensures id in lhs ==> lhs[id] == rhs[id]
    {
      RootIndexes.AppliedLaws(Paired(resourceById, pathById), u, id);
    }
  }

  class RootIndex {
    const root: Path
    var resourceById: map<Id, Resource<Id>>
    var pathById: map<Id, Path>

    /** The two maps know the same ids. */
    ghost predicate SameKeys()
      reads this
    {
      resourceById.Keys == pathById.Keys
    }

    constructor (root: Path)
      ensures this.root == root && resourceById == map[] && pathById == map[]
    {
      this.root := root;
      resourceById := map[];
      pathById := map[];
    }

    /**
     * `init`: fails when the native index cannot be loaded; otherwise every
     * id of `id2path` whose resource computes is put into both maps, empty
     * files are skipped, and a vanished file throws out of the loop.
     */
    method Init(loaded: bool, id2path: map<Id, Path>, info: Path -> Option<FileInfo>) returns (r: Outcome<IndexError>)
      modifies this
      ensures !loaded ==> r == Fail(LoadFailed) && resourceById == old(resourceById) && pathById == old(pathById)
      ensures loaded ==> (r == Pass <==> !SomeMissing(id2path, info))
      ensures r.Fail? ==> r.error == LoadFailed || r.error == FileMissing
      ensures r == Pass ==> resourceById == old(resourceById) + ComputedResources(id2path, info)
      ensures r == Pass ==> pathById == old(pathById) + ComputedPaths(id2path, info)
      ensures old(SameKeys()) ==> SameKeys()
    {
      if !loaded {
        return Fail(LoadFailed);
      }
      ghost var resources0, paths0 := resourceById, pathById;
      var pending := id2path.Keys;
      ghost var done: set<Id> := {};
      WithinNothing(ComputedResources(id2path, info));
      WithinNothing(ComputedPaths(id2path, info));
      while pending != {}
        invariant pending <= id2path.Keys && done == id2path.Keys - pending
        invariant Filled(resourceById, pathById, resources0, paths0, id2path, info, done)
        decreases |pending|
      {
        var id :| id in pending;
        var missing := InitOne(id2path, info, id, done, resources0, paths0);
        if missing {
          FilledKeys(resourceById, pathById, resources0, paths0, id2path, info, done);
          return Fail(FileMissing);
        }
        Sets.PendingShrinks(id2path.Keys, pending, id);
        pending := pending - {id};
        done := done + {id};
      }
      FilledKeys(resourceById, pathById, resources0, paths0, id2path, info, done);
      FilledAll(resourceById, pathById, resources0, paths0, id2path, info, done, pending);
      r := Pass;
    }

    /**
     * One turn of `init`'s `forEach`: a vanished file stops it, changing
     * nothing more; otherwise the id's entries are put if its resource
     * computes.
     */
    method InitOne(id2path: map<Id, Path>, info: Path -> Option<FileInfo>, id: Id, ghost done: set<Id>,
                   ghost resources0: map<Id, Resource<Id>>, ghost paths0: map<Id, Path>) returns (missing: bool)
      requires id in id2path && id !in done
      requires Filled(resourceById, pathById, resources0, paths0, id2path, info, done)
      modifies this
      ensures missing <==> info(id2path[id]).None?
      ensures missing ==> resourceById == old(resourceById) && pathById == old(pathById)
      ensures !missing ==> Filled(resourceById, pathById, resources0, paths0, id2path, info, done + {id})
    {
      var p := id2path[id];
      if info(p).None? {
        return true;
      }
      missing := false;
      var computed := Compute(id, p, info(p));
      ghost var rs, ps := ComputedResources(id2path, info), ComputedPaths(id2path, info);
      assert id in rs <==> computed.Ok?;
      assert id in ps <==> computed.Ok?;
      WithinStep(rs, done, id);
      WithinStep(ps, done, id);
      if computed.Ok? {
        RootIndexes.UnionUpdate(resources0, Within(rs, done), id, computed.value);
        RootIndexes.UnionUpdate(paths0, Within(ps, done), id, p);
        pathById := pathById[id := p];
        resourceById := resourceById[id := computed.value];
      }
    }

    /**
     * `updateAll()`: the wrapped update is applied to both maps, deletions
     * first, then additions; a failed wrap changes nothing.
     */
    method UpdateAll(raw: RawUpdates<Id>, info: Path -> Option<FileInfo>) returns (r: Result<ResourceUpdates<Id>, IndexError>)
      modifies this
      ensures r == Wrap(old(resourceById), old(pathById), raw, info)
      ensures r.Err? ==> resourceById == old(resourceById) && pathById == old(pathById)
      ensures r.Ok? ==> resourceById == (old(resourceById) - r.value.deleted.Keys) + AddedResources(r.value.added, r.value.added.Keys)
      ensures r.Ok? ==> pathById == (old(pathById) - r.value.deleted.Keys) + AddedPaths(r.value.added, r.value.added.Keys)
      ensures old(SameKeys()) ==> SameKeys()
    {
      r := Wrap(resourceById, pathById, raw, info);
      if r.Err? {
        return;
      }
      RemoveAll(r.value.deleted.Keys);
      PutAll(r.value.added);
    }

    /** `updates.deleted.forEach { resourceById.remove(id); pathById.remove(id) }`. */
    method RemoveAll(ids: set<Id>)
      modifies this
      ensures resourceById == old(resourceById) - ids && pathById == old(pathById) - ids
    {
      var pending := ids;
      while pending != {}
        invariant pending <= ids
        invariant resourceById == old(resourceById) - (ids - pending)
        invariant pathById == old(pathById) - (ids - pending)
        decreases |pending|
      {
        var id :| id in pending;
        resourceById := resourceById - {id};
        pathById := pathById - {id};
        pending := pending - {id};
      }
    }

    /** `updates.added.forEach { resourceById[id] = added.resource; pathById[id] = added.path }`. */
    method PutAll(added: map<Id, NewResource<Id>>)
      modifies this
      ensures resourceById == old(resourceById) + AddedResources(added, added.Keys)
      ensures pathById == old(pathById) + AddedPaths(added, added.Keys)
    {
      ghost var resources0, paths0 := resourceById, pathById;
      var pending := added.Keys;
      assert AddedResources(added, {}) == map[] && AddedPaths(added, {}) == map[];
      while pending != {}
        invariant pending <= added.Keys
        invariant resourceById == resources0 + AddedResources(added, added.Keys - pending)
        invariant pathById == paths0 + AddedPaths(added, added.Keys - pending)
        decreases |pending|
      {
        var id :| id in pending;
        PutOne(added, id, added.Keys - pending, resources0, paths0);
        assert (added.Keys - pending) + {id} == added.Keys - (pending - {id});
        pending := pending - {id};
      }
      assert added.Keys - pending == added.Keys;
    }

    /** One turn of the additions. */
    method PutOne(added: map<Id, NewResource<Id>>, id: Id, ghost done: set<Id>,
                  ghost resources0: map<Id, Resource<Id>>, ghost paths0: map<Id, Path>)
      requires id in added
      requires resourceById == resources0 + AddedResources(added, done)
      requires pathById == paths0 + AddedPaths(added, done)
      modifies this
      ensures resourceById == resources0 + AddedResources(added, done + {id})
      ensures pathById == paths0 + AddedPaths(added, done + {id})
    {
      var rs, ps := AddedResources(added, done), AddedPaths(added, done);
      assert AddedResources(added, done + {id}) == rs[id := added[id].resource];
      assert AddedPaths(added, done + {id}) == ps[id := added[id].path];
      RootIndexes.UnionUpdate(resources0, rs, id, added[id].resource);
      RootIndexes.UnionUpdate(paths0, ps, id, added[id].path);
      resourceById := resourceById[id := added[id].resource];
      pathById := pathById[id := added[id].path];
    }

    /** `allResources()`: the stored resources as a set. */
    function AllResources(): (r: set<Resource<Id>>)
      reads this
      ensures forall id :: id in resourceById ==> resourceById[id] in r
      ensures forall x :: x in r ==> exists id :: id in resourceById && resourceById[id] == x
    {
      resourceById.Values
    }

    /** `getResource(id)`: `resourceById[id]`, or null. */
    function GetResource(id: Id): (r: Option<Resource<Id>>)
      reads this
      ensures r.Some? <==> id in resourceById
      ensures r.Some? ==> r.value == resourceById[id]
    {
      if id in resourceById then Some(resourceById[id]) else None
    }

    /** `getPath(id)`: `pathById[id]`, or null. */
    function GetPath(id: Id): (r: Option<Path>)
      reads this
      ensures r.Some? <==> id in pathById
      ensures r.Some? ==> r.value == pathById[id]
    {
      if id in pathById then Some(pathById[id]) else None
    }

    /** With equal key sets an id has a resource exactly when it has a path. */
    lemma LookupsAgree(id: Id)
      requires SameKeys()
      ensures GetResource(id).Some? <==> GetPath(id).Some?
    {
    }
  }

  /** What `init` has put once it has handled the ids of `done`, each with its file there. */
  ghost predicate Filled(resourceById: map<Id, Resource<Id>>, pathById: map<Id, Path>,
                         resources0: map<Id, Resource<Id>>, paths0: map<Id, Path>,
                         id2path: map<Id, Path>, info: Path -> Option<FileInfo>, done: set<Id>)
  {
    done <= id2path.Keys
    && (forall id :: id in done ==> info(id2path[id]).Some?)
    && resourceById == resources0 + Within(ComputedResources(id2path, info), done)
    && pathById == paths0 + Within(ComputedPaths(id2path, info), done)
  }

  /** Filling keeps the two maps on the same ids. */
  lemma FilledKeys(resourceById: map<Id, Resource<Id>>, pathById: map<Id, Path>,
                   resources0: map<Id, Resource<Id>>, paths0: map<Id, Path>,
                   id2path: map<Id, Path>, info: Path -> Option<FileInfo>, done: set<Id>)
    requires Filled(resourceById, pathById, resources0, paths0, id2path, info, done)
    ensures resources0.Keys == paths0.Keys ==> resourceById.Keys == pathById.Keys
  {
    ComputedKeys(id2path, info, done);
  }

  /** Once every id is handled, every file was there and everything computed is in. */
  lemma FilledAll(resourceById: map<Id, Resource<Id>>, pathById: map<Id, Path>,
                  resources0: map<Id, Resource<Id>>, paths0: map<Id, Path>,
                  id2path: map<Id, Path>, info: Path -> Option<FileInfo>, done: set<Id>, pending: set<Id>)
    requires pending == {} && done == id2path.Keys - pending
    requires Filled(resourceById, pathById, resources0, paths0, id2path, info, done)
    ensures !SomeMissing(id2path, info)
    ensures resourceById == resources0 + ComputedResources(id2path, info)
    ensures pathById == paths0 + ComputedPaths(id2path, info)
  {
    assert done == id2path.Keys;
    WithinAll(ComputedResources(id2path, info), id2path.Keys);
    WithinAll(ComputedPaths(id2path, info), id2path.Keys);
  }

  /** The resources `init` computes. */
  function ComputedResources(id2path: map<Id, Path>, info: Path -> Option<FileInfo>): map<Id, Resource<Id>>
  {
    map id | id in id2path && Compute(id, id2path[id], info(id2path[id])).Ok?
      :: Compute(id, id2path[id], info(id2path[id])).value
  }

  /** The paths `init` keeps: those whose resource computes. */
  function ComputedPaths(id2path: map<Id, Path>, info: Path -> Option<FileInfo>): map<Id, Path>
  {
    map id | id in id2path && Compute(id, id2path[id], info(id2path[id])).Ok? :: id2path[id]
  }

  /** Both maps `init` builds know the same ids. */
  lemma ComputedKeys(id2path: map<Id, Path>, info: Path -> Option<FileInfo>, ids: set<Id>)
    ensures Within(ComputedResources(id2path, info), ids).Keys == Within(ComputedPaths(id2path, info), ids).Keys
  {
  }

  /** The entries of `m` at the ids of `ids`. */
  function Within<V>(m: map<Id, V>, ids: set<Id>): map<Id, V>
  {
    map id | id in m && id in ids :: m[id]
  }

  /** No ids, no entries. */
  lemma WithinNothing<V>(m: map<Id, V>)
    ensures Within(m, {}) == map[]
  {
  }

  /** All the ids, all the entries. */
  lemma WithinAll<V>(m: map<Id, V>, ids: set<Id>)
    requires m.Keys <= ids
    ensures Within(m, ids) == m
  {
  }

  /** One more id handled adds its entry, if `m` has one. */
  lemma WithinStep<V>(m: map<Id, V>, done: set<Id>, id: Id)
    ensures Within(m, done + {id}) == if id in m then Within(m, done)[id := m[id]] else Within(m, done)
  {
  }

  /** `init` keeps exactly the ids whose resource computes, in both maps, and pairs them as the newer index does. */
  lemma InitKeepsComputed(id2path: map<Id, Path>, info: Path -> Option<FileInfo>)
    ensures ComputedResources(id2path, info).Keys == ComputedPaths(id2path, info).Keys
    ensures forall id :: id in id2path ==>
      (id in ComputedPaths(id2path, info) <==> Compute(id, id2path[id], info(id2path[id])).Ok?)
    ensures Paired(ComputedResources(id2path, info), ComputedPaths(id2path, info))
      == RootIndexes.Computed(id2path, info)
  {
  }
}
