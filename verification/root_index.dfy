/**
 * data/index/RootIndex.kt: the index of one root folder, a single map
 * `resourceAndPathById` from id to the pair (resource, path). The native
 * index (`BindingIndex.load`, `id2path`, `updateAll`) and the filesystem
 * facts `Resource.compute` consults are inputs.
 */
module RootIndexes {
  import opened Wrappers
  import opened Paths
  import opened Resources
  import ArkLib

  type Id = ArkLib.ResourceId

  datatype IndexError =
    | LoadFailed      // UnknownError: the native index could not be loaded
    | UnknownDeleted  // NullPointerException: `resourceAndPathById[id]!!` for a deleted id
    | IdCountsDiffer  // IllegalStateException: `check()` finds the two projections' id counts apart

  /** The entries `init` puts for `id2path`: every id whose resource computes. */
  function Computed<K>(id2path: map<K, Path>, info: Path -> Option<FileInfo>): map<K, (Resource<K>, Path)>
  {
    map id | id in id2path && Compute(id, id2path[id], info(id2path[id])).Ok?
      :: (Compute(id, id2path[id], info(id2path[id])).value, id2path[id])
  }

  /** Entries of `m` at the ids of `ids`. */
  function RestrictPaths<K>(m: map<K, Path>, ids: set<K>): (r: map<K, Path>)
    ensures r.Keys == m.Keys * ids
    ensures forall id :: id in r ==> r[id] == m[id]
  {
    map id | id in m && id in ids :: m[id]
  }

  /** The entries added resources become. */
  function Entries<K>(added: map<K, NewResource<K>>): (r: map<K, (Resource<K>, Path)>)
    ensures r.Keys == added.Keys
    ensures forall id :: id in r ==> r[id] == (added[id].resource, added[id].path)
  {
    map id | id in added :: (added[id].resource, added[id].path)
  }

  /** Added resources at the ids of `ids`. */
  function RestrictAdded<K>(m: map<K, NewResource<K>>, ids: set<K>): (r: map<K, NewResource<K>>)
  {
    map id | id in m && id in ids :: m[id]
  }

  /** What `updateAll` leaves: the deleted ids removed, then the added ones put. */
  function Applied<K>(m: map<K, (Resource<K>, Path)>, u: ResourceUpdates<K>): map<K, (Resource<K>, Path)>
  {
    (m - u.deleted.Keys) + Entries(u.added)
  }

  /** `init` keeps exactly the ids whose resource computes, each with its path. */
  lemma ComputedLaws<K>(id2path: map<K, Path>, info: Path -> Option<FileInfo>, id: K)
    ensures Computed(id2path, info).Keys <= id2path.Keys
    ensures id in id2path ==> (id in Computed(id2path, info) <==> Compute(id, id2path[id], info(id2path[id])).Ok?)
    ensures id in Computed(id2path, info) ==>
      Computed(id2path, info)[id] == (Compute(id, id2path[id], info(id2path[id])).value, id2path[id])
  {
  }

  /** Putting one entry after a union is putting it into the right operand. */
  lemma UnionUpdate<K, V>(a: map<K, V>, b: map<K, V>, k: K, v: V)
    ensures (a + b)[k := v] == a + b[k := v]
  {
  }

  /** One more id handled by `init`'s loop adds its entry when its resource computes. */
  lemma ComputedStep<K>(id2path: map<K, Path>, info: Path -> Option<FileInfo>, done: set<K>, id: K)
    requires id in id2path
    ensures var c := Compute(id, id2path[id], info(id2path[id]));
      Computed(RestrictPaths(id2path, done + {id}), info)
        == if c.Ok? then Computed(RestrictPaths(id2path, done), info)[id := (c.value, id2path[id])]
           else Computed(RestrictPaths(id2path, done), info)
  {
  }

  /** After an update, an id is present exactly when it was added, or was present and not deleted. */
  lemma AppliedLaws<K>(m: map<K, (Resource<K>, Path)>, u: ResourceUpdates<K>, id: K)
    ensures id in Applied(m, u) <==> id in u.added || (id in m && id !in u.deleted)
    ensures id in u.added ==> Applied(m, u)[id] == (u.added[id].resource, u.added[id].path)
    ensures id !in u.added && id !in u.deleted && id in m ==> Applied(m, u)[id] == m[id]
  {
  }

  /**
   * `wrap(raw)` over the index map `m`: each deleted id must be known
   * (`!!`) and becomes the lost (path, resource); each added id whose
   * resource computes becomes a new resource, the others are dropped.
   */
  function Wrap<K>(m: map<K, (Resource<K>, Path)>, raw: RawUpdates<K>, info: Path -> Option<FileInfo>): (r: Result<ResourceUpdates<K>, IndexError>)
    ensures r.Err? <==> !(raw.deleted <= m.Keys)
    ensures r.Ok? ==> r.value.deleted.Keys == raw.deleted
    ensures r.Ok? ==> forall id :: id in r.value.deleted ==>
      r.value.deleted[id] == LostResource(m[id].1, m[id].0)
    ensures r.Ok? ==> forall id :: id in raw.added ==>
      (id in r.value.added <==> Compute(id, raw.added[id], info(raw.added[id])).Ok?)
    ensures r.Ok? ==> forall id :: id in r.value.added ==>
      id in raw.added && r.value.added[id] == NewResource(raw.added[id], Compute(id, raw.added[id], info(raw.added[id])).value)
  {
    if !(raw.deleted <= m.Keys) then Err(UnknownDeleted)
    else
      var deleted := map id | id in raw.deleted :: LostResource(m[id].1, m[id].0);
      var added := map id | id in raw.added && Compute(id, raw.added[id], info(raw.added[id])).Ok?
        :: NewResource(raw.added[id], Compute(id, raw.added[id], info(raw.added[id])).value);
      Ok(ResourceUpdates(deleted, added))
  }

  class RootIndex {
    const path: Path
    var resourceAndPathById: map<Id, (Resource<Id>, Path)>

    constructor (path: Path)
      ensures this.path == path && resourceAndPathById == map[]
    {
      this.path := path;
      resourceAndPathById := map[];
    }

    /**
     * `init()`: fails when the native index cannot be loaded; otherwise every
     * id of `id2path` whose resource computes is put with its path, and the
     * ones that fail are skipped.
     */
    method Init(loaded: bool, id2path: map<Id, Path>, info: Path -> Option<FileInfo>) returns (r: Outcome<IndexError>)
      modifies this
      ensures !loaded ==> r == Fail(LoadFailed) && resourceAndPathById == old(resourceAndPathById)
      ensures loaded ==> r == Pass && resourceAndPathById == old(resourceAndPathById) + Computed(id2path, info)
    {
      if !loaded {
        return Fail(LoadFailed);
      }
      ghost var before := resourceAndPathById;
      var pending := id2path.Keys;
      ghost var done: set<Id> := {};
      assert RestrictPaths(id2path, done) == map[];
      assert Computed<Id>(map[], info) == map[];
      while pending != {}
        invariant pending !! done && pending + done == id2path.Keys
        invariant resourceAndPathById == before + Computed(RestrictPaths(id2path, done), info)
        decreases |pending|
      {
        pending, done := ComputeOne(before, id2path, info, pending, done);
      }
      assert RestrictPaths(id2path, done) == id2path;
      r := Check();
    }

    /** One turn of the `forEach` in `init`. */
    method ComputeOne(ghost before: map<Id, (Resource<Id>, Path)>, id2path: map<Id, Path>, info: Path -> Option<FileInfo>,
                      pending: set<Id>, ghost done: set<Id>) returns (pending': set<Id>, ghost done': set<Id>)
      requires pending != {} && pending !! done && pending + done == id2path.Keys
      requires resourceAndPathById == before + Computed(RestrictPaths(id2path, done), info)
      modifies this
      ensures pending' !! done' && pending' + done' == id2path.Keys && |pending'| < |pending|
      ensures resourceAndPathById == before + Computed(RestrictPaths(id2path, done'), info)
    {
      var id :| id in pending;
      var p := id2path[id];
      var computed := Compute(id, p, info(p));
      ComputedStep(id2path, info, done, id);
      if computed.Ok? {
        UnionUpdate(before, Computed(RestrictPaths(id2path, done), info), id, (computed.value, p));
        resourceAndPathById := resourceAndPathById[id := (computed.value, p)];
      }
      pending' := pending - {id};
      done' := done + {id};
    }

    /**
     * `updateAll()`: the wrapped updates are applied, deletions first, then
     * additions, so an id both deleted and added ends with its new value.
     */
    method UpdateAll(raw: RawUpdates<Id>, info: Path -> Option<FileInfo>) returns (r: Result<ResourceUpdates<Id>, IndexError>)
      modifies this
      ensures r == Wrap(old(resourceAndPathById), raw, info)
      ensures r.Err? ==> resourceAndPathById == old(resourceAndPathById)
      ensures r.Ok? ==> resourceAndPathById == Applied(old(resourceAndPathById), r.value)
    {
      r := Wrap(resourceAndPathById, raw, info);
      if r.Err? {
        return;
      }
      RemoveAll(r.value.deleted.Keys);
      PutAll(r.value.added);
    }

    /** `updates.deleted.forEach { resourceAndPathById.remove(id) }`. */
    method RemoveAll(ids: set<Id>)
      modifies this
      ensures resourceAndPathById == old(resourceAndPathById) - ids
    {
      var pending := ids;
      while pending != {}
        invariant pending <= ids
        invariant resourceAndPathById == old(resourceAndPathById) - (ids - pending)
        decreases |pending|
      {
        var id :| id in pending;
        resourceAndPathById := resourceAndPathById - {id};
        pending := pending - {id};
      }
    }

    /** `updates.added.forEach { resourceAndPathById[id] = resource to path }`. */
    method PutAll(added: map<Id, NewResource<Id>>)
      modifies this
      ensures resourceAndPathById == old(resourceAndPathById) + Entries(added)
    {
      ghost var before := resourceAndPathById;
      var pending := added.Keys;
      ghost var done: set<Id> := {};
      assert Entries(RestrictAdded(added, done)) == map[];
      while pending != {}
        invariant pending !! done && pending + done == added.Keys
        invariant resourceAndPathById == before + Entries(RestrictAdded(added, done))
        decreases |pending|
      {
        var id :| id in pending;
        var entry := (added[id].resource, added[id].path);
        assert Entries(RestrictAdded(added, done + {id})) == Entries(RestrictAdded(added, done))[id := entry];
        UnionUpdate(before, Entries(RestrictAdded(added, done)), id, entry);
        resourceAndPathById := resourceAndPathById[id := entry];
        pending := pending - {id};
        done := done + {id};
      }
      assert RestrictAdded(added, done) == added;
    }

    /** `allResources()`: the resource half of every entry. */
    function AllResources(): (r: map<Id, Resource<Id>>)
      reads this
      ensures r.Keys == resourceAndPathById.Keys
      ensures forall id :: id in r ==> r[id] == resourceAndPathById[id].0
    {
      map id | id in resourceAndPathById :: resourceAndPathById[id].0
    }

    /** `allPaths()`: the path half of every entry. */
    function AllPaths(): (r: map<Id, Path>)
      reads this
      ensures r.Keys == resourceAndPathById.Keys
      ensures forall id :: id in r ==> r[id] == resourceAndPathById[id].1
    {
      map id | id in resourceAndPathById :: resourceAndPathById[id].1
    }

    /** `getResource(id)`: the entry's resource, or null. */
    function GetResource(id: Id): (r: Option<Resource<Id>>)
      reads this
      ensures r.Some? <==> id in AllResources()
      ensures r.Some? ==> r.value == AllResources()[id]
    {
      if id in resourceAndPathById then Some(resourceAndPathById[id].0) else None
    }

    /** `getPath(id)`: the entry's path, or null. */
    function GetPath(id: Id): (r: Option<Path>)
      reads this
      ensures r.Some? <==> id in AllPaths()
      ensures r.Some? ==> r.value == AllPaths()[id]
    {
      if id in resourceAndPathById then Some(resourceAndPathById[id].1) else None
    }

    /** `allIds()`, the default method of `ResourceIndex`. */
    function AllIds(): (ids: set<Id>)
      reads this
      ensures ids == AllPaths().Keys
    {
      AllResources().Keys
    }

    /** `asAdded()`: one `NewResource(path, resource)` per entry. */
    function AsAdded(): (r: set<NewResource<Id>>)
      reads this
      ensures forall id :: id in resourceAndPathById ==>
        NewResource(resourceAndPathById[id].1, resourceAndPathById[id].0) in r
      ensures forall n :: n in r ==> exists id :: id in resourceAndPathById && n == NewResource(resourceAndPathById[id].1, resourceAndPathById[id].0)
    {
      set id | id in resourceAndPathById :: NewResource(resourceAndPathById[id].1, resourceAndPathById[id].0)
    }

    /**
     * `check()`: an IllegalStateException when the two projections have
     * different numbers of ids, which never happens since both come from
     * one map.
     */
    function Check(): Outcome<IndexError>
      reads this
    {
      if |AllPaths().Keys| != |AllResources().Keys| then Fail(IdCountsDiffer) else Pass
    }

    /** `check()` never throws: both id counts come from the same map. */
    lemma CheckNeverFails()
      ensures Check() == Pass
      ensures AllResources().Keys == AllPaths().Keys
    {
    }
  }
}
