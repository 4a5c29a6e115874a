/**
 * domain/index/PlainIndex.kt and domain/index/PlainResourcesIndex.kt: the
 * index of one root kept as two mutable maps, path to value
 * (`resourceByPath` / `metaByPath`) and id to path (`pathById`). Both files
 * share this bookkeeping; they differ in the value stored (a `Resource` or a
 * `ResourceMeta`, both carrying their id) and in the oracle that computes it
 * for a new path. `tryRemove` and `reindex` belong to PlainResourcesIndex.
 */
module PlainIndexes {
  import opened Wrappers
  import opened Paths
  import Sets

  datatype IndexError =
    | NullPointer  // `!!` on a missing entry
    | Diverged     // AssertionError("internal mappings are diverged")

  /** The ids among `ids` that an update adds and whose value computes, with their paths. */
  function AddedIds<K, V>(added: map<K, Path>, compute: (K, Path) -> Option<V>, ids: set<K>): map<K, Path>
  {
    map id | id in ids && id in added && compute(id, added[id]).Some? :: added[id]
  }

  /** The paths of those ids. */
  function AddedPaths<K, V>(added: map<K, Path>, compute: (K, Path) -> Option<V>, ids: set<K>): set<Path>
  {
    set id | id in ids && id in added && compute(id, added[id]).Some? :: added[id]
  }

  /** The paths `handleUpdate`'s deletions free: those of the deleted ids that are known. */
  function RemovedPaths<K>(pathById: map<K, Path>, deleted: set<K>): set<Path>
  {
    set id | id in deleted && id in pathById :: pathById[id]
  }

  /** One more deleted id frees its own path, when it has one. */
  lemma RemovedPathsStep<K>(pathById: map<K, Path>, done: set<K>, id: K)
    ensures RemovedPaths(pathById, done + {id}) ==
      RemovedPaths(pathById, done) + (if id in pathById then {pathById[id]} else {})
  {
  }

  /** One turn of the deletions: removing the id and its path keeps both maps' account. */
  lemma DeleteStep<K, V>(ids0: map<K, Path>, paths0: map<Path, V>, done: set<K>, id: K,
                         ids: map<K, Path>, paths: map<Path, V>)
    requires id !in done && ids == ids0 - done && paths == paths0 - RemovedPaths(ids0, done)
    ensures ids - {id} == ids0 - (done + {id})
    ensures id in ids ==> paths - {ids[id]} == paths0 - RemovedPaths(ids0, done + {id})
    ensures id !in ids ==> paths == paths0 - RemovedPaths(ids0, done + {id})
  {
    RemovedPathsStep(ids0, done, id);
  }

  /** No two added ids share a path. */
  ghost predicate PathsDistinct<K>(added: map<K, Path>)
  {
    forall i, j :: i in added && j in added && i != j ==> added[i] != added[j]
  }

  /**
   * The account `handleUpdate` keeps while it adds: after the added ids of
   * `done`, the id map has gained exactly their computed entries, the path
   * map has gained exactly their paths, holding the computed values, and
   * every other path keeps its value.
   */
  ghost predicate AddedSoFar<K, V>(added: map<K, Path>, compute: (K, Path) -> Option<V>, done: set<K>,
                                   ids0: map<K, Path>, paths0: map<Path, V>, ids: map<K, Path>, paths: map<Path, V>)
  {
    && ids == ids0 + AddedIds(added, compute, done)
    && paths.Keys == paths0.Keys + AddedPaths(added, compute, done)
    && (forall p :: p in paths && p !in AddedPaths(added, compute, done) ==> paths[p] == paths0[p])
    && (forall j :: j in AddedIds(added, compute, done) ==> added[j] in paths && paths[added[j]] == compute(j, added[j]).value)
  }

  /** Before the first turn nothing is added. */
  lemma AddedNothing<K, V>(added: map<K, Path>, compute: (K, Path) -> Option<V>, ids: map<K, Path>, paths: map<Path, V>)
    ensures AddedSoFar(added, compute, {}, ids, paths, ids, paths)
  {
    assert AddedIds(added, compute, {}) == map[];
    assert AddedPaths(added, compute, {}) == {};
  }

  /** One more added id handled adds its entry when its value computes. */
  lemma AddedIdsStep<K, V>(added: map<K, Path>, compute: (K, Path) -> Option<V>, done: set<K>, id: K)
    requires id in added
    ensures AddedIds(added, compute, done + {id}) ==
      if compute(id, added[id]).Some? then AddedIds(added, compute, done)[id := added[id]]
      else AddedIds(added, compute, done)
    ensures AddedPaths(added, compute, done + {id}) ==
      AddedPaths(added, compute, done) + if compute(id, added[id]).Some? then {added[id]} else {}
  {
    var ok := compute(id, added[id]).Some?;
    forall p ensures p in AddedPaths(added, compute, done + {id}) <==>
      p in AddedPaths(added, compute, done) || (ok && p == added[id])
    {
      if p in AddedPaths(added, compute, done + {id}) && p != added[id] {
        var j :| j in done + {id} && j in added && compute(j, added[j]).Some? && added[j] == p;
        assert j in done;
      }
      if ok && p == added[id] {
        assert id in done + {id};
      }
    }
  }

  /** One turn of the `mapNotNull` over the added ids keeps the account of both maps. */
  lemma AddStep<K, V>(added: map<K, Path>, compute: (K, Path) -> Option<V>, id: K, done: set<K>,
                      ids0: map<K, Path>, paths0: map<Path, V>, ids: map<K, Path>, paths: map<Path, V>,
                      ids': map<K, Path>, paths': map<Path, V>)
    requires PathsDistinct(added) && id in added && id !in done
    requires AddedSoFar(added, compute, done, ids0, paths0, ids, paths)
    requires compute(id, added[id]).Some? ==>
      ids' == ids[id := added[id]] && paths' == paths[added[id] := compute(id, added[id]).value]
    requires compute(id, added[id]).None? ==> ids' == ids && paths' == paths
    ensures AddedSoFar(added, compute, done + {id}, ids0, paths0, ids', paths')
  {
    AddedIdsStep(added, compute, done, id);
    if compute(id, added[id]).Some? {
      AddStepIds(added, compute, id, done, ids0, ids, ids');
      AddStepKept(added, compute, id, done, paths0, paths, paths');
      AddStepComputed(added, compute, id, done, paths, paths');
    }
  }

  /** The id map gains the turn's id. */
  lemma AddStepIds<K, V>(added: map<K, Path>, compute: (K, Path) -> Option<V>, id: K, done: set<K>,
                         ids0: map<K, Path>, ids: map<K, Path>, ids': map<K, Path>)
    requires id in added && compute(id, added[id]).Some?
    requires AddedIds(added, compute, done + {id}) == AddedIds(added, compute, done)[id := added[id]]
    requires ids == ids0 + AddedIds(added, compute, done)
    requires ids' == ids[id := added[id]]
    ensures ids' == ids0 + AddedIds(added, compute, done + {id})
  {
    var a := AddedIds(added, compute, done);
    assert ids0 + a[id := added[id]] == (ids0 + a)[id := added[id]];
  }

  /** The turn's path is the only one whose value changes. */
  lemma AddStepKept<K, V>(added: map<K, Path>, compute: (K, Path) -> Option<V>, id: K, done: set<K>,
                          paths0: map<Path, V>, paths: map<Path, V>, paths': map<Path, V>)
    requires id in added && compute(id, added[id]).Some?
    requires AddedPaths(added, compute, done + {id}) == AddedPaths(added, compute, done) + {added[id]}
    requires paths.Keys == paths0.Keys + AddedPaths(added, compute, done)
    requires forall p :: p in paths && p !in AddedPaths(added, compute, done) ==> paths[p] == paths0[p]
    requires paths' == paths[added[id] := compute(id, added[id]).value]
    ensures paths'.Keys == paths0.Keys + AddedPaths(added, compute, done + {id})
    ensures forall p :: p in paths' && p !in AddedPaths(added, compute, done + {id}) ==> paths'[p] == paths0[p]
  {
  }

  /** The entry the turn adds overwrites no path of the ids added before it. */
  lemma AddStepComputed<K, V>(added: map<K, Path>, compute: (K, Path) -> Option<V>, id: K, done: set<K>,
                              paths: map<Path, V>, paths': map<Path, V>)
    requires PathsDistinct(added) && id in added && id !in done && compute(id, added[id]).Some?
    requires forall j :: j in AddedIds(added, compute, done) ==> added[j] in paths && paths[added[j]] == compute(j, added[j]).value
    requires paths' == paths[added[id] := compute(id, added[id]).value]
    ensures forall j :: j in AddedIds(added, compute, done + {id}) ==> added[j] in paths' && paths'[added[j]] == compute(j, added[j]).value
  {
    forall j | j in AddedIds(added, compute, done + {id}) ensures added[j] in paths' && paths'[added[j]] == compute(j, added[j]).value {
      if j != id {
        assert j in AddedIds(added, compute, done);
      }
    }
  }

  class PlainIndex<K(==), V(==)> {
    const root: Path
    const idOf: V -> K
    var byPath: map<Path, V>
    var pathById: map<K, Path>
    var nativeIndexBuilt: bool

    /** Every id leads to a path whose value carries that id. */
    ghost predicate Consistent()
      reads this
    {
      forall id :: id in pathById ==> pathById[id] in byPath && idOf(byPath[pathById[id]]) == id
    }

    /**
     * `resources.map { (path, value) -> value.id to path }.toMap()`, the
     * entries visited in `order`: for an id held by several paths the last
     * one visited wins.
     */
    function IdIndex(resources: map<Path, V>, order: seq<Path>): (r: map<K, Path>)
      requires forall i :: 0 <= i < |order| ==> order[i] in resources
      ensures forall i :: 0 <= i < |order| ==> idOf(resources[order[i]]) in r
      ensures forall id :: id in r ==> r[id] in resources && idOf(resources[r[id]]) == id
      ensures forall id :: id in r ==> exists i :: 0 <= i < |order| && order[i] == r[id]
    {
      if order == [] then map[]
      else
        var last := order[|order| - 1];
        var r := IdIndex(resources, order[..|order| - 1])[idOf(resources[last]) := last];
        assert forall i :: 0 <= i < |order| - 1 ==> order[..|order| - 1][i] == order[i];
        r
    }

    /**
     * The constructor: `resources` as the path map, and the id map built
     * from it; `order` is the order in which the given map yields its keys.
     */
    constructor (root: Path, idOf: V -> K, resources: map<Path, V>, order: seq<Path>, nativeIndexBuilt: bool)
      requires forall p :: p in resources <==> p in order
      ensures this.root == root && this.idOf == idOf && this.nativeIndexBuilt == nativeIndexBuilt
      ensures byPath == resources
      ensures forall p :: p in resources ==> idOf(resources[p]) in pathById
      ensures pathById.Keys <= set p | p in resources :: idOf(resources[p])
      ensures Consistent()
    {
      this.root := root;
      this.idOf := idOf;
      this.nativeIndexBuilt := nativeIndexBuilt;
      byPath := resources;
      new;
      pathById := IdIndex(resources, order);
      forall p | p in resources ensures idOf(resources[p]) in pathById {
        var i :| 0 <= i < |order| && order[i] == p;
      }
    }

    /** `allResources(prefix)` / `listResources(prefix)`: the values under `prefix`, or all of them. */
    function ListResources(prefix: Option<Path>): (r: set<V>)
      reads this
      ensures forall p :: p in byPath && (prefix.None? || StartsWith(p, prefix.value)) ==> byPath[p] in r
      ensures forall v :: v in r ==> exists p :: p in byPath && (prefix.None? || StartsWith(p, prefix.value)) && byPath[p] == v
    {
      set p | p in byPath && (prefix.None? || StartsWith(p, prefix.value)) :: byPath[p]
    }

    /** Filtering by a prefix only narrows the listing; no prefix lists every stored value. */
    lemma ListingNarrows(prefix: Path)
      ensures ListResources(Some(prefix)) <= ListResources(None)
      ensures ListResources(None) == byPath.Values
    {
    }

    /** `contains(id)`. */
    predicate Contains(id: K)
      reads this
    {
      id in pathById
    }

    /** `tryGetPath(id)`: `pathById[id]`, or null. */
    function TryGetPath(id: K): (r: Option<Path>)
      reads this
      ensures r.Some? <==> Contains(id)
      ensures r.Some? ==> r.value == pathById[id]
    {
      if id in pathById then Some(pathById[id]) else None
    }

    /** `tryGetMeta(id)`: the value at the id's path, or null when either lookup misses. */
    function TryGetMeta(id: K): (r: Option<V>)
      reads this
      ensures r.Some? <==> TryGetPath(id).Some? && TryGetPath(id).value in byPath
      ensures r.Some? ==> r.value == byPath[pathById[id]]
    {
      var path := TryGetPath(id);
      if path.Some? && path.value in byPath then Some(byPath[path.value]) else None
    }

    /** In a consistent index every known id has its value, and the value carries the id. */
    lemma ConsistentLookups(id: K)
      requires Consistent()
      ensures TryGetMeta(id).Some? <==> Contains(id)
      ensures TryGetMeta(id).Some? ==> idOf(TryGetMeta(id).value) == id
    {
    }

    /** `getPath(id)`: `tryGetPath(id)!!`. */
    function GetPath(id: K): (r: Result<Path, IndexError>)
      reads this
      ensures r.Err? <==> !Contains(id)
      ensures r.Ok? ==> r.value == pathById[id]
    {
      match TryGetPath(id)
      case None => Err(NullPointer)
      case Some(p) => Ok(p)
    }

    /** `getResource(id)` / `getMeta(id)`: `tryGetMeta(id)!!`. */
    function GetMeta(id: K): (r: Result<V, IndexError>)
      reads this
      ensures r.Err? <==> TryGetMeta(id).None?
      ensures r.Ok? ==> Contains(id) && r.value == byPath[pathById[id]]
    {
      match TryGetMeta(id)
      case None => Err(NullPointer)
      case Some(v) => Ok(v)
    }

    /**
     * The update fits the index when each computed value carries its id and
     * no path the update adds is still the path of another id that stays.
     */
    ghost predicate UpdateFits(pathById0: map<K, Path>, deleted: set<K>, added: map<K, Path>, compute: (K, Path) -> Option<V>)
    {
      var ids := AddedIds(added, compute, added.Keys);
      && (forall id :: id in ids ==> idOf(compute(id, added[id]).value) == id)
      && (forall id, j :: id in ids && j in pathById0 && j !in deleted && j !in ids ==> pathById0[j] != added[id])
    }

    /**
     * What `handleUpdate(update)` leaves, against the maps before it and
     * whether they were consistent: the ids and paths the update deletes
     * and adds, the untouched paths' values kept, each added path holding
     * its computed value, and consistency kept when the update fits.
     */
    ghost predicate Handled(pathById0: map<K, Path>, byPath0: map<Path, V>, consistent0: bool,
                            update: (set<K>, map<K, Path>), compute: (K, Path) -> Option<V>)
      reads this
    {
      && pathById == (pathById0 - update.0) + AddedIds(update.1, compute, update.1.Keys)
      && byPath.Keys == (byPath0.Keys - RemovedPaths(pathById0, update.0)) + AddedPaths(update.1, compute, update.1.Keys)
      && (forall p :: p in byPath && p !in AddedPaths(update.1, compute, update.1.Keys) ==> byPath[p] == byPath0[p])
      && (forall id :: id in AddedIds(update.1, compute, update.1.Keys) ==> update.1[id] in byPath && byPath[update.1[id]] == compute(id, update.1[id]).value)
      && (consistent0 && UpdateFits(pathById0, update.0, update.1, compute) ==> Consistent())
    }

    /**
     * `handleUpdate(update)`: every deleted id leaves `pathById` and frees
     * its path, then every added id whose value computes is put into both
     * maps; ids whose value fails are skipped. The added ids have distinct
     * paths, as a scan of the root reports them.
     */
    method HandleUpdate(deleted: set<K>, added: map<K, Path>, compute: (K, Path) -> Option<V>)
      requires PathsDistinct(added)
      modifies this
      ensures pathById == (old(pathById) - deleted) + AddedIds(added, compute, added.Keys)
      ensures byPath.Keys == (old(byPath).Keys - RemovedPaths(old(pathById), deleted)) + AddedPaths(added, compute, added.Keys)
      ensures forall p :: p in byPath && p !in AddedPaths(added, compute, added.Keys) ==> byPath[p] == old(byPath)[p]
      ensures forall id :: id in AddedIds(added, compute, added.Keys) ==> byPath[added[id]] == compute(id, added[id]).value
      ensures old(Consistent()) && UpdateFits(old(pathById), deleted, added, compute) ==> Consistent()
      ensures nativeIndexBuilt == old(nativeIndexBuilt)
    {
      ghost var paths0, ids0 := byPath, pathById;
      DeleteAll(deleted);
      ghost var paths1, ids1 := byPath, pathById;
      AddAll(added, compute);
      if old(Consistent()) && UpdateFits(ids0, deleted, added, compute) {
        HandledConsistent(paths0, ids0, paths1, ids1, deleted, added, compute);
      }
    }

    /** After the deletions the survivors keep their paths; the additions complete the picture. */
    lemma HandledConsistent(paths0: map<Path, V>, ids0: map<K, Path>, paths1: map<Path, V>, ids1: map<K, Path>,
                            deleted: set<K>, added: map<K, Path>, compute: (K, Path) -> Option<V>)
      requires forall id :: id in ids0 ==> ids0[id] in paths0 && idOf(paths0[ids0[id]]) == id
      requires UpdateFits(ids0, deleted, added, compute)
      requires ids1 == ids0 - deleted && paths1 == paths0 - RemovedPaths(ids0, deleted)
      requires pathById == ids1 + AddedIds(added, compute, added.Keys)
      requires byPath.Keys == paths1.Keys + AddedPaths(added, compute, added.Keys)
      requires forall p :: p in byPath && p !in AddedPaths(added, compute, added.Keys) ==> byPath[p] == paths1[p]
      requires forall id :: id in AddedIds(added, compute, added.Keys) ==> byPath[added[id]] == compute(id, added[id]).value
      ensures Consistent()
    {
      var ids := AddedIds(added, compute, added.Keys);
      forall id | id in pathById && id !in ids ensures pathById[id] in byPath && idOf(byPath[pathById[id]]) == id {
        var q := ids0[id];
        forall d | d in deleted && d in ids0 ensures ids0[d] != q {
          assert idOf(paths0[ids0[d]]) == d;
        }
        forall a | a in ids ensures ids[a] != q {
        }
      }
    }

    /** `update.deleted.forEach { pathById.remove(id); metaByPath.remove(path) }`. */
    method DeleteAll(deleted: set<K>)
      modifies this
      ensures pathById == old(pathById) - deleted
      ensures byPath == old(byPath) - RemovedPaths(old(pathById), deleted)
      ensures nativeIndexBuilt == old(nativeIndexBuilt)
    {
      var pending := deleted;
      ghost var done: set<K> := {};
      while pending != {}
        invariant pending <= deleted && done == deleted - pending
        invariant pathById == old(pathById) - done
        invariant byPath == old(byPath) - RemovedPaths(old(pathById), done)
        invariant nativeIndexBuilt == old(nativeIndexBuilt)
        decreases |pending|
      {
        var id :| id in pending;
        DeleteStep(old(pathById), old(byPath), done, id, pathById, byPath);
        if id in pathById {
          var path := pathById[id];
          pathById := pathById - {id};
          byPath := byPath - {path};
        }
        Sets.PendingShrinks(deleted, pending, id);
        pending := pending - {id};
        done := done + {id};
      }
    }

    /** `update.added.mapNotNull { ... }`: each computed value is put into both maps. */
    method AddAll(added: map<K, Path>, compute: (K, Path) -> Option<V>)
      requires PathsDistinct(added)
      modifies this
      ensures AddedSoFar(added, compute, added.Keys, old(pathById), old(byPath), pathById, byPath)
      ensures nativeIndexBuilt == old(nativeIndexBuilt)
    {
      ghost var paths0, ids0 := byPath, pathById;
      var pending := added.Keys;
      ghost var done: set<K> := {};
      AddedNothing(added, compute, ids0, paths0);
      while pending != {}
        invariant pending <= added.Keys && done == added.Keys - pending
        invariant AddedSoFar(added, compute, done, ids0, paths0, pathById, byPath)
        invariant nativeIndexBuilt == old(nativeIndexBuilt)
        decreases |pending|
      {
        var id :| id in pending;
        AddOne(added, compute, id, done, ids0, paths0);
        pending := pending - {id};
        done := done + {id};
      }
      assert done == added.Keys;
    }

    /** One turn of the `mapNotNull`: the id's value is computed and, when it exists, put into both maps. */
    method AddOne(added: map<K, Path>, compute: (K, Path) -> Option<V>, id: K,
                  ghost done: set<K>, ghost ids0: map<K, Path>, ghost paths0: map<Path, V>)
      requires PathsDistinct(added) && id in added && id !in done
      requires AddedSoFar(added, compute, done, ids0, paths0, pathById, byPath)
      modifies this
      ensures AddedSoFar(added, compute, done + {id}, ids0, paths0, pathById, byPath)
      ensures nativeIndexBuilt == old(nativeIndexBuilt)
    {
      var path := added[id];
      var result := compute(id, path);
      ghost var paths, ids := byPath, pathById;
      if result.Some? {
        byPath := byPath[path := result.value];
        pathById := pathById[id := path];
      }
      AddStep(added, compute, id, done, ids0, paths0, ids, paths, pathById, byPath);
    }

    /**
     * `tryRemove(id)`: an unknown id gives null and changes nothing; a known
     * one loses its `pathById` entry and its path, which must hold a value
     * with that id (else NullPointerException or AssertionError, after the
     * removals); if another path still holds a value with the id, `pathById`
     * is pointed at it.
     */
    method TryRemove(id: K) returns (r: Result<Option<Path>, IndexError>)
      modifies this
      ensures id !in old(pathById) ==> r == Ok(None) && pathById == old(pathById) && byPath == old(byPath)
      ensures id in old(pathById) && old(pathById)[id] !in old(byPath) ==>
        r == Err(NullPointer) && pathById == old(pathById) - {id} && byPath == old(byPath)
      ensures id in old(pathById) && old(pathById)[id] in old(byPath) && idOf(old(byPath)[old(pathById)[id]]) != id ==>
        r == Err(Diverged) && pathById == old(pathById) - {id} && byPath == old(byPath) - {old(pathById)[id]}
      ensures r.Ok? ==> (r.value.None? <==> id !in old(pathById))
      ensures r.Ok? && r.value.Some? ==> r.value.value == old(pathById)[id] && byPath == old(byPath) - {r.value.value}
      ensures r.Ok? && r.value.Some? ==> pathById - {id} == old(pathById) - {id}
      ensures r.Ok? && r.value.Some? ==>
        (id in pathById <==> exists q :: q in byPath && idOf(byPath[q]) == id)
      ensures r.Ok? && r.value.Some? && id in pathById ==> pathById[id] in byPath && idOf(byPath[pathById[id]]) == id
      ensures old(Consistent()) ==> r.Ok? && Consistent()
      ensures nativeIndexBuilt == old(nativeIndexBuilt)
    {
      if id !in pathById {
        return Ok(None);
      }
      var path := pathById[id];
      pathById := pathById - {id};
      if path !in byPath {
        return Err(NullPointer);
      }
      var idRemoved := idOf(byPath[path]);
      byPath := byPath - {path};
      if id != idRemoved {
        return Err(Diverged);
      }
      if exists q :: q in byPath && idOf(byPath[q]) == idRemoved {
        var q :| q in byPath && idOf(byPath[q]) == idRemoved;
        pathById := pathById[idRemoved := q];
      }
      r := Ok(Some(path));
    }

    /** `remove(id)`: `tryRemove(id)!!`, so an unknown id is an error. */
    method Remove(id: K) returns (r: Result<Path, IndexError>)
      modifies this
      ensures id !in old(pathById) ==> r == Err(NullPointer) && pathById == old(pathById) && byPath == old(byPath)
      ensures r.Ok? ==> r.value == old(pathById)[id] && byPath == old(byPath) - {r.value}
      ensures old(Consistent()) ==> Consistent() && (r.Ok? <==> id in old(pathById))
      ensures nativeIndexBuilt == old(nativeIndexBuilt)
    {
      var tried := TryRemove(id);
      match tried
      case Err(e) => r := Err(e);
      case Ok(None) => r := Err(NullPointer);
      case Ok(Some(p)) => r := Ok(p);
    }

    /**
     * `reindex()`: once the native index exists its update is handled;
     * the first time, the index is built and every id it reports is
     * handled as added, with nothing deleted.
     */
    method Reindex(update: (set<K>, map<K, Path>), id2Path: map<K, Path>, compute: (K, Path) -> Option<V>)
      requires PathsDistinct(update.1) && PathsDistinct(id2Path)
      modifies this
      ensures nativeIndexBuilt
      ensures old(nativeIndexBuilt) ==> pathById == (old(pathById) - update.0) + AddedIds(update.1, compute, update.1.Keys)
      ensures !old(nativeIndexBuilt) ==> pathById == old(pathById) + AddedIds(id2Path, compute, id2Path.Keys)
      ensures !old(nativeIndexBuilt) ==> byPath.Keys == old(byPath).Keys + AddedPaths(id2Path, compute, id2Path.Keys)
      ensures old(nativeIndexBuilt) ==> Handled(old(pathById), old(byPath), old(Consistent()), update, compute)
      ensures !old(nativeIndexBuilt) ==> Handled(old(pathById), old(byPath), old(Consistent()), ({}, id2Path), compute)
    {
      if nativeIndexBuilt {
        HandleUpdate(update.0, update.1, compute);
      } else {
        nativeIndexBuilt := true;
        HandleUpdate({}, id2Path, compute);
      }
    }
  }
}
