/**
 * data/index/IndexProjection.kt: a view of one root index that keeps only
 * the resources a predicate over (resource, path) accepts. The whole-map
 * queries and the update stream are filtered; the single-id lookups are not.
 */
module IndexProjections {
  import opened Wrappers
  import opened Paths
  import opened Resources
  import opened RootIndexes

  /** The entries of `m` whose (resource, path) satisfies `predicate`. */
  function Project(m: map<Id, (Resource<Id>, Path)>, accepts: (Resource<Id>, Path) -> bool): map<Id, (Resource<Id>, Path)>
  {
    map id | id in m && accepts(m[id].0, m[id].1) :: m[id]
  }

  /**
   * The `mapNotNull` over `root.updates`: deleted and added entries are
   * filtered by the predicate, and an update left with nothing is dropped.
   */
  function FilterUpdates(u: ResourceUpdates<Id>, accepts: (Resource<Id>, Path) -> bool): (r: Option<ResourceUpdates<Id>>)
    ensures r.None? <==>
      (forall id :: id in u.deleted ==> !accepts(u.deleted[id].resource, u.deleted[id].path))
      && (forall id :: id in u.added ==> !accepts(u.added[id].resource, u.added[id].path))
    ensures r.Some? ==> forall id :: id in r.value.deleted <==>
      id in u.deleted && accepts(u.deleted[id].resource, u.deleted[id].path)
    ensures r.Some? ==> forall id :: id in r.value.added <==>
      id in u.added && accepts(u.added[id].resource, u.added[id].path)
    ensures r.Some? ==> forall id :: id in r.value.deleted ==> r.value.deleted[id] == u.deleted[id]
    ensures r.Some? ==> forall id :: id in r.value.added ==> r.value.added[id] == u.added[id]
  {
    var deleted := map id | id in u.deleted && accepts(u.deleted[id].resource, u.deleted[id].path) :: u.deleted[id];
    var added := map id | id in u.added && accepts(u.added[id].resource, u.added[id].path) :: u.added[id];
    assert forall id :: id in u.deleted ==> (id in deleted <==> accepts(u.deleted[id].resource, u.deleted[id].path));
    assert forall id :: id in u.added ==> (id in added <==> accepts(u.added[id].resource, u.added[id].path));
    if deleted == map[] && added == map[] then
      None
    else
      Some(ResourceUpdates(deleted, added))
  }

  /** Every lost entry of `u` is what `m` held at that id, as `wrap` builds it. */
  ghost predicate DescribesLost(m: map<Id, (Resource<Id>, Path)>, u: ResourceUpdates<Id>)
  {
    forall id :: id in u.deleted ==> id in m && u.deleted[id] == LostResource(m[id].1, m[id].0)
  }

  /**
   * The filtered update stream keeps a subscriber of the projection in step:
   * applying the filtered update to the projected map gives the projection
   * of the updated map, and a dropped update leaves the projection as it was.
   * This needs each added id to be absent once the deletions are applied.
   */
  lemma {:induction false} ProjectionFollowsUpdates(m: map<Id, (Resource<Id>, Path)>, u: ResourceUpdates<Id>,
                                                    accepts: (Resource<Id>, Path) -> bool)
    requires DescribesLost(m, u)
    requires forall id :: id in u.added ==> id !in m || id in u.deleted
    ensures FilterUpdates(u, accepts).Some? ==>
      Project(Applied(m, u), accepts) == Applied(Project(m, accepts), FilterUpdates(u, accepts).value)
    ensures FilterUpdates(u, accepts).None? ==>
      Project(Applied(m, u), accepts) == Project(m, accepts)
  {
    var f := FilterUpdates(u, accepts);
    var lhs := Project(Applied(m, u), accepts);
    var pm := Project(m, accepts);
    if f.Some? {
      var rhs := Applied(pm, f.value);
      forall id | true
        ensures id in lhs <==> id in rhs
        ensures id in lhs ==> lhs[id] == rhs[id]
      {
        AppliedLaws(m, u, id);
        AppliedLaws(pm, f.value, id);
      }
    } else {
      forall id | true
        ensures id in lhs <==> id in pm
        ensures id in lhs ==> lhs[id] == pm[id]
      {
        AppliedLaws(m, u, id);
      }
    }
  }

  class IndexProjection {
    const root: RootIndex
    const accepts: (Resource<Id>, Path) -> bool

    constructor (root: RootIndex, accepts: (Resource<Id>, Path) -> bool)
      ensures this.root == root && this.accepts == accepts
    {
      this.root := root;
      this.accepts := accepts;
    }

    /** `roots`: the one root index. */
    function Roots(): (r: set<RootIndex>)
      ensures r == {root} && |r| == 1
    {
      {root}
    }

    /**
     * `allResources()`: the root's resources whose entry satisfies the
     * predicate; the `allPathsMap[id]!!` inside the filter never fails since
     * the root's two projections share their keys.
     */
    function AllResources(): (r: map<Id, Resource<Id>>)
      reads root
      ensures r.Keys <= root.AllResources().Keys
      ensures forall id :: id in r <==> id in root.AllResources() && accepts(root.AllResources()[id], root.AllPaths()[id])
      ensures forall id :: id in r ==> r[id] == root.AllResources()[id]
    {
      var paths := root.AllPaths();
      map id | id in root.AllResources() && accepts(root.AllResources()[id], paths[id]) :: root.AllResources()[id]
    }

    /** `allPaths()`: the same filter applied to the root's paths. */
    function AllPaths(): (r: map<Id, Path>)
      reads root
      ensures r.Keys <= root.AllPaths().Keys
      ensures forall id :: id in r <==> id in root.AllPaths() && accepts(root.AllResources()[id], root.AllPaths()[id])
      ensures forall id :: id in r ==> r[id] == root.AllPaths()[id]
    {
      var resources := root.AllResources();
      map id | id in root.AllPaths() && accepts(resources[id], root.AllPaths()[id]) :: root.AllPaths()[id]
    }

    /** The filtered queries agree with the projection of the root's map and with each other. */
    lemma ProjectedKeys()
      ensures AllResources().Keys == AllPaths().Keys == Project(root.resourceAndPathById, accepts).Keys
      ensures forall id :: id in AllResources() ==>
        (AllResources()[id], AllPaths()[id]) == Project(root.resourceAndPathById, accepts)[id]
    {
      assert AllResources().Keys == Project(root.resourceAndPathById, accepts).Keys;
      assert AllPaths().Keys == Project(root.resourceAndPathById, accepts).Keys;
    }

    /** `getResourceAndPath(id)`: the pair when the root knows both halves, else null. */
    function GetResourceAndPath(id: Id): (r: Option<(Resource<Id>, Path)>)
      reads root
      ensures r.Some? <==> root.GetPath(id).Some? && root.GetResource(id).Some?
      ensures r.Some? ==> r.value == (root.GetResource(id).value, root.GetPath(id).value)
    {
      var path := root.GetPath(id);
      var resource := root.GetResource(id);
      if path.None? || resource.None? then None else Some((resource.value, path.value))
    }

    /** `getResource(id)`: the first half of `getResourceAndPath`. */
    function GetResource(id: Id): (r: Option<Resource<Id>>)
      reads root
      ensures r == root.GetResource(id)
    {
      match GetResourceAndPath(id)
      case None => None
      case Some(pair) => Some(pair.0)
    }

    /** `getPath(id)`: the second half of `getResourceAndPath`. */
    function GetPath(id: Id): (r: Option<Path>)
      reads root
      ensures r == root.GetPath(id)
    {
      match GetResourceAndPath(id)
      case None => None
      case Some(pair) => Some(pair.1)
    }

    /**
     * The single lookups ignore the accepts: an id of the root that the
     * projection filters out is still found by `getResource` and `getPath`.
     */
    lemma LookupsIgnorePredicate(id: Id)
      requires id in root.resourceAndPathById
      requires !accepts(root.resourceAndPathById[id].0, root.resourceAndPathById[id].1)
      ensures id !in AllResources() && id !in AllPaths()
      ensures GetResource(id) == Some(root.resourceAndPathById[id].0)
      ensures GetPath(id) == Some(root.resourceAndPathById[id].1)
    {
    }

    /** `updateAll()`: the root is updated; the projection's stream carries the filtered update. */
    method UpdateAll(raw: RawUpdates<Id>, info: Path -> Option<FileInfo>) returns (r: Result<ResourceUpdates<Id>, IndexError>, emitted: Option<ResourceUpdates<Id>>)
      modifies root
      ensures r == Wrap(old(root.resourceAndPathById), raw, info)
      ensures r.Err? ==> root.resourceAndPathById == old(root.resourceAndPathById) && emitted.None?
      ensures r.Ok? ==> root.resourceAndPathById == Applied(old(root.resourceAndPathById), r.value)
      ensures r.Ok? ==> emitted == FilterUpdates(r.value, accepts)
    {
      r := root.UpdateAll(raw, info);
      emitted := if r.Ok? then FilterUpdates(r.value, accepts) else None;
    }
  }
}
