/**
 * data/index/IndexAggregation.kt: several root indices seen as one. The
 * whole-map queries fold the shards' maps together, a later shard
 * overwriting an earlier one; the single lookups take the first shard
 * that answers.
 */
module IndexAggregations {
  import opened Wrappers
  import opened Paths
  import opened Resources
  import opened RootIndexes
  import opened Aggregates

  datatype AggregationError = NoShardForPath  // `error(...)`: no shard's root contains the path

  /** What one shard's `updateAll` did, against its state before. */
  ghost predicate ShardUpdated(s: RootIndex, before: map<Id, (Resource<Id>, Path)>, raw: RawUpdates<Id>,
                               info: Path -> Option<FileInfo>, r: Result<ResourceUpdates<Id>, IndexError>)
    reads s
  {
    && r == Wrap(before, raw, info)
    && (r.Err? ==> s.resourceAndPathById == before)
    && (r.Ok? ==> s.resourceAndPathById == Applied(before, r.value))
  }

  class IndexAggregation {
    const shards: seq<RootIndex>

    constructor (shards: seq<RootIndex>)
      ensures this.shards == shards
    {
      this.shards := shards;
    }

    /** `roots`: the shards as a set. */
    function Roots(): (r: set<RootIndex>)
      ensures forall i :: 0 <= i < |shards| ==> shards[i] in r
      ensures forall s :: s in r ==> s in shards
    {
      set i | 0 <= i < |shards| :: shards[i]
    }

    /** Each shard's `allResources()`, in shard order. */
    function ShardResources(): (r: seq<map<Id, Resource<Id>>>)
      reads shards
      ensures |r| == |shards|
      ensures forall i :: 0 <= i < |shards| ==> r[i] == shards[i].AllResources()
    {
      seq(|shards|, i requires 0 <= i < |shards| reads shards => shards[i].AllResources())
    }

    /** Each shard's `allPaths()`, in shard order. */
    function ShardPaths(): (r: seq<map<Id, Path>>)
      reads shards
      ensures |r| == |shards|
      ensures forall i :: 0 <= i < |shards| ==> r[i] == shards[i].AllPaths()
    {
      seq(|shards|, i requires 0 <= i < |shards| reads shards => shards[i].AllPaths())
    }

    /** `allResources()`: an id is listed exactly when some shard lists it. */
    function AllResources(): (r: map<Id, Resource<Id>>)
      reads shards
      ensures forall id :: id in r <==> exists i :: 0 <= i < |shards| && id in shards[i].AllResources()
    {
      var r := Union(ShardResources());
      assert forall id :: id in r <==> exists i :: 0 <= i < |shards| && id in shards[i].AllResources() by {
        forall id ensures id in r <==> exists i :: 0 <= i < |shards| && id in shards[i].AllResources() {
          UnionKeys(ShardResources(), id);
        }
      }
      r
    }

    /** `allPaths()`: an id is listed exactly when some shard lists it. */
    function AllPaths(): (r: map<Id, Path>)
      reads shards
      ensures forall id :: id in r <==> exists i :: 0 <= i < |shards| && id in shards[i].AllPaths()
    {
      var r := Union(ShardPaths());
      assert forall id :: id in r <==> exists i :: 0 <= i < |shards| && id in shards[i].AllPaths() by {
        forall id ensures id in r <==> exists i :: 0 <= i < |shards| && id in shards[i].AllPaths() {
          UnionKeys(ShardPaths(), id);
        }
      }
      r
    }

    /** On a clash, the whole-map queries keep the entry of the last shard that has the id. */
    lemma LaterShardWins(id: Id, i: nat)
      requires i < |shards| && id in shards[i].resourceAndPathById
      requires forall j :: i < j < |shards| ==> id !in shards[j].resourceAndPathById
      ensures id in AllResources() && AllResources()[id] == shards[i].resourceAndPathById[id].0
      ensures id in AllPaths() && AllPaths()[id] == shards[i].resourceAndPathById[id].1
    {
      UnionValue(ShardResources(), id, i);
      UnionValue(ShardPaths(), id, i);
    }

    /** `getResource(id)`: the answer of the first shard that knows the id. */
    function GetResource(id: Id): (r: Option<Resource<Id>>)
      reads shards
      ensures r.None? <==> forall i :: 0 <= i < |shards| ==> shards[i].GetResource(id).None?
      ensures r.Some? ==> exists i :: 0 <= i < |shards| && shards[i].GetResource(id) == r &&
                            forall j :: 0 <= j < i ==> shards[j].GetResource(id).None?
    {
      var answers := seq(|shards|, i requires 0 <= i < |shards| reads shards => shards[i].GetResource(id));
      assert forall i :: 0 <= i < |shards| ==> answers[i] == shards[i].GetResource(id);
      FirstSome(answers)
    }

    /** `getPath(id)`: the answer of the first shard that knows the id. */
    function GetPath(id: Id): (r: Option<Path>)
      reads shards
      ensures r.None? <==> forall i :: 0 <= i < |shards| ==> shards[i].GetPath(id).None?
      ensures r.Some? ==> exists i :: 0 <= i < |shards| && shards[i].GetPath(id) == r &&
                            forall j :: 0 <= j < i ==> shards[j].GetPath(id).None?
    {
      var answers := seq(|shards|, i requires 0 <= i < |shards| reads shards => shards[i].GetPath(id));
      assert forall i :: 0 <= i < |shards| ==> answers[i] == shards[i].GetPath(id);
      FirstSome(answers)
    }

    /** No id is known to two shards. */
    ghost predicate ShardsDisjoint()
      reads shards
    {
      forall i, j :: 0 <= i < j < |shards| ==>
        shards[i].resourceAndPathById.Keys !! shards[j].resourceAndPathById.Keys
    }

    /**
     * With disjoint shards the two kinds of query agree: the first shard
     * that answers `getResource`/`getPath` gives the entry of the folded
     * maps, and nothing is lost in the fold.
     */
    lemma DisjointShardsAgree(id: Id)
      requires ShardsDisjoint()
      ensures GetResource(id) == if id in AllResources() then Some(AllResources()[id]) else None
      ensures GetPath(id) == if id in AllPaths() then Some(AllPaths()[id]) else None
      ensures |AllResources()| == TotalSize(ShardResources())
    {
      var rs, ps := ShardResources(), ShardPaths();
      assert Disjoint(rs) && Disjoint(ps);
      FirstAnswerIsUnion(rs, id);
      FirstAnswerIsUnion(ps, id);
      assert Lookups(rs, id) == seq(|shards|, i requires 0 <= i < |shards| reads shards => shards[i].GetResource(id));
      assert Lookups(ps, id) == seq(|shards|, i requires 0 <= i < |shards| reads shards => shards[i].GetPath(id));
      DisjointUnionSize(rs);
    }

    /** An aggregation of no shards is empty and answers nothing. */
    lemma NoShards(id: Id)
      requires shards == []
      ensures AllResources() == map[] && AllPaths() == map[]
      ensures GetResource(id).None? && GetPath(id).None?
    {
    }

    /** The shards are distinct objects, so updating one leaves the others. */
    ghost predicate DistinctShards()
    {
      forall i, j :: 0 <= i < j < |shards| ==> shards[i] != shards[j]
    }

    /**
     * `updateAll()`: the shards run their own `updateAll` in order, and the
     * first that fails ends the call, as its exception escapes `forEach`,
     * so the shards after it are not updated; `raws[i]` is what the native
     * index reports for shard `i`.
     */
    method UpdateAll(raws: seq<RawUpdates<Id>>, info: Path -> Option<FileInfo>)
      returns (results: seq<Result<ResourceUpdates<Id>, IndexError>>)
      requires |raws| == |shards| && DistinctShards()
      modifies shards
      ensures |results| <= |shards|
      ensures |results| == |shards| || (|results| > 0 && results[|results| - 1].Err?)
      ensures forall i :: 0 <= i < |results| - 1 ==> results[i].Ok?
      ensures forall i :: 0 <= i < |results| ==>
        results[i] == Wrap(old(shards[i].resourceAndPathById), raws[i], info)
      ensures forall i :: 0 <= i < |results| && results[i].Err? ==>
        shards[i].resourceAndPathById == old(shards[i].resourceAndPathById)
      ensures forall i :: 0 <= i < |results| && results[i].Ok? ==>
        shards[i].resourceAndPathById == Applied(old(shards[i].resourceAndPathById), results[i].value)
      ensures forall i :: |results| <= i < |shards| ==>
        shards[i].resourceAndPathById == old(shards[i].resourceAndPathById)
    {
      ghost var before := seq(|shards|, j requires 0 <= j < |shards| reads shards => shards[j].resourceAndPathById);
      results := [];
      var i := 0;
      while i < |shards|
        invariant 0 <= i <= |shards| && |results| == i
        invariant forall j :: 0 <= j < i ==> results[j].Ok?
        invariant forall j :: i <= j < |shards| ==> shards[j].resourceAndPathById == before[j]
        invariant forall j :: 0 <= j < i ==> ShardUpdated(shards[j], before[j], raws[j], info, results[j])
      {
        assert forall j :: 0 <= j < |shards| && j != i ==> shards[j] != shards[i];
        var r := shards[i].UpdateAll(raws[i], info);
        results := results + [r];
        if r.Err? {
          return;
        }
        i := i + 1;
      }
    }

    /**
     * The shard `updateOne(resourcePath, ...)` goes to: the first whose root
     * is a prefix of the path, or the error when there is none.
     */
    function Route(resourcePath: Path): (r: Result<nat, AggregationError>)
      ensures r.Err? <==> forall i :: 0 <= i < |shards| ==> !StartsWith(resourcePath, shards[i].path)
      ensures r.Ok? ==> r.value < |shards| && StartsWith(resourcePath, shards[r.value].path)
      ensures r.Ok? ==> forall j :: 0 <= j < r.value ==> !StartsWith(resourcePath, shards[j].path)
    {
      RouteFrom(resourcePath, 0)
    }

    /** The search of `Route`, from shard `k` on. */
    function RouteFrom(resourcePath: Path, k: nat): (r: Result<nat, AggregationError>)
      requires k <= |shards|
      requires forall j :: 0 <= j < k ==> !StartsWith(resourcePath, shards[j].path)
      ensures r.Err? <==> forall i :: 0 <= i < |shards| ==> !StartsWith(resourcePath, shards[i].path)
      ensures r.Ok? ==> k <= r.value < |shards| && StartsWith(resourcePath, shards[r.value].path)
      ensures r.Ok? ==> forall j :: 0 <= j < r.value ==> !StartsWith(resourcePath, shards[j].path)
      decreases |shards| - k
    {
      if k == |shards| then Err(NoShardForPath)
      else if StartsWith(resourcePath, shards[k].path) then Ok(k)
      else RouteFrom(resourcePath, k + 1)
    }
  }
}
