/**
 * domain/index/AggregatedIndex.kt: several plain indices seen as one. The
 * listing is the union of the shards' listings; a lookup asks the shards
 * in order and takes the first answer, and fails when none answers.
 */
module AggregatedIndexes {
  import opened Wrappers
  import opened Paths
  import opened Aggregates
  import opened PlainIndexes

  datatype AggregationError = NoShardAnswered  // AssertionError("At least one of shards must yield success")

  class AggregatedIndex<K(==), V(==)> {
    const shards: seq<PlainIndex<K, V>>

    constructor (shards: seq<PlainIndex<K, V>>)
      ensures this.shards == shards
    {
      this.shards := shards;
    }

    /** `allResources(prefix)`: a value is listed exactly when some shard lists it. */
    function AllResources(prefix: Option<Path>): (r: set<V>)
      reads shards
      ensures forall i, v :: 0 <= i < |shards| && v in shards[i].ListResources(prefix) ==> v in r
      ensures forall v :: v in r ==> exists i :: 0 <= i < |shards| && v in shards[i].ListResources(prefix)
    {
      var listings := seq(|shards|, i requires 0 <= i < |shards| reads shards => shards[i].ListResources(prefix));
      assert forall v :: v in UnionSets(listings) ==> exists i :: 0 <= i < |shards| && v in shards[i].ListResources(prefix) by {
        forall v | v in UnionSets(listings) ensures exists i :: 0 <= i < |shards| && v in shards[i].ListResources(prefix) {
          UnionSetsMembers(listings, v);
        }
      }
      assert forall i, v :: 0 <= i < |shards| && v in shards[i].ListResources(prefix) ==> v in UnionSets(listings) by {
        forall i, v | 0 <= i < |shards| && v in shards[i].ListResources(prefix) ensures v in UnionSets(listings) {
          assert v in listings[i];
          UnionSetsMembers(listings, v);
        }
      }
      UnionSets(listings)
    }

    /** A prefix only narrows the aggregated listing. */
    lemma ListingNarrows(prefix: Path)
      ensures AllResources(Some(prefix)) <= AllResources(None)
    {
      forall v | v in AllResources(Some(prefix)) ensures v in AllResources(None) {
        var i :| 0 <= i < |shards| && v in shards[i].ListResources(Some(prefix));
        shards[i].ListingNarrows(prefix);
      }
    }

    /** `getPath(id)`: `tryShards { it.tryGetPath(id) }`. */
    function GetPath(id: K): (r: Result<Path, AggregationError>)
      reads shards
      ensures r.Err? <==> forall i :: 0 <= i < |shards| ==> !shards[i].Contains(id)
      ensures r.Ok? ==> exists i :: 0 <= i < |shards| && shards[i].TryGetPath(id) == Some(r.value) &&
                          forall j :: 0 <= j < i ==> !shards[j].Contains(id)
    {
      var answers := seq(|shards|, i requires 0 <= i < |shards| reads shards => shards[i].TryGetPath(id));
      assert forall i :: 0 <= i < |shards| ==> answers[i] == shards[i].TryGetPath(id);
      match FirstSome(answers)
      case None => Err(NoShardAnswered)
      case Some(p) => Ok(p)
    }

    /** `getResource(id)`: `tryShards { it.tryGetMeta(id) }`. */
    function GetResource(id: K): (r: Result<V, AggregationError>)
      reads shards
      ensures r.Err? <==> forall i :: 0 <= i < |shards| ==> shards[i].TryGetMeta(id).None?
      ensures r.Ok? ==> exists i :: 0 <= i < |shards| && shards[i].TryGetMeta(id) == Some(r.value) &&
                          forall j :: 0 <= j < i ==> shards[j].TryGetMeta(id).None?
    {
      var answers := seq(|shards|, i requires 0 <= i < |shards| reads shards => shards[i].TryGetMeta(id));
      assert forall i :: 0 <= i < |shards| ==> answers[i] == shards[i].TryGetMeta(id);
      match FirstSome(answers)
      case None => Err(NoShardAnswered)
      case Some(v) => Ok(v)
    }

    /** Every shard keeps its two maps consistent. */
    ghost predicate ShardsConsistent()
      reads shards
    {
      forall i :: 0 <= i < |shards| ==> shards[i].Consistent()
    }

    /**
     * Over consistent shards the two lookups agree: an id has a path exactly
     * when it has a value, and the value found carries the id.
     */
    lemma ConsistentLookups(id: K)
      requires ShardsConsistent()
      ensures GetPath(id).Ok? <==> GetResource(id).Ok?
      ensures GetResource(id).Ok? ==> exists i :: 0 <= i < |shards| && shards[i].idOf(GetResource(id).value) == id
    {
      forall i | 0 <= i < |shards| ensures shards[i].TryGetMeta(id).Some? <==> shards[i].Contains(id) {
        shards[i].ConsistentLookups(id);
      }
      if GetResource(id).Ok? {
        var i :| 0 <= i < |shards| && shards[i].TryGetMeta(id) == Some(GetResource(id).value);
        shards[i].ConsistentLookups(id);
      }
    }

    /** The shards are distinct objects, so updating one leaves the others. */
    ghost predicate DistinctShards()
    {
      forall i, j :: 0 <= i < j < |shards| ==> shards[i] != shards[j]
    }

    /**
     * `updateAll()`: every shard handles its own update once, in order;
     * `updates[i]` is what the native index reports for shard `i` and
     * `compute` what `Resource.compute` gives.
     */
    method UpdateAll(updates: seq<(set<K>, map<K, Path>)>, compute: (K, Path) -> Option<V>)
      requires |updates| == |shards| && DistinctShards()
      requires forall i :: 0 <= i < |updates| ==> PathsDistinct(updates[i].1)
      modifies shards
      ensures forall i :: 0 <= i < |shards| ==>
        shards[i].pathById == (old(shards[i].pathById) - updates[i].0) + AddedIds(updates[i].1, compute, updates[i].1.Keys)
      ensures forall i :: 0 <= i < |shards| ==>
        shards[i].byPath.Keys == (old(shards[i].byPath).Keys - RemovedPaths(old(shards[i].pathById), updates[i].0))
                                 + AddedPaths(updates[i].1, compute, updates[i].1.Keys)
      ensures forall i, p :: 0 <= i < |shards| && p in shards[i].byPath && p !in AddedPaths(updates[i].1, compute, updates[i].1.Keys) ==>
        shards[i].byPath[p] == old(shards[i].byPath)[p]
      ensures forall i, id :: 0 <= i < |shards| && id in AddedIds(updates[i].1, compute, updates[i].1.Keys) ==>
        updates[i].1[id] in shards[i].byPath && shards[i].byPath[updates[i].1[id]] == compute(id, updates[i].1[id]).value
      ensures forall i :: 0 <= i < |shards| ==>
        (old(shards[i].Consistent()) && shards[i].UpdateFits(old(shards[i].pathById), updates[i].0, updates[i].1, compute)
         ==> shards[i].Consistent())
    {
      ghost var pathsBefore := seq(|shards|, i requires 0 <= i < |shards| reads shards => shards[i].pathById);
      ghost var mapsBefore := seq(|shards|, i requires 0 <= i < |shards| reads shards => shards[i].byPath);
      ghost var consistentBefore := seq(|shards|, i requires 0 <= i < |shards| reads shards => shards[i].Consistent());
      var k := 0;
      while k < |shards|
        invariant 0 <= k <= |shards|
        invariant forall i :: k <= i < |shards| ==>
          shards[i].pathById == pathsBefore[i] && shards[i].byPath == mapsBefore[i]
          && shards[i].Consistent() == consistentBefore[i]
        invariant forall i :: 0 <= i < k ==>
          shards[i].Handled(pathsBefore[i], mapsBefore[i], consistentBefore[i], updates[i], compute)
      {
        assert forall i :: 0 <= i < |shards| && i != k ==> shards[i] != shards[k];
        shards[k].HandleUpdate(updates[k].0, updates[k].1, compute);
        k := k + 1;
      }
    }
  }
}
