/**
 * The per-root processors that the aggregate processors combine. A root
 * processor's `retrieve` and `forget` belong to its subclass (previews,
 * metadata), which is not part of this model: here a shard answers
 * `retrieve` from a table of results and `forget` drops the id from it.
 * Its `busy` state flow is reduced to its current value.
 */
module ProcessorShards {
  import opened Wrappers

  datatype Failure =
    | ShardFailure(reason: string)  // the failure a shard's own `retrieve` reports
    | NoShardForId                  // NullPointerException from `!!`
    | NoSuccess                     // `Result.failure(IllegalStateException())`

  class RootProcessor<K(==), V> {
    var answers: map<K, Result<V, Failure>>
    var busy: bool

    constructor (answers: map<K, Result<V, Failure>>, busy: bool)
      ensures this.answers == answers && this.busy == busy
    {
      this.answers := answers;
      this.busy := busy;
    }

    /** `retrieve(id)`: the shard's result for the id; a failure for an id it does not hold. */
    function Retrieve(id: K): (r: Result<V, Failure>)
      reads this
      ensures id in answers ==> r == answers[id]
      ensures id !in answers ==> r.Err?
    {
      if id in answers then answers[id] else Err(ShardFailure("unknown id"))
    }

    /** `forget(id)`: the shard no longer holds a result for the id. */
    method Forget(id: K)
      modifies this
      ensures answers == old(answers) - {id} && busy == old(busy)
      ensures Retrieve(id).Err?
    {
      answers := answers - {id};
    }
  }

  /** `shards.map { busy.value }.contains(true)`. */
  function AnyBusy<K, V>(ps: seq<RootProcessor<K, V>>): (b: bool)
    reads ps
    ensures b <==> exists i :: 0 <= i < |ps| && ps[i].busy
  {
    if |ps| == 0 then false
    else
      assert forall i :: 1 <= i < |ps| ==> ps[i] == ps[1..][i - 1];
      ps[0].busy || AnyBusy(ps[1..])
  }

  /**
   * `shards.forEach { it.forget(id) }`: every shard forgets the id, and
   * nothing else changes; a shard listed twice forgets it twice, to the
   * same effect.
   */
  method ForgetAll<K, V>(ps: seq<RootProcessor<K, V>>, id: K)
    modifies set p | p in ps
    ensures forall i :: 0 <= i < |ps| ==> ps[i].answers == old(ps[i].answers) - {id}
    ensures forall i :: 0 <= i < |ps| ==> ps[i].busy == old(ps[i].busy)
  {
    var n := 0;
    while n < |ps|
      invariant 0 <= n <= |ps|
      invariant forall i :: 0 <= i < n ==> ps[i].answers == old(ps[i].answers) - {id}
      invariant forall i :: 0 <= i < |ps| ==>
        ps[i].answers == old(ps[i].answers) || ps[i].answers == old(ps[i].answers) - {id}
      invariant forall i :: 0 <= i < |ps| ==> ps[i].busy == old(ps[i].busy)
    {
      ps[n].Forget(id);
      n := n + 1;
    }
  }
}

/**
 * data/processor/AggregateProcessor.kt: shards are pairs of a root
 * processor and the root's index, and `retrieve` asks the processor of the
 * first shard whose index holds the id.
 */
module DataAggregateProcessors {
  import opened Wrappers
  import opened ProcessorShards
  import RootIndexes

  type Id = RootIndexes.Id

  /** A `Pair<RootProcessor, RootIndex>`. */
  datatype Shard<V> = Shard(processor: RootProcessor<Id, V>, index: RootIndexes.RootIndex)

  /** `shards.find { (_, index) -> index.allIds().contains(id) }`, by position. */
  function FindShard(indexes: seq<RootIndexes.RootIndex>, id: Id): (r: Option<nat>)
    reads indexes
    ensures r.Some? ==> r.value < |indexes| && id in indexes[r.value].AllIds()
    ensures r.Some? ==> forall j :: 0 <= j < r.value ==> id !in indexes[j].AllIds()
    ensures r.None? <==> forall j :: 0 <= j < |indexes| ==> id !in indexes[j].AllIds()
  {
    if |indexes| == 0 then None
    else if id in indexes[0].AllIds() then Some(0)
    else
      assert forall j :: 1 <= j < |indexes| ==> indexes[j] == indexes[1..][j - 1];
      match FindShard(indexes[1..], id)
      case None => None
      case Some(i) => Some(i + 1)
  }

  /** The first shard whose index holds the id is the one found. */
  lemma FindShardIsFirst(indexes: seq<RootIndexes.RootIndex>, id: Id)
    ensures forall i :: 0 <= i < |indexes| && id in indexes[i].AllIds()
                        && (forall j :: 0 <= j < i ==> id !in indexes[j].AllIds()) ==>
      FindShard(indexes, id) == Some(i)
  {
    var r := FindShard(indexes, id);
    forall i | 0 <= i < |indexes| && id in indexes[i].AllIds() && (forall j :: 0 <= j < i ==> id !in indexes[j].AllIds())
      ensures r == Some(i)
    {
      assert r.Some?;
      assert !(r.value < i);
      assert !(i < r.value);
    }
  }

  class AggregateProcessor<V> {
    /** The shards' processors and indexes, pair by pair. */
    const processors: seq<RootProcessor<Id, V>>
    const indexes: seq<RootIndexes.RootIndex>

    constructor (shards: seq<Shard<V>>)
      ensures |processors| == |indexes| == |shards|
      ensures forall i :: 0 <= i < |shards| ==> processors[i] == shards[i].processor && indexes[i] == shards[i].index
    {
      processors := seq(|shards|, i requires 0 <= i < |shards| => shards[i].processor);
      indexes := seq(|shards|, i requires 0 <= i < |shards| => shards[i].index);
    }

    /**
     * `retrieve(id)`: the answer of the first shard whose index holds the
     * id, whatever the others would answer; with no such shard, `!!` throws.
     */
    function Retrieve(id: Id): (r: Result<V, Failure>)
      requires |processors| == |indexes|
      reads processors, indexes
      ensures (forall j :: 0 <= j < |indexes| ==> id !in indexes[j].AllIds()) ==> r == Err(NoShardForId)
      ensures forall i :: 0 <= i < |indexes| && id in indexes[i].AllIds()
                          && (forall j :: 0 <= j < i ==> id !in indexes[j].AllIds()) ==>
        r == processors[i].Retrieve(id)
    {
      FindShardIsFirst(indexes, id);
      match FindShard(indexes, id)
      case None => Err(NoShardForId)
      case Some(i) => processors[i].Retrieve(id)
    }

    /** `atLeastOneShardIsBusy()`, the value emitted on the aggregate's `busy`. */
    function Busy(): (b: bool)
      reads processors
      ensures b <==> exists i :: 0 <= i < |processors| && processors[i].busy
    {
      AnyBusy(processors)
    }

    /** `forget(id)`: every shard's processor forgets the id; the indexes are untouched. */
    method Forget(id: Id)
      requires |processors| == |indexes|
      modifies set p | p in processors
      ensures forall i :: 0 <= i < |processors| ==>
        processors[i].answers == old(processors[i].answers) - {id} && processors[i].busy == old(processors[i].busy)
      ensures Retrieve(id).Err?
    {
      ForgetAll(processors, id);
    }
  }

  /**
   * Routing is by index membership alone: a shard that would answer is not
   * asked when an earlier shard's index holds the id.
   */
  lemma EarlierIndexWins(indexes: seq<RootIndexes.RootIndex>, id: Id, i: nat)
    requires i < |indexes| && id in indexes[i].AllIds()
    ensures FindShard(indexes, id).Some? && FindShard(indexes, id).value <= i
  {
  }
}

/**
 * domain/processor/AggregateProcessor.kt: `retrieve` asks every shard (the
 * `map` is eager) and returns the first success, in shard order.
 */
module DomainAggregateProcessors {
  import opened Wrappers
  import opened ProcessorShards
  import LegacyIds

  type Id = LegacyIds.ResourceId

  /** `shards.map { it.retrieve(id) }.find { it.isSuccess }`, by position. */
  function FirstSuccess<V>(ps: seq<RootProcessor<Id, V>>, id: Id): (r: Option<nat>)
    reads ps
    ensures r.Some? ==> r.value < |ps| && ps[r.value].Retrieve(id).Ok?
    ensures r.Some? ==> forall j :: 0 <= j < r.value ==> ps[j].Retrieve(id).Err?
    ensures r.None? <==> forall j :: 0 <= j < |ps| ==> ps[j].Retrieve(id).Err?
  {
    if |ps| == 0 then None
    else if ps[0].Retrieve(id).Ok? then Some(0)
    else
      assert forall j :: 1 <= j < |ps| ==> ps[j] == ps[1..][j - 1];
      match FirstSuccess(ps[1..], id)
      case None => None
      case Some(i) => Some(i + 1)
  }

  class AggregateProcessor<V> {
    const shards: seq<RootProcessor<Id, V>>

    constructor (shards: seq<RootProcessor<Id, V>>)
      ensures this.shards == shards
    {
      this.shards := shards;
    }

    /**
     * `retrieve(id)`: the first successful shard result; when every shard
     * fails, an IllegalStateException failure replaces their failures.
     */
    function Retrieve(id: Id): (r: Result<V, Failure>)
      reads shards
      ensures r.Ok? <==> exists i :: 0 <= i < |shards| && shards[i].Retrieve(id).Ok?
      ensures r.Err? ==> r.error == NoSuccess
      ensures r.Ok? ==> exists i :: 0 <= i < |shards| && r == shards[i].Retrieve(id)
                                    && forall j :: 0 <= j < i ==> shards[j].Retrieve(id).Err?
    {
      match FirstSuccess(shards, id)
      case None => Err(NoSuccess)
      case Some(i) => shards[i].Retrieve(id)
    }

    /** `atLeastOneShardIsBusy()`, the value emitted on the aggregate's `busy`. */
    function Busy(): (b: bool)
      reads shards
      ensures b <==> exists i :: 0 <= i < |shards| && shards[i].busy
    {
      AnyBusy(shards)
    }

    /** `forget(id)`: every shard forgets the id. */
    method Forget(id: Id)
      modifies set p | p in shards
      ensures forall i :: 0 <= i < |shards| ==>
        shards[i].answers == old(shards[i].answers) - {id} && shards[i].busy == old(shards[i].busy)
      ensures Retrieve(id) == Err(NoSuccess)
    {
      ForgetAll(shards, id);
    }
  }
}
