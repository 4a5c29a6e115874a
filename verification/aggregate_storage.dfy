/**
 * data/storage/AggregateStorage.kt: several root storages seen as one.
 * A read takes the first shard that stores the id; a write goes to the
 * shards whose index knows the id; a removal and a persist go to every
 * shard. The spec functions below work on the shards' maps, in shard order.
 */
module AggregateStorages {
  import opened Wrappers
  import opened Monoids
  import opened StorageSpec
  import opened BaseStorages
  import opened FileStorages
  import opened RootIndexes

  // ------------------------------------------------------------ the shards' maps

  /** `firstNotNullOfOrNull { it.valueById[id] } ?: neutral`: the first shard that stores `id`, else `neutral`. */
  function FirstValue<K, V>(stored: seq<map<K, V>>, id: K, neutral: V): (v: V)
    ensures (forall i :: 0 <= i < |stored| ==> id !in stored[i]) ==> v == neutral
    ensures forall i :: 0 <= i < |stored| && id in stored[i] && (forall j :: 0 <= j < i ==> id !in stored[j]) ==>
      v == stored[i][id]
    decreases |stored|
  {
    if stored == [] then neutral
    else if id in stored[0] then stored[0][id]
    else
      var v := FirstValue(stored[1..], id, neutral);
      assert forall i :: 1 <= i < |stored| ==> stored[1..][i - 1] == stored[i];
      v
  }

  /** Shard by shard, the maps agree on `id`. */
  ghost predicate AgreeOn<K, V>(a: seq<map<K, V>>, b: seq<map<K, V>>, id: K)
  {
    |a| == |b| && forall i :: 0 <= i < |a| ==> (id in a[i] <==> id in b[i]) && (id in a[i] ==> a[i][id] == b[i][id])
  }

  /** A read of `id` depends only on the shards' entries for `id`. */
  lemma {:induction false} FirstValueAgrees<K, V>(a: seq<map<K, V>>, b: seq<map<K, V>>, id: K, neutral: V)
    requires AgreeOn(a, b, id)
    ensures FirstValue(a, id, neutral) == FirstValue(b, id, neutral)
    decreases |a|
  {
    if a != [] && id !in a[0] {
      assert AgreeOn(a[1..], b[1..], id) by {
        forall i | 0 <= i < |a[1..]| ensures a[1..][i] == a[i + 1] && b[1..][i] == b[i + 1] { }
      }
      FirstValueAgrees(a[1..], b[1..], id, neutral);
    }
  }

  /** `setValue` of the aggregate: each shard whose index knows `id` runs its own `setValue`. */
  function SetRouted<K, V(==)>(stored: seq<map<K, V>>, indexed: seq<set<K>>, id: K, value: V, neutral: V): seq<map<K, V>>
    requires |indexed| == |stored|
  {
    seq(|stored|, i requires 0 <= i < |stored| => if id in indexed[i] then Assign(stored[i], id, value, neutral) else stored[i])
  }

  /** `remove` of the aggregate: every shard drops `id`. */
  function RemovedAll<K, V>(stored: seq<map<K, V>>, id: K): seq<map<K, V>>
  {
    seq(|stored|, i requires 0 <= i < |stored| => stored[i] - {id})
  }

  /** `ids.forEach { remove(it) }`, in list order. */
  function RemovedEach<K, V>(stored: seq<map<K, V>>, ids: seq<K>): seq<map<K, V>>
    decreases |ids|
  {
    if ids == [] then stored else RemovedEach(RemovedAll(stored, ids[0]), ids[1..])
  }

  /** Each shard stores only ids its index knows. */
  ghost predicate WithinIndex<K, V>(stored: seq<map<K, V>>, indexed: seq<set<K>>)
  {
    |stored| == |indexed| && forall i :: 0 <= i < |stored| ==> stored[i].Keys <= indexed[i]
  }

  /**
   * Set then get: when some shard's index knows `id` and no shard holds an
   * id its index does not know, reading `id` after the routed write gives
   * the value written (the neutral value reads back as itself, every
   * indexed shard having dropped the id).
   */
  lemma {:induction false} GetAfterSet<K, V>(stored: seq<map<K, V>>, indexed: seq<set<K>>, id: K, value: V, neutral: V)
    requires WithinIndex(stored, indexed)
    requires exists i :: 0 <= i < |indexed| && id in indexed[i]
    ensures FirstValue(SetRouted(stored, indexed, id, value, neutral), id, neutral) == value
    decreases |stored|
  {
    var r := SetRouted(stored, indexed, id, value, neutral);
    if id in indexed[0] {
      if value == neutral {
        assert forall i :: 0 <= i < |r| ==> id !in r[i];
      }
    } else {
      assert id !in r[0];
      var i :| 0 <= i < |indexed| && id in indexed[i];
      assert indexed[1..][i - 1] == indexed[i];
      assert WithinIndex(stored[1..], indexed[1..]) by {
        forall j | 0 <= j < |stored[1..]| ensures stored[1..][j] == stored[j + 1] && indexed[1..][j] == indexed[j + 1] { }
      }
      GetAfterSet(stored[1..], indexed[1..], id, value, neutral);
      assert r[1..] == SetRouted(stored[1..], indexed[1..], id, value, neutral);
    }
  }

  /** A write no index knows of changes nothing. */
  lemma SetOutsideIndexIgnored<K, V>(stored: seq<map<K, V>>, indexed: seq<set<K>>, id: K, value: V, neutral: V)
    requires |stored| == |indexed|
    requires forall i :: 0 <= i < |indexed| ==> id !in indexed[i]
    ensures SetRouted(stored, indexed, id, value, neutral) == stored
  {
  }

  /** The routed write and the removal keep every shard within its index. */
  lemma WritesStayWithinIndex<K, V>(stored: seq<map<K, V>>, indexed: seq<set<K>>, id: K, value: V, neutral: V)
    requires WithinIndex(stored, indexed)
    ensures WithinIndex(SetRouted(stored, indexed, id, value, neutral), indexed)
    ensures WithinIndex(RemovedAll(stored, id), indexed)
  {
  }

  /** Set, remove, then get: after the removal the id reads as `neutral`, whatever was written. */
  lemma GetAfterRemove<K, V>(stored: seq<map<K, V>>, id: K, neutral: V)
    ensures FirstValue(RemovedAll(stored, id), id, neutral) == neutral
    ensures forall other :: other != id ==> FirstValue(RemovedAll(stored, id), other, neutral) == FirstValue(stored, other, neutral)
  {
    forall other | other != id ensures FirstValue(RemovedAll(stored, id), other, neutral) == FirstValue(stored, other, neutral) {
      FirstValueAgrees(RemovedAll(stored, id), stored, other, neutral);
    }
  }

  /** Removing the ids one by one is removing all of them from every shard. */
  lemma {:induction false} RemovedEachIsMinus<K, V>(stored: seq<map<K, V>>, ids: seq<K>)
    ensures |RemovedEach(stored, ids)| == |stored|
    ensures forall i :: 0 <= i < |stored| ==> RemovedEach(stored, ids)[i] == stored[i] - (set j | 0 <= j < |ids| :: ids[j])
    decreases |ids|
  {
    if ids != [] {
      RemovedEachIsMinus(RemovedAll(stored, ids[0]), ids[1..]);
      var all := set j | 0 <= j < |ids| :: ids[j];
      var rest := set j | 0 <= j < |ids[1..]| :: ids[1..][j];
      assert all == {ids[0]} + rest by {
        forall k | k in all ensures k in {ids[0]} + rest {
          var j :| 0 <= j < |ids| && ids[j] == k;
          if j > 0 { assert ids[1..][j - 1] == k; }
        }
      }
    }
  }

  /**
   * `resetScores(ids)`: afterwards every listed id reads as `neutral` and
   * every other id reads as before.
   */
  lemma ResetReadsNeutral<K, V>(stored: seq<map<K, V>>, ids: seq<K>, neutral: V)
    ensures forall j :: 0 <= j < |ids| ==> FirstValue(RemovedEach(stored, ids), ids[j], neutral) == neutral
    ensures forall other :: (forall j :: 0 <= j < |ids| ==> ids[j] != other) ==>
      FirstValue(RemovedEach(stored, ids), other, neutral) == FirstValue(stored, other, neutral)
  {
    RemovedEachIsMinus(stored, ids);
    var r := RemovedEach(stored, ids);
    forall other | forall j :: 0 <= j < |ids| ==> ids[j] != other
      ensures FirstValue(r, other, neutral) == FirstValue(stored, other, neutral)
    {
      assert other !in set j | 0 <= j < |ids| :: ids[j];
      FirstValueAgrees(r, stored, other, neutral);
    }
  }

  // ------------------------------------------------------------ the storage

  class AggregateStorage<V(==)> {
    const monoid: Monoid<V>
    const shards: seq<(FileStorage<Id, V>, RootIndex)>

    constructor (monoid: Monoid<V>, shards: seq<(FileStorage<Id, V>, RootIndex)>)
      ensures this.monoid == monoid && this.shards == shards
    {
      this.monoid := monoid;
      this.shards := shards;
    }

    /** The in-memory maps of the shards. */
    ghost function Bases(): set<BaseStorage<Id, V>>
    {
      set i | 0 <= i < |shards| :: shards[i].0.base
    }

    /** The file storages of the shards. */
    ghost function Files(): set<FileStorage<Id, V>>
    {
      set i | 0 <= i < |shards| :: shards[i].0
    }

    /** The indices of the shards. */
    ghost function Indices(): set<RootIndex>
    {
      set i | 0 <= i < |shards| :: shards[i].1
    }

    /** Every shard's `valueById`, in shard order. */
    function Stored(): (r: seq<map<Id, V>>)
      reads Bases()
      ensures |r| == |shards| && forall i :: 0 <= i < |shards| ==> r[i] == shards[i].0.base.valueById
    {
      seq(|shards|, i requires 0 <= i < |shards| reads Bases() => shards[i].0.base.valueById)
    }

    /** Every shard index's `allIds()`, in shard order. */
    ghost function Indexed(): (r: seq<set<Id>>)
      reads Indices()
      ensures |r| == |shards| && forall i :: 0 <= i < |shards| ==> r[i] == shards[i].1.AllIds()
    {
      seq(|shards|, i requires 0 <= i < |shards| reads Indices() => shards[i].1.AllIds())
    }

    /** The shards are distinct storages over the aggregate's monoid. */
    ghost predicate Valid()
    {
      && (forall i, j :: 0 <= i < j < |shards| ==> shards[i].0 != shards[j].0 && shards[i].0.base != shards[j].0.base)
      && (forall i :: 0 <= i < |shards| ==> shards[i].0.base.monoid == monoid)
    }

    /** `getValue(id)`: the value of the first shard that stores `id`, else `neutral`. */
    function GetValue(id: Id): (v: V)
      reads Bases()
      ensures (forall i :: 0 <= i < |shards| ==> id !in shards[i].0.base.valueById) ==> v == monoid.neutral
      ensures forall i :: 0 <= i < |shards| ==>
        (id in shards[i].0.base.valueById && (forall j :: 0 <= j < i ==> id !in shards[j].0.base.valueById)
         ==> v == shards[i].0.base.valueById[id])
    {
      FirstValue(Stored(), id, monoid.neutral)
    }

    /** `setValue(id, value)`: the shards whose index knows `id` store it; the others are left alone. */
    method SetValue(id: Id, value: V)
      requires Valid()
      modifies Bases()
      ensures Stored() == SetRouted(old(Stored()), Indexed(), id, value, monoid.neutral)
    {
      ghost var before := Stored();
      ghost var target := SetRouted(before, Indexed(), id, value, monoid.neutral);
      var k := 0;
      while k < |shards|
        invariant 0 <= k <= |shards|
        invariant forall i :: 0 <= i < k ==> shards[i].0.base.valueById == target[i]
        invariant forall i :: k <= i < |shards| ==> shards[i].0.base.valueById == before[i]
      {
        var (storage, index) := shards[k];
        assert forall i :: 0 <= i < |shards| && i != k ==> shards[i].0.base != storage.base;
        if id in index.AllIds() {
          storage.base.SetValue(id, value);
        }
        k := k + 1;
      }
    }

    /** `remove(id)`: every shard drops `id`. */
    method Remove(id: Id)
      requires Valid()
      modifies Bases()
      ensures Stored() == RemovedAll(old(Stored()), id)
    {
      var k := 0;
      while k < |shards|
        invariant 0 <= k <= |shards|
        invariant forall i :: 0 <= i < k ==> shards[i].0.base.valueById == old(shards[i].0.base.valueById) - {id}
        invariant forall i :: k <= i < |shards| ==> shards[i].0.base.valueById == old(shards[i].0.base.valueById)
      {
        shards[k].0.base.Remove(id);
        k := k + 1;
      }
    }

    /**
     * `persist()`: every shard persists once, in order; `files[i]` is the
     * shard's file and `mtimes[i]` the modification time its write leaves.
     */
    method Persist(files: seq<Option<StoredFile>>, mtimes: seq<int>) returns (effects: seq<DiskEffect<Id, V>>, outcomes: seq<Outcome<StorageError>>)
      requires Valid() && |files| == |shards| && |mtimes| == |shards|
      modifies Files(), Bases()
      ensures |effects| == |shards| && |outcomes| == |shards|
      ensures forall i :: 0 <= i < |shards| && outcomes[i].Pass? ==> NoNeutral(shards[i].0.base.valueById, monoid.neutral)
      ensures forall i :: 0 <= i < |shards| && effects[i].Erased? ==> files[i].Some? && shards[i].0.base.valueById == map[]
    {
      effects, outcomes := [], [];
      var k := 0;
      while k < |shards|
        invariant 0 <= k <= |shards| && |effects| == k && |outcomes| == k
        invariant forall i :: 0 <= i < k && outcomes[i].Pass? ==> NoNeutral(shards[i].0.base.valueById, monoid.neutral)
        invariant forall i :: 0 <= i < k && effects[i].Erased? ==> files[i].Some? && shards[i].0.base.valueById == map[]
      {
        var effect, outcome := PersistOne(k, files[k], mtimes[k]);
        effects, outcomes := effects + [effect], outcomes + [outcome];
        k := k + 1;
      }
    }

    /** One turn of `persist()`: shard `k` persists to its file. */
    method PersistOne(k: nat, file: Option<StoredFile>, mtime: int) returns (effect: DiskEffect<Id, V>, outcome: Outcome<StorageError>)
      requires Valid() && k < |shards|
      modifies shards[k].0, shards[k].0.base
      ensures outcome.Pass? ==> NoNeutral(shards[k].0.base.valueById, monoid.neutral)
      ensures effect.Erased? ==> file.Some? && shards[k].0.base.valueById == map[]
    {
      effect, outcome := shards[k].0.Persist(file, mtime);
    }
  }

  /** `ScoreStorage.resetScores(ids)` on the aggregate: one `remove` per listed id, in list order. */
  method ResetScores(storage: AggregateStorage<int>, ids: seq<Id>)
    requires storage.Valid()
    modifies storage.Bases()
    ensures storage.Stored() == RemovedEach(old(storage.Stored()), ids)
  {
    var k := 0;
    while k < |ids|
      invariant 0 <= k <= |ids|
      invariant RemovedEach(old(storage.Stored()), ids) == RemovedEach(storage.Stored(), ids[k..])
    {
      assert ids[k..][1..] == ids[k + 1..];
      storage.Remove(ids[k]);
      k := k + 1;
    }
  }
}
