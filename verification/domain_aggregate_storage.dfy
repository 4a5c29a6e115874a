/**
 * domain/storage/AggregateStorage.kt, the older aggregate: a read takes
 * the first shard that stores the id, and every write, removal, refresh
 * and persist goes to every shard, whatever the shard's index holds.
 */
module DomainAggregateStorages {
  import opened Wrappers
  import opened Monoids
  import opened StorageSpec
  import opened BaseStorages
  import opened FileStorages
  import opened AggregateStorages

  /** `setValue` of the older aggregate: every shard runs its own `setValue`. */
  function SetEverywhere<K, V(==)>(stored: seq<map<K, V>>, id: K, value: V, neutral: V): seq<map<K, V>>
  {
    seq(|stored|, i requires 0 <= i < |stored| => Assign(stored[i], id, value, neutral))
  }

  /**
   * Set then get: with at least one shard the value written reads back;
   * with none the write is lost and the id reads as `neutral`. Every other
   * id reads as before.
   */
  lemma GetAfterSetEverywhere<K, V>(stored: seq<map<K, V>>, id: K, value: V, neutral: V)
    ensures FirstValue(SetEverywhere(stored, id, value, neutral), id, neutral) == if |stored| > 0 then value else neutral
    ensures forall other :: other != id ==>
      FirstValue(SetEverywhere(stored, id, value, neutral), other, neutral) == FirstValue(stored, other, neutral)
  {
    var r := SetEverywhere(stored, id, value, neutral);
    if value == neutral {
      assert forall i :: 0 <= i < |r| ==> id !in r[i];
    }
    forall other | other != id ensures FirstValue(r, other, neutral) == FirstValue(stored, other, neutral) {
      FirstValueAgrees(r, stored, other, neutral);
    }
  }

  /** A shard's map after `refresh()`: merged with what its read handed over, if anything. */
  function Refreshed<K, V(==)>(mo: Monoid<V>, ours: map<K, V>, handed: Result<Option<map<K, V>>, StorageError>): map<K, V>
  {
    if handed.Ok? && handed.value.Some? then Merged(mo, ours, handed.value.value) else ours
  }

  /** `refresh()` of the older aggregate: every shard merges with its own file. */
  function RefreshedAll<K, V(==)>(mo: Monoid<V>, stored: seq<map<K, V>>, handed: seq<Result<Option<map<K, V>>, StorageError>>): seq<map<K, V>>
    requires |handed| == |stored|
  {
    seq(|stored|, i requires 0 <= i < |stored| => Refreshed(mo, stored[i], handed[i]))
  }

  class AggregateStorage<K(==), V(==)> {
    const monoid: Monoid<V>
    const shards: seq<FileStorage<K, V>>

    constructor (monoid: Monoid<V>, shards: seq<FileStorage<K, V>>)
      ensures this.monoid == monoid && this.shards == shards
    {
      this.monoid := monoid;
      this.shards := shards;
    }

    /** The in-memory maps of the shards. */
    ghost function Bases(): set<BaseStorage<K, V>>
    {
      set i | 0 <= i < |shards| :: shards[i].base
    }

    /** Every shard's `valueById`, in shard order. */
    function Stored(): (r: seq<map<K, V>>)
      reads Bases()
      ensures |r| == |shards| && forall i :: 0 <= i < |shards| ==> r[i] == shards[i].base.valueById
    {
      seq(|shards|, i requires 0 <= i < |shards| reads Bases() => shards[i].base.valueById)
    }

    /** The shards are distinct storages over the aggregate's monoid. */
    ghost predicate Valid()
    {
      && (forall i, j :: 0 <= i < j < |shards| ==> shards[i] != shards[j] && shards[i].base != shards[j].base)
      && (forall i :: 0 <= i < |shards| ==> shards[i].base.monoid == monoid)
    }

    /** `getValue(id)`: the first non-null shard value, else `neutral`. */
    function GetValue(id: K): (v: V)
      reads Bases()
      ensures (forall i :: 0 <= i < |shards| ==> id !in shards[i].base.valueById) ==> v == monoid.neutral
      ensures forall i :: 0 <= i < |shards| ==>
        (id in shards[i].base.valueById && (forall j :: 0 <= j < i ==> id !in shards[j].base.valueById)
         ==> v == shards[i].base.valueById[id])
    {
      FirstValue(Stored(), id, monoid.neutral)
    }

    /** `setValue(id, value)`: every shard stores the value. */
    method SetValue(id: K, value: V)
      requires Valid()
      modifies Bases()
      ensures Stored() == SetEverywhere(old(Stored()), id, value, monoid.neutral)
    {
      var k := 0;
      while k < |shards|
        invariant 0 <= k <= |shards|
        invariant forall i :: 0 <= i < k ==>
          shards[i].base.valueById == Assign(old(shards[i].base.valueById), id, value, monoid.neutral)
        invariant forall i :: k <= i < |shards| ==> shards[i].base.valueById == old(shards[i].base.valueById)
      {
        shards[k].base.SetValue(id, value);
        k := k + 1;
      }
    }

    /** `remove(id)`: every shard drops `id`, so afterwards it reads as `neutral`. */
    method Remove(id: K)
      requires Valid()
      modifies Bases()
      ensures Stored() == RemovedAll(old(Stored()), id)
      ensures GetValue(id) == monoid.neutral
    {
      var k := 0;
      while k < |shards|
        invariant 0 <= k <= |shards|
        invariant forall i :: 0 <= i < k ==> shards[i].base.valueById == old(shards[i].base.valueById) - {id}
        invariant forall i :: k <= i < |shards| ==> shards[i].base.valueById == old(shards[i].base.valueById)
      {
        shards[k].base.Remove(id);
        k := k + 1;
      }
    }

    /** The file storages of the shards. */
    ghost function Files(): set<FileStorage<K, V>>
    {
      set i | 0 <= i < |shards| :: shards[i]
    }

    /** What each shard's `readFromDisk` hands over, in shard order; `files[i]` is the file of shard `i`. */
    ghost function Handed(files: seq<Option<StoredFile>>): (r: seq<Result<Option<map<K, V>>, StorageError>>)
      requires |files| == |shards|
      reads Files()
      ensures |r| == |shards| && forall i :: 0 <= i < |shards| ==> r[i] == shards[i].Handed(files[i])
    {
      seq(|shards|, i requires 0 <= i < |shards| reads Files() => shards[i].Handed(files[i]))
    }

    /**
     * `refresh()`: the shards merge with their own files in order, and the
     * first whose refresh throws (its read fails, or the merge leaves a
     * neutral value) ends the call, the exception escaping `forEach`; the
     * shards after it keep their maps.
     */
    method Refresh(files: seq<Option<StoredFile>>) returns (outcomes: seq<Outcome<StorageError>>)
      requires Valid() && |files| == |shards|
      modifies Files(), Bases()
      ensures |outcomes| <= |shards|
      ensures |outcomes| == |shards| || (|outcomes| > 0 && outcomes[|outcomes| - 1].Fail?)
      ensures forall i :: 0 <= i < |outcomes| - 1 ==> outcomes[i].Pass?
      ensures Stored() == RefreshedAll(monoid, old(Stored()), old(Handed(files)))[..|outcomes|] + old(Stored())[|outcomes|..]
      ensures forall i :: 0 <= i < |outcomes| ==>
        (outcomes[i].Pass? <==> files[i].None? || (old(Handed(files))[i].Ok? && NoNeutral(Stored()[i], monoid.neutral)))
      ensures forall i :: 0 <= i < |outcomes| && old(Handed(files))[i].Err? ==> outcomes[i] == Fail(old(Handed(files))[i].error)
    {
      outcomes := RefreshInTurn(files, Stored(), Handed(files));
    }

    /** The loop of `refresh()`, against the maps and reads before it. */
    method RefreshInTurn(files: seq<Option<StoredFile>>, ghost before: seq<map<K, V>>,
                         ghost handed: seq<Result<Option<map<K, V>>, StorageError>>)
      returns (outcomes: seq<Outcome<StorageError>>)
      requires Valid() && |files| == |shards| && before == Stored() && handed == Handed(files)
      modifies Files(), Bases()
      ensures |outcomes| <= |shards|
      ensures |outcomes| == |shards| || (|outcomes| > 0 && outcomes[|outcomes| - 1].Fail?)
      ensures forall i :: 0 <= i < |outcomes| - 1 ==> outcomes[i].Pass?
      ensures Stored() == RefreshedAll(monoid, before, handed)[..|outcomes|] + before[|outcomes|..]
      ensures forall i :: 0 <= i < |outcomes| ==>
        (outcomes[i].Pass? <==> files[i].None? || (handed[i].Ok? && NoNeutral(Stored()[i], monoid.neutral)))
      ensures forall i :: 0 <= i < |outcomes| && handed[i].Err? ==> outcomes[i] == Fail(handed[i].error)
    {
      outcomes := [];
      var k := 0;
      var failed := false;
      while k < |shards| && !failed
        invariant RefreshedUpTo(files, before, handed, outcomes, k)
        invariant forall i :: 0 <= i < k - 1 ==> outcomes[i].Pass?
        invariant failed <==> k > 0 && outcomes[k - 1].Fail?
      {
        assert forall i :: 0 <= i < k ==> outcomes[i].Pass?;
        var outcome := RefreshStep(files, before, handed, outcomes, k);
        outcomes := outcomes + [outcome];
        failed := outcome.Fail?;
        k := k + 1;
      }
      RefreshedPrefix(files, before, handed, outcomes, k);
    }

    /**
     * The state of `refresh()` after shards `0..k`: each has merged with
     * what its file handed, its outcome says whether that passed, and the
     * shards from `k` on are as they were.
     */
    ghost predicate RefreshedUpTo(files: seq<Option<StoredFile>>, before: seq<map<K, V>>,
                                  handed: seq<Result<Option<map<K, V>>, StorageError>>, outcomes: seq<Outcome<StorageError>>, k: nat)
      reads Files(), Bases()
    {
      && |files| == |shards| && |before| == |shards| && |handed| == |shards| && k <= |shards| && |outcomes| == k
      && (forall i :: k <= i < |shards| ==> shards[i].base.valueById == before[i] && shards[i].Handed(files[i]) == handed[i])
      && (forall i :: 0 <= i < k ==> shards[i].base.valueById == Refreshed(monoid, before[i], handed[i]))
      && (forall i :: 0 <= i < k ==>
            (outcomes[i].Pass? <==> files[i].None? || (handed[i].Ok? && NoNeutral(shards[i].base.valueById, monoid.neutral))))
      && (forall i :: 0 <= i < k && handed[i].Err? ==> outcomes[i] == Fail(handed[i].error))
    }

    /** One turn of `refresh()`, with the loop's bookkeeping. */
    method RefreshStep(files: seq<Option<StoredFile>>, ghost before: seq<map<K, V>>,
                       ghost handed: seq<Result<Option<map<K, V>>, StorageError>>, outcomes: seq<Outcome<StorageError>>, k: nat)
      returns (outcome: Outcome<StorageError>)
      requires Valid() && k < |shards| && RefreshedUpTo(files, before, handed, outcomes, k)
      modifies shards[k], shards[k].base
      ensures RefreshedUpTo(files, before, handed, outcomes + [outcome], k + 1)
    {
      assert forall i :: 0 <= i < |shards| && i != k ==> shards[i] != shards[k] && shards[i].base != shards[k].base;
      outcome := RefreshOne(k, files[k]);
    }

    /** The maps and outcomes once `refresh()` has stopped after shard `n - 1`. */
    lemma RefreshedPrefix(files: seq<Option<StoredFile>>, before: seq<map<K, V>>,
                          handed: seq<Result<Option<map<K, V>>, StorageError>>, outcomes: seq<Outcome<StorageError>>, n: nat)
      requires RefreshedUpTo(files, before, handed, outcomes, n)
      ensures Stored() == RefreshedAll(monoid, before, handed)[..n] + before[n..]
      ensures forall i :: 0 <= i < n ==>
        (outcomes[i].Pass? <==> files[i].None? || (handed[i].Ok? && NoNeutral(Stored()[i], monoid.neutral)))
      ensures forall i :: 0 <= i < n && handed[i].Err? ==> outcomes[i] == Fail(handed[i].error)
    {
    }

    /** One turn of `refresh()`: shard `k` merges with its file. */
    method RefreshOne(k: nat, file: Option<StoredFile>) returns (outcome: Outcome<StorageError>)
      requires Valid() && k < |shards|
      modifies shards[k], shards[k].base
      ensures shards[k].base.valueById == Refreshed(monoid, old(shards[k].base.valueById), old(shards[k].Handed(file)))
      ensures outcome.Pass? <==> file.None? || (old(shards[k].Handed(file)).Ok? && NoNeutral(shards[k].base.valueById, monoid.neutral))
      ensures old(shards[k].Handed(file)).Err? ==> outcome == Fail(old(shards[k].Handed(file)).error)
    {
      outcome := shards[k].Refresh(file);
    }

    /**
     * `persist()`: every shard persists once, in order; `files[i]` is the
     * shard's file and `mtimes[i]` the modification time its write leaves.
     */
    method Persist(files: seq<Option<StoredFile>>, mtimes: seq<int>) returns (effects: seq<DiskEffect<K, V>>, outcomes: seq<Outcome<StorageError>>)
      requires Valid() && |files| == |shards| && |mtimes| == |shards|
      modifies Files(), Bases()
      ensures |effects| == |shards| && |outcomes| == |shards|
      ensures forall i :: 0 <= i < |shards| && outcomes[i].Pass? ==> NoNeutral(shards[i].base.valueById, monoid.neutral)
      ensures forall i :: 0 <= i < |shards| && effects[i].Erased? ==> files[i].Some? && shards[i].base.valueById == map[]
    {
      effects, outcomes := [], [];
      var k := 0;
      while k < |shards|
        invariant 0 <= k <= |shards| && |effects| == k && |outcomes| == k
        invariant forall i :: 0 <= i < k && outcomes[i].Pass? ==> NoNeutral(shards[i].base.valueById, monoid.neutral)
        invariant forall i :: 0 <= i < k && effects[i].Erased? ==> files[i].Some? && shards[i].base.valueById == map[]
      {
        var effect, outcome := PersistOne(k, files[k], mtimes[k]);
        effects, outcomes := effects + [effect], outcomes + [outcome];
        k := k + 1;
      }
    }

    /** One turn of `persist()`: shard `k` persists to its file. */
    method PersistOne(k: nat, file: Option<StoredFile>, mtime: int) returns (effect: DiskEffect<K, V>, outcome: Outcome<StorageError>)
      requires Valid() && k < |shards|
      modifies shards[k], shards[k].base
      ensures outcome.Pass? ==> NoNeutral(shards[k].base.valueById, monoid.neutral)
      ensures effect.Erased? ==> file.Some? && shards[k].base.valueById == map[]
    {
      effect, outcome := shards[k].Persist(file, mtime);
    }
  }
}
