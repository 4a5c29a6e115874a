/**
 * BaseStorage.kt: the in-memory side of a storage. `valueById` holds the
 * non-neutral values, `initialized` guards `init`. What `readFromDisk`
 * hands over and whether the backing store exists are inputs of the
 * operations; the debounced persisting and its mutex are sequential calls
 * here (FileStorage composes `syncWithDisk` with `writeToDisk`).
 */
module BaseStorages {
  import opened Wrappers
  import opened Monoids
  import opened StorageSpec

  class BaseStorage<K(==), V(==)> {
    const monoid: Monoid<V>
    var valueById: map<K, V>
    var initialized: bool

    constructor (monoid: Monoid<V>)
      ensures this.monoid == monoid && valueById == map[] && !initialized
    {
      this.monoid := monoid;
      valueById := map[];
      initialized := false;
    }

    /**
     * `init()`: a second call is an IllegalStateException. When the store
     * exists, what `readFromDisk` hands over is added with `putAll`; a read
     * failure leaves the storage uninitialized. `read` is `Ok(None)` when
     * `readFromDisk` returns without calling its handler.
     */
    method Init(present: bool, read: Result<Option<map<K, V>>, StorageError>) returns (r: Outcome<StorageError>)
      modifies this
      ensures old(initialized) ==> r == Fail(AlreadyInitialized) && valueById == old(valueById) && initialized
      ensures !old(initialized) && present && read.Err? ==>
        r == Fail(read.error) && valueById == old(valueById) && !initialized
      ensures !old(initialized) && (!present || read.Ok?) ==> r == Pass && initialized
      ensures !old(initialized) && !present ==> valueById == old(valueById)
      ensures !old(initialized) && present && read.Ok? ==>
        valueById == (if read.value.Some? then old(valueById) + read.value.value else old(valueById))
    {
      if initialized {
        return Fail(AlreadyInitialized);
      }
      if present {
        match read {
          case Err(e) =>
            return Fail(e);
          case Ok(handed) =>
            if handed.Some? {
              valueById := valueById + handed.value;
            }
        }
      }
      initialized := true;
      r := Pass;
    }

    /** `getValue(id)`: the stored value, or `neutral` for an id the storage does not hold. */
    function GetValue(id: K): (v: V)
      reads this
      ensures v == Lookup(valueById, id, monoid.neutral)
    {
      if id in valueById then valueById[id] else monoid.neutral
    }

    /** `isNeutral(value)`. */
    predicate IsNeutral(value: V)
    {
      value == monoid.neutral
    }

    /** `setValue(id, value)`: stores a non-neutral value and removes the id for `neutral`. */
    method SetValue(id: K, value: V)
      modifies this
      ensures valueById == Assign(old(valueById), id, value, monoid.neutral)
      ensures initialized == old(initialized)
    {
      if !IsNeutral(value) {
        valueById := valueById[id := value];
      } else {
        Remove(id);
      }
    }

    /** `remove(id)`: deletes exactly that key. */
    method Remove(id: K)
      modifies this
      ensures valueById == old(valueById) - {id}
      ensures initialized == old(initialized)
    {
      valueById := valueById - {id};
    }

    /**
     * `syncWithDisk()`: nothing happens when the store does not exist.
     * Otherwise `readFromDisk` may hand over a map `theirs` (it does not
     * when the store has not changed since our last read or write); the
     * ids that appeared from outside are adopted and those both sides hold
     * with different values are combined, which is `Merged`. A neutral value
     * left in memory afterwards is a StorageException.
     */
    method SyncWithDisk(present: bool, read: Result<Option<map<K, V>>, StorageError>) returns (r: Outcome<StorageError>)
      modifies this
      ensures initialized == old(initialized)
      ensures !present ==> r == Pass && valueById == old(valueById)
      ensures present && read.Err? ==> r == Fail(read.error) && valueById == old(valueById)
      ensures present && read.Ok? ==>
        valueById == (if read.value.Some? then Merged(monoid, old(valueById), read.value.value) else old(valueById))
      ensures present && read.Ok? ==> (r == Pass <==> NoNeutral(valueById, monoid.neutral))
      ensures present && read.Ok? && r.Fail? ==> r.error == DirtyWrite
    {
      if !present {
        return Pass;
      }
      if read.Err? {
        return Fail(read.error);
      }
      if read.value.Some? {
        ghost var ours := valueById;
        AdoptOutside(read.value.value);
        ReconcileKnown(read.value.value);
        SyncInTwoPasses(monoid, ours, read.value.value);
      }
      if exists id :: id in valueById && IsNeutral(valueById[id]) {
        return Fail(DirtyWrite);
      }
      r := Pass;
    }

    /** The first loop of `syncWithDisk`: every id only `theirs` holds goes through `setValue`. */
    method AdoptOutside(theirs: map<K, V>)
      modifies this
      ensures valueById == Merged(monoid, old(valueById), Restrict(theirs, theirs.Keys - old(valueById).Keys))
      ensures initialized == old(initialized)
    {
      ghost var ours := valueById;
      var added := theirs.Keys - valueById.Keys;
      ghost var done: set<K> := {};
      MergeWithNothing(monoid, ours, theirs);
      while added != {}
        invariant added !! done && added + done == theirs.Keys - ours.Keys
        invariant valueById == Merged(monoid, ours, Restrict(theirs, done))
        invariant initialized == old(initialized)
        decreases |added|
      {
        added, done := AdoptOne(ours, theirs, added, done);
      }
      assert done == theirs.Keys - ours.Keys;
    }

    /** One turn of the first loop: `setValue(id, theirs[id])` for one id still to adopt. */
    method AdoptOne(ghost ours: map<K, V>, theirs: map<K, V>, added: set<K>, ghost done: set<K>)
      returns (added': set<K>, ghost done': set<K>)
      requires added != {} && added !! done && added + done == theirs.Keys - ours.Keys
      requires valueById == Merged(monoid, ours, Restrict(theirs, done))
      modifies this
      ensures added' !! done' && added' + done' == theirs.Keys - ours.Keys && |added'| < |added|
      ensures valueById == Merged(monoid, ours, Restrict(theirs, done'))
      ensures initialized == old(initialized)
    {
      var id :| id in added;
      AdoptStep(monoid, ours, theirs, done, id);
      SetValue(id, theirs[id]);
      added' := added - {id};
      done' := done + {id};
    }

    /**
     * The second loop of `syncWithDisk`: every id both sides hold (taken
     * after the first loop) whose values differ is set to `combine(ours, theirs)`.
     */
    method ReconcileKnown(theirs: map<K, V>)
      modifies this
      ensures valueById == Merged(monoid, old(valueById), Restrict(theirs, theirs.Keys * old(valueById).Keys))
      ensures initialized == old(initialized)
    {
      ghost var ours := valueById;
      var known := theirs.Keys * valueById.Keys;
      ghost var done: set<K> := {};
      MergeWithNothing(monoid, ours, theirs);
      while known != {}
        invariant known !! done && known + done == theirs.Keys * ours.Keys
        invariant valueById == Merged(monoid, ours, Restrict(theirs, done))
        invariant initialized == old(initialized)
        decreases |known|
      {
        known, done := ReconcileOne(ours, theirs, known, done);
      }
      assert done == theirs.Keys * ours.Keys;
    }

    /** One turn of the second loop: `combine(ours, theirs)` replaces our value when the two differ. */
    method ReconcileOne(ghost ours: map<K, V>, theirs: map<K, V>, known: set<K>, ghost done: set<K>)
      returns (known': set<K>, ghost done': set<K>)
      requires known != {} && known !! done && known + done == theirs.Keys * ours.Keys
      requires valueById == Merged(monoid, ours, Restrict(theirs, done))
      modifies this
      ensures known' !! done' && known' + done' == theirs.Keys * ours.Keys && |known'| < |known|
      ensures valueById == Merged(monoid, ours, Restrict(theirs, done'))
      ensures initialized == old(initialized)
    {
      var id :| id in known;
      ReconcileStep(monoid, ours, theirs, done, id);
      var current := GetValue(id);
      if theirs[id] != current {
        SetValue(id, monoid.combine(current, theirs[id]));
      }
      known' := known - {id};
      done' := done + {id};
    }
  }
}
