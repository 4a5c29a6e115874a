/**
 * Storage.kt: the older storage base. It loads its map when constructed,
 * merges with disk like BaseStorage but without the neutral check after the
 * merge, and erases the store when every value it holds is neutral.
 * Whether the store exists and what `readFromDisk` does are inputs: it
 * hands a map to its handler, hands nothing, or throws.
 */
module LegacyStorages {
  import opened Wrappers
  import opened Monoids
  import opened StorageSpec

  class Storage<K(==), V(==)> {
    const monoid: Monoid<V>
    var valueById: map<K, V>

    /** A storage holding `initial`. */
    constructor (monoid: Monoid<V>, initial: map<K, V>)
      ensures this.monoid == monoid && valueById == initial
    {
      this.monoid := monoid;
      valueById := initial;
    }

    /**
     * Construction and its `init` block: an existing store's map becomes
     * the storage's; a missing store starts empty. An exception of
     * `readFromDisk` escapes the constructor, and an existing store whose
     * reader hands nothing leaves the `lateinit` map unset, so logging its
     * size throws.
     */
    static method Load(monoid: Monoid<V>, present: bool, read: Result<Option<map<K, V>>, StorageError>)
      returns (r: Result<Storage<K, V>, StorageError>)
      ensures !present ==> r.Ok? && fresh(r.value) && r.value.monoid == monoid && r.value.valueById == map[]
      ensures present && read.Err? ==> r == Err(read.error)
      ensures present && read == Ok(None) ==> r == Err(Uninitialized)
      ensures present && read.Ok? && read.value.Some? ==>
        r.Ok? && fresh(r.value) && r.value.monoid == monoid && r.value.valueById == read.value.value
    {
      if !present {
        var s := new Storage(monoid, map[]);
        return Ok(s);
      }
      match read
      case Err(e) => r := Err(e);
      case Ok(None) => r := Err(Uninitialized);
      case Ok(Some(m)) =>
        var s := new Storage(monoid, m);
        r := Ok(s);
    }

    /** `getValue(id)`: the stored value, or `neutral`. */
    function GetValue(id: K): (v: V)
      reads this
      ensures v == Lookup(valueById, id, monoid.neutral)
    {
      if id in valueById then valueById[id] else monoid.neutral
    }

    /** `setValue(id, value)`: only values `!= neutral` are stored; `neutral` removes the id. */
    method SetValue(id: K, value: V)
      modifies this
      ensures valueById == Assign(old(valueById), id, value, monoid.neutral)
    {
      if value != monoid.neutral {
        valueById := valueById[id := value];
      } else {
        Remove(id);
      }
    }

    /** `remove(id)`. */
    method Remove(id: K)
      modifies this
      ensures valueById == old(valueById) - {id}
    {
      valueById := valueById - {id};
    }

    /** `check(value)`: true exactly for the neutral value. */
    predicate Check(value: V)
    {
      IsExcessive(value, monoid.neutral)
    }

    /** `refresh()`: a merge with disk and nothing else. */
    method Refresh(present: bool, read: Result<Option<map<K, V>>, StorageError>) returns (r: Outcome<StorageError>)
      modifies this
      ensures present && read.Err? ==> r == Fail(read.error) && valueById == old(valueById)
      ensures !(present && read.Err?) ==> r == Pass
      ensures valueById == if present && read.Ok? && read.value.Some? then Merged(monoid, old(valueById), read.value.value) else old(valueById)
    {
      r := SyncWithDisk(present, read);
    }

    /**
     * `persist()`: the merge, then the decision of `writeToDisk()` on the
     * merged map.
     */
    method Persist(present: bool, read: Result<Option<map<K, V>>, StorageError>) returns (r: Result<WriteAction<K, V>, StorageError>)
      modifies this
      ensures valueById == if present && read.Ok? && read.value.Some? then Merged(monoid, old(valueById), read.value.value) else old(valueById)
      ensures present && read.Err? ==> r == Err(read.error)
      ensures !(present && read.Err?) ==> r == Ok(LegacyWriteAction(valueById, monoid.neutral, present))
    {
      var synced := SyncWithDisk(present, read);
      if synced.Fail? {
        return Err(synced.error);
      }
      if |valueById| == 0 || forall id :: id in valueById ==> Check(valueById[id]) {
        r := Ok(if present then Erase else Nothing);
      } else {
        r := Ok(Snapshot(valueById));
      }
    }

    /**
     * `syncWithDisk()`: no-op for a missing store or a reader that hands
     * nothing, the reader's exception when it throws, otherwise the two
     * passes of the merge.
     */
    method SyncWithDisk(present: bool, read: Result<Option<map<K, V>>, StorageError>) returns (r: Outcome<StorageError>)
      modifies this
      ensures present && read.Err? ==> r == Fail(read.error) && valueById == old(valueById)
      ensures !(present && read.Err?) ==> r == Pass
      ensures valueById == if present && read.Ok? && read.value.Some? then Merged(monoid, old(valueById), read.value.value) else old(valueById)
    {
      if !present {
        return Pass;
      }
      match read
      case Err(e) => r := Fail(e);
      case Ok(None) => r := Pass;
      case Ok(Some(theirs)) =>
        ghost var ours := valueById;
        AdoptOutside(theirs);
        ReconcileKnown(theirs);
        SyncInTwoPasses(monoid, ours, theirs);
        r := Pass;
    }

    /** The first loop of `syncWithDisk`. */
    method AdoptOutside(theirs: map<K, V>)
      modifies this
      ensures valueById == Merged(monoid, old(valueById), Restrict(theirs, theirs.Keys - old(valueById).Keys))
    {
      ghost var ours := valueById;
      var added := theirs.Keys - valueById.Keys;
      ghost var done: set<K> := {};
      MergeWithNothing(monoid, ours, theirs);
      while added != {}
        invariant added !! done && added + done == theirs.Keys - ours.Keys
        invariant valueById == Merged(monoid, ours, Restrict(theirs, done))
        decreases |added|
      {
        added, done := AdoptOne(ours, theirs, added, done);
      }
      assert done == theirs.Keys - ours.Keys;
    }

    /** One turn of the first loop: `setValue(id, theirs[id])`. */
    method AdoptOne(ghost ours: map<K, V>, theirs: map<K, V>, added: set<K>, ghost done: set<K>)
      returns (added': set<K>, ghost done': set<K>)
      requires added != {} && added !! done && added + done == theirs.Keys - ours.Keys
      requires valueById == Merged(monoid, ours, Restrict(theirs, done))
      modifies this
      ensures added' !! done' && added' + done' == theirs.Keys - ours.Keys && |added'| < |added|
      ensures valueById == Merged(monoid, ours, Restrict(theirs, done'))
    {
      var id :| id in added;
      AdoptStep(monoid, ours, theirs, done, id);
      SetValue(id, theirs[id]);
      added' := added - {id};
      done' := done + {id};
    }

    /** The second loop of `syncWithDisk`. */
    method ReconcileKnown(theirs: map<K, V>)
      modifies this
      ensures valueById == Merged(monoid, old(valueById), Restrict(theirs, theirs.Keys * old(valueById).Keys))
    {
      ghost var ours := valueById;
      var known := theirs.Keys * valueById.Keys;
      ghost var done: set<K> := {};
      MergeWithNothing(monoid, ours, theirs);
      while known != {}
        invariant known !! done && known + done == theirs.Keys * ours.Keys
        invariant valueById == Merged(monoid, ours, Restrict(theirs, done))
        decreases |known|
      {
        known, done := ReconcileOne(ours, theirs, known, done);
      }
      assert done == theirs.Keys * ours.Keys;
    }

    /** One turn of the second loop: `setValue(id, combine(ours, theirs))` when the two differ. */
    method ReconcileOne(ghost ours: map<K, V>, theirs: map<K, V>, known: set<K>, ghost done: set<K>)
      returns (known': set<K>, ghost done': set<K>)
      requires known != {} && known !! done && known + done == theirs.Keys * ours.Keys
      requires valueById == Merged(monoid, ours, Restrict(theirs, done))
      modifies this
      ensures known' !! done' && known' + done' == theirs.Keys * ours.Keys && |known'| < |known|
      ensures valueById == Merged(monoid, ours, Restrict(theirs, done'))
    {
      var id :| id in known;
      ReconcileStep(monoid, ours, theirs, done, id);
      var current := GetValue(id);
      if theirs[id] != current {
        SetValue(id, monoid.combine(current, theirs[id]));
      }
      known' := known - {id};
      done' := done + {id};
    }
  }
}
