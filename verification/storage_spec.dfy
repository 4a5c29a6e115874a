/**
 * The value-level meaning of a monoid-backed storage (BaseStorage.kt,
 * Storage.kt): a map `id -> value` in which a missing id stands for the
 * monoid's `neutral`, the effect of `setValue`, the merge that
 * `syncWithDisk` performs with what another peer wrote to disk, and the
 * decision `writeToDisk` takes. The storage classes are proved against
 * these definitions.
 */
module StorageSpec {
  import opened Wrappers
  import opened Monoids

  /** The ways a storage operation fails, after the exception the source throws. */
  datatype StorageError =
    | AlreadyInitialized     // IllegalStateException("Already initialized")
    | Uninitialized          // UninitializedPropertyAccessException: a lateinit map read before any handler set it
    | DirtyWrite             // StorageException: a neutral value read from disk or left after a merge
    | EmptyStorage           // StorageException: a storage file without entries
    | Unparsable             // StorageException wrapping any other parse failure of a line
    | MissingHeader          // IndexOutOfBoundsException: an empty storage file has no header line
    | UnknownVersion         // StorageException("Unknown storage version")
    | MalformedVersion       // NumberFormatException: the version is not an Int
    | NewerVersion           // StorageException("Storage format is newer than the app")
    | OlderVersion           // StorageException("Storage format is older than the app")
    | Excessive              // IllegalStateException: a neutral value was about to be written
    | TimestampUnchanged     // IllegalStateException("Timestamp didn't update")
    | MissingDiskTimestamp   // NullPointerException from `diskTimestamps[id]!!`
    | MissingValue           // NullPointerException from `valueById[id]!!`
    | MissingFile            // NoSuchFileException from `Files.getLastModifiedTime`
    | Undecodable            // the exception `valueFromBinary` raises

  /** `valueById[id] ?: monoid.neutral`. */
  function Lookup<K, V>(m: map<K, V>, id: K, neutral: V): V
  {
    if id in m then m[id] else neutral
  }

  /** The storage invariant: the neutral value is never stored. */
  predicate NoNeutral<K, V(==)>(m: map<K, V>, neutral: V)
  {
    forall id :: id in m ==> m[id] != neutral
  }

  /**
   * `setValue(id, v)`: a non-neutral value is stored, the neutral value
   * removes the id. Reading the id back gives `v`, every other id reads as
   * before, and the storage invariant is kept.
   */
  function Assign<K, V(==)>(m: map<K, V>, id: K, v: V, neutral: V): (r: map<K, V>)
    ensures Lookup(r, id, neutral) == v
    ensures forall other :: other in m && other != id ==> other in r && r[other] == m[other]
    ensures forall other :: other in r && other != id ==> other in m
    ensures NoNeutral(m, neutral) ==> NoNeutral(r, neutral)
  {
    if v != neutral then m[id := v] else m - {id}
  }

  /** The entries of `m` whose ids lie in `ids`. */
  function Restrict<K, V>(m: map<K, V>, ids: set<K>): (r: map<K, V>)
    ensures r.Keys == m.Keys * ids
    ensures forall id :: id in r ==> r[id] == m[id]
  {
    map id | id in m.Keys * ids :: m[id]
  }

  /**
   * What the merge keeps for one id, `None` for absent: our own value when
   * only we have the id or both sides agree; theirs, when only they have it
   * and it is not neutral; `combine(ours, theirs)` on a conflict, unless that
   * is neutral.
   */
  function MergedEntry<K, V(==)>(mo: Monoid<V>, ours: map<K, V>, theirs: map<K, V>, id: K): Option<V>
  {
    if id in ours && id in theirs && ours[id] != theirs[id] then
      var c := mo.combine(ours[id], theirs[id]);
      if c != mo.neutral then Some(c) else None
    else if id in ours then Some(ours[id])
    else if id in theirs && theirs[id] != mo.neutral then Some(theirs[id])
    else None
  }

  /**
   * `syncWithDisk` on values: ids only we know are kept, ids that appeared
   * from outside are adopted, and ids on both sides with different values
   * become `combine(ours, theirs)`. A neutral value is only kept if we
   * already held it.
   */
  function Merged<K, V(==)>(mo: Monoid<V>, ours: map<K, V>, theirs: map<K, V>): map<K, V>
  {
    map id | id in ours.Keys + theirs.Keys && MergedEntry(mo, ours, theirs, id).Some?
      :: MergedEntry(mo, ours, theirs, id).value
  }

  /**
   * The merge keeps what only we hold or both sides agree on, adopts the
   * outside ids, combines the conflicts, and never introduces a neutral
   * value we did not already hold.
   */
  lemma MergedLaws<K, V>(mo: Monoid<V>, ours: map<K, V>, theirs: map<K, V>)
    ensures var r := Merged(mo, ours, theirs);
      && r.Keys <= ours.Keys + theirs.Keys
      && (forall id :: id in ours && id !in theirs ==> id in r && r[id] == ours[id])
      && (forall id :: id in theirs && id !in ours ==> Lookup(r, id, mo.neutral) == theirs[id])
      && (forall id :: id in ours && id in theirs && ours[id] == theirs[id] ==> id in r && r[id] == ours[id])
      && (forall id :: id in ours && id in theirs && ours[id] != theirs[id] ==>
            Lookup(r, id, mo.neutral) == mo.combine(ours[id], theirs[id]))
      && (NoNeutral(ours, mo.neutral) ==> NoNeutral(r, mo.neutral))
  {
  }

  /** Adopting one more outside id is one `setValue(id, theirs[id])`. */
  lemma AdoptStep<K, V>(mo: Monoid<V>, ours: map<K, V>, theirs: map<K, V>, done: set<K>, id: K)
    requires id in theirs && id !in ours && id !in done
    ensures Merged(mo, ours, Restrict(theirs, done + {id}))
         == Assign(Merged(mo, ours, Restrict(theirs, done)), id, theirs[id], mo.neutral)
  {
    var a := Merged(mo, ours, Restrict(theirs, done + {id}));
    var b := Assign(Merged(mo, ours, Restrict(theirs, done)), id, theirs[id], mo.neutral);
    assert forall k :: k != id ==>
      MergedEntry(mo, ours, Restrict(theirs, done + {id}), k) == MergedEntry(mo, ours, Restrict(theirs, done), k);
    assert a.Keys == b.Keys;
  }

  /** Reconciling one more known id is `setValue(id, combine(ours, theirs))` when the two differ. */
  lemma ReconcileStep<K, V>(mo: Monoid<V>, ours: map<K, V>, theirs: map<K, V>, done: set<K>, id: K)
    requires id in theirs && id in ours && id !in done
    ensures Merged(mo, ours, Restrict(theirs, done + {id}))
         == if theirs[id] != ours[id]
            then Assign(Merged(mo, ours, Restrict(theirs, done)), id, mo.combine(ours[id], theirs[id]), mo.neutral)
            else Merged(mo, ours, Restrict(theirs, done))
  {
    var a := Merged(mo, ours, Restrict(theirs, done + {id}));
    var m := Merged(mo, ours, Restrict(theirs, done));
    assert forall k :: k != id ==>
      MergedEntry(mo, ours, Restrict(theirs, done + {id}), k) == MergedEntry(mo, ours, Restrict(theirs, done), k);
    if theirs[id] != ours[id] {
      var b := Assign(m, id, mo.combine(ours[id], theirs[id]), mo.neutral);
      assert a.Keys == b.Keys;
    } else {
      assert a.Keys == m.Keys;
    }
  }

  /**
   * The two passes of `syncWithDisk` (adopt the outside ids, then reconcile
   * the ids both sides hold, computed after the first pass) together give
   * the one-step merge.
   */
  lemma SyncInTwoPasses<K, V>(mo: Monoid<V>, ours: map<K, V>, theirs: map<K, V>)
    ensures var adopted := Merged(mo, ours, Restrict(theirs, theirs.Keys - ours.Keys));
            Merged(mo, adopted, Restrict(theirs, theirs.Keys * adopted.Keys)) == Merged(mo, ours, theirs)
  {
    var adopted := Merged(mo, ours, Restrict(theirs, theirs.Keys - ours.Keys));
    var t2 := Restrict(theirs, theirs.Keys * adopted.Keys);
    var a := Merged(mo, adopted, t2);
    var b := Merged(mo, ours, theirs);
    forall k | k in ours.Keys + theirs.Keys
      ensures MergedEntry(mo, adopted, t2, k) == MergedEntry(mo, ours, theirs, k)
    {
    }
    assert a.Keys == b.Keys;
  }

  /** Merging with an empty disk map, or with none of its ids, changes nothing. */
  lemma MergeWithNothing<K, V>(mo: Monoid<V>, ours: map<K, V>, theirs: map<K, V>)
    ensures Merged(mo, ours, map[]) == ours
    ensures Merged(mo, ours, Restrict(theirs, {})) == ours
  {
    var r := Merged(mo, ours, map[]);
    assert r.Keys == ours.Keys;
    assert Restrict(theirs, {}) == map[];
  }

  /**
   * The two laws of `combine` under which a repeated sync with the same disk
   * contents is a no-op: combining with the same peer value again changes
   * nothing, and a neutral result means the peer value was neutral.
   */
  ghost predicate SyncLaws<V(!new)>(mo: Monoid<V>)
  {
    (forall a, b :: mo.combine(mo.combine(a, b), b) == mo.combine(a, b))
    && (forall a, b :: mo.combine(a, b) == mo.neutral ==> b == mo.neutral)
  }

  /** Under the sync laws, merging the same disk map twice is the same as merging it once. */
  lemma MergeIdempotent<K, V(!new)>(mo: Monoid<V>, ours: map<K, V>, theirs: map<K, V>)
    requires SyncLaws(mo)
    ensures Merged(mo, Merged(mo, ours, theirs), theirs) == Merged(mo, ours, theirs)
  {
    var once := Merged(mo, ours, theirs);
    var twice := Merged(mo, once, theirs);
    forall k | k in ours.Keys + theirs.Keys
      ensures MergedEntry(mo, once, theirs, k) == MergedEntry(mo, ours, theirs, k)
    {
      if k in ours && k in theirs && ours[k] != theirs[k] {
        var c := mo.combine(ours[k], theirs[k]);
        assert mo.combine(c, theirs[k]) == c;
      }
    }
    assert twice.Keys == once.Keys;
  }

  /** What the no-argument `writeToDisk` does with the in-memory map. */
  datatype WriteAction<K, V> =
    | Reject(error: StorageError)   // an exception, nothing touched
    | Erase                         // the store exists and is deleted
    | Nothing                       // nothing to write and nothing to delete
    | Snapshot(entries: map<K, V>)  // the whole map is written

  /**
   * BaseStorage.writeToDisk(): a neutral value is an IllegalStateException;
   * an empty map erases an existing store; otherwise the snapshot is written.
   */
  function BaseWriteAction<K, V(==)>(m: map<K, V>, neutral: V, present: bool): (a: WriteAction<K, V>)
    ensures a.Reject? <==> !NoNeutral(m, neutral)
    ensures a.Reject? ==> a.error == Excessive
    ensures a.Erase? <==> NoNeutral(m, neutral) && |m| == 0 && present
    ensures a.Snapshot? ==> a.entries == m && |m| > 0 && NoNeutral(a.entries, neutral)
  {
    if exists id :: id in m && m[id] == neutral then Reject(Excessive)
    else if |m| == 0 then (if present then Erase else Nothing)
    else Snapshot(m)
  }

  /** Storage.check(value): "storage is excessive" exactly for the neutral value. */
  predicate IsExcessive<V(==)>(v: V, neutral: V)
  {
    v == neutral
  }

  /**
   * Storage.writeToDisk(): an empty map or one holding only neutral values
   * erases an existing store; anything else is written as it is, neutral
   * entries included.
   */
  function LegacyWriteAction<K, V(==)>(m: map<K, V>, neutral: V, present: bool): (a: WriteAction<K, V>)
    ensures !a.Reject?
    ensures a.Erase? <==> present && forall id :: id in m ==> IsExcessive(m[id], neutral)
    ensures a.Snapshot? <==> exists id :: id in m && !IsExcessive(m[id], neutral)
    ensures a.Snapshot? ==> a.entries == m
  {
    if |m| == 0 || forall id :: id in m ==> IsExcessive(m[id], neutral) then (if present then Erase else Nothing)
    else Snapshot(m)
  }

  /** On maps that keep the storage invariant, the older and the newer write decisions agree. */
  lemma WriteActionsAgree<K, V>(m: map<K, V>, neutral: V, present: bool)
    requires NoNeutral(m, neutral)
    ensures BaseWriteAction(m, neutral, present) == LegacyWriteAction(m, neutral, present)
  {
    if |m| > 0 {
      var id :| id in m;
      assert !IsExcessive(m[id], neutral);
    }
  }

  /** On a map mixing neutral and other values, the older storage writes it and the newer one refuses. */
  lemma WriteActionsDisagree<K, V>(m: map<K, V>, neutral: V, present: bool, a: K, b: K)
    requires a in m && m[a] == neutral && b in m && m[b] != neutral
    ensures BaseWriteAction(m, neutral, present) == Reject(Excessive)
    ensures LegacyWriteAction(m, neutral, present) == Snapshot(m)
  {
    assert !IsExcessive(m[b], neutral);
  }
}
