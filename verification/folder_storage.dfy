/**
 * data/storage/FolderStorage.kt: a storage keeping one file per id in a
 * folder, named after the id. Two timestamp maps track what is on disk:
 * `diskTimestamps` holds each file's modification time at our last read or
 * write, `ramTimestamps` the time of our last change of the id; an id whose
 * two stamps differ has to be written. The in-memory map is the BaseStorage
 * of domain/storage/BaseStorage.kt (the BaseStorage this class extends is
 * not part of this model). The folder's files, their modification times
 * and the clock are inputs.
 */
module FolderStorages {
  import opened Wrappers
  import opened Paths
  import opened Monoids
  import opened StorageSpec
  import opened BaseStorages
  import ArkLib
  import Sets

  type Id = ArkLib.ResourceId
  type Bytes = seq<bv8>

  /** `valueToBinary` / `valueFromBinary`; `None` is the exception decoding raises. */
  datatype BinaryCodec<!V> = BinaryCodec(toBinary: V -> Bytes, fromBinary: Bytes -> Option<V>)

  /** A file of the folder: its content and its modification time. */
  datatype FolderFile = FolderFile(bytes: Bytes, mtime: int)

  /** `pathFromId(id)`: the file named `id.toString()` inside the folder. */
  function PathFromId(folder: Path, id: Id): Path
  {
    Child(folder, ArkLib.ToString(id))
  }

  /**
   * `idFromPath(path)`: the file name relative to the folder, parsed as an
   * id; `None` when `relativeTo` fails or leaves no file name.
   */
  function IdFromPath(folder: Path, path: Path): Option<Id>
  {
    match Relativize(folder, path)
    case None => None
    case Some(relative) =>
      match FileName(relative)
      case None => None
      case Some(name) => Some(ArkLib.FromString(name))
  }

  /** The file of an id names that id again. */
  lemma IdFromPathFromId(folder: Path, id: Id)
    ensures IdFromPath(folder, PathFromId(folder, id)) == Some(id)
  {
    var p := PathFromId(folder, id);
    var k := CommonPrefixLength(folder.names, p.names);
    assert forall i :: 0 <= i < |folder.names| ==> p.names[i] == folder.names[i];
    assert k == |folder.names|;
    assert Ups(0) == [];
    assert p.names[k..] == [ArkLib.ToString(id)];
  }

  /** `findChangedIds()`: the ids stamped in RAM and either not on disk or stamped differently there. */
  function Changed(ram: map<Id, int>, disk: map<Id, int>): set<Id>
  {
    set id | id in ram && (id !in disk || disk[id] != ram[id])
  }

  /** Every id in `ids` stamped with its new time. */
  function Stamps(ids: set<Id>, time: Id -> int): map<Id, int>
  {
    map id | id in ids :: time(id)
  }

  /**
   * Stamping every changed id with the same time in both maps leaves
   * nothing changed.
   */
  lemma StampsSettle(ram: map<Id, int>, disk: map<Id, int>, time: Id -> int)
    ensures Changed(ram + Stamps(Changed(ram, disk), time), disk + Stamps(Changed(ram, disk), time)) == {}
  {
  }

  /** An id stamped at a time other than its disk stamp is changed; no other id changes status. */
  lemma StampMakesChanged(ram: map<Id, int>, disk: map<Id, int>, id: Id, now: int)
    requires id !in disk || disk[id] != now
    ensures Changed(ram[id := now], disk) == Changed(ram, disk) + {id}
  {
  }

  /**
   * An id stamped in RAM that neither the disk nor the in-memory map knows
   * stays changed, so every later `writeToDisk` of a map without it stops
   * at `valueById[id]!!`.
   */
  lemma StrandedStampBlocksWrite<V>(ram: map<Id, int>, disk: map<Id, int>, m: map<Id, V>, id: Id)
    requires id in ram && id !in disk && id !in m
    ensures id in Changed(ram, disk) && !(Changed(ram, disk) <= m.Keys)
  {
  }

  /** Stamping one more id extends the stamped map by that id. */
  lemma StampOneMore(stamps: map<Id, int>, done: set<Id>, id: Id, time: Id -> int)
    ensures stamps + Stamps(done + {id}, time) == (stamps + Stamps(done, time))[id := time(id)]
  {
  }

  /** Every written file holds the encoding of its id's value. */
  ghost predicate Encodes<V>(written: map<Id, Bytes>, m: map<Id, V>, encode: V -> Bytes)
  {
    forall id :: id in written ==> id in m && written[id] == encode(m[id])
  }

  /**
   * After `writeToDisk` has written the ids `done`, starting from the stamps
   * `ram0` and `disk0`: their files hold their encoded values, both stamps
   * are the new times, and each passed the two checks.
   */
  ghost predicate Written<V>(m: map<Id, V>, done: set<Id>, ram0: map<Id, int>, disk0: map<Id, int>, newMtime: Id -> int,
                             encode: V -> Bytes, neutral: V, written: map<Id, Bytes>, ram: map<Id, int>, disk: map<Id, int>)
  {
    && done <= m.Keys
    && written.Keys == done && Encodes(written, m, encode)
    && disk == disk0 + Stamps(done, newMtime)
    && ram == ram0 + Stamps(done, newMtime)
    && Passes(done, m, neutral, disk0, newMtime)
  }

  /** Writing one more id that passes both checks. */
  lemma WrittenOneMore<V>(m: map<Id, V>, done: set<Id>, id: Id, ram0: map<Id, int>, disk0: map<Id, int>, newMtime: Id -> int,
                          encode: V -> Bytes, neutral: V, written: map<Id, Bytes>, ram: map<Id, int>, disk: map<Id, int>)
    requires id in m && id !in done && m[id] != neutral && (id in disk ==> disk[id] != newMtime(id))
    requires Written(m, done, ram0, disk0, newMtime, encode, neutral, written, ram, disk)
    ensures Written(m, done + {id}, ram0, disk0, newMtime, encode, neutral, written[id := encode(m[id])],
                    ram[id := newMtime(id)], disk[id := newMtime(id)])
  {
    StampOneMore(disk0, done, id, newMtime);
    StampOneMore(ram0, done, id, newMtime);
    assert id !in Stamps(done, newMtime);
  }

  /**
   * `writeToDisk` stopping at a pending id of `changed`: before its write
   * when its value is neutral, after it when its time did not move. Either
   * way some changed id fails the checks, and every file written so far
   * holds its encoded value.
   */
  lemma StopKeepsWritten<V>(m: map<Id, V>, changed: set<Id>, done: set<Id>, id: Id, ram0: map<Id, int>, disk0: map<Id, int>,
                            newMtime: Id -> int, encode: V -> Bytes, neutral: V, written: map<Id, Bytes>,
                            ram: map<Id, int>, disk: map<Id, int>, afterWrite: bool)
    requires done <= changed && changed <= m.Keys && id in changed && id !in done
    requires Written(m, done, ram0, disk0, newMtime, encode, neutral, written, ram, disk)
    requires !afterWrite ==> m[id] == neutral
    requires afterWrite ==> id in disk && disk[id] == newMtime(id)
    ensures !Passes(changed, m, neutral, disk0, newMtime)
    ensures var w := if afterWrite then written[id := encode(m[id])] else written;
      w.Keys <= changed && Encodes(w, m, encode)
  {
    if afterWrite {
      assert id !in Stamps(done, newMtime);
      assert id in disk0 && disk0[id] == newMtime(id);
    }
  }

  /** The conditions under which `writeToDisk(m)` writes every changed id without an exception. */
  ghost predicate WriteFits<V>(ram: map<Id, int>, disk: map<Id, int>, m: map<Id, V>, neutral: V, newMtime: Id -> int)
  {
    Changed(ram, disk) <= m.Keys && Passes(Changed(ram, disk), m, neutral, disk, newMtime)
  }

  /** Every id of `ids` passes the two checks of `writeToDisk`: its value is not neutral and its file's time moves. */
  ghost predicate Passes<V>(ids: set<Id>, m: map<Id, V>, neutral: V, disk: map<Id, int>, newMtime: Id -> int)
    requires ids <= m.Keys
  {
    forall id :: id in ids ==> m[id] != neutral && (id in disk ==> disk[id] != newMtime(id))
  }

  /** Combining two non-neutral values never gives the neutral one (so a merge never removes an id). */
  ghost predicate CombineKeepsValues<V(!new)>(mo: Monoid<V>)
  {
    forall a, b :: a != mo.neutral && b != mo.neutral ==> mo.combine(a, b) != mo.neutral
  }

  /** The ids on which a merge of `theirs` into `ours` runs `setValue`: the outside ones and the conflicting ones. */
  function SetBySync<V(==)>(ours: map<Id, V>, theirs: map<Id, V>): set<Id>
  {
    (theirs.Keys - ours.Keys) + set id | id in ours && id in theirs && ours[id] != theirs[id]
  }

  /** What persisting did to the folder. */
  datatype FolderEffect = Untouched | Erased | Wrote(files: map<Id, Bytes>)

  class FolderStorage<V(==,!new)> {
    const folder: Path
    const base: BaseStorage<Id, V>
    const codec: BinaryCodec<V>
    var diskTimestamps: map<Id, int>
    var ramTimestamps: map<Id, int>

    constructor (folder: Path, monoid: Monoid<V>, codec: BinaryCodec<V>)
      ensures this.folder == folder && this.codec == codec
      ensures fresh(base) && base.monoid == monoid && base.valueById == map[] && !base.initialized
      ensures diskTimestamps == map[] && ramTimestamps == map[]
    {
      this.folder := folder;
      this.codec := codec;
      base := new BaseStorage(monoid);
      diskTimestamps := map[];
      ramTimestamps := map[];
    }

    /** The listed files that are new to us or newer than the disk stamp we remember. */
    function Fresh(listing: map<Id, FolderFile>): (r: set<Id>)
      reads this
      ensures forall id :: id in r <==> id in listing && (id !in diskTimestamps || diskTimestamps[id] < listing[id].mtime)
    {
      set id | id in listing && (id !in diskTimestamps || diskTimestamps[id] < listing[id].mtime)
    }

    /**
     * What `readFromDisk` hands to its handler: the decoded values of the
     * fresh files, or the exception one of them raises (it does not decode,
     * or decodes to the neutral value, a sign of a dirty write).
     */
    function Handed(listing: map<Id, FolderFile>): (r: Result<map<Id, V>, StorageError>)
      reads this, base
      ensures r.Ok? <==> forall id :: id in Fresh(listing) ==>
        codec.fromBinary(listing[id].bytes).Some? && codec.fromBinary(listing[id].bytes).value != base.monoid.neutral
      ensures r.Ok? ==> r.value.Keys == Fresh(listing) && NoNeutral(r.value, base.monoid.neutral)
      ensures r.Ok? ==> forall id :: id in r.value ==> codec.fromBinary(listing[id].bytes) == Some(r.value[id])
    {
      var newer := Fresh(listing);
      if exists id :: id in newer && codec.fromBinary(listing[id].bytes).None? then Err(Undecodable)
      else if exists id :: id in newer && codec.fromBinary(listing[id].bytes).value == base.monoid.neutral then Err(DirtyWrite)
      else Ok(map id | id in newer :: codec.fromBinary(listing[id].bytes).value)
    }

    /** The disk stamps `readFromDisk` records once the handler has run. */
    function FreshStamps(listing: map<Id, FolderFile>): (r: map<Id, int>)
      reads this
      ensures r.Keys == Fresh(listing)
      ensures forall id :: id in r ==> r[id] == listing[id].mtime && (id in diskTimestamps ==> diskTimestamps[id] < r[id])
    {
      map id | id in Fresh(listing) :: listing[id].mtime
    }

    /** `afterInit()`: every disk stamp is copied into the RAM stamps. */
    method AfterInit()
      modifies this
      ensures ramTimestamps == old(ramTimestamps) + old(diskTimestamps)
      ensures diskTimestamps == old(diskTimestamps)
    {
      ramTimestamps := ramTimestamps + diskTimestamps;
    }

    /**
     * BaseStorage's `init()` with this folder: `present` is whether the
     * folder exists and `listing` its files by id. The fresh values are
     * added, their stamps recorded, and `afterInit` copies the disk stamps
     * into RAM.
     */
    method Init(present: bool, listing: map<Id, FolderFile>) returns (r: Outcome<StorageError>)
      modifies this, base
      ensures old(base.initialized) ==>
        && r == Fail(AlreadyInitialized)
        && base.valueById == old(base.valueById) && diskTimestamps == old(diskTimestamps) && ramTimestamps == old(ramTimestamps)
      ensures !old(base.initialized) && present && old(Handed(listing)).Err? ==>
        && r == Fail(old(Handed(listing)).error)
        && !base.initialized && base.valueById == old(base.valueById)
        && diskTimestamps == old(diskTimestamps) && ramTimestamps == old(ramTimestamps)
      ensures !old(base.initialized) && !present ==>
        && r == Pass && base.initialized
        && base.valueById == old(base.valueById) && diskTimestamps == old(diskTimestamps)
        && ramTimestamps == old(ramTimestamps) + old(diskTimestamps)
      ensures !old(base.initialized) && present && old(Handed(listing)).Ok? ==>
        && r == Pass && base.initialized
        && base.valueById == old(base.valueById) + old(Handed(listing)).value
        && diskTimestamps == old(diskTimestamps) + old(FreshStamps(listing))
        && ramTimestamps == old(ramTimestamps) + diskTimestamps
    {
      if base.initialized {
        return Fail(AlreadyInitialized);
      }
      var handed := Handed(listing);
      var stamps := FreshStamps(listing);
      var read: Result<Option<map<Id, V>>, StorageError> :=
        if !present then Ok(None) else if handed.Err? then Err(handed.error) else Ok(Some(handed.value));
      r := base.Init(present, read);
      if r.Fail? {
        return;
      }
      if present {
        diskTimestamps := diskTimestamps + stamps;
      }
      AfterInit();
    }

    /**
     * `remove(id)`: the value is dropped first; then `diskTimestamps[id]!!`
     * fails for an id never read or written. When the file is not newer
     * than our disk stamp it is deleted and both stamps go; a file changed
     * from outside is kept, stamps included. `fileMtime` is the file's
     * modification time, `None` when it is missing.
     */
    method Remove(id: Id, fileMtime: Option<int>) returns (deleted: bool, r: Outcome<StorageError>)
      modifies this, base
      ensures base.valueById == old(base.valueById) - {id} && base.initialized == old(base.initialized)
      ensures id !in old(diskTimestamps) ==> r == Fail(MissingDiskTimestamp) && !deleted
      ensures id in old(diskTimestamps) && fileMtime.None? ==> r == Fail(MissingFile) && !deleted
      ensures deleted <==> id in old(diskTimestamps) && fileMtime.Some? && old(diskTimestamps)[id] >= fileMtime.value
      ensures deleted ==> r == Pass && ramTimestamps == old(ramTimestamps) - {id} && diskTimestamps == old(diskTimestamps) - {id}
      ensures !deleted ==> ramTimestamps == old(ramTimestamps) && diskTimestamps == old(diskTimestamps)
      ensures r.Pass? <==> id in old(diskTimestamps) && fileMtime.Some?
    {
      base.Remove(id);
      if id !in diskTimestamps {
        return false, Fail(MissingDiskTimestamp);
      }
      if fileMtime.None? {
        return false, Fail(MissingFile);
      }
      deleted := diskTimestamps[id] >= fileMtime.value;
      if deleted {
        ramTimestamps := ramTimestamps - {id};
        diskTimestamps := diskTimestamps - {id};
      }
      r := Pass;
    }

    /**
     * `setValue(id, value)`: the id is stamped in RAM with `now`, then
     * BaseStorage's `setValue` stores a non-neutral value; for the neutral
     * one it calls `remove(id)`, which is this class's `Remove`.
     */
    method SetValue(id: Id, value: V, now: int, fileMtime: Option<int>) returns (deleted: bool, r: Outcome<StorageError>)
      modifies this, base
      ensures base.valueById == Assign(old(base.valueById), id, value, base.monoid.neutral)
      ensures base.initialized == old(base.initialized)
      ensures value != base.monoid.neutral ==>
        && r == Pass && !deleted
        && ramTimestamps == old(ramTimestamps)[id := now] && diskTimestamps == old(diskTimestamps)
      ensures value == base.monoid.neutral && !deleted ==>
        ramTimestamps == old(ramTimestamps)[id := now] && diskTimestamps == old(diskTimestamps)
      ensures value == base.monoid.neutral ==>
        (deleted <==> id in old(diskTimestamps) && fileMtime.Some? && old(diskTimestamps)[id] >= fileMtime.value)
      ensures deleted ==> ramTimestamps == old(ramTimestamps) - {id} && diskTimestamps == old(diskTimestamps) - {id}
      ensures value == base.monoid.neutral && id !in old(diskTimestamps) ==> r == Fail(MissingDiskTimestamp)
    {
      ramTimestamps := ramTimestamps[id := now];
      if !base.IsNeutral(value) {
        base.SetValue(id, value);
        return false, Pass;
      }
      deleted, r := Remove(id, fileMtime);
    }

    /**
     * BaseStorage's `syncWithDisk()` with this folder: the fresh values are
     * merged, each id the merge sets is stamped in RAM with `now` (the
     * merge calls this class's `setValue`), and the fresh files' stamps are
     * recorded once the handler has run, even when the neutral check after
     * it fails.
     */
    method Refresh(present: bool, listing: map<Id, FolderFile>, now: int) returns (r: Outcome<StorageError>)
      requires CombineKeepsValues(base.monoid)
      modifies this, base
      ensures base.initialized == old(base.initialized)
      ensures !present ==>
        && r == Pass && base.valueById == old(base.valueById)
        && diskTimestamps == old(diskTimestamps) && ramTimestamps == old(ramTimestamps)
      ensures present && old(Handed(listing)).Err? ==>
        && r == Fail(old(Handed(listing)).error)
        && base.valueById == old(base.valueById) && diskTimestamps == old(diskTimestamps) && ramTimestamps == old(ramTimestamps)
      ensures present && old(Handed(listing)).Ok? ==>
        && base.valueById == Merged(base.monoid, old(base.valueById), old(Handed(listing)).value)
        && ramTimestamps == old(ramTimestamps) + Stamps(SetBySync(old(base.valueById), old(Handed(listing)).value), _ => now)
        && diskTimestamps == old(diskTimestamps) + old(FreshStamps(listing))
        && (r == Pass <==> NoNeutral(base.valueById, base.monoid.neutral))
    {
      if !present {
        return Pass;
      }
      var handed := Handed(listing);
      var stamps := FreshStamps(listing);
      if handed.Err? {
        return Fail(handed.error);
      }
      var setIds := SetBySync(base.valueById, handed.value);
      r := base.SyncWithDisk(true, Ok(Some(handed.value)));
      ramTimestamps := ramTimestamps + Stamps(setIds, _ => now);
      diskTimestamps := diskTimestamps + stamps;
    }

    /**
     * `writeToDisk(valueById)`: the changed ids are looked up in `m` first
     * (`valueById[id]!!`); then each is written in turn, stopping at a
     * neutral value or at a file whose modification time did not move, and
     * both its stamps become the file's new time `newMtime(id)`.
     */
    method WriteToDisk(m: map<Id, V>, newMtime: Id -> int) returns (written: map<Id, Bytes>, r: Outcome<StorageError>)
      modifies this
      ensures r.Pass? <==> WriteFits(old(ramTimestamps), old(diskTimestamps), m, base.monoid.neutral, newMtime)
      ensures !(Changed(old(ramTimestamps), old(diskTimestamps)) <= m.Keys) ==>
        && r == Fail(MissingValue) && written == map[]
        && ramTimestamps == old(ramTimestamps) && diskTimestamps == old(diskTimestamps)
      ensures written.Keys <= Changed(old(ramTimestamps), old(diskTimestamps))
      ensures forall id :: id in written ==> id in m && written[id] == codec.toBinary(m[id])
      ensures r.Pass? ==>
        && var changed := Changed(old(ramTimestamps), old(diskTimestamps));
        && written.Keys == changed
        && diskTimestamps == old(diskTimestamps) + Stamps(changed, newMtime)
        && ramTimestamps == old(ramTimestamps) + Stamps(changed, newMtime)
        && Changed(ramTimestamps, diskTimestamps) == {}
    {
      var changed := Changed(ramTimestamps, diskTimestamps);
      if !(changed <= m.Keys) {
        return map[], Fail(MissingValue);
      }
      written, r := WriteEach(m, changed, newMtime);
      if r.Pass? {
        StampsSettle(old(ramTimestamps), old(diskTimestamps), newMtime);
      }
    }

    /** The loop of `writeToDisk`: the changed ids, all of them with a value in `m`, are written one by one. */
    method WriteEach(m: map<Id, V>, changed: set<Id>, newMtime: Id -> int) returns (written: map<Id, Bytes>, r: Outcome<StorageError>)
      requires changed <= m.Keys
      modifies this
      ensures r.Pass? <==> Passes(changed, m, base.monoid.neutral, old(diskTimestamps), newMtime)
      ensures written.Keys <= changed && Encodes(written, m, codec.toBinary)
      ensures r.Pass? ==> Written(m, changed, old(ramTimestamps), old(diskTimestamps), newMtime, codec.toBinary, base.monoid.neutral, written, ramTimestamps, diskTimestamps)
    {
      ghost var ram0, disk0 := ramTimestamps, diskTimestamps;
      written := map[];
      var pending := changed;
      while pending != {}
        invariant pending <= changed
        invariant Written(m, changed - pending, ram0, disk0, newMtime, codec.toBinary, base.monoid.neutral, written, ramTimestamps, diskTimestamps)
        decreases |pending|
      {
        var id :| id in pending;
        written, r := WriteStep(m, changed, changed - pending, id, ram0, disk0, newMtime, written);
        if r.Fail? {
          return;
        }
        Sets.PendingShrinks(changed, pending, id);
        pending := pending - {id};
      }
      assert changed - pending == changed;
      r := Pass;
    }

    /**
     * One turn of `writeToDisk` on an id still pending: a neutral value
     * stops it before the write, a time that did not move stops it after.
     */
    method WriteStep(m: map<Id, V>, changed: set<Id>, done: set<Id>, id: Id, ghost ram0: map<Id, int>, ghost disk0: map<Id, int>,
                     newMtime: Id -> int, written0: map<Id, Bytes>)
      returns (written: map<Id, Bytes>, r: Outcome<StorageError>)
      requires done <= changed && changed <= m.Keys && id in changed && id !in done
      requires Written(m, done, ram0, disk0, newMtime, codec.toBinary, base.monoid.neutral, written0, ramTimestamps, diskTimestamps)
      modifies this
      ensures r.Fail? ==> !Passes(changed, m, base.monoid.neutral, disk0, newMtime)
      ensures r.Fail? ==> written.Keys <= changed && Encodes(written, m, codec.toBinary)
      ensures r.Pass? ==> Written(m, done + {id}, ram0, disk0, newMtime, codec.toBinary, base.monoid.neutral, written, ramTimestamps, diskTimestamps)
    {
      if base.IsNeutral(m[id]) {
        StopKeepsWritten(m, changed, done, id, ram0, disk0, newMtime, codec.toBinary, base.monoid.neutral, written0, ramTimestamps, diskTimestamps, false);
        return written0, Fail(Excessive);
      }
      if id in diskTimestamps && newMtime(id) == diskTimestamps[id] {
        StopKeepsWritten(m, changed, done, id, ram0, disk0, newMtime, codec.toBinary, base.monoid.neutral, written0, ramTimestamps, diskTimestamps, true);
        return written0[id := codec.toBinary(m[id])], Fail(TimestampUnchanged);
      }
      written := WriteOne(m, done, id, ram0, disk0, newMtime, written0);
      r := Pass;
    }

    /** One turn of `writeToDisk`: the file of `id` is written and both its stamps move. */
    method WriteOne(m: map<Id, V>, done: set<Id>, id: Id, ghost ram0: map<Id, int>, ghost disk0: map<Id, int>,
                    newMtime: Id -> int, written0: map<Id, Bytes>) returns (written: map<Id, Bytes>)
      requires id in m && id !in done && m[id] != base.monoid.neutral && (id in diskTimestamps ==> diskTimestamps[id] != newMtime(id))
      requires Written(m, done, ram0, disk0, newMtime, codec.toBinary, base.monoid.neutral, written0, ramTimestamps, diskTimestamps)
      modifies this
      ensures Written(m, done + {id}, ram0, disk0, newMtime, codec.toBinary, base.monoid.neutral, written, ramTimestamps, diskTimestamps)
    {
      written := written0[id := codec.toBinary(m[id])];
      WrittenOneMore(m, done, id, ram0, disk0, newMtime, codec.toBinary, base.monoid.neutral, written0, ramTimestamps, diskTimestamps);
      diskTimestamps := diskTimestamps[id := newMtime(id)];
      ramTimestamps := ramTimestamps[id := newMtime(id)];
    }

    /** The map `syncWithDisk()` leaves: the fresh values merged into ours, when the folder exists and they decode. */
    function SyncedMap(present: bool, listing: map<Id, FolderFile>): map<Id, V>
      reads this, base
    {
      if present && Handed(listing).Ok? then Merged(base.monoid, base.valueById, Handed(listing).value) else base.valueById
    }

    /** The RAM stamps `syncWithDisk()` leaves: every id the merge sets is stamped with `now`. */
    function SyncedRam(present: bool, listing: map<Id, FolderFile>, now: int): map<Id, int>
      reads this, base
    {
      if present && Handed(listing).Ok? then ramTimestamps + Stamps(SetBySync(base.valueById, Handed(listing).value), _ => now)
      else ramTimestamps
    }

    /** The disk stamps `syncWithDisk()` leaves: the fresh files' times are recorded. */
    function SyncedDisk(present: bool, listing: map<Id, FolderFile>): map<Id, int>
      reads this, base
    {
      if present && Handed(listing).Ok? then diskTimestamps + FreshStamps(listing) else diskTimestamps
    }

    /**
     * Whether `syncWithDisk()` gets through: there is no folder, or its
     * fresh files decode and the merge leaves no neutral value.
     */
    predicate SyncPasses(present: bool, listing: map<Id, FolderFile>)
      reads this, base
    {
      !present || (Handed(listing).Ok? && NoNeutral(SyncedMap(present, listing), base.monoid.neutral))
    }

    /**
     * The debounced `persist()`, run at once: `syncWithDisk()`, then the
     * no-argument `writeToDisk()`. A failed sync stops it with the map and
     * stamps the sync left; otherwise a neutral value (possible only when
     * there is no folder, as the sync then checks nothing) stops it, an
     * empty map erases an existing folder, and a non-empty one goes to
     * `WriteToDisk`, which writes the changed ids.
     */
    method Persist(present: bool, listing: map<Id, FolderFile>, now: int, newMtime: Id -> int)
      returns (effect: FolderEffect, r: Outcome<StorageError>)
      requires CombineKeepsValues(base.monoid)
      modifies this, base
      ensures base.initialized == old(base.initialized)
      ensures base.valueById == old(SyncedMap(present, listing))
      ensures !old(SyncPasses(present, listing)) ==>
        && r.Fail? && effect == Untouched
        && ramTimestamps == old(SyncedRam(present, listing, now)) && diskTimestamps == old(SyncedDisk(present, listing))
      ensures old(SyncPasses(present, listing)) && present ==> NoNeutral(base.valueById, base.monoid.neutral)
      ensures old(SyncPasses(present, listing)) && !NoNeutral(base.valueById, base.monoid.neutral) ==>
        && r == Fail(Excessive) && effect == Untouched
        && ramTimestamps == old(SyncedRam(present, listing, now)) && diskTimestamps == old(SyncedDisk(present, listing))
      ensures old(SyncPasses(present, listing)) && NoNeutral(base.valueById, base.monoid.neutral) && |base.valueById| == 0 ==>
        && r == Pass && effect == (if present then Erased else Untouched)
        && ramTimestamps == old(SyncedRam(present, listing, now)) && diskTimestamps == old(SyncedDisk(present, listing))
      ensures old(SyncPasses(present, listing)) && NoNeutral(base.valueById, base.monoid.neutral) && |base.valueById| > 0 ==>
        && var changed := Changed(old(SyncedRam(present, listing, now)), old(SyncedDisk(present, listing)));
        && effect.Wrote?
        && (r.Pass? <==> WriteFits(old(SyncedRam(present, listing, now)), old(SyncedDisk(present, listing)), base.valueById, base.monoid.neutral, newMtime))
        && effect.files.Keys <= changed
        && (forall id :: id in effect.files ==> id in base.valueById && effect.files[id] == codec.toBinary(base.valueById[id]))
        && (r.Pass? ==>
              && effect.files.Keys == changed
              && diskTimestamps == old(SyncedDisk(present, listing)) + Stamps(changed, newMtime)
              && ramTimestamps == old(SyncedRam(present, listing, now)) + Stamps(changed, newMtime)
              && Changed(ramTimestamps, diskTimestamps) == {})
    {
      ghost var synced, ram, disk := SyncedMap(present, listing), SyncedRam(present, listing, now), SyncedDisk(present, listing);
      ghost var passes := SyncPasses(present, listing);
      r := Refresh(present, listing, now);
      assert base.valueById == synced && ramTimestamps == ram && diskTimestamps == disk && (r.Pass? <==> passes);
      if r.Fail? {
        return Untouched, r;
      }
      effect, r := WriteOut(present, newMtime);
    }

    /**
     * BaseStorage's no-argument `writeToDisk()`: a neutral value stops it,
     * an empty map erases an existing folder (the stamps stay), a
     * non-empty one goes to `WriteToDisk`.
     */
    method WriteOut(present: bool, newMtime: Id -> int) returns (effect: FolderEffect, r: Outcome<StorageError>)
      modifies this
      ensures !NoNeutral(base.valueById, base.monoid.neutral) ==>
        r == Fail(Excessive) && effect == Untouched && ramTimestamps == old(ramTimestamps) && diskTimestamps == old(diskTimestamps)
      ensures NoNeutral(base.valueById, base.monoid.neutral) && |base.valueById| == 0 ==>
        && r == Pass && effect == (if present then Erased else Untouched)
        && ramTimestamps == old(ramTimestamps) && diskTimestamps == old(diskTimestamps)
      ensures NoNeutral(base.valueById, base.monoid.neutral) && |base.valueById| > 0 ==>
        && var changed := Changed(old(ramTimestamps), old(diskTimestamps));
        && effect.Wrote?
        && (r.Pass? <==> WriteFits(old(ramTimestamps), old(diskTimestamps), base.valueById, base.monoid.neutral, newMtime))
        && effect.files.Keys <= changed
        && (forall id :: id in effect.files ==> id in base.valueById && effect.files[id] == codec.toBinary(base.valueById[id]))
        && (r.Pass? ==>
              && effect.files.Keys == changed
              && diskTimestamps == old(diskTimestamps) + Stamps(changed, newMtime)
              && ramTimestamps == old(ramTimestamps) + Stamps(changed, newMtime)
              && Changed(ramTimestamps, diskTimestamps) == {})
    {
      var plan := BaseWriteAction(base.valueById, base.monoid.neutral, present);
      match plan {
        case Reject(e) =>
          effect, r := Untouched, Fail(e);
        case Erase =>
          effect, r := Erased, Pass;
        case Nothing =>
          effect, r := Untouched, Pass;
        case Snapshot(m) =>
          var written;
          written, r := WriteToDisk(m, newMtime);
          effect := Wrote(written);
      }
    }
  }
}
