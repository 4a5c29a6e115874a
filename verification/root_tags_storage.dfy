/**
 * user/tags/RootTagsStorage.kt: the tags of one root, kept in a FileStorage
 * with the comma-separated tag codec. Setting or removing tags also emits a
 * `TagsChanged` statistics event; the event is returned here instead of
 * being emitted on a flow.
 */
module RootTagsStorages {
  import opened Wrappers
  import opened StorageSpec
  import opened Tags
  import opened FileStorages
  import ArkLib

  type Id = ArkLib.ResourceId

  /** `StatsEvent.TagsChanged(id, oldTags, newTags)`. */
  datatype TagsChanged = TagsChanged(id: Id, oldTags: TagSet, newTags: TagSet)

  /** The id codec of the storage file: `toString` and `fromString`. */
  const IdCodec: Codec<Id> := Codec(ArkLib.ToString, (s: string) => Some(ArkLib.FromString(s)))

  /** The value codec: `valueToString` and `valueFromString`, which never fails. */
  const TagsCodec: Codec<TagSet> := Codec(TagsToString, (s: string) => Some(TagsFromString(s)))

  class RootTagsStorage {
    const storage: FileStorage<Id, TagSet>

    constructor ()
      ensures fresh(storage) && fresh(storage.base)
      ensures storage.base.monoid == TagsMonoid && storage.ids == IdCodec && storage.values == TagsCodec
      ensures storage.base.valueById == map[] && !storage.base.initialized
    {
      storage := new FileStorage(TagsMonoid, IdCodec, TagsCodec);
    }

    /**
     * `setTags(id, tags)`: the event carries the tags before and after, and
     * the storage's `setValue` stores the new set, or drops the id for ∅.
     */
    method SetTags(id: Id, tags: TagSet) returns (event: TagsChanged)
      requires storage.base.monoid == TagsMonoid
      modifies storage.base
      ensures event == TagsChanged(id, old(storage.base.GetValue(id)), tags)
      ensures storage.base.valueById == Assign(old(storage.base.valueById), id, tags, {})
      ensures storage.base.GetValue(id) == tags
      ensures storage.base.initialized == old(storage.base.initialized)
    {
      event := TagsChanged(id, storage.base.GetValue(id), tags);
      storage.base.SetValue(id, tags);
    }

    /** `remove(id)`: the event reports the tags going to ∅, and the id is dropped. */
    method Remove(id: Id) returns (event: TagsChanged)
      requires storage.base.monoid == TagsMonoid
      modifies storage.base
      ensures event == TagsChanged(id, old(storage.base.GetValue(id)), {})
      ensures storage.base.valueById == old(storage.base.valueById) - {id}
      ensures storage.base.GetValue(id) == {}
      ensures storage.base.initialized == old(storage.base.initialized)
    {
      event := TagsChanged(id, storage.base.GetValue(id), {});
      storage.base.Remove(id);
    }
  }
}
