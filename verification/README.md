# arklib: a verified model of the storage, index and dispatch core

arklib is the Android library of the ARK apps. It keeps per-resource user data (tags, scores, properties) in
storages that merge with what other devices wrote. It indexes the files under registered roots by resource
id, and it dispatches files to kind and metadata extractors and to preview generators. This project models
that sequential core in Dafny and proves what the code promises about it. Two generations of the library
sit side by side: the older `space.taran.arklib` package and the newer `dev.arkbuilders.arklib` one. Where
both hold an operation, both are modelled, as sibling modules.

## What is modelled

- **Monoids and values.**
  - `Monoids` covers `Monoid` and its `combineAll` fold.
  - `Scores` covers the score monoid and its decimal codec, with `Decimal` for Kotlin's
    `toInt`/`toLong`/`toString`.
  - `Tags` and `RootTagsStorages` cover tag validation, the union monoid and the `,`-joined codec.
  - `UserProperties` covers the properties monoid. `Properties` is a plain class, so it is a Dafny class,
    and neutrality is reference equality.
- **Resource ids.**
  - `LegacyIds` is the `size-crc32` id with its string codec.
  - `ArkLib` is the blake3 id and the preview quality names.
  - `Native` covers the Rust JNI helpers: quality parsing, the size conversion and RGBA-to-ARGB pixel
    packing on bit-vectors.
- **Storages.**
  - `StorageSpec` holds the merge a sync performs and the write decision, as functions with their laws.
  - The storage classes are `BaseStorages.BaseStorage`, `LegacyStorages.Storage`,
    `FileStorages.FileStorage` and `FolderStorages.FolderStorage`. They keep `valueById` in place, and
    their sync loops are proved against `StorageSpec`.
  - `AggregateStorages` and `DomainAggregateStorages` route reads and writes across shards.
  - The disk is a parameter: whether the store exists, what it holds, and its modification times.
- **Indexes.**
  - `PlainIndexes` covers the path and id maps of the older index, with update handling and
    duplicate repair.
  - `RootIndexes` and `DomainRootIndexes` are the two root indexes. `Resources` is the resource record.
  - `IndexAggregations` and `AggregatedIndexes` cover the union of shards and first-answer lookups.
    `Aggregates` holds the shared laws.
  - `IndexProjections` covers the predicate-filtered view.
  - What the native index reports and what `Resource.compute` yields are parameters.
- **Dispatch.**
  - `KindDispatch`, `MetadataFactories` and `MetadataExtractors` cover first-match selection by
    extension, with MIME fallback.
  - `KindFactories` covers the Room extras codec and the Video round trip.
  - `FileUtils` holds `extension` and the visible-children split. `Strings` and `Paths` model the
    Kotlin and `java.nio` helpers these rely on.
- **Previews, folders and processors.**
  - `PreviewFiles`, `Previews` and `LegacyPreviews` cover the preview locators' status machine, store
    and erase.
  - `FoldersRepos` covers the roots-and-favourites registry.
  - `ProcessorShards`, `DataAggregateProcessors` and `DomainAggregateProcessors` cover the aggregate
    processors.

Source paths below are relative to the repository root. Kotlin code that changes state in place is
modelled as Dafny classes with `modifies` clauses. Pure helpers are modelled as functions, and loops as
methods with invariants.

## Model

| member | source | states |
|---|---|---|
| ArkLib.Create | lib/src/main/java/dev/arkbuilders/arklib/Lib.kt:39-41 | a created id renders back as the digest it was made from |
| ArkLib.FromString | lib/src/main/java/dev/arkbuilders/arklib/Lib.kt:37 | every string parses, to the id that renders back as that string |
| ArkLib.RoundTrips | lib/src/main/java/dev/arkbuilders/arklib/Lib.kt:33-41 | `fromString` and `toString` are inverse in both directions |
| ArkLib.QualityName | lib/src/main/java/dev/arkbuilders/arklib/Lib.kt:101-110 | the quality handed to the native renderer is one of HIGH, MEDIUM, LOW |
| ArkLib.QualityNameInjective | lib/src/main/java/dev/arkbuilders/arklib/Lib.kt:108-110 | distinct qualities reach the renderer under distinct names |
| Native.ParseQuality | arklib/src/lib.rs:74-81 | a quality string is accepted exactly when it is HIGH, MEDIUM or LOW; anything else panics |
| Native.QualityNamesAccepted | arklib/src/lib.rs:74-81 | every name the Kotlin side sends selects the PDF quality of the same level |
| Native.SizeToUsize | arklib/src/lib.rs:41-42 | a file size converts exactly when it is not negative, and keeps its value |
| Native.UnpackPixel | arklib/src/lib.rs:137-144 | each channel of a packed pixel is recovered from its own byte |
| Native.PackPixelInjective | arklib/src/lib.rs:141-144 | distinct RGBA quadruples give distinct pixels |
| Native.PackPixels | arklib/src/lib.rs:133-146 | one pixel per image position, pixel i packed from bytes 4i..4i+3 of the RGBA buffer |
| Native.SetPixelsRegion | arklib/src/lib.rs:153-165 | `setPixels` gets offset 0, stride = width, and the whole image from the origin |
| Native.SetPixelsCoversBuffer | arklib/src/lib.rs:147-165 | every packed pixel lies inside the region `setPixels` copies |
| LegacyIds.ToString | lib/src/main/java/space/taran/arklib/Lib.kt:34-37 | the string form never contains a colon, so it is safe as a key in the storages' `id:value` lines |
| LegacyIds.FromString | lib/src/main/java/space/taran/arklib/Lib.kt:43-49 | a parsed id has two `Long` fields and came from at least two parts; a first part that is not a `Long` fails as not a number, before any second part is looked up; the missing-part failure happens exactly for a numeric string without "-" |
| LegacyIds.Create | lib/src/main/java/space/taran/arklib/Lib.kt:51-53 | the id carries the given size and checksum |
| LegacyIds.FromStringWithoutSeparator | lib/src/main/java/space/taran/arklib/Lib.kt:43-48 | a string without "-" is rejected: for the missing `parts[1]` when it is a number, as not a number otherwise |
| LegacyIds.RoundTrip | lib/src/main/java/space/taran/arklib/Lib.kt:34-49 | `fromString(toString(id)) == id` for every id with non-negative `Long` fields |
| LegacyIds.NegativeFieldBreaksRoundTrip | lib/src/main/java/space/taran/arklib/Lib.kt:34-49 | an id with a negative field does not survive the round trip: its string form gains a second "-" |
| LegacyIds.HelloExample | lib/src/test/java/space/taran/arklib/ResourceIdTest.kt:12-19 | the id of the five-byte file "hello" renders as "5-907060870" |
| Resources.Described | lib/src/main/java/space/taran/arklib/data/index/Resource.kt:35-40 | the resource built for a path carries the id, the file name, the path's extension and the modification time |
| Resources.Compute | lib/src/main/java/space/taran/arklib/data/index/Resource.kt:22-41 | a missing file and an empty file are failures; a success carries the id and the extension, for a file of at least one byte |
| Resources.ComputeLegacy | lib/src/main/java/space/taran/arklib/domain/index/Resource.kt:20-35 | a missing file makes the size query throw past the caller; for an existing file the result is the same as the data generation's |
| Monoids.FoldSnoc | lib/src/main/java/space/taran/arklib/data/storage/Monoid.kt:16-19 | folding one more value combines it onto the previous result |
| Monoids.CombineAllLeftFold | lib/src/main/java/space/taran/arklib/data/storage/Monoid.kt:16-19 | `combineAll` of nothing is `neutral`, and a last element is combined on the right of the fold so far |
| Scores.JvmAbs | lib/src/main/java/dev/arkbuilders/arklib/user/score/Score.kt:5 | `Math.abs` gives the magnitude of every `Int` except `Int.MIN_VALUE`, which it leaves negative |
| Scores.MinValueLosesToNeutral | lib/src/main/java/dev/arkbuilders/arklib/user/score/Score.kt:12-17 | as written, `combine(Int.MIN_VALUE, 0)` and `combine(0, Int.MIN_VALUE)` both give 0, so the neutral score is not an identity there |
| Scores.Combine | lib/src/main/java/dev/arkbuilders/arklib/user/score/Score.kt:12-17 | the result is one of the two scores, of the larger magnitude, and the second score on a tie |
| Scores.CombineAgreesAwayFromMinValue | lib/src/main/java/dev/arkbuilders/arklib/user/score/Score.kt:12-17 | the corrected combine agrees with the code on every pair of scores other than `Int.MIN_VALUE` |
| Scores.ScoreNeutralIsIdentity | lib/src/main/java/dev/arkbuilders/arklib/user/score/Score.kt:9-17 | 0 is a two-sided identity of the score monoid, whose combine always returns one of its arguments |
| Scores.CombineTieGoesRight | lib/src/main/java/dev/arkbuilders/arklib/user/score/Score.kt:13 | scores of equal magnitude resolve to the second one, so combine is not commutative |
| Scores.ScoreToString | lib/src/main/java/space/taran/arklib/user/score/RootScoreStorage.kt:16-17 | a rendered score contains neither ':' nor ',', so it fits an `id:value` line |
| Scores.ScoreFromString | lib/src/main/java/space/taran/arklib/user/score/RootScoreStorage.kt:18-19 | a parsed score is an `Int` |
| Scores.ScoreCodecRoundTrip | lib/src/main/java/space/taran/arklib/user/score/RootScoreStorage.kt:16-19 | every `Int` score reads back as itself |
| Scores.ScoreFromStringRejects | lib/src/main/java/space/taran/arklib/user/score/RootScoreStorage.kt:18-19 | non-numeric text is rejected (`toInt` throws) |
| Decimal.IntToStringRoundTrip | lib/src/main/java/space/taran/arklib/user/score/RootScoreStorage.kt:16-19 | `toString` then `toInt`/`toLong` gives back every integer of the type's range |
| Decimal.ParseInteger | lib/src/main/java/space/taran/arklib/user/score/RootScoreStorage.kt:18-19 | `toInt` accepts exactly an optional sign and digits whose value lies in the type's range, and returns that value |
| Tags.ValidateTag | lib/src/main/java/dev/arkbuilders/arklib/user/tags/Tags.kt:11-15 | a tag is rejected exactly when it is blank; an accepted tag is the trimmed input, non-empty and without surrounding whitespace |
| Tags.ValidateTagIdempotent | lib/src/main/java/dev/arkbuilders/arklib/user/tags/Tags.kt:11-15 | validating an accepted tag again gives the same tag |
| Tags.TagsCombineIsUnion | lib/src/main/java/dev/arkbuilders/arklib/user/tags/Tags.kt:18-26 | tag combine keeps exactly the tags of both sides; it is commutative, associative and idempotent, with ∅ as its identity |
| Tags.TagsOfAll | lib/src/main/java/space/taran/arklib/user/tags/TagStorage.kt:14-15 | a tag belongs to the tags of several ids exactly when one of the ids has it |
| Tags.GroupTagsByResources | lib/src/main/java/space/taran/arklib/user/tags/TagStorage.kt:17-18 | the grouping has one key per listed id, each mapped to that id's tags |
| Tags.TagsFromString | lib/src/main/java/space/taran/arklib/user/tags/RootTagsStorage.kt:24-28 | every decoded tag is non-empty and trimmed |
| Tags.TagsCodecRoundTrip | lib/src/main/java/space/taran/arklib/user/tags/RootTagsStorage.kt:21-28 | a set of non-empty, trimmed, comma-free tags is decoded back to itself |
| Tags.DecodeJoined | lib/src/main/java/space/taran/arklib/user/tags/RootTagsStorage.kt:21-28 | decoding the comma-join of storable tags gives exactly those tags |
| Tags.BlankDecodesToNeutral | lib/src/main/java/space/taran/arklib/user/tags/RootTagsStorage.kt:24-28 | text of commas and whitespace only decodes to ∅, the neutral tag set |
| RootTagsStorages.RootTagsStorage.constructor | lib/src/main/java/space/taran/arklib/user/tags/RootTagsStorage.kt:13-19 | a fresh, uninitialised file storage over the tags monoid and the id and tag codecs |
| RootTagsStorages.RootTagsStorage.SetTags | lib/src/main/java/space/taran/arklib/user/tags/RootTagsStorage.kt:43-54 | the event carries the tags before and after; the stored map is the old one with the id set to the tags, or without it for ∅ |
| RootTagsStorages.RootTagsStorage.Remove | lib/src/main/java/space/taran/arklib/user/tags/RootTagsStorage.kt:30-41 | the event reports the old tags going to ∅, and the id is dropped from the map |
| UserProperties.PropertiesMonoid.constructor | lib/src/main/java/space/taran/arklib/user/properties/Properties.kt:13-17 | the neutral value is a fresh instance with no titles and no descriptions |
| UserProperties.PropertiesMonoid.Combine | lib/src/main/java/space/taran/arklib/user/properties/Properties.kt:19-27 | combine returns a fresh instance holding both unions; it is never the neutral object, nor either argument |
| UserProperties.CombinedContents | lib/src/main/java/space/taran/arklib/user/properties/Properties.kt:19-23 | the combined titles and descriptions are the unions of the arguments' |
| UserProperties.CombinedContentsLaws | lib/src/main/java/space/taran/arklib/user/properties/Properties.kt:13-23 | by content, the empty properties are an identity, and combine is commutative and idempotent |
| UserProperties.EmptyIsNotNeutral | lib/src/main/java/space/taran/arklib/user/properties/Properties.kt:7-17 | an empty `Properties` has the neutral content but is not `==` to neutral, the class having identity equality |
| Strings.SplitJoin | lib/src/main/java/space/taran/arklib/user/tags/RootTagsStorage.kt:21-28 | splitting a join of separator-free parts gives back the parts |
| Strings.Trim | lib/src/main/java/dev/arkbuilders/arklib/user/tags/Tags.kt:12 | the result is the slice of the input between a whitespace-only prefix and a whitespace-only suffix, with no whitespace at either end, and is empty exactly for a blank string |
| Strings.TrimIdempotent | lib/src/main/java/dev/arkbuilders/arklib/user/tags/Tags.kt:12 | trimming twice is trimming once |
| UserProperties.Properties.constructor | lib/src/main/java/space/taran/arklib/user/properties/Properties.kt:7-11 | the instance holds the given titles and descriptions |
| FileUtils.Extension | lib/src/main/java/dev/arkbuilders/arklib/utils/FileUtils.kt:64-66 | an extension never contains a dot and has no upper-case ASCII letter |
| FileUtils.ExtensionWithoutDot | lib/src/main/java/dev/arkbuilders/arklib/utils/FileUtils.kt:64-66 | a file name without a dot has the empty extension |
| FileUtils.ExtensionIsLastSegment | lib/src/main/java/dev/arkbuilders/arklib/utils/FileUtils.kt:64-66 | for a name with a dot, the extension is the lower-cased dot-free text after the last dot |
| FileUtils.ExtensionOf | lib/src/main/java/dev/arkbuilders/arklib/utils/FileUtils.kt:64-66 | a name "stem.raw" with a dot-free raw has the lower-cased raw as its extension, whatever the stem |
| FileUtils.ExtensionExampleNoDot | lib/src/test/java/dev/arkbuilders/arklib/utils/FileUtilsTest.kt:132-137 | "fileWithoutExtension" has the empty extension |
| FileUtils.ExtensionExampleUpperCase | lib/src/test/java/dev/arkbuilders/arklib/utils/FileUtilsTest.kt:139-144 | ".JPG" gives "jpg" |
| FileUtils.ExtensionExampleLowerCase | lib/src/test/java/dev/arkbuilders/arklib/utils/FileUtilsTest.kt:146-151 | ".txt" gives "txt" |
| FileUtils.ExtensionExampleMixedCase | lib/src/test/java/dev/arkbuilders/arklib/utils/FileUtilsTest.kt:153-158 | ".PnG" gives "png" |
| FileUtils.ExtensionExampleManyDots | lib/src/test/java/dev/arkbuilders/arklib/utils/FileUtilsTest.kt:160-165 | only the text after the last dot counts |
| FileUtils.Visible | lib/src/main/java/dev/arkbuilders/arklib/utils/FileUtils.kt:59-61 | an entry is kept exactly when it is not hidden |
| FileUtils.ListChildren | lib/src/main/java/dev/arkbuilders/arklib/utils/FileUtils.kt:59-62 | the visible entries split into directories and files, each entry in exactly one of the two parts |
| Strings.LowerAscii | lib/src/main/java/dev/arkbuilders/arklib/utils/FileUtils.kt:65 | lower-casing keeps the length and lowers each ASCII capital, leaving every other character |
| Strings.SubstringAfterLast | lib/src/main/java/dev/arkbuilders/arklib/utils/FileUtils.kt:65 | with the character present, the result is the character-free tail after its last occurrence; without it, the fallback |
| Paths.Resolve | lib/src/main/java/dev/arkbuilders/arklib/data/folders/FoldersRepo.kt:67-72 | resolving a relative path extends the base; an absolute one replaces it |
| Paths.Child | lib/src/main/java/dev/arkbuilders/arklib/utils/FileUtils.kt:59-62 | a child path extends its folder by exactly one name |
| Paths.Relativize | lib/src/main/java/dev/arkbuilders/arklib/data/folders/FoldersRepo.kt:157-168 | relativizing fails exactly when one path is absolute and the other is not; a result is relative |
| Paths.RelativizeResolve | lib/src/main/java/dev/arkbuilders/arklib/data/folders/FoldersRepo.kt:157-168 | a path under the base, relativized and resolved against the base again, is the path itself |
| Paths.FileName | lib/src/main/java/space/taran/arklib/data/index/Resource.kt:37 | the file name is the last name element, absent exactly for a path without names |
| StorageSpec.Assign | lib/src/main/java/space/taran/arklib/domain/storage/BaseStorage.kt:62-73 | reading the id back gives the assigned value (neutral for a removed id); every other id is untouched; a map without neutral values stays without them |
| StorageSpec.Restrict | lib/src/main/java/space/taran/arklib/domain/storage/BaseStorage.kt:106 | the restricted map holds exactly the ids of both the map and the set, with the map's values |
| StorageSpec.MergedLaws | lib/src/main/java/space/taran/arklib/domain/storage/BaseStorage.kt:91-122 | the merge keeps ids only we hold, adopts ids only the disk holds, keeps agreed values, reads `combine(ours, theirs)` on a conflict, and introduces no neutral value into a map that had none |
| StorageSpec.AdoptStep | lib/src/main/java/space/taran/arklib/domain/storage/BaseStorage.kt:106-109 | adopting one more outside id is one `setValue(id, theirs[id])` on the partial merge |
| StorageSpec.ReconcileStep | lib/src/main/java/space/taran/arklib/domain/storage/BaseStorage.kt:111-121 | reconciling one more shared id is `setValue(id, combine(ours, theirs))` on the partial merge when the values differ, and nothing otherwise |
| StorageSpec.SyncInTwoPasses | lib/src/main/java/space/taran/arklib/domain/storage/BaseStorage.kt:105-122 | the adopt pass followed by the reconcile pass over the ids both sides then hold equals the one-step merge |
| StorageSpec.MergeWithNothing | lib/src/main/java/space/taran/arklib/domain/storage/BaseStorage.kt:104-122 | merging with an empty disk map leaves our map unchanged |
| StorageSpec.MergeIdempotent | lib/src/main/java/space/taran/arklib/domain/storage/BaseStorage.kt:84-90 | when combining again with the same peer value changes nothing, syncing twice with unchanged disk contents is the same as syncing once |
| StorageSpec.BaseWriteAction | lib/src/main/java/space/taran/arklib/domain/storage/BaseStorage.kt:149-164 | a neutral value in memory is refused; otherwise an empty map erases an existing store (and does nothing when none exists) and a non-empty map is written whole |
| StorageSpec.LegacyWriteAction | lib/src/main/java/space/taran/arklib/domain/storage/Storage.kt:112-123 | never refuses; erases an existing store exactly when every value is neutral; writes the whole map exactly when some value is not neutral |
| StorageSpec.WriteActionsAgree | lib/src/main/java/space/taran/arklib/domain/storage/Storage.kt:112-123 | on maps without neutral values the older and the newer storage take the same write decision |
| StorageSpec.WriteActionsDisagree | lib/src/main/java/space/taran/arklib/domain/storage/BaseStorage.kt:149-152 | on a map mixing neutral and other values the newer storage refuses while the older one writes it |
| BaseStorages.BaseStorage.constructor | lib/src/main/java/space/taran/arklib/domain/storage/BaseStorage.kt:17-27 | a new storage holds no values and is not initialized |
| BaseStorages.BaseStorage.Init | lib/src/main/java/space/taran/arklib/domain/storage/BaseStorage.kt:36-51 | a second call fails with AlreadyInitialized and changes nothing; a failing read leaves the storage uninitialized; otherwise the values read are added and the storage is initialized |
| BaseStorages.BaseStorage.GetValue | lib/src/main/java/space/taran/arklib/domain/storage/BaseStorage.kt:59-60 | the stored value, or neutral for an id not held |
| BaseStorages.BaseStorage.SetValue | lib/src/main/java/space/taran/arklib/domain/storage/BaseStorage.kt:62-68 | the new map is the assignment of the value to the id (a neutral value removes it) |
| BaseStorages.BaseStorage.Remove | lib/src/main/java/space/taran/arklib/domain/storage/BaseStorage.kt:70-73 | exactly that id is removed |
| BaseStorages.BaseStorage.SyncWithDisk | lib/src/main/java/space/taran/arklib/domain/storage/BaseStorage.kt:91-127 | a missing store changes nothing; a read failure is passed on; otherwise the map becomes the merge with what was read, and the call fails with DirtyWrite exactly when a neutral value is left |
| BaseStorages.BaseStorage.AdoptOutside | lib/src/main/java/space/taran/arklib/domain/storage/BaseStorage.kt:106-109 | the first loop leaves the merge with the disk entries whose ids we did not hold |
| BaseStorages.BaseStorage.ReconcileKnown | lib/src/main/java/space/taran/arklib/domain/storage/BaseStorage.kt:111-121 | the second loop leaves the merge with the disk entries whose ids we already held |
| LegacyStorages.Storage.Load | lib/src/main/java/space/taran/arklib/domain/storage/Storage.kt:15-27 | a missing store gives a fresh empty storage; an existing one gives a fresh storage holding the map handed over; an exception of the reader is the error, and a reader that hands nothing is the uninitialized-map error |
| LegacyStorages.Storage.GetValue | lib/src/main/java/space/taran/arklib/domain/storage/Storage.kt:29-30 | the stored value, or neutral for an id not held |
| LegacyStorages.Storage.SetValue | lib/src/main/java/space/taran/arklib/domain/storage/Storage.kt:32-38 | the new map is the assignment of the value to the id (a neutral value removes it) |
| LegacyStorages.Storage.Remove | lib/src/main/java/space/taran/arklib/domain/storage/Storage.kt:40-43 | exactly that id is removed |
| LegacyStorages.Storage.Refresh | lib/src/main/java/space/taran/arklib/domain/storage/Storage.kt:45-47 | the map becomes the merge with what was read when the store exists and a map is handed; a throwing reader fails with its error and changes nothing; otherwise it passes |
| LegacyStorages.Storage.Persist | lib/src/main/java/space/taran/arklib/domain/storage/Storage.kt:49-52 | after the merge, the write decision is the older storage's decision on the merged map; a throwing reader fails with its error before any decision |
| LegacyStorages.Storage.SyncWithDisk | lib/src/main/java/space/taran/arklib/domain/storage/Storage.kt:61-89 | a missing store or a reader that hands nothing changes nothing; a throwing reader fails with its error; otherwise the two loops leave the merge with what was read, with no neutral check |
| LegacyStorages.Storage.AdoptOutside | lib/src/main/java/space/taran/arklib/domain/storage/Storage.kt:76-79 | the first loop leaves the merge with the disk entries whose ids we did not hold |
| LegacyStorages.Storage.ReconcileKnown | lib/src/main/java/space/taran/arklib/domain/storage/Storage.kt:81-87 | the second loop leaves the merge with the disk entries whose ids we already held |
| FileStorages.Header | lib/src/main/java/space/taran/arklib/domain/storage/FileStorage.kt:104 | the header line written first is "version 2" |
| FileStorages.VerifyVersion | lib/src/main/java/space/taran/arklib/domain/storage/FileStorage.kt:133-145 | a header passes exactly when it is "version " followed by an `Int` equal to 2; every failure is one of the four version errors |
| FileStorages.VerifyVersionExamples | lib/src/main/java/space/taran/arklib/domain/storage/FileStorage.kt:133-145 | the written header passes; "version 3" is newer, "version 1" older, "version x" malformed and "2" an unknown version |
| FileStorages.VerifyVersionLenient | lib/src/main/java/space/taran/arklib/domain/storage/FileStorage.kt:137 | because the version goes through `toInt`, "version 02" and "version +2" are accepted as well |
| FileStorages.ParseLine | lib/src/main/java/space/taran/arklib/domain/storage/FileStorage.kt:58-71 | the corrected line parser, split at the first ':' only, which the `FileStorage` class reads with: a line without ':' is refused, and no parsed line yields a neutral value |
| FileStorages.ParseLineAsWritten | lib/src/main/java/space/taran/arklib/domain/storage/FileStorage.kt:58-71 | the line parser as written, split at every ':': a line without ':' is refused, no parsed line yields a neutral value, and a parsed value always comes from text without ':' |
| FileStorages.ParseBodyLastWins | lib/src/main/java/space/taran/arklib/domain/storage/FileStorage.kt:58-71 | when an id occurs on several lines of the body, the value of its last line is kept |
| FileStorages.ParseBodyLacks | lib/src/main/java/space/taran/arklib/domain/storage/FileStorage.kt:58-71 | an id carried by no line is not in the parsed map |
| FileStorages.ParseFile | lib/src/main/java/space/taran/arklib/domain/storage/FileStorage.kt:53-94 | an empty file fails for its missing header; a parsed map is non-empty and comes from a file whose header passes |
| FileStorages.RenderBody | lib/src/main/java/space/taran/arklib/domain/storage/FileStorage.kt:106-113 | one rendered `id:value` line per id, in iteration order |
| FileStorages.ParseRenderedLine | lib/src/main/java/space/taran/arklib/domain/storage/FileStorage.kt:58-71 | a rendered line parses back to its id and value |
| FileStorages.ParseRenderedMap | lib/src/main/java/space/taran/arklib/domain/storage/FileStorage.kt:58-71 | the rendered body of a map parses back to that map |
| FileStorages.FileRoundTrip | lib/src/main/java/space/taran/arklib/domain/storage/FileStorage.kt:102-125 | reading back what `writeToDisk` wrote gives the same map, whatever characters the values render to, as long as the ids render without ':' |
| FileStorages.ParseRenderedLineAsWritten | lib/src/main/java/space/taran/arklib/domain/storage/FileStorage.kt:59-61 | as written, a rendered line parses back when the value's text holds no ':' |
| FileStorages.AsWrittenCutsValueAtColon | lib/src/main/java/space/taran/arklib/domain/storage/FileStorage.kt:59-61 | as written, the line `id:a:b` is read as the value of "a", where the first-colon split reads the value of "a:b" |
| FileStorages.FileStorage.constructor | lib/src/main/java/space/taran/arklib/domain/storage/FileStorage.kt:13-26 | a new file storage holds no values and remembers timestamp 0 |
| FileStorages.FileStorage.ReadFromDisk | lib/src/main/java/space/taran/arklib/domain/storage/FileStorage.kt:44-100 | nothing is handed over when the remembered timestamp is not older than the file's; otherwise a successful read hands over a map without neutral values |
| FileStorages.FileStorage.Init | lib/src/main/java/space/taran/arklib/domain/storage/BaseStorage.kt:36-51 | a second call fails and changes nothing; a read failure leaves the storage uninitialized; otherwise the handed map is added and the timestamp moves to the file's |
| FileStorages.FileStorage.Refresh | lib/src/main/java/space/taran/arklib/domain/storage/FileStorage.kt:44-100 | no file changes nothing; an unchanged file changes nothing; a newer file is merged and its timestamp remembered; the call passes exactly when no neutral value is left |
| FileStorages.FileStorage.WriteToDisk | lib/src/main/java/space/taran/arklib/domain/storage/FileStorage.kt:102-125 | the file written is the header plus one line per entry; a neutral value stops it before anything is written; an unchanged modification time is an error; otherwise the new time is remembered |
| FileStorages.FileStorage.Persist | lib/src/main/java/space/taran/arklib/domain/storage/BaseStorage.kt:79-164 | the map becomes what the sync leaves (the newer file merged in); a failed sync writes nothing; with no file, a neutral value is refused as excessive; an empty map erases exactly an existing file, timestamp kept; a non-empty map is written as the header plus its rendered lines in some order, the timestamp moving to the new time, or an error when that time did not move |
| FileStorages.FileStorage.WriteOut | lib/src/main/java/space/taran/arklib/domain/storage/BaseStorage.kt:149-164 | a neutral value is refused as excessive with nothing written; an empty map erases exactly an existing file; a non-empty one is written in full, passing exactly when the modification time moved |
| FolderStorages.IdFromPathFromId | lib/src/main/java/dev/arkbuilders/arklib/data/storage/FolderStorage.kt:166-174 | the file of an id, named after it inside the folder, names that id again |
| FolderStorages.StampsSettle | lib/src/main/java/dev/arkbuilders/arklib/data/storage/FolderStorage.kt:146-163 | once every changed id carries the same new stamp in RAM and on disk, no id is changed any more |
| FolderStorages.StampMakesChanged | lib/src/main/java/dev/arkbuilders/arklib/data/storage/FolderStorage.kt:59-62 | stamping an id in RAM at a time other than its disk stamp makes exactly that id changed in addition |
| FolderStorages.StrandedStampBlocksWrite | lib/src/main/java/dev/arkbuilders/arklib/data/storage/FolderStorage.kt:127-129 | an id stamped in RAM that neither the disk stamps nor the values hold stays changed, so every later write stops at its missing value |
| FolderStorages.FolderStorage.constructor | lib/src/main/java/dev/arkbuilders/arklib/data/storage/FolderStorage.kt:21-39 | a new folder storage holds no values and no stamps and is not initialized |
| FolderStorages.FolderStorage.Fresh | lib/src/main/java/dev/arkbuilders/arklib/data/storage/FolderStorage.kt:89-92 | a listed file is read exactly when we have no disk stamp for it or it is newer than that stamp |
| FolderStorages.FolderStorage.Handed | lib/src/main/java/dev/arkbuilders/arklib/data/storage/FolderStorage.kt:77-117 | the read succeeds exactly when every fresh file decodes to a non-neutral value; it hands over exactly the fresh ids with their decoded values |
| FolderStorages.FolderStorage.FreshStamps | lib/src/main/java/dev/arkbuilders/arklib/data/storage/FolderStorage.kt:102-121 | the recorded disk stamps are exactly the fresh files' modification times, each newer than the stamp it replaces |
| FolderStorages.FolderStorage.AfterInit | lib/src/main/java/dev/arkbuilders/arklib/data/storage/FolderStorage.kt:41-43 | every disk stamp is copied into the RAM stamps, the disk stamps unchanged |
| FolderStorages.FolderStorage.Init | lib/src/main/java/dev/arkbuilders/arklib/data/storage/FolderStorage.kt:41-122 | a second call fails; a read failure leaves everything unchanged; otherwise the fresh values are added, their stamps recorded on disk and copied into RAM |
| FolderStorages.FolderStorage.Remove | lib/src/main/java/dev/arkbuilders/arklib/data/storage/FolderStorage.kt:64-74 | the value is always dropped; a missing disk stamp or a missing file is an error; the file and both stamps go exactly when the file is not newer than the disk stamp |
| FolderStorages.FolderStorage.SetValue | lib/src/main/java/dev/arkbuilders/arklib/data/storage/FolderStorage.kt:59-62 | the value is assigned; a non-neutral value stamps the id in RAM with the current time; a neutral one goes through this class's remove |
| FolderStorages.FolderStorage.Refresh | lib/src/main/java/dev/arkbuilders/arklib/data/storage/FolderStorage.kt:77-122 | the fresh values are merged, each id the merge sets is stamped in RAM, and the fresh files' disk stamps are recorded |
| FolderStorages.FolderStorage.WriteToDisk | lib/src/main/java/dev/arkbuilders/arklib/data/storage/FolderStorage.kt:124-163 | passes exactly when every changed id has a non-neutral value and a file whose time moves; each written file holds its id's encoded value; on success both stamps of every changed id are its new time |
| FolderStorages.FolderStorage.WriteEach | lib/src/main/java/dev/arkbuilders/arklib/data/storage/FolderStorage.kt:131-148 | the loop passes exactly when every changed id passes both checks, and writes only encoded values of changed ids |
| FolderStorages.FolderStorage.Persist | lib/src/main/java/space/taran/arklib/domain/storage/BaseStorage.kt:79-164 | the map becomes what the sync leaves (the fresh values merged in), and so do both stamp maps; a failed sync writes nothing; with no folder, a neutral value is refused as excessive; an empty map erases exactly an existing folder, stamps kept; a non-empty map writes only changed ids, each file holding its encoded value, passing exactly when every changed id has a value, none neutral, and every file time moves; on success the changed ids carry their new times and none is left changed |
| FolderStorages.FolderStorage.WriteOut | lib/src/main/java/space/taran/arklib/domain/storage/BaseStorage.kt:149-164 | a neutral value is refused as excessive with the stamps kept; an empty map erases exactly an existing folder; a non-empty one writes the changed ids, passing exactly when each has a non-neutral value and a moving file time |
| AggregateStorages.FirstValue | lib/src/main/java/dev/arkbuilders/arklib/data/storage/AggregateStorage.kt:11-14 | the value of the first shard that stores the id, or neutral when no shard stores it |
| AggregateStorages.FirstValueAgrees | lib/src/main/java/dev/arkbuilders/arklib/data/storage/AggregateStorage.kt:11-14 | shard maps that agree on an id read the same value for it |
| AggregateStorages.GetAfterSet | lib/src/main/java/dev/arkbuilders/arklib/data/storage/AggregateStorage.kt:11-20 | when some shard's index knows the id and every shard stores only ids its index knows, reading the id after the write gives the value written |
| AggregateStorages.SetOutsideIndexIgnored | lib/src/main/java/dev/arkbuilders/arklib/data/storage/AggregateStorage.kt:16-20 | a write of an id that no shard's index knows changes nothing |
| AggregateStorages.WritesStayWithinIndex | lib/src/main/java/dev/arkbuilders/arklib/data/storage/AggregateStorage.kt:16-23 | writes and removals keep every shard storing only ids its index knows |
| AggregateStorages.GetAfterRemove | lib/src/main/java/dev/arkbuilders/arklib/data/storage/AggregateStorage.kt:22-23 | after a removal the id reads as neutral and every other id reads as before |
| AggregateStorages.RemovedEachIsMinus | lib/src/main/java/dev/arkbuilders/arklib/user/score/ScoreStorage.kt:17-18 | removing the ids one by one removes all of them from every shard |
| AggregateStorages.ResetReadsNeutral | lib/src/main/java/dev/arkbuilders/arklib/user/score/ScoreStorage.kt:17-18 | after `resetScores(ids)` every listed id reads as neutral and every other id reads as before |
| AggregateStorages.AggregateStorage.constructor | lib/src/main/java/dev/arkbuilders/arklib/data/storage/AggregateStorage.kt:6-9 | the aggregate keeps the monoid and the shards it is given |
| AggregateStorages.AggregateStorage.Stored | lib/src/main/java/dev/arkbuilders/arklib/data/storage/AggregateStorage.kt:8 | the shards' maps, one per shard in shard order |
| AggregateStorages.AggregateStorage.GetValue | lib/src/main/java/dev/arkbuilders/arklib/data/storage/AggregateStorage.kt:11-14 | neutral when no shard stores the id, else the value of the first shard that stores it |
| AggregateStorages.AggregateStorage.SetValue | lib/src/main/java/dev/arkbuilders/arklib/data/storage/AggregateStorage.kt:16-20 | exactly the shards whose index knows the id assign the value; the others are unchanged |
| AggregateStorages.AggregateStorage.Remove | lib/src/main/java/dev/arkbuilders/arklib/data/storage/AggregateStorage.kt:22-23 | every shard drops the id |
| AggregateStorages.AggregateStorage.Persist | lib/src/main/java/dev/arkbuilders/arklib/data/storage/AggregateStorage.kt:25-26 | each shard persists in turn: a shard that passes holds no neutral value, and a shard that erased its file holds no values |
| AggregateStorages.ResetScores | lib/src/main/java/dev/arkbuilders/arklib/user/score/ScoreStorage.kt:17-18 | the listed ids are removed from every shard, one after the other |
| DomainAggregateStorages.GetAfterSetEverywhere | lib/src/main/java/space/taran/arklib/domain/storage/AggregateStorage.kt:10-16 | with at least one shard the value written reads back (with none the write is lost); every other id reads as before |
| DomainAggregateStorages.AggregateStorage.constructor | lib/src/main/java/space/taran/arklib/domain/storage/AggregateStorage.kt:5-8 | the aggregate keeps the monoid and the shards it is given |
| DomainAggregateStorages.AggregateStorage.GetValue | lib/src/main/java/space/taran/arklib/domain/storage/AggregateStorage.kt:10-13 | neutral when no shard stores the id, else the value of the first shard that stores it |
| DomainAggregateStorages.AggregateStorage.SetValue | lib/src/main/java/space/taran/arklib/domain/storage/AggregateStorage.kt:15-16 | every shard assigns the value to the id, whatever its index holds |
| DomainAggregateStorages.AggregateStorage.Remove | lib/src/main/java/space/taran/arklib/domain/storage/AggregateStorage.kt:18-19 | every shard drops the id, which then reads as neutral |
| DomainAggregateStorages.AggregateStorage.Refresh | lib/src/main/java/space/taran/arklib/domain/storage/AggregateStorage.kt:21-22 | the shards merge with their own files in order, and the first whose refresh fails ends the call: every outcome before the last passes, the last fails unless every shard was reached, a shard whose read fails reports that failure, and the shards after the failing one keep their maps |
| DomainAggregateStorages.AggregateStorage.Persist | lib/src/main/java/space/taran/arklib/domain/storage/AggregateStorage.kt:24-25 | each shard persists in turn: a shard that passes holds no neutral value, and a shard that erased its file holds no values |
| RootIndexes.ComputedLaws | lib/src/main/java/space/taran/arklib/data/index/RootIndex.kt:97-107 | `init` keeps exactly the ids of the native map whose resource computes, each with its computed resource and its path |
| RootIndexes.AppliedLaws | lib/src/main/java/space/taran/arklib/data/index/RootIndex.kt:126-132 | after an update an id is present exactly when it was added, or was present and not deleted; an added id carries its new resource and path; an untouched id keeps its entry |
| RootIndexes.Wrap | lib/src/main/java/space/taran/arklib/data/index/RootIndex.kt:46-71 | fails exactly when a deleted id is not in the index; otherwise every deleted id becomes its lost path and resource, and an added id is kept exactly when its resource computes |
| RootIndexes.RootIndex.constructor | lib/src/main/java/space/taran/arklib/data/index/RootIndex.kt:28-44 | a new index of a root holds no entries |
| RootIndexes.RootIndex.Init | lib/src/main/java/space/taran/arklib/data/index/RootIndex.kt:73-111 | a native index that cannot be loaded is an error and changes nothing; otherwise the computed entries of the native id-to-path map are added |
| RootIndexes.RootIndex.UpdateAll | lib/src/main/java/space/taran/arklib/data/index/RootIndex.kt:117-136 | the updates returned are the wrapped raw updates; a failing wrap changes nothing; otherwise the deleted ids are removed and the added ones put |
| RootIndexes.RootIndex.RemoveAll | lib/src/main/java/space/taran/arklib/data/index/RootIndex.kt:126-128 | exactly the deleted ids are removed |
| RootIndexes.RootIndex.PutAll | lib/src/main/java/space/taran/arklib/data/index/RootIndex.kt:130-132 | every added id is put with its resource and path, overriding an earlier entry |
| RootIndexes.RootIndex.AllResources | lib/src/main/java/space/taran/arklib/data/index/RootIndex.kt:138-139 | one resource per indexed id, the resource half of its entry |
| RootIndexes.RootIndex.AllPaths | lib/src/main/java/space/taran/arklib/data/index/RootIndex.kt:144-145 | one path per indexed id, the path half of its entry |
| RootIndexes.RootIndex.GetResource | lib/src/main/java/space/taran/arklib/data/index/RootIndex.kt:141-142 | present exactly for the ids `allResources` lists, with the same resource |
| RootIndexes.RootIndex.GetPath | lib/src/main/java/space/taran/arklib/data/index/RootIndex.kt:147-148 | present exactly for the ids `allPaths` lists, with the same path |
| RootIndexes.RootIndex.AllIds | lib/src/main/java/space/taran/arklib/data/index/ResourceIndex.kt:31-32 | the indexed ids, the same set for resources and for paths |
| RootIndexes.RootIndex.AsAdded | lib/src/main/java/space/taran/arklib/data/index/RootIndex.kt:151-155 | every entry appears as a new resource with its path and resource, and nothing else does |
| RootIndexes.RootIndex.CheckNeverFails | lib/src/main/java/space/taran/arklib/data/index/RootIndex.kt:158-179 | the check never throws, because resources and paths are indexed by the same ids |
| DomainRootIndexes.Wrap | lib/src/main/java/space/taran/arklib/domain/index/RootIndex.kt:49-73 | fails for a deleted id either map lacks, and for a vanished added file; otherwise every deleted id becomes its lost path and resource, and an added id is kept exactly when its resource computes |
| DomainRootIndexes.WrapsAgree | lib/src/main/java/space/taran/arklib/domain/index/RootIndex.kt:49-73 | on two maps with the same ids and with no vanished file, the older wrap gives what the newer index's wrap gives on the paired map |
| DomainRootIndexes.PairedApplied | lib/src/main/java/space/taran/arklib/domain/index/RootIndex.kt:111-119 | applying an update to both maps, deletions then additions, is applying it to the single map of the newer index |
| DomainRootIndexes.RootIndex.constructor | lib/src/main/java/space/taran/arklib/domain/index/RootIndex.kt:41-47 | a new index of a root holds no resources and no paths |
| DomainRootIndexes.RootIndex.Init | lib/src/main/java/space/taran/arklib/domain/index/RootIndex.kt:75-100 | a native index that cannot be loaded is an error and changes nothing; otherwise the call passes exactly when no listed file has vanished, and then both maps gain exactly the computed entries; both maps keep the same ids |
| DomainRootIndexes.RootIndex.UpdateAll | lib/src/main/java/space/taran/arklib/domain/index/RootIndex.kt:104-122 | the updates returned are the wrapped raw updates; a failing wrap changes nothing; otherwise both maps lose the deleted ids and gain the added ones; both maps keep the same ids |
| DomainRootIndexes.RootIndex.RemoveAll | lib/src/main/java/space/taran/arklib/domain/index/RootIndex.kt:111-114 | exactly the deleted ids leave both maps |
| DomainRootIndexes.RootIndex.PutAll | lib/src/main/java/space/taran/arklib/domain/index/RootIndex.kt:116-119 | every added id is put into both maps with its resource and its path |
| DomainRootIndexes.RootIndex.AllResources | lib/src/main/java/space/taran/arklib/domain/index/RootIndex.kt:124-126 | the set of stored resources: every stored resource is in it and nothing else |
| DomainRootIndexes.RootIndex.GetResource | lib/src/main/java/space/taran/arklib/domain/index/RootIndex.kt:128-130 | present exactly for a stored id, with its resource |
| DomainRootIndexes.RootIndex.GetPath | lib/src/main/java/space/taran/arklib/domain/index/RootIndex.kt:132-134 | present exactly for a stored id, with its path |
| DomainRootIndexes.RootIndex.LookupsAgree | lib/src/main/java/space/taran/arklib/domain/index/RootIndex.kt:128-134 | while both maps hold the same ids, an id has a resource exactly when it has a path |
| DomainRootIndexes.FilledAll | lib/src/main/java/space/taran/arklib/domain/index/RootIndex.kt:86-99 | once the loop has handled every id without a vanished file, both maps hold exactly the computed entries |
| DomainRootIndexes.InitKeepsComputed | lib/src/main/java/space/taran/arklib/domain/index/RootIndex.kt:86-99 | `init` keeps exactly the ids whose resource computes, the same ids in both maps, paired as the newer index's `init` keeps them |
| PlainIndexes.RemovedPathsStep | lib/src/main/java/space/taran/arklib/domain/index/PlainIndex.kt:81-84 | deleting one more id frees exactly its own path, when it has one |
| PlainIndexes.DeleteStep | lib/src/main/java/space/taran/arklib/domain/index/PlainIndex.kt:81-84 | one turn of the deletions removes the id from the id map and its path from the path map, keeping both maps' account of the ids deleted so far |
| PlainIndexes.AddStep | lib/src/main/java/space/taran/arklib/domain/index/PlainIndex.kt:86-104 | one turn of the additions puts the id and its computed value into both maps, or changes nothing when the value fails, keeping the account of the ids added so far |
| PlainIndexes.PlainIndex.IdIndex | lib/src/main/java/space/taran/arklib/domain/index/PlainIndex.kt:42-47 | every value's id is indexed, and each indexed id leads to one of the given paths whose value carries that id |
| PlainIndexes.PlainIndex.constructor | lib/src/main/java/space/taran/arklib/domain/index/PlainIndex.kt:28-47 | the path map is the given map; the id map holds exactly the ids of its values, each leading to a path whose value carries it |
| PlainIndexes.PlainIndex.ListResources | lib/src/main/java/space/taran/arklib/domain/index/PlainResourcesIndex.kt:62-73 | the values whose paths start with the prefix, or every value when there is none |
| PlainIndexes.PlainIndex.ListingNarrows | lib/src/main/java/space/taran/arklib/domain/index/PlainResourcesIndex.kt:62-73 | a prefix only narrows the listing, and no prefix lists every stored value |
| PlainIndexes.PlainIndex.TryGetPath | lib/src/main/java/space/taran/arklib/domain/index/PlainIndex.kt:110 | present exactly for an indexed id, with its path |
| PlainIndexes.PlainIndex.TryGetMeta | lib/src/main/java/space/taran/arklib/domain/index/PlainIndex.kt:113-119 | present exactly when the id has a path and that path has a value, which is returned |
| PlainIndexes.PlainIndex.ConsistentLookups | lib/src/main/java/space/taran/arklib/domain/index/PlainIndex.kt:110-119 | in a consistent index an id has a value exactly when it is indexed, and the value carries the id |
| PlainIndexes.PlainIndex.GetPath | lib/src/main/java/space/taran/arklib/domain/index/PlainIndex.kt:64-66 | an error exactly for an id that is not indexed, else its path |
| PlainIndexes.PlainIndex.GetMeta | lib/src/main/java/space/taran/arklib/domain/index/PlainResourcesIndex.kt:81-83 | an error exactly when `tryGetMeta` misses, else the value at the id's path |
| PlainIndexes.PlainIndex.HandleUpdate | lib/src/main/java/space/taran/arklib/domain/index/PlainResourcesIndex.kt:105-131 | deleted ids leave the id map and free their paths; added ids whose value computes enter both maps and other paths keep their values; an update that fits keeps the index consistent |
| PlainIndexes.PlainIndex.DeleteAll | lib/src/main/java/space/taran/arklib/domain/index/PlainResourcesIndex.kt:106-109 | exactly the deleted ids leave the id map and exactly their paths leave the path map |
| PlainIndexes.PlainIndex.AddAll | lib/src/main/java/space/taran/arklib/domain/index/PlainResourcesIndex.kt:111-128 | both maps gain exactly the entries of the added ids whose value computes |
| PlainIndexes.PlainIndex.TryRemove | lib/src/main/java/space/taran/arklib/domain/index/PlainResourcesIndex.kt:146-163 | an unknown id gives null and changes nothing; a known one loses its path, whose value must carry the id; a remaining duplicate path takes over the id; a consistent index never fails and stays consistent |
| PlainIndexes.PlainIndex.Remove | lib/src/main/java/space/taran/arklib/domain/index/PlainResourcesIndex.kt:85-88 | an unknown id is an error and changes nothing; otherwise its path is returned and removed; a consistent index stays consistent |
| PlainIndexes.PlainIndex.Reindex | lib/src/main/java/space/taran/arklib/domain/index/PlainResourcesIndex.kt:90-103 | the native index counts as built afterwards; a built index handles its update, and the first time every id the native index reports is handled as added with nothing deleted; either way the maps are what `handleUpdate` leaves (`PlainIndexes.PlainIndex.Handled`): paths not added keep their values, each added path holds its computed value, and a consistent index stays consistent when the update fits |
| AggregatedIndexes.AggregatedIndex.constructor | lib/src/main/java/space/taran/arklib/domain/index/AggregatedIndex.kt:19-21 | the aggregate keeps the shards it is given |
| AggregatedIndexes.AggregatedIndex.AllResources | lib/src/main/java/space/taran/arklib/domain/index/AggregatedIndex.kt:23-25 | a value is listed exactly when some shard lists it under the same prefix |
| AggregatedIndexes.AggregatedIndex.ListingNarrows | lib/src/main/java/space/taran/arklib/domain/index/AggregatedIndex.kt:23-25 | a prefix only narrows the aggregated listing |
| AggregatedIndexes.AggregatedIndex.GetPath | lib/src/main/java/space/taran/arklib/domain/index/AggregatedIndex.kt:27-42 | fails exactly when no shard knows the id; otherwise the path of the first shard that knows it |
| AggregatedIndexes.AggregatedIndex.GetResource | lib/src/main/java/space/taran/arklib/domain/index/AggregatedIndex.kt:30-42 | fails exactly when no shard has a value for the id; otherwise the value of the first shard that has one |
| AggregatedIndexes.AggregatedIndex.ConsistentLookups | lib/src/main/java/space/taran/arklib/domain/index/AggregatedIndex.kt:6-16 | over consistent shards an id has a path exactly when it has a value, and the value found carries the id |
| AggregatedIndexes.AggregatedIndex.UpdateAll | lib/src/main/java/space/taran/arklib/domain/index/AggregatedIndex.kt:44-46 | every shard handles its own update once: its deleted ids leave it and its added ids with a computed value enter it; paths not added keep their old values, each added path maps to its computed value, and a consistent shard stays consistent when the update fits |
| Aggregates.UnionKeys | lib/src/main/java/dev/arkbuilders/arklib/data/index/IndexAggregation.kt:32-38 | a key is in the folded map exactly when some map has it |
| Aggregates.UnionValue | lib/src/main/java/dev/arkbuilders/arklib/data/index/IndexAggregation.kt:32-38 | the folded map holds the value of the last map that has the key |
| Aggregates.FirstSome | lib/src/main/java/dev/arkbuilders/arklib/data/index/IndexAggregation.kt:40-41 | none exactly when every answer is null; otherwise the first non-null answer |
| Aggregates.FirstAnswerIsUnion | lib/src/main/java/dev/arkbuilders/arklib/data/index/IndexAggregation.kt:32-52 | over disjoint maps the first answer for a key is the folded map's entry for it |
| Aggregates.DisjointUnionSize | lib/src/main/java/dev/arkbuilders/arklib/data/index/IndexAggregation.kt:32-38 | folding disjoint maps loses no entry: the size of the result is the sum of their sizes |
| Aggregates.UnionSetsMembers | lib/src/main/java/space/taran/arklib/domain/index/AggregatedIndex.kt:23-25 | an element is in the flattened set exactly when one of the sets has it |
| IndexAggregations.IndexAggregation.constructor | lib/src/main/java/dev/arkbuilders/arklib/data/index/IndexAggregation.kt:21-23 | the aggregation keeps the shards it is given |
| IndexAggregations.IndexAggregation.Roots | lib/src/main/java/dev/arkbuilders/arklib/data/index/IndexAggregation.kt:25 | the roots are exactly the shards |
| IndexAggregations.IndexAggregation.AllResources | lib/src/main/java/dev/arkbuilders/arklib/data/index/IndexAggregation.kt:32-38 | an id is listed exactly when some shard lists it |
| IndexAggregations.IndexAggregation.AllPaths | lib/src/main/java/dev/arkbuilders/arklib/data/index/IndexAggregation.kt:43-49 | an id is listed exactly when some shard lists it |
| IndexAggregations.IndexAggregation.LaterShardWins | lib/src/main/java/dev/arkbuilders/arklib/data/index/IndexAggregation.kt:32-49 | when shards clash on an id, the whole-map queries keep the entry of the last shard that has it |
| IndexAggregations.IndexAggregation.GetResource | lib/src/main/java/dev/arkbuilders/arklib/data/index/IndexAggregation.kt:40-41 | null exactly when no shard knows the id; otherwise the resource of the first shard that knows it |
| IndexAggregations.IndexAggregation.GetPath | lib/src/main/java/dev/arkbuilders/arklib/data/index/IndexAggregation.kt:51-52 | null exactly when no shard knows the id; otherwise the path of the first shard that knows it |
| IndexAggregations.IndexAggregation.DisjointShardsAgree | lib/src/main/java/dev/arkbuilders/arklib/data/index/IndexAggregation.kt:8-23 | with disjoint shards the single lookups agree with the whole-map queries, and the fold loses no entry |
| IndexAggregations.IndexAggregation.NoShards | lib/src/main/java/dev/arkbuilders/arklib/data/index/IndexAggregation.kt:21-52 | an aggregation of no shards is empty and answers nothing |
| IndexAggregations.IndexAggregation.UpdateAll | lib/src/main/java/dev/arkbuilders/arklib/data/index/IndexAggregation.kt:54-56 | the shards update in order until the first failure, which ends the call: each shard reached returns its own wrapped update, keeps its map when that failed and applies it otherwise; every shard before the last one reached passed, and the shards after a failure keep their maps |
| IndexAggregations.IndexAggregation.Route | lib/src/main/java/dev/arkbuilders/arklib/data/index/IndexAggregation.kt:62-67 | the shard `updateOne` goes to is the first whose root is a prefix of the path; the error exactly when no root is |
| IndexProjections.FilterUpdates | lib/src/main/java/space/taran/arklib/data/index/IndexProjection.kt:32-47 | deleted and added entries are kept exactly when the predicate accepts them, unchanged; the update is dropped exactly when the predicate accepts none of them |
| IndexProjections.ProjectionFollowsUpdates | lib/src/main/java/space/taran/arklib/data/index/IndexProjection.kt:13-47 | applying the filtered update to the projected map gives the projection of the updated root map, and a dropped update leaves the projection as it was |
| IndexProjections.IndexProjection.constructor | lib/src/main/java/space/taran/arklib/data/index/IndexProjection.kt:26-28 | the projection keeps its root index and its predicate |
| IndexProjections.IndexProjection.Roots | lib/src/main/java/space/taran/arklib/data/index/IndexProjection.kt:30 | the roots are the one root index |
| IndexProjections.IndexProjection.AllResources | lib/src/main/java/space/taran/arklib/data/index/IndexProjection.kt:51-56 | the root's resources whose resource and path the predicate accepts, unchanged |
| IndexProjections.IndexProjection.AllPaths | lib/src/main/java/space/taran/arklib/data/index/IndexProjection.kt:63-68 | the root's paths whose resource and path the predicate accepts, unchanged |
| IndexProjections.IndexProjection.ProjectedKeys | lib/src/main/java/space/taran/arklib/data/index/IndexProjection.kt:51-68 | both filtered queries list exactly the ids of the projection of the root's map, with its entries |
| IndexProjections.IndexProjection.GetResourceAndPath | lib/src/main/java/space/taran/arklib/data/index/IndexProjection.kt:75-84 | the pair exactly when the root knows both the path and the resource of the id |
| IndexProjections.IndexProjection.GetResource | lib/src/main/java/space/taran/arklib/data/index/IndexProjection.kt:58-61 | the root's answer, whatever the predicate says |
| IndexProjections.IndexProjection.GetPath | lib/src/main/java/space/taran/arklib/data/index/IndexProjection.kt:70-73 | the root's answer, whatever the predicate says |
| IndexProjections.IndexProjection.LookupsIgnorePredicate | lib/src/main/java/space/taran/arklib/data/index/IndexProjection.kt:51-84 | an id the predicate rejects is missing from the whole-map queries but still answered by the single lookups |
| IndexProjections.IndexProjection.UpdateAll | lib/src/main/java/space/taran/arklib/data/index/IndexProjection.kt:32-49 | the root is updated as by its own update, and the projection emits exactly the filtered update, nothing on failure |
| KindDispatch.Ordinal | lib/src/main/java/space/taran/arklib/domain/kind/Metadata.kt:33-35 | each kind code's ordinal is below 6, its place in declaration order |
| KindDispatch.OrdinalInjective | lib/src/main/java/space/taran/arklib/domain/kind/ResourceMetadataFactory.kt:15 | distinct kind codes have distinct ordinals, so a factory accepts at most one code |
| KindDispatch.Find | lib/src/main/java/space/taran/arklib/domain/kind/ResourceMetadataFactory.kt:43 | the first factory that accepts the criterion, and none exactly when no factory does |
| KindDispatch.FindFactory | lib/src/main/java/space/taran/arklib/domain/kind/ResourceMetadataFactory.kt:42-51 | a factory accepting the extension when one exists; only for a path without an extension is the MIME type consulted; none exactly when no factory accepts the extension and the MIME lookup fails or is not made |
| KindDispatch.ExtensionWins | lib/src/main/java/space/taran/arklib/domain/kind/ResourceMetadataFactory.kt:43-44 | the first factory accepting the extension is chosen, whatever the MIME type |
| KindDispatch.MimeOnlyWithoutExtension | lib/src/main/java/space/taran/arklib/domain/kind/ResourceMetadataFactory.kt:46 | for a path with an extension the MIME type makes no difference |
| MetadataFactories.Compute | lib/src/main/java/space/taran/arklib/domain/kind/ResourceMetadataFactory.kt:30-40 | fails exactly when no factory is found; otherwise the metadata that the chosen factory computes, of a kind accepting the extension (or, without an extension, the MIME type) |
| MetadataFactories.NeverLink | lib/src/main/java/space/taran/arklib/domain/kind/ResourceMetadataFactory.kt:21-28 | no link metadata is ever computed, since no listed factory has the link kind |
| MetadataFactories.UnlistedExtensionFails | lib/src/main/java/space/taran/arklib/domain/kind/ResourceMetadataFactory.kt:42-51 | a path with an unlisted extension fails even when its MIME type is accepted |
| KindFactories.TagOrdinal | lib/src/main/java/space/taran/arklib/kind/ResourceKindFactory.kt:71 | a stored extra's ordinal is below the number of tags |
| KindFactories.TagAt | lib/src/main/java/space/taran/arklib/kind/ResourceKindFactory.kt:51 | `values()[ordinal]` yields a tag exactly for an in-range ordinal, and that tag has the ordinal |
| KindFactories.TagAtOrdinal | lib/src/main/java/space/taran/arklib/kind/ResourceKindFactory.kt:51-71 | looking up a tag's own ordinal gives the tag back |
| KindFactories.EveryCodeHasFactory | lib/src/main/java/space/taran/arklib/kind/ResourceKindFactory.kt:26-34 | every kind code is accepted by a factory in the list, the one at its ordinal |
| KindFactories.FromPath | lib/src/main/java/space/taran/arklib/kind/ResourceKindFactory.kt:36-42 | "Factory not found" exactly when no factory matches the extension or the MIME type; otherwise the kind read by a factory that accepts the path |
| KindFactories.LinkPathIsLink | lib/src/main/java/space/taran/arklib/kind/ResourceKindFactory.kt:36-42 | a `.link` file is read by the Link factory, whatever its MIME type |
| KindFactories.Extras | lib/src/main/java/space/taran/arklib/kind/ResourceKindFactory.kt:68-72 | one row per non-null entry, in order, each carrying the resource id, the entry's tag ordinal and its value, and nothing else |
| KindFactories.ToRoom | lib/src/main/java/space/taran/arklib/kind/ResourceKindFactory.kt:59-73 | no kind gives no rows; a kind always finds its factory and yields the rows of its non-null extras |
| KindFactories.Associate | lib/src/main/java/space/taran/arklib/kind/ResourceKindFactory.kt:50-52 | fails exactly when some row has an out-of-range ordinal; otherwise keys the map by exactly the tags that occur |
| KindFactories.AssociateExtras | lib/src/main/java/space/taran/arklib/kind/ResourceKindFactory.kt:50-72 | reading back the rows `toRoom` writes gives exactly the non-null entries, the last one per tag |
| KindFactories.FromRoom | lib/src/main/java/space/taran/arklib/kind/ResourceKindFactory.kt:44-57 | no kind code gives no kind; a bad ordinal or an unknown code fails; otherwise the kind the code's factory reads from the keyed rows |
| KindFactories.VideoToRoom | lib/src/main/java/space/taran/arklib/domain/kind/VideoKindFactory.kt:65-73 | a video is stored as its height, width and duration, under those tags, in that order |
| KindFactories.ParseField | lib/src/main/java/space/taran/arklib/domain/kind/VideoKindFactory.kt:58-63 | an absent tag reads as null; a present one must parse as a long, and reads as that number |
| KindFactories.VideoFromRoom | lib/src/main/java/space/taran/arklib/domain/kind/VideoKindFactory.kt:58-63 | a video is read back exactly when all three present fields parse |
| KindFactories.VideoRoomRoundTrip | lib/src/main/java/space/taran/arklib/domain/kind/VideoKindFactory.kt:58-73 | `fromRoom` after `toRoom` gives back the same video, null fields included |
| KindFactories.NonNullLast | lib/src/main/java/space/taran/arklib/kind/ResourceKindFactory.kt:50-52 | the value kept for a tag is that of its last non-null entry |
| KindFactories.FieldRoundTrip | lib/src/main/java/space/taran/arklib/domain/kind/VideoKindFactory.kt:58-73 | a rendered number or an absent field parses back to what was stored |
| KindFactories.VideoKindRoundTrip | lib/src/main/java/space/taran/arklib/kind/ResourceKindFactory.kt:44-73 | storing a video through the general factory and reading it back under the video code gives the same video |
| MetadataExtractors.Extractors | lib/src/main/java/dev/arkbuilders/arklib/data/metadata/MetadataExtractor.kt:47-53 | five extractors, none of them the link extractor |
| MetadataExtractors.FirstValid | lib/src/main/java/dev/arkbuilders/arklib/data/metadata/MetadataExtractor.kt:31-33 | the first extractor valid for the path, and none exactly when no extractor is valid |
| MetadataExtractors.Extract | lib/src/main/java/dev/arkbuilders/arklib/data/metadata/MetadataExtractor.kt:30-44 | `Unknown` metadata when no extractor is valid; otherwise the first valid extractor's own result, failure included |
| MetadataExtractors.NeverLink | lib/src/main/java/dev/arkbuilders/arklib/data/metadata/MetadataExtractor.kt:47-53 | a link file is never handed to the link extractor by this dispatch |
| MetadataExtractors.ExtensionSuffices | lib/src/main/java/dev/arkbuilders/arklib/data/metadata/MetadataExtractor.kt:20-23 | an accepted extension picks its extractor or an earlier one, whatever the MIME type |
| MetadataExtractors.UndetectedMimeUsesExtension | lib/src/main/java/dev/arkbuilders/arklib/data/metadata/MetadataExtractor.kt:20-27 | when no MIME type is detected, validity is extension membership alone, in both directions |
| MetadataExtractors.MimeBeatsLaterExtension | lib/src/main/java/dev/arkbuilders/arklib/data/metadata/MetadataExtractor.kt:20-53 | a MIME match of an earlier extractor beats an extension match of a later one |
| PreviewFiles.StatusOf | lib/src/main/java/dev/arkbuilders/arklib/data/preview/Preview.kt:104-117 | ABSENT exactly without a thumbnail, THUMBNAIL exactly with a thumbnail but no fullscreen file, FULLSCREEN exactly with both |
| PreviewFiles.ArkSubfolder | lib/src/main/java/dev/arkbuilders/arklib/ArkFiles.kt:59-71 | the previews and thumbnails folders lie under the root, the elements below it being the ark folder's followed by the folder constant's own, however many it has (two for "cache/previews") |
| PreviewFiles.ChildInjective | lib/src/main/java/dev/arkbuilders/arklib/data/preview/Preview.kt:79-82 | the same file name resolved in distinct folders gives distinct files |
| PreviewFiles.PreviewFoldersApart | lib/src/main/java/dev/arkbuilders/arklib/data/preview/Preview.kt:76-82 | an id's default fullscreen file is never its thumbnail |
| Previews.PreviewLocator.constructor | lib/src/main/java/dev/arkbuilders/arklib/data/preview/Preview.kt:69-89 | the locator's folders sit under the root's ark folder, and its status is read off the disk at creation |
| Previews.PreviewLocator.FullscreenPath | lib/src/main/java/dev/arkbuilders/arklib/data/preview/Preview.kt:79-80 | a registered image is its own fullscreen preview; otherwise a file named after the id in the previews folder |
| Previews.PreviewLocator.ThumbnailPath | lib/src/main/java/dev/arkbuilders/arklib/data/preview/Preview.kt:82 | the thumbnail is the file named after the id in the thumbnails folder |
| Previews.PreviewLocator.IsGenerated | lib/src/main/java/dev/arkbuilders/arklib/data/preview/Preview.kt:91-97 | generated when there is no job, and otherwise exactly when the job has completed |
| Previews.PreviewLocator.Join | lib/src/main/java/dev/arkbuilders/arklib/data/preview/Preview.kt:99-102 | after joining the locator holds no job and reports its preview generated |
| Previews.PreviewLocator.Check | lib/src/main/java/dev/arkbuilders/arklib/data/preview/Preview.kt:104-117 | the returned and recorded status agree with the files on disk |
| Previews.PreviewLocator.Erase | lib/src/main/java/dev/arkbuilders/arklib/data/preview/Preview.kt:119-125 | the thumbnail is gone and the status reads ABSENT; a registered image, the resource itself, is never deleted |
| LegacyPreviews.PreviewLocator.constructor | lib/src/main/java/space/taran/arklib/domain/preview/Preview.kt:59-76 | the locator's folders sit under the root's ark folder, and its status is read off the disk at creation |
| LegacyPreviews.PreviewLocator.FullscreenPath | lib/src/main/java/space/taran/arklib/domain/preview/Preview.kt:67 | an explicit fullscreen path wins; otherwise a file named after the id in the previews folder |
| LegacyPreviews.PreviewLocator.ThumbnailPath | lib/src/main/java/space/taran/arklib/domain/preview/Preview.kt:69 | the thumbnail is the file named after the id in the thumbnails folder |
| LegacyPreviews.PreviewLocator.Check | lib/src/main/java/space/taran/arklib/domain/preview/Preview.kt:78-91 | the returned and recorded status agree with the files on disk |
| LegacyPreviews.PreviewLocator.Store | lib/src/main/java/space/taran/arklib/domain/preview/Preview.kt:93-107 | refused with the disk untouched when a preview exists; otherwise writes the thumbnail, plus the fullscreen image unless thumbnail-only, after which the status is no longer ABSENT |
| LegacyPreviews.PreviewLocator.Erase | lib/src/main/java/space/taran/arklib/domain/preview/Preview.kt:109-115 | the thumbnail is gone, the default fullscreen file too, and the status reads ABSENT |
| LegacyPreviews.StoreThenCheck | lib/src/main/java/space/taran/arklib/domain/preview/Preview.kt:78-107 | a store into an absent preview succeeds, and after a check a second store is refused |
| FoldersRepos.Put | lib/src/main/java/dev/arkbuilders/arklib/data/folders/FoldersRepo.kt:110-120 | the map stays well formed and maps the root to the new list; a known root keeps its place, a new one goes last |
| FoldersRepos.Without | lib/src/main/java/dev/arkbuilders/arklib/data/folders/FoldersRepo.kt:130 | exactly the other roots remain, in order and still distinct |
| FoldersRepos.RemoveRoot | lib/src/main/java/dev/arkbuilders/arklib/data/folders/FoldersRepo.kt:127-131 | the map stays well formed, loses exactly that root and keeps the others in order |
| FoldersRepos.MinusFirst | lib/src/main/java/dev/arkbuilders/arklib/data/folders/FoldersRepo.kt:163 | an absent favourite leaves the list unchanged; a present one removes exactly one occurrence |
| FoldersRepos.FirstPrefix | lib/src/main/java/dev/arkbuilders/arklib/data/folders/FoldersRepo.kt:74-76 | the first root, in order, that the path starts with, and none exactly when no root is above the path |
| FoldersRepos.PutFindsRoot | lib/src/main/java/dev/arkbuilders/arklib/data/folders/FoldersRepo.kt:74-76 | after a root is registered, every path under it finds a root |
| FoldersRepos.RemovedRootNotFound | lib/src/main/java/dev/arkbuilders/arklib/data/folders/FoldersRepo.kt:74-76 | after a root is forgotten, no path finds it |
| FoldersRepos.ReadFavorites | lib/src/main/java/dev/arkbuilders/arklib/data/folders/FoldersRepo.kt:212-224 | refused exactly when the root's ark folder is missing; otherwise the stored favourites |
| FoldersRepos.CheckFavorites | lib/src/main/java/dev/arkbuilders/arklib/data/folders/FoldersRepo.kt:234-248 | favourites split into the existing ones and the resolved paths of the missing ones, each favourite accounted for once |
| FoldersRepos.Accept | lib/src/main/java/dev/arkbuilders/arklib/data/folders/FoldersRepo.kt:82-93 | keeps exactly the roots that exist (with their ark folder, when that is checked), in order, and reports each dropped root or ark folder |
| FoldersRepos.Gather | lib/src/main/java/dev/arkbuilders/arklib/data/folders/FoldersRepo.kt:95-100 | fails exactly when some root lacks its ark folder; otherwise every accepted root gets its existing favourites and every missing favourite is reported |
| FoldersRepos.QueryAsWritten | lib/src/main/java/dev/arkbuilders/arklib/data/folders/FoldersRepo.kt:78-106 | as written, the query fails exactly when a stored, existing root lacks its ark folder |
| FoldersRepos.Query | lib/src/main/java/dev/arkbuilders/arklib/data/folders/FoldersRepo.kt:78-106 | always completes; keeps exactly the stored roots that exist with their ark folder, each with its existing favourites, and reports every dropped root, ark folder and missing favourite |
| FoldersRepos.ArkFolderSkipped | lib/src/main/java/dev/arkbuilders/arklib/data/folders/FoldersRepo.kt:87-91 | a root without its ark folder makes the written query fail, while the intended one drops it and reports the ark folder |
| FoldersRepos.FoldersRepo.constructor | lib/src/main/java/dev/arkbuilders/arklib/data/folders/FoldersRepo.kt:31-34 | a new repository holds no loaded folders |
| FoldersRepos.FoldersRepo.ProvideWithMissing | lib/src/main/java/dev/arkbuilders/arklib/data/folders/FoldersRepo.kt:41-65 | the first call loads the folders by query and returns its report; later calls return the loaded folders unchanged with nothing reported |
| FoldersRepos.FoldersRepo.ProvideFolders | lib/src/main/java/dev/arkbuilders/arklib/data/folders/FoldersRepo.kt:38-39 | the loaded folders, loading them on the first call |
| FoldersRepos.FoldersRepo.ResolveRoots | lib/src/main/java/dev/arkbuilders/arklib/data/folders/FoldersRepo.kt:67-72 | the selected root alone, or every loaded root in order |
| FoldersRepos.FoldersRepo.FindRootByPath | lib/src/main/java/dev/arkbuilders/arklib/data/folders/FoldersRepo.kt:74-76 | fails before loading; afterwards a registered root above the path, or none when no root is above it |
| FoldersRepos.FoldersRepo.AddRoot | lib/src/main/java/dev/arkbuilders/arklib/data/folders/FoldersRepo.kt:108-113 | creates the ark folder, then registers the root with its stored favourites in the loaded folders |
| FoldersRepos.FoldersRepo.AddFavorite | lib/src/main/java/dev/arkbuilders/arklib/data/folders/FoldersRepo.kt:115-123 | appends the favourite to the root's list, or registers the root with it alone; writing fails exactly without the ark folder |
| FoldersRepos.FoldersRepo.ForgetRoot | lib/src/main/java/dev/arkbuilders/arklib/data/folders/FoldersRepo.kt:125-134 | a registered root is removed, others untouched; before loading it fails |
| FoldersRepos.FoldersRepo.ForgetFavorite | lib/src/main/java/dev/arkbuilders/arklib/data/folders/FoldersRepo.kt:157-168 | removes the first occurrence of the relative favourite from a registered root's list; otherwise nothing changes |
| ProcessorShards.RootProcessor.constructor | lib/src/main/java/space/taran/arklib/domain/processor/Processor.kt:9-18 | a shard starts with its answer table and busy flag |
| ProcessorShards.RootProcessor.Retrieve | lib/src/main/java/space/taran/arklib/domain/processor/Processor.kt:16 | a shard answers an id it holds with its result, and fails for any other id |
| ProcessorShards.RootProcessor.Forget | lib/src/main/java/space/taran/arklib/domain/processor/Processor.kt:18 | the shard drops exactly that id, after which retrieving it fails; its busy flag is untouched |
| ProcessorShards.AnyBusy | lib/src/main/java/space/taran/arklib/domain/processor/AggregateProcessor.kt:44 | true exactly when some shard is busy |
| ProcessorShards.ForgetAll | lib/src/main/java/space/taran/arklib/domain/processor/AggregateProcessor.kt:40-42 | every shard drops the id and nothing else changes |
| DataAggregateProcessors.FindShard | lib/src/main/java/space/taran/arklib/data/processor/AggregateProcessor.kt:29-30 | the first shard whose index holds the id, and none exactly when no index holds it |
| DataAggregateProcessors.FindShardIsFirst | lib/src/main/java/space/taran/arklib/data/processor/AggregateProcessor.kt:29-30 | any shard that is the first to hold the id is the one found |
| DataAggregateProcessors.AggregateProcessor.constructor | lib/src/main/java/space/taran/arklib/data/processor/AggregateProcessor.kt:11-14 | the processors and indexes are the shards' pairs, in order |
| DataAggregateProcessors.AggregateProcessor.Retrieve | lib/src/main/java/space/taran/arklib/data/processor/AggregateProcessor.kt:29-31 | the answer of the processor paired with the first index holding the id; with no such index, the `!!` failure |
| DataAggregateProcessors.AggregateProcessor.Busy | lib/src/main/java/space/taran/arklib/data/processor/AggregateProcessor.kt:38-40 | busy exactly when some shard's processor is busy |
| DataAggregateProcessors.AggregateProcessor.Forget | lib/src/main/java/space/taran/arklib/data/processor/AggregateProcessor.kt:34-36 | every shard's processor drops the id, after which retrieving it fails |
| DataAggregateProcessors.EarlierIndexWins | lib/src/main/java/space/taran/arklib/data/processor/AggregateProcessor.kt:29-30 | an index holding the id guarantees a shard is found, at that position or earlier |
| DomainAggregateProcessors.FirstSuccess | lib/src/main/java/space/taran/arklib/domain/processor/AggregateProcessor.kt:29-31 | the first shard whose retrieval succeeds, and none exactly when every shard fails |
| DomainAggregateProcessors.AggregateProcessor.constructor | lib/src/main/java/space/taran/arklib/domain/processor/AggregateProcessor.kt:11-14 | the aggregate holds the shards in order |
| DomainAggregateProcessors.AggregateProcessor.Retrieve | lib/src/main/java/space/taran/arklib/domain/processor/AggregateProcessor.kt:29-38 | succeeds exactly when some shard does, with the first success in shard order; otherwise the IllegalStateException failure |
| DomainAggregateProcessors.AggregateProcessor.Busy | lib/src/main/java/space/taran/arklib/domain/processor/AggregateProcessor.kt:44 | busy exactly when some shard is busy |
| DomainAggregateProcessors.AggregateProcessor.Forget | lib/src/main/java/space/taran/arklib/domain/processor/AggregateProcessor.kt:40-42 | every shard drops the id, after which the aggregate's retrieval fails |

## Left out

- Coroutines, mutexes, flows, debouncing, `Log` calls and the stats events' delivery are not modelled. Each operation runs alone, and an event is returned as a value.
- Parsing and writing JSON, Room, the media and PDF libraries, and bitmap encoding are not modelled. A stored bitmap is an opaque byte sequence, and `Preview.downscale` is a parameter.
- MIME detection, `Resource.compute`, file existence, file sizes and modification times, the clock and `isHidden` are parameters of the operations that use them. `MetadataExtractor.isValid` detects the MIME type lazily; the model passes the detected type in up front.
- Resource.compute throwing is modelled as its result being absent. The native index's own scan, and the Rust code other than the helpers in `Native`, are not part of this model.
- Kotlin's `toInt`/`toLong` accept non-ASCII Unicode digits, and `lowercase()` lowers non-ASCII letters; the model handles ASCII only.
- Recursive deletion in `deleteRoot`/`deleteFavorite`, and the roots file that `writeRoots` writes, are not modelled. `FoldersRepos.FoldersRepo.ForgetRoot` and `AddRoot` state the in-memory registry only.
- IndexAggregation.updateOne is modelled as its routing step (`IndexAggregations.IndexAggregation.Route`); the shard update it then runs is `UpdateAll`'s step.
- DocumentKindFactory, the legacy Image, Link, PlainText and Archive kind factories' `fromPath`, ArchiveMetadataExtractor, `MetaExtraTag` and `RootAndFav` are not part of this model. Their accepted sets are constants or parameters, as each module's comment says.
- MetadataFactories.Compute takes each factory's `compute` as the total `computeWith`, so an exception a factory throws (the video factory's IOException when the file cannot be read, for one) is not represented: once a factory is found, the model's `compute` returns its metadata.
- The archive kind accepts "tar.gz" and "tar.xz", but `extension` never returns text with a dot, so these two never match by extension. The model keeps them as the source does.
- The dev-package `BaseStorage` is not part of this model. `FolderStorages.FolderStorage` is composed over the older `BaseStorages.BaseStorage`, whose `syncWithDisk` it reuses.
- A root processor's `retrieve` and `forget` belong to its subclasses, which are not part of this model. A shard answers from a table, and `busy` is its current value, not a flow.
- DataAggregateProcessors.AggregateProcessor holds its shards' processors and indexes as two parallel sequences instead of one sequence of pairs.
- DomainAggregateProcessors.AggregateProcessor.Retrieve: the source asks every shard before picking the first success, which matters only through side effects of `retrieve`. The model's shards have none.
- AggregatedIndexes.AggregatedIndex.UpdateAll requires the shards to be distinct objects and each update's added paths to be distinct. A scan reports each path once, and the same index is not registered twice.
- IndexAggregations.IndexAggregation.UpdateAll requires the shards to be distinct objects, for the same reason.
- IndexAggregations.IndexAggregation.DisjointShardsAgree and `Aggregates.FirstAnswerIsUnion` hold only for disjoint shards. For overlapping shards, `IndexAggregations.IndexAggregation.LaterShardWins` states what the fold keeps.
- PlainIndexes.PlainIndex.HandleUpdate requires the added paths to be distinct, as a scan of one root reports them; so do `AddAll` and `Reindex`.
- FolderStorages.FolderStorage.Refresh requires that combining two non-neutral values never gives neutral, so the merge never needs `remove`. This holds for the score, tags and properties monoids. `Persist` requires the same.
- FolderStorages.FolderStorage.Refresh takes one time, `now`, for every RAM stamp a refresh records, instead of one clock reading per id. The write jobs `FolderStorage` launches run to completion inside the call.
- DomainRootIndexes.RootIndex.Init: when a file vanishes during the loop, the entries put before it are not described. The order of the loop over the map's keys is not modelled.
- AggregateStorages.AggregateStorage.Persist: per shard, it states only that a passing shard holds no neutral value and that an erase is of an existing file with an empty map. What each shard writes is stated by that shard's own `Persist`.
- DomainAggregateStorages.AggregateStorage.Persist has the same per-shard contract.
- AggregateStorages.AggregateStorage holds file storages (`FileStorages.FileStorage`) as its shards, as the score aggregate does (`RootScoreStorage` extends `FileStorage`, lib/src/main/java/space/taran/arklib/user/score/RootScoreStorage.kt:9-14). The properties aggregate (lib/src/main/java/dev/arkbuilders/arklib/user/properties/PropertiesStorage.kt:17-19) holds folder storages instead (RootPropertiesStorage.kt:11-15), and an aggregate over `FolderStorages.FolderStorage` shards is not described.
- AggregateStorages.AggregateStorage.SetValue: with folder-storage shards, each shard that knows the id also stamps it in RAM with the current time, and a neutral value goes through that shard's `remove`, as `FolderStorages.FolderStorage.SetValue` states for one shard; the aggregate's contract does not say this.
- AggregateStorages.AggregateStorage.Remove: with folder-storage shards, a shard's `remove` throws when the id has no disk stamp (`diskTimestamps[id]!!`, FolderStorage.kt:67), and the exception ends the `forEach`, so the later shards keep the id; the aggregate's contract, in which every shard drops the id, does not cover that case. `FolderStorages.FolderStorage.Remove` states the error for one shard.
- AggregateStorages.AggregateStorage.Valid requires the shard storages, and their base storages, to be distinct objects, and every base to share the aggregate's monoid; `Persist` and the other mutators require `Valid`. An aggregate built from one storage registered twice is not described.
- DomainAggregateStorages.AggregateStorage.Valid requires the same of its shards.
- FolderStorages.FolderStorage.Handed: the read jobs `readFromDisk` launches, one per fresh file, are modelled as one read that fails as a whole when any fresh file does not decode or decodes to neutral, an undecodable file taking precedence. In the source a failing job's exception goes to the storage's coroutine scope, and the values the other jobs read are still handed over; that partial read is not described.
- FileStorages.FileStorage.ReadFromDisk parses each line with the first-colon `FileStorages.ParseLine`, the corrected parser of the Findings, not with `FileStorages.ParseLineAsWritten`.
- FoldersRepos.FoldersRepo.ProvideWithMissing loads the folders with the corrected `FoldersRepos.Query` of the Findings, not with `FoldersRepos.QueryAsWritten`, and so do `FoldersRepos.FoldersRepo.ProvideFolders`, `ResolveRoots`, `AddRoot` and `AddFavorite` through it. With the query as written, a stored root that exists without its ark folder makes the first call throw from `readFavorites`, and `folders` stays unloaded; that path is stated only by `FoldersRepos.ArkFolderSkipped`.
- Iteration order over Kotlin sets and maps is an arbitrary choice in the model's loops. The results are proved to be the same for every order, except where the item above on `Init` says otherwise.

## Findings

| source | as written | input that shows it | evidently intended | confidence | as-written member | corrected member |
|---|---|---|---|---|---|---|
| lib/src/main/java/dev/arkbuilders/arklib/user/score/Score.kt:13 | `combine` compares `java.lang.Math.abs` values, and `abs(Int.MIN_VALUE)` is negative | `combine(Int.MIN_VALUE, 0) == 0` and `combine(0, Int.MIN_VALUE) == 0`: the neutral 0 is not an identity, so a stored `Int.MIN_VALUE` score is lost in a merge | the larger magnitude wins, with 0 as a two-sided identity | not executed | Scores.MinValueLosesToNeutral | Scores.Combine |
| lib/src/main/java/space/taran/arklib/domain/storage/FileStorage.kt:59-61 | each line is split at every ':' and only `parts[1]` is read as the value | the line `id:a:b` is read as the value of "a", so a value whose text holds ':' does not read back | split at the first ':' only, so that reading gives back what `writeToDisk` wrote | not executed | FileStorages.AsWrittenCutsValueAtColon | FileStorages.FileRoundTrip |
| lib/src/main/java/dev/arkbuilders/arklib/data/folders/FoldersRepo.kt:87-91 | the second check calls `root.notExists()` again instead of checking the ark folder | a stored root that exists without its `.ark` folder passes, and `readFavorites` then throws "Ark folder must exist", failing the whole query | drop that root and report its ark folder, as the branch's `missingPaths.add(arkFolder)` says | not executed | FoldersRepos.ArkFolderSkipped | FoldersRepos.Query |
