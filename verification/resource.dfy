/**
 * The `Resource` record of both index generations (data/index/Resource.kt
 * and domain/index/Resource.kt) and the update records the indices trade.
 * What the filesystem says about a path (whether it exists, its size and
 * modification time) is an input, `Option<FileInfo>`.
 */
module Resources {
  import opened Wrappers
  import opened Paths
  import opened FileUtils

  datatype FileInfo = FileInfo(size: int, modified: int)

  datatype Resource<K> = Resource(id: K, name: string, extension: string, modified: int)

  datatype ComputeError =
    | FileNotFound  // FileNotFoundException, or NoSuchFileException from Files.size
    | InvalidSize   // IOException: a file of fewer than one byte
    | NoFileName    // `path.fileName` is null for a path without name elements

  /** The resource that `compute` builds for a file of at least one byte. */
  function Described<K>(id: K, path: Path, info: FileInfo): (r: Result<Resource<K>, ComputeError>)
    ensures r.Ok? <==> FileName(path).Some?
    ensures r.Ok? ==> r.value.id == id && r.value.modified == info.modified
    ensures r.Ok? ==> r.value.name == FileName(path).value && r.value.extension == Extension(path)
  {
    match FileName(path)
    case None => Err(NoFileName)
    case Some(name) => Ok(Resource(id, name, Extension(path), info.modified))
  }

  /**
   * `Resource.compute(id, path)` of the data generation: a missing file and
   * an empty one are failures handed back to the caller.
   */
  function Compute<K>(id: K, path: Path, info: Option<FileInfo>): (r: Result<Resource<K>, ComputeError>)
    ensures info.None? ==> r == Err(FileNotFound)
    ensures info.Some? && info.value.size < 1 ==> r == Err(InvalidSize)
    ensures r.Ok? ==> info.Some? && info.value.size >= 1 && r.value.id == id && r.value.extension == Extension(path)
  {
    if info.None? then Err(FileNotFound)
    else if info.value.size < 1 then Err(InvalidSize)
    else Described(id, path, info.value)
  }

  /**
   * `Resource.compute(id, path)` of the domain generation: an empty file is a
   * failure, but a missing file makes `Files.size` throw, which escapes the
   * caller (`Thrown`).
   */
  function ComputeLegacy<K>(id: K, path: Path, info: Option<FileInfo>): (r: Result<Result<Resource<K>, ComputeError>, ComputeError>)
    ensures info.None? <==> r == Err(FileNotFound)
    ensures info.Some? ==> r == Ok(Compute(id, path, info))
  {
    if info.None? then Err(FileNotFound) else Ok(Compute(id, path, info))
  }

  datatype NewResource<K> = NewResource(path: Path, resource: Resource<K>)
  datatype LostResource<K> = LostResource(path: Path, resource: Resource<K>)
  datatype ResourceUpdates<K> = ResourceUpdates(deleted: map<K, LostResource<K>>, added: map<K, NewResource<K>>)

  /** `RawUpdates` from the native index: deleted ids, and added ids with their paths. */
  datatype RawUpdates<K> = RawUpdates(deleted: set<K>, added: map<K, Path>)
}
