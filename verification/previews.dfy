/**
 * What the two `PreviewLocator` classes share: the preview files of a
 * resource live under the root's ark folder, a thumbnail in the thumbnails
 * folder and a fullscreen image in the previews folder, both named after the
 * id; the preview status is read off which of the two files exist.
 */
module PreviewFiles {
  import opened Paths

  /** The PNG bytes of a stored bitmap; encoding and decoding are not modelled. */
  type Image = seq<bv8>

  /** `enum class PreviewStatus`. */
  datatype PreviewStatus = Absent | Thumbnail | Fullscreen

  /** The files of the device, by path. */
  class Disk {
    var files: map<Path, Image>

    constructor (files: map<Path, Image>)
      ensures this.files == files
    {
      this.files := files;
    }
  }

  /**
   * The rule of `check()`: no thumbnail means ABSENT whatever the fullscreen
   * file, a thumbnail alone means THUMBNAIL, both mean FULLSCREEN.
   */
  function StatusOf(present: set<Path>, thumbnail: Path, fullscreen: Path): (s: PreviewStatus)
    ensures s == Absent <==> thumbnail !in present
    ensures s == Thumbnail <==> thumbnail in present && fullscreen !in present
    ensures s == Fullscreen <==> thumbnail in present && fullscreen in present
  {
    if thumbnail !in present then Absent
    else if fullscreen !in present then Thumbnail
    else Fullscreen
  }

  /**
   * `root.arkFolder().arkPreviews()` and `.arkThumbnails()`: the folder
   * names are native constants, relative paths of one or more elements
   * (".ark", "cache/previews"), given here as their name elements.
   */
  function ArkSubfolder(root: Path, arkFolder: seq<string>, folder: seq<string>): (dir: Path)
    ensures StartsWith(dir, root) && dir.names[|root.names|..] == arkFolder + folder
  {
    Resolve(Resolve(root, Path(false, arkFolder)), Path(false, folder))
  }

  /** Distinct folders give distinct files of the same name. */
  lemma {:induction false} ChildInjective(a: Path, b: Path, name: string)
    requires a != b
    ensures Child(a, name) != Child(b, name)
  {
    assert Child(a, name).names[..|a.names|] == a.names;
    assert Child(b, name).names[..|b.names|] == b.names;
  }

  /**
   * With distinct names for the previews and thumbnails folders, the
   * default fullscreen file of an id is never its thumbnail.
   */
  lemma PreviewFoldersApart(root: Path, arkFolder: seq<string>, previews: seq<string>, thumbnails: seq<string>, name: string)
    requires previews != thumbnails
    ensures Child(ArkSubfolder(root, arkFolder, previews), name) != Child(ArkSubfolder(root, arkFolder, thumbnails), name)
  {
    var p, t := ArkSubfolder(root, arkFolder, previews), ArkSubfolder(root, arkFolder, thumbnails);
    var k := |root.names| + |arkFolder|;
    assert p.names[k..] == previews && t.names[k..] == thumbnails by {
      assert p.names == root.names + arkFolder + previews;
      assert t.names == root.names + arkFolder + thumbnails;
    }
    ChildInjective(p, t, name);
  }
}

/**
 * data/preview/Preview.kt: the current `PreviewLocator`. The fullscreen file
 * is the resource itself when the preview processor registered it as an
 * image; the locator may hold the job generating its preview.
 */
module Previews {
  import opened Wrappers
  import opened Paths
  import opened PreviewFiles
  import ArkLib

  type Id = ArkLib.ResourceId

  /** A coroutine `Job`, reduced to whether it has completed. */
  datatype Job = Job(completed: bool)

  /**
   * The locator of one resource's preview. The source reads
   * `processor.images` afresh on every call; the model takes one snapshot
   * of it when the locator is built, so images the processor registers
   * later are not seen.
   */
  class PreviewLocator {
    /** `processor.images` when the locator was built: the resources registered as images, with their paths. */
    const images: map<Id, Path>
    const id: Id
    const previewsDir: Path
    const thumbnailsDir: Path
    var generateJob: Option<Job>
    var status: PreviewStatus

    /** The locator checks the status once, when it is built. */
    constructor (images: map<Id, Path>, root: Path, id: Id, generateJob: Option<Job>,
                 arkFolder: seq<string>, previews: seq<string>, thumbnails: seq<string>, disk: Disk)
      ensures this.images == images && this.id == id && this.generateJob == generateJob
      ensures previewsDir == ArkSubfolder(root, arkFolder, previews)
      ensures thumbnailsDir == ArkSubfolder(root, arkFolder, thumbnails)
      ensures status == StatusOf(disk.files.Keys, ThumbnailPath(), FullscreenPath())
    {
      this.images := images;
      this.id := id;
      this.generateJob := generateJob;
      previewsDir := ArkSubfolder(root, arkFolder, previews);
      thumbnailsDir := ArkSubfolder(root, arkFolder, thumbnails);
      new;
      status := StatusOf(disk.files.Keys, ThumbnailPath(), FullscreenPath());
    }

    /** `fullscreen()`: the registered image, or the file named after the id in the previews folder. */
    function FullscreenPath(): (p: Path)
      ensures id in images ==> p == images[id]
      ensures id !in images ==> StartsWith(p, previewsDir) && FileName(p) == Some(ArkLib.ToString(id))
    {
      if id in images then images[id] else Child(previewsDir, ArkLib.ToString(id))
    }

    /** `thumbnail()`: the file named after the id in the thumbnails folder. */
    function ThumbnailPath(): (p: Path)
      ensures StartsWith(p, thumbnailsDir) && FileName(p) == Some(ArkLib.ToString(id))
    {
      Child(thumbnailsDir, ArkLib.ToString(id))
    }

    /** `isGenerated()`: no job, or a completed one. */
    function IsGenerated(): (b: bool)
      reads this
      ensures generateJob.None? ==> b
      ensures generateJob.Some? ==> (b <==> generateJob.value.completed)
    {
      match generateJob
      case None => true
      case Some(job) => job.completed
    }

    /** `join()`: waits for the job and forgets it, so the preview counts as generated. */
    method Join()
      modifies this
      ensures generateJob == None && IsGenerated()
      ensures status == old(status)
    {
      generateJob := None;
    }

    /** `check()`: recomputes the status from the files present now. */
    method Check(disk: Disk) returns (s: PreviewStatus)
      modifies this
      ensures s == status == StatusOf(disk.files.Keys, ThumbnailPath(), FullscreenPath())
      ensures generateJob == old(generateJob)
    {
      status := StatusOf(disk.files.Keys, ThumbnailPath(), FullscreenPath());
      s := status;
    }

    /**
     * `erase()`: the thumbnail always goes; the fullscreen file goes only
     * when it is not a registered image, which is the resource itself.
     */
    method Erase(disk: Disk)
      modifies disk
      ensures disk.files == old(disk.files) - {ThumbnailPath()} - (if id in images then {} else {FullscreenPath()})
      ensures StatusOf(disk.files.Keys, ThumbnailPath(), FullscreenPath()) == Absent
      ensures id in images && images[id] != ThumbnailPath() ==>
        (images[id] in disk.files <==> images[id] in old(disk.files))
    {
      disk.files := disk.files - {ThumbnailPath()};
      if id !in images {
        disk.files := disk.files - {FullscreenPath()};
      }
    }
  }
}

/**
 * domain/preview/Preview.kt: the older `PreviewLocator`, which stores
 * previews itself. Its fullscreen file is an explicit path when one is given.
 */
module LegacyPreviews {
  import opened Wrappers
  import opened Paths
  import opened PreviewFiles
  import LegacyIds

  type Id = LegacyIds.ResourceId

  /**
   * `Preview(bitmap, onlyThumbnail)`: with `onlyThumbnail` the bitmap is
   * the thumbnail itself, otherwise it is the fullscreen image.
   */
  datatype Preview = Preview(bitmap: Image, onlyThumbnail: bool)

  datatype PreviewError = AlreadyExists  // IllegalStateException("Preview already exists")

  class PreviewLocator {
    const id: Id
    const fullscreen: Option<Path>
    const previewsDir: Path
    const thumbnailsDir: Path
    var status: PreviewStatus

    /** The locator checks the status once, when it is built. */
    constructor (root: Path, id: Id, fullscreen: Option<Path>,
                 arkFolder: seq<string>, previews: seq<string>, thumbnails: seq<string>, disk: Disk)
      ensures this.id == id && this.fullscreen == fullscreen
      ensures previewsDir == ArkSubfolder(root, arkFolder, previews)
      ensures thumbnailsDir == ArkSubfolder(root, arkFolder, thumbnails)
      ensures status == StatusOf(disk.files.Keys, ThumbnailPath(), FullscreenPath())
    {
      this.id := id;
      this.fullscreen := fullscreen;
      previewsDir := ArkSubfolder(root, arkFolder, previews);
      thumbnailsDir := ArkSubfolder(root, arkFolder, thumbnails);
      new;
      status := StatusOf(disk.files.Keys, ThumbnailPath(), FullscreenPath());
    }

    /** `fullscreen()`: the explicit path, or the file named after the id in the previews folder. */
    function FullscreenPath(): (p: Path)
      ensures fullscreen.Some? ==> p == fullscreen.value
      ensures fullscreen.None? ==> StartsWith(p, previewsDir) && FileName(p) == Some(LegacyIds.ToString(id))
    {
      match fullscreen
      case Some(p) => p
      case None => Child(previewsDir, LegacyIds.ToString(id))
    }

    /** `thumbnail()`: the file named after the id in the thumbnails folder. */
    function ThumbnailPath(): (p: Path)
      ensures StartsWith(p, thumbnailsDir) && FileName(p) == Some(LegacyIds.ToString(id))
    {
      Child(thumbnailsDir, LegacyIds.ToString(id))
    }

    /** `check()`: recomputes the status from the files present now. */
    method Check(disk: Disk) returns (s: PreviewStatus)
      modifies this
      ensures s == status == StatusOf(disk.files.Keys, ThumbnailPath(), FullscreenPath())
    {
      status := StatusOf(disk.files.Keys, ThumbnailPath(), FullscreenPath());
      s := status;
    }

    /**
     * `store(preview)`: refused unless the status (as last checked) is
     * ABSENT. A thumbnail-only preview writes the thumbnail; otherwise the
     * fullscreen file is written, then its downscaled thumbnail. The status
     * field is left as it was, so it goes stale until the next `check()`.
     */
    method Store(preview: Preview, disk: Disk, downscale: Image -> Image) returns (r: Result<(), PreviewError>)
      modifies disk
      ensures status != Absent ==> r == Err(AlreadyExists) && disk.files == old(disk.files)
      ensures status == Absent && preview.onlyThumbnail ==>
        r.Ok? && disk.files == old(disk.files)[ThumbnailPath() := preview.bitmap]
      ensures status == Absent && !preview.onlyThumbnail ==>
        r.Ok? && disk.files == old(disk.files)[FullscreenPath() := preview.bitmap][ThumbnailPath() := downscale(preview.bitmap)]
      ensures r.Ok? ==> StatusOf(disk.files.Keys, ThumbnailPath(), FullscreenPath()) != Absent
      ensures r.Ok? && !preview.onlyThumbnail ==> StatusOf(disk.files.Keys, ThumbnailPath(), FullscreenPath()) == Fullscreen
    {
      if status != Absent {
        return Err(AlreadyExists);
      }
      if preview.onlyThumbnail {
        disk.files := disk.files[ThumbnailPath() := preview.bitmap];
        return Ok(());
      }
      disk.files := disk.files[FullscreenPath() := preview.bitmap];
      disk.files := disk.files[ThumbnailPath() := downscale(preview.bitmap)];
      r := Ok(());
    }

    /** `erase()`: the thumbnail always goes; the fullscreen file only when it was not given explicitly. */
    method Erase(disk: Disk)
      modifies disk
      ensures disk.files == old(disk.files) - {ThumbnailPath()} - (if fullscreen.Some? then {} else {FullscreenPath()})
      ensures StatusOf(disk.files.Keys, ThumbnailPath(), FullscreenPath()) == Absent
    {
      disk.files := disk.files - {ThumbnailPath()};
      if fullscreen.None? {
        disk.files := disk.files - {FullscreenPath()};
      }
    }
  }

  /**
   * A store followed by a check: the locator's status moves from ABSENT to
   * THUMBNAIL or FULLSCREEN, so a second store is refused.
   */
  method StoreThenCheck(loc: PreviewLocator, preview: Preview, disk: Disk, downscale: Image -> Image)
      returns (first: Result<(), PreviewError>, second: Result<(), PreviewError>)
    requires loc.status == Absent
    modifies loc, disk
    ensures first.Ok? && second == Err(AlreadyExists)
  {
    first := loc.Store(preview, disk, downscale);
    var s := loc.Check(disk);
    second := loc.Store(preview, disk, downscale);
  }
}
