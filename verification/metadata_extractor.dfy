/**
 * data/metadata/MetadataExtractor.kt: `MetadataExtractor.extract` runs the
 * first extractor of a fixed list that is valid for the path, and falls back
 * to `Metadata.Unknown` when none is. Unlike the kind dispatch, each
 * extractor's `isValid` consults the MIME type whenever its own extensions
 * miss, whether or not the path has an extension. What an extractor computes
 * (FFmpeg, PdfRenderer and so on) is an oracle here.
 */
module MetadataExtractors {
  import opened Wrappers

  /** The extractor objects. */
  datatype ExtractorName =
    | ImageExtractor
    | VideoExtractor
    | DocumentExtractor
    | PlainTextExtractor
    | ArchiveExtractor
    | LinkExtractor

  /** An extractor and its `acceptedExtensions` and `acceptedMimeTypes`. */
  datatype Extractor = Extractor(name: ExtractorName, acceptedExtensions: set<string>, acceptedMimeTypes: set<string>)

  /**
   * `isValid(path)` with `ext == extension(path)` and `mime` what
   * `detectMimeType(path)` reports (`None` when it cannot tell): the
   * extension is accepted, or else the detected MIME type is.
   */
  predicate IsValid(e: Extractor, ext: string, mime: Option<string>)
  {
    ext in e.acceptedExtensions || (mime.Some? && mime.value in e.acceptedMimeTypes)
  }

  /**
   * `EXTRACTORS`, in order. ArchiveMetadataExtractor is not part of this
   * model, so its accepted sets are parameters.
   */
  function Extractors(archiveExtensions: set<string>, archiveMimeTypes: set<string>): (es: seq<Extractor>)
    ensures |es| == 5
    ensures forall i :: 0 <= i < |es| ==> es[i].name != LinkExtractor
  {
    [ Extractor(ImageExtractor,
                {"bmp", "gif", "ico", "jpg", "jpeg", "png", "tif", "tiff", "webp", "heic", "heif", "avif", "svg"},
                {"image/bmp", "image/gif", "image/vnd.microsoft.icon", "image/jpeg", "image/jpg", "image/png",
                 "image/tiff", "image/webp", "image/heic", "image/avif", "image/svg+xml"}),
      Extractor(VideoExtractor, {"mp4", "avi", "mkv", "mov", "wmv", "flv", "webm", "ts", "mpg"}, {"video/mp4"}),
      Extractor(DocumentExtractor,
                {"csv", "pdf", "odt", "odp", "ods", "rtf", "ppt", "pptx", "xls", "xlsx", "doc", "docx", "markdown", "md"},
                {"text/csv", "application/pdf", "application/vnd.oasis.opendocument.presentation",
                 "application/vnd.oasis.opendocument.spreadsheet", "application/vnd.oasis.opendocument.text",
                 "application/rtf", "application/vnd.ms-powerpoint",
                 "application/vnd.openxmlformats-officedocument.presentationml.presentation",
                 "application/vnd.ms-excel", "application/msword",
                 "application/vnd.openxmlformats-officedocument.wordprocessingml.document",
                 "application/vnd.openxmlformats-officedocument.spreadsheetml.sheet", "text/markdown"}),
      Extractor(PlainTextExtractor, {"txt", "log", "text", "pl", "list", "diff"}, {"text/plain"}),
      Extractor(ArchiveExtractor, archiveExtensions, archiveMimeTypes) ]
  }

  /** `EXTRACTORS.find { it.isValid(path) }`: the index of the first valid extractor. */
  function FirstValid(es: seq<Extractor>, ext: string, mime: Option<string>): (r: Option<nat>)
    ensures r.Some? ==> r.value < |es| && IsValid(es[r.value], ext, mime)
    ensures r.Some? ==> forall j :: 0 <= j < r.value ==> !IsValid(es[j], ext, mime)
    ensures r.None? <==> forall j :: 0 <= j < |es| ==> !IsValid(es[j], ext, mime)
    decreases |es|
  {
    if |es| == 0 then None
    else if IsValid(es[0], ext, mime) then Some(0)
    else
      assert forall j :: 1 <= j < |es| ==> es[j] == es[1..][j - 1];
      match FirstValid(es[1..], ext, mime)
      case None => None
      case Some(i) => Some(i + 1)
  }

  /**
   * `extract(path, resource)`: `success(unknown)` when no extractor is
   * valid, otherwise the chosen extractor's own result, `extractWith(name)`,
   * unchanged, failure included.
   */
  function Extract<M, E>(archiveExtensions: set<string>, archiveMimeTypes: set<string>,
                         ext: string, mime: Option<string>,
                         extractWith: ExtractorName -> Result<M, E>, unknown: M): (r: Result<M, E>)
    ensures (forall e :: e in Extractors(archiveExtensions, archiveMimeTypes) ==> !IsValid(e, ext, mime)) ==> r == Ok(unknown)
    ensures (exists e :: e in Extractors(archiveExtensions, archiveMimeTypes) && IsValid(e, ext, mime)) ==>
      exists i :: (0 <= i < 5 && r == extractWith(Extractors(archiveExtensions, archiveMimeTypes)[i].name)
        && IsValid(Extractors(archiveExtensions, archiveMimeTypes)[i], ext, mime)
        && forall j :: 0 <= j < i ==> !IsValid(Extractors(archiveExtensions, archiveMimeTypes)[j], ext, mime))
  {
    var es := Extractors(archiveExtensions, archiveMimeTypes);
    match FirstValid(es, ext, mime)
    case None => Ok(unknown)
    case Some(i) => extractWith(es[i].name)
  }

  /** The chosen extractor is never the link one: LinkMetadataExtractor is not in the list. */
  lemma NeverLink(archiveExtensions: set<string>, archiveMimeTypes: set<string>, ext: string, mime: Option<string>)
    ensures var es := Extractors(archiveExtensions, archiveMimeTypes);
      var r := FirstValid(es, ext, mime);
      r.Some? ==> es[r.value].name != LinkExtractor
  {
  }

  /**
   * An accepted extension suffices without MIME detection: its extractor,
   * or an earlier one, is chosen whatever MIME type is reported.
   */
  lemma ExtensionSuffices(es: seq<Extractor>, ext: string, mime: Option<string>, i: nat)
    requires i < |es| && ext in es[i].acceptedExtensions
    ensures FirstValid(es, ext, mime).Some? && FirstValid(es, ext, mime).value <= i
  {
  }

  /** With an undetectable MIME type only the extensions decide. */
  lemma UndetectedMimeUsesExtension(es: seq<Extractor>, ext: string, j: nat)
    requires j < |es|
    ensures IsValid(es[j], ext, None) <==> ext in es[j].acceptedExtensions
    ensures FirstValid(es, ext, None).None? <==> forall k :: 0 <= k < |es| ==> ext !in es[k].acceptedExtensions
  {
  }

  /**
   * The MIME type is consulted even for a path with an extension, and an
   * earlier extractor's MIME match beats a later one's extension match: an
   * `.mp4` file detected as `image/png` goes to the image extractor.
   */
  lemma MimeBeatsLaterExtension(archiveExtensions: set<string>, archiveMimeTypes: set<string>)
    ensures var es := Extractors(archiveExtensions, archiveMimeTypes);
      "mp4" in es[1].acceptedExtensions && es[1].name == VideoExtractor
      && FirstValid(es, "mp4", Some("image/png")) == Some(0) && es[0].name == ImageExtractor
  {
    var es := Extractors(archiveExtensions, archiveMimeTypes);
    assert "image/png" in es[0].acceptedMimeTypes;
  }
}
