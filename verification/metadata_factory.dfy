/**
 * domain/kind/ResourceMetadataFactory.kt: `GeneralMetadataFactory.compute`
 * finds the factory for a path and runs it. The metadata each factory
 * computes (FFmpeg, PdfRenderer and so on) is an oracle here.
 */
module MetadataFactories {
  import opened Wrappers
  import opened KindDispatch

  /** domain/kind/Metadata.kt: the sealed `Metadata` classes. */
  datatype Metadata =
    | Image
    | Video(height: Option<int>, width: Option<int>, duration: Option<int>)
    | Document(pages: Option<int>)
    | Link(title: Option<string>, description: Option<string>)
    | PlainText
    | Archive

  /** `Metadata.code`. */
  function Code(m: Metadata): KindCode
  {
    match m
    case Image => ImageCode
    case Video(_, _, _) => VideoCode
    case Document(_) => DocumentCode
    case Link(_, _) => LinkCode
    case PlainText => PlainTextCode
    case Archive => ArchiveCode
  }

  /** `GeneralMetadataFactory.factories`, in order, with each factory's accepted sets. */
  const Factories: seq<Factory> := [
    Factory(ImageCode, {"jpg", "jpeg", "png", "svg", "gif", "webp"},
            {"image/jpeg", "image/jpg", "image/png", "image/gif", "image/webp"}),
    Factory(VideoCode, {"mp4", "avi", "mkv", "mov", "wmv", "flv", "webm", "ts", "mpg"}, {"video/mp4"}),
    Factory(DocumentCode, {"pdf", "doc", "docx", "odt", "ods", "md"}, {"application/pdf"}),
    Factory(PlainTextCode, {"txt"}, {"text/plain"}),
    Factory(ArchiveCode, {"zip", "7z", "rar", "tar.gz", "tar.xz"}, {"application/zip"})
  ]

  datatype ComputeError = UnknownResourceKind  // IllegalArgumentException("unknown resource kind")

  /**
   * `compute(path, resource)` with `ext == extension(path)`, `mime` the
   * detected MIME type and `computeWith(code)` what the factory of that
   * kind computes; every factory computes metadata of its own kind.
   */
  function Compute(ext: string, mime: Option<string>, computeWith: KindCode -> Metadata): (r: Result<Metadata, ComputeError>)
    requires forall c :: Code(computeWith(c)) == c
    ensures r.Err? <==> FindFactory(Factories, ext, mime).None?
    ensures r.Ok? ==> r.value == computeWith(Code(r.value))
    ensures r.Ok? ==> exists i :: (0 <= i < |Factories| && Factories[i].code == Code(r.value)
      && (Accepts(Factories[i], ByExtension(ext)) || (ext == "" && mime.Some? && Accepts(Factories[i], ByMime(mime.value)))))
  {
    match FindFactory(Factories, ext, mime)
    case None => Err(UnknownResourceKind)
    case Some(i) => Ok(computeWith(Factories[i].code))
  }

  /** No factory is ever chosen for a link: none of the listed factories has the link kind. */
  lemma NeverLink(ext: string, mime: Option<string>, computeWith: KindCode -> Metadata)
    requires forall c :: Code(computeWith(c)) == c
    ensures Compute(ext, mime, computeWith).Ok? ==> Code(Compute(ext, mime, computeWith).value) != LinkCode
  {
    var r := Compute(ext, mime, computeWith);
    if r.Ok? {
      var i :| 0 <= i < |Factories| && Factories[i].code == Code(r.value);
    }
  }

  /** A path with an unlisted extension fails even when its MIME type is accepted. */
  lemma UnlistedExtensionFails(computeWith: KindCode -> Metadata)
    requires forall c :: Code(computeWith(c)) == c
    ensures Compute("docx2", Some("application/pdf"), computeWith) == Err(UnknownResourceKind)
  {
    assert forall j :: 0 <= j < |Factories| ==> !Accepts(Factories[j], ByExtension("docx2"));
  }
}
