/**
 * The factory dispatch shared by domain/kind/ResourceMetadataFactory.kt and
 * kind/ResourceKindFactory.kt: a factory accepts a set of extensions, a
 * set of MIME types and one kind code, and `findFactory` looks first for a
 * factory accepting the path's extension; only when the path has no
 * extension at all does it ask for the MIME type.
 */
module KindDispatch {
  import opened Wrappers

  /** `enum class KindCode`, in declaration order. */
  datatype KindCode = ImageCode | VideoCode | DocumentCode | LinkCode | PlainTextCode | ArchiveCode

  /** `KindCode.ordinal`. */
  function Ordinal(c: KindCode): (n: nat)
    ensures n < 6
  {
    match c
    case ImageCode => 0
    case VideoCode => 1
    case DocumentCode => 2
    case LinkCode => 3
    case PlainTextCode => 4
    case ArchiveCode => 5
  }

  /** Distinct codes have distinct ordinals, so a factory accepts at most one code. */
  lemma OrdinalInjective(a: KindCode, b: KindCode)
    ensures Ordinal(a) == Ordinal(b) ==> a == b
  {
  }

  /** What a factory accepts: `acceptedExtensions`, `acceptedMimeTypes`, `acceptedKindCode`. */
  datatype Factory = Factory(code: KindCode, acceptedExtensions: set<string>, acceptedMimeTypes: set<string>)

  /** The argument of one of the three `isValid` overloads. */
  datatype Criterion = ByExtension(ext: string) | ByMime(mime: string) | ByCode(ordinal: int)

  /**
   * `isValid(path)` (the extension is accepted), `isValid(mimeType)` (the
   * MIME type is accepted) and `isValid(kindCode)` (the ordinals agree).
   */
  predicate Accepts(f: Factory, c: Criterion)
  {
    match c
    case ByExtension(ext) => ext in f.acceptedExtensions
    case ByMime(mime) => mime in f.acceptedMimeTypes
    case ByCode(n) => Ordinal(f.code) == n
  }

  /** `factories.find { it.isValid(c) }`: the index of the first accepting factory. */
  function Find(fs: seq<Factory>, c: Criterion): (r: Option<nat>)
    ensures r.Some? ==> r.value < |fs| && Accepts(fs[r.value], c)
    ensures r.Some? ==> forall j :: 0 <= j < r.value ==> !Accepts(fs[j], c)
    ensures r.None? <==> forall j :: 0 <= j < |fs| ==> !Accepts(fs[j], c)
    decreases |fs|
  {
    if |fs| == 0 then None
    else if Accepts(fs[0], c) then Some(0)
    else
      var rest := Find(fs[1..], c);
      assert forall j :: 1 <= j < |fs| ==> fs[j] == fs[1..][j - 1];
      match rest
      case None => None
      case Some(i) => Some(i + 1)
  }

  /**
   * `findFactory(path)`, given `ext == extension(path)` and `mime`, what
   * MIME detection would report (`None` when it cannot tell).
   */
  function FindFactory(fs: seq<Factory>, ext: string, mime: Option<string>): (r: Option<nat>)
    ensures r.Some? ==> r.value < |fs|
    ensures r.Some? ==> Accepts(fs[r.value], ByExtension(ext))
                        || (ext == "" && mime.Some? && Accepts(fs[r.value], ByMime(mime.value)))
    ensures r.None? <==> (forall j :: 0 <= j < |fs| ==> !Accepts(fs[j], ByExtension(ext)))
                         && (ext != "" || mime.None? || forall j :: 0 <= j < |fs| ==> !Accepts(fs[j], ByMime(mime.value)))
  {
    match Find(fs, ByExtension(ext))
    case Some(i) => Some(i)
    case None =>
      if ext != "" then None
      else if mime.None? then None
      else Find(fs, ByMime(mime.value))
  }

  /** A factory accepting the extension wins: the first such one is chosen, whatever the MIME type. */
  lemma ExtensionWins(fs: seq<Factory>, ext: string, mime: Option<string>, i: nat)
    requires i < |fs| && Accepts(fs[i], ByExtension(ext))
    ensures FindFactory(fs, ext, mime).Some?
    ensures var k := FindFactory(fs, ext, mime).value;
      k <= i && Accepts(fs[k], ByExtension(ext)) && forall j :: 0 <= j < k ==> !Accepts(fs[j], ByExtension(ext))
  {
  }

  /** MIME detection is consulted only for a path without an extension. */
  lemma MimeOnlyWithoutExtension(fs: seq<Factory>, ext: string, mime1: Option<string>, mime2: Option<string>)
    requires ext != ""
    ensures FindFactory(fs, ext, mime1) == FindFactory(fs, ext, mime2)
  {
  }
}
