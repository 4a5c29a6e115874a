/**
 * kind/ResourceKindFactory.kt (`GeneralKindFactory`) and the Room codec of
 * domain/kind/VideoKindFactory.kt. A resource kind is stored in Room as a
 * kind code plus a list of `ResourceExtra(resource, ordinal, value)` rows,
 * one per non-null extra; reading back keys the rows by
 * `MetaExtraTag.values()[ordinal]` and hands them to the factory of the
 * kind code. Each factory's own `toRoom`/`fromRoom` is a parameter of the
 * dispatch; the Video one is modelled concretely.
 */
module KindFactories {
  import opened Wrappers
  import opened Decimal
  import opened KindDispatch
  import LegacyIds

  type Id = LegacyIds.ResourceId

  /**
   * The `MetaExtraTag` entries the Video factory stores. The enum's
   * declaration is not part of this model: its order is taken to be
   * HEIGHT, WIDTH, DURATION, the only entries the modelled code uses. So a
   * stored row with ordinal 3 or more (an extra of another kind, such as a
   * document's or a link's) reads back as `BadOrdinal` here, where the real
   * enum may have an entry for it.
   */
  datatype MetaExtraTag = Height | Width | Duration

  /** `MetaExtraTag.ordinal`. */
  function TagOrdinal(t: MetaExtraTag): (n: nat)
    ensures n < 3
  {
    match t
    case Height => 0
    case Width => 1
    case Duration => 2
  }

  /** `MetaExtraTag.values()[n]`; `None` is the ArrayIndexOutOfBoundsException. */
  function TagAt(n: int): (r: Option<MetaExtraTag>)
    ensures r.Some? <==> 0 <= n < 3
    ensures r.Some? ==> TagOrdinal(r.value) == n
  {
    if n == 0 then Some(Height) else if n == 1 then Some(Width) else if n == 2 then Some(Duration) else None
  }

  /** Looking a tag up by its own ordinal gives the tag back. */
  lemma TagAtOrdinal(t: MetaExtraTag)
    ensures TagAt(TagOrdinal(t)) == Some(t)
  {
  }

  /** kind/ResourceKind: the sealed `ResourceKind` classes. */
  datatype ResourceKind =
    | Image
    | Video(height: Option<int>, width: Option<int>, duration: Option<int>)
    | Document(pages: Option<int>)
    | Link(title: Option<string>, description: Option<string>, url: Option<string>)
    | PlainText
    | Archive

  /** `ResourceKind.code`. */
  function Code(k: ResourceKind): KindCode
  {
    match k
    case Image => ImageCode
    case Video(_, _, _) => VideoCode
    case Document(_) => DocumentCode
    case Link(_, _, _) => LinkCode
    case PlainText => PlainTextCode
    case Archive => ArchiveCode
  }

  /** `ResourceExtra(resource, ordinal, value)`, a Room row. */
  datatype ResourceExtra = ResourceExtra(resource: Id, ordinal: int, value: string)

  datatype KindError =
    | FactoryNotFound   // error("Factory not found")
    | BadOrdinal        // `MetaExtraTag.values()[ordinal]` out of bounds
    | NumberFormat      // `toLong()` of a stored extra that is not a Long

  /**
   * `GeneralKindFactory.factories`, in order. DocumentKindFactory is not
   * part of this model; its sets are taken from DocumentMetadataFactory.
   */
  const Factories: seq<Factory> := [
    Factory(ImageCode, {"jpg", "jpeg", "png", "svg", "gif", "webp"},
            {"image/jpeg", "image/jpg", "image/png", "image/gif", "image/webp"}),
    Factory(VideoCode, {"mp4", "avi", "mkv", "mov", "wmv", "flv", "webm", "ts", "mpg"}, {"video/mp4"}),
    Factory(DocumentCode, {"pdf", "doc", "docx", "odt", "ods", "md"}, {"application/pdf"}),
    Factory(LinkCode, {"link"}, {}),
    Factory(PlainTextCode, {"txt"}, {"text/plain"}),
    Factory(ArchiveCode, {"zip", "7z", "rar", "tar.gz", "tar.xz"}, {"application/zip"})
  ]

  /** Every kind code has its factory, at the position of its ordinal. */
  lemma EveryCodeHasFactory(c: KindCode)
    ensures Find(Factories, ByCode(Ordinal(c))) == Some(Ordinal(c))
  {
    assert forall j :: 0 <= j < |Factories| ==> Ordinal(Factories[j].code) == j;
  }

  // ------------------------------------------------------------ fromPath

  /**
   * `fromPath(path, meta, metadataStorage)` with `ext == extension(path)` and
   * `mime` the detected MIME type: the kind the found factory reads from the
   * file, `fromPathOf(code)`, or "Factory not found".
   */
  function FromPath(ext: string, mime: Option<string>, fromPathOf: KindCode -> ResourceKind)
    : (r: Result<ResourceKind, KindError>)
    requires forall c :: Code(fromPathOf(c)) == c
    ensures r.Err? <==> FindFactory(Factories, ext, mime).None?
    ensures r.Err? ==> r.error == FactoryNotFound
    ensures r.Ok? ==> r.value == fromPathOf(Code(r.value))
    ensures r.Ok? ==> exists i :: (0 <= i < |Factories| && Factories[i].code == Code(r.value)
      && (Accepts(Factories[i], ByExtension(ext)) || (ext == "" && mime.Some? && Accepts(Factories[i], ByMime(mime.value)))))
  {
    match FindFactory(Factories, ext, mime)
    case None => Err(FactoryNotFound)
    case Some(i) => Ok(fromPathOf(Factories[i].code))
  }

  /** Unlike the metadata dispatch, the kind dispatch lists a Link factory: a `.link` file is a link. */
  lemma LinkPathIsLink(mime: Option<string>, fromPathOf: KindCode -> ResourceKind)
    requires forall c :: Code(fromPathOf(c)) == c
    ensures FromPath("link", mime, fromPathOf) == Ok(fromPathOf(LinkCode))
  {
    assert forall j :: 0 <= j < 3 ==> !Accepts(Factories[j], ByExtension("link"));
    assert Accepts(Factories[3], ByExtension("link"));
  }

  // ------------------------------------------------------------ toRoom

  /**
   * `.filter { it.value != null }.map { ResourceExtra(id, it.key.ordinal, it.value!!) }`
   * over a factory's `toRoom` entries, in their order.
   */
  function Extras(id: Id, entries: seq<(MetaExtraTag, Option<string>)>): (r: seq<ResourceExtra>)
    ensures |r| <= |entries|
    ensures forall e :: e in r ==> e.resource == id && 0 <= e.ordinal < 3
    ensures forall i :: 0 <= i < |entries| && entries[i].1.Some? ==>
      ResourceExtra(id, TagOrdinal(entries[i].0), entries[i].1.value) in r
    ensures forall e :: e in r ==> exists i :: 0 <= i < |entries| && entries[i].1 == Some(e.value) && TagOrdinal(entries[i].0) == e.ordinal
  {
    if |entries| == 0 then []
    else
      var n := |entries| - 1;
      var front := Extras(id, entries[..n]);
      assert forall i :: 0 <= i < n ==> entries[..n][i] == entries[i];
      match entries[n].1
      case None => front
      case Some(v) => front + [ResourceExtra(id, TagOrdinal(entries[n].0), v)]
  }

  /** The non-null entries as a map, a later entry of a tag replacing an earlier one. */
  function NonNullEntries(entries: seq<(MetaExtraTag, Option<string>)>): (m: map<MetaExtraTag, string>)
    ensures forall t :: t in m <==> exists i :: 0 <= i < |entries| && entries[i].0 == t && entries[i].1.Some?
  {
    if |entries| == 0 then map[]
    else
      var n := |entries| - 1;
      var front := NonNullEntries(entries[..n]);
      assert forall i :: 0 <= i < n ==> entries[..n][i] == entries[i];
      match entries[n].1
      case None => front
      case Some(v) => front[entries[n].0 := v]
  }

  /**
   * `toRoom(id, kind)`: no rows for no kind; otherwise the factory whose
   * kind code has the kind's ordinal renders the extras. `toRoomOf` is the
   * factory's own `toRoom`.
   */
  function ToRoom(id: Id, kind: Option<ResourceKind>, toRoomOf: ResourceKind -> seq<(MetaExtraTag, Option<string>)>)
    : (r: Result<seq<ResourceExtra>, KindError>)
    ensures kind.None? ==> r == Ok([])
    ensures kind.Some? ==> r == Ok(Extras(id, toRoomOf(kind.value)))
  {
    match kind
    case None => Ok([])
    case Some(k) =>
      EveryCodeHasFactory(Code(k));
      match Find(Factories, ByCode(Ordinal(Code(k))))
      case None => Err(FactoryNotFound)
      case Some(_) => Ok(Extras(id, toRoomOf(k)))
  }

  // ------------------------------------------------------------ fromRoom

  /**
   * `extras.associate { MetaExtraTag.values()[it.ordinal] to it.value }`:
   * an out-of-range ordinal fails, and a later row of a tag replaces an
   * earlier one.
   */
  function Associate(extras: seq<ResourceExtra>): (r: Result<map<MetaExtraTag, string>, KindError>)
    ensures r.Err? <==> exists i :: 0 <= i < |extras| && !(0 <= extras[i].ordinal < 3)
    ensures r.Err? ==> r.error == BadOrdinal
    ensures r.Ok? ==> forall t :: t in r.value <==> exists i :: 0 <= i < |extras| && extras[i].ordinal == TagOrdinal(t)
  {
    if |extras| == 0 then Ok(map[])
    else
      var n := |extras| - 1;
      assert forall i :: 0 <= i < n ==> extras[..n][i] == extras[i];
      match Associate(extras[..n])
      case Err(e) => Err(e)
      case Ok(m) =>
        match TagAt(extras[n].ordinal)
        case None => Err(BadOrdinal)
        case Some(t) => Ok(m[t := extras[n].value])
  }

  /** Reading the rows of `Extras` gives back exactly the non-null entries. */
  lemma {:induction false} AssociateExtras(id: Id, entries: seq<(MetaExtraTag, Option<string>)>)
    ensures Associate(Extras(id, entries)) == Ok(NonNullEntries(entries))
  {
    if |entries| > 0 {
      var n := |entries| - 1;
      AssociateExtras(id, entries[..n]);
      var front := Extras(id, entries[..n]);
      var before := NonNullEntries(entries[..n]);
      match entries[n].1
      case None =>
        assert Extras(id, entries) == front;
        assert NonNullEntries(entries) == before;
      case Some(v) =>
        var t := entries[n].0;
        var rows := front + [ResourceExtra(id, TagOrdinal(t), v)];
        assert Extras(id, entries) == rows;
        assert NonNullEntries(entries) == before[t := v];
        assert rows[..|rows| - 1] == front;
        TagAtOrdinal(t);
        assert Associate(rows) == Ok(before[t := v]);
    }
  }

  /**
   * `fromRoom(kindCode, extras)`: no kind without a kind code; otherwise the
   * rows are keyed by tag and handed to the factory accepting the code.
   * `fromRoomOf` is the factory's own `fromRoom`.
   */
  function FromRoom(kindCode: Option<int>, extras: seq<ResourceExtra>,
                    fromRoomOf: (KindCode, map<MetaExtraTag, string>) -> Result<ResourceKind, KindError>)
    : (r: Result<Option<ResourceKind>, KindError>)
    ensures kindCode.None? ==> r == Ok(None)
    ensures kindCode.Some? && Associate(extras).Err? ==> r == Err(BadOrdinal)
    ensures kindCode.Some? && !(0 <= kindCode.value < 6) ==> r.Err?
    ensures kindCode.Some? && Associate(extras).Ok? && (exists c :: Ordinal(c) == kindCode.value) ==>
      exists c :: Ordinal(c) == kindCode.value && r == (match fromRoomOf(c, Associate(extras).value)
                                                        case Err(e) => Err(e)
                                                        case Ok(k) => Ok(Some(k)))
  {
    match kindCode
    case None => Ok(None)
    case Some(code) =>
      match Associate(extras)
      case Err(e) => Err(e)
      case Ok(data) =>
        match Find(Factories, ByCode(code))
        case None => Err(FactoryNotFound)
        case Some(i) =>
          match fromRoomOf(Factories[i].code, data)
          case Err(e) => Err(e)
          case Ok(k) => Ok(Some(k))
  }

  // ------------------------------------------------------------ VideoKindFactory

  /** VideoKindFactory's kind code and accepted sets. */
  const VideoFactory: Factory := Factories[1]

  /** `VideoKindFactory.toRoom`: HEIGHT, WIDTH and DURATION as decimal strings, null when absent. */
  function VideoToRoom(k: ResourceKind): (entries: seq<(MetaExtraTag, Option<string>)>)
    requires k.Video?
    ensures |entries| == 3 && entries[0].0 == Height && entries[1].0 == Width && entries[2].0 == Duration
  {
    [(Height, Render(k.height)), (Width, Render(k.width)), (Duration, Render(k.duration))]
  }

  /** `?.toString()` of a nullable Long. */
  function Render(x: Option<int>): Option<string>
  {
    match x
    case None => None
    case Some(v) => Some(IntToString(v))
  }

  /** `extras[tag]?.toLong()`: absent gives null, a stored value must parse as a Long. */
  function ParseField(extras: map<MetaExtraTag, string>, tag: MetaExtraTag): (r: Result<Option<int>, KindError>)
    ensures tag !in extras ==> r == Ok(None)
    ensures tag in extras ==> (r.Ok? <==> ParseLong(extras[tag]).Some?)
    ensures tag in extras && r.Ok? ==> r.value == ParseLong(extras[tag])
  {
    if tag !in extras then Ok(None)
    else
      match ParseLong(extras[tag])
      case None => Err(NumberFormat)
      case Some(v) => Ok(Some(v))
  }

  /** `VideoKindFactory.fromRoom`: HEIGHT, WIDTH, DURATION parsed in turn; a missing one is null. */
  function VideoFromRoom(extras: map<MetaExtraTag, string>): (r: Result<ResourceKind, KindError>)
    ensures r.Ok? ==> r.value.Video?
    ensures r.Ok? <==> ParseField(extras, Height).Ok? && ParseField(extras, Width).Ok? && ParseField(extras, Duration).Ok?
  {
    match ParseField(extras, Height)
    case Err(e) => Err(e)
    case Ok(h) =>
      match ParseField(extras, Width)
      case Err(e) => Err(e)
      case Ok(w) =>
        match ParseField(extras, Duration)
        case Err(e) => Err(e)
        case Ok(d) => Ok(Video(h, w, d))
  }

  /** A Long field, or none. */
  predicate IsLongField(x: Option<int>)
  {
    x.None? || LONG_MIN <= x.value <= LONG_MAX
  }

  /** Reading back the non-null entries of `toRoom(v)` gives `v`, field by field. */
  lemma VideoRoomRoundTrip(k: ResourceKind)
    requires k.Video? && IsLongField(k.height) && IsLongField(k.width) && IsLongField(k.duration)
    ensures VideoFromRoom(NonNullEntries(VideoToRoom(k))) == Ok(k)
  {
    var entries := VideoToRoom(k);
    var m := NonNullEntries(entries);
    forall i | 0 <= i < 3
      ensures var x := [k.height, k.width, k.duration][i];
        entries[i].0 in m <==> x.Some?
      ensures var x := [k.height, k.width, k.duration][i];
        x.Some? ==> m[entries[i].0] == IntToString(x.value)
    {
      if entries[i].1.Some? {
        NonNullLast(entries, i);
      }
    }
    FieldRoundTrip(m, Height, k.height);
    FieldRoundTrip(m, Width, k.width);
    FieldRoundTrip(m, Duration, k.duration);
  }

  /** In the non-null map of entries with distinct tags, each tag holds its own entry's value. */
  lemma NonNullLast(entries: seq<(MetaExtraTag, Option<string>)>, i: nat)
    requires i < |entries| && entries[i].1.Some?
    requires forall j :: 0 <= j < |entries| && j != i ==> entries[j].0 != entries[i].0
    ensures NonNullEntries(entries)[entries[i].0] == entries[i].1.value
  {
    var n := |entries| - 1;
    if i < n {
      assert forall j :: 0 <= j < n ==> entries[..n][j] == entries[j];
      NonNullLast(entries[..n], i);
    }
  }

  /** A field rendered by `toRoom` parses back to itself. */
  lemma FieldRoundTrip(m: map<MetaExtraTag, string>, tag: MetaExtraTag, x: Option<int>)
    requires IsLongField(x)
    requires tag in m <==> x.Some?
    requires x.Some? ==> m[tag] == IntToString(x.value)
    ensures ParseField(m, tag) == Ok(x)
  {
    if x.Some? {
      IntToStringRoundTrip(x.value, LONG_MIN, LONG_MAX);
    }
  }

  /**
   * The whole Room round trip of a video: its rows, read back under the
   * video kind code by a dispatch whose Video factory uses the Video codec,
   * give the same video.
   */
  lemma VideoKindRoundTrip(id: Id, k: ResourceKind,
                           toRoomOf: ResourceKind -> seq<(MetaExtraTag, Option<string>)>,
                           fromRoomOf: (KindCode, map<MetaExtraTag, string>) -> Result<ResourceKind, KindError>)
    requires k.Video? && IsLongField(k.height) && IsLongField(k.width) && IsLongField(k.duration)
    requires toRoomOf(k) == VideoToRoom(k)
    requires forall data :: fromRoomOf(VideoCode, data) == VideoFromRoom(data)
    ensures ToRoom(id, Some(k), toRoomOf).Ok?
    ensures FromRoom(Some(Ordinal(VideoCode)), ToRoom(id, Some(k), toRoomOf).value, fromRoomOf) == Ok(Some(k))
  {
    var rows := ToRoom(id, Some(k), toRoomOf).value;
    AssociateExtras(id, VideoToRoom(k));
    VideoRoomRoundTrip(k);
    EveryCodeHasFactory(VideoCode);
    assert Factories[1].code == VideoCode;
  }
}
