/**
 * dev/arkbuilders/arklib/Lib.kt: the content-addressed `ResourceId`, a
 * wrapper around the blake3 digest string, and the `PreviewQuality` names
 * handed to the native PDF renderer.
 */
module ArkLib {
  datatype ResourceId = ResourceId(blake3: string)

  /** `toString()`: the digest itself. */
  function ToString(id: ResourceId): string
  {
    id.blake3
  }

  /** `create(blake3)`. */
  function Create(blake3: string): (id: ResourceId)
    ensures ToString(id) == blake3
  {
    ResourceId(blake3)
  }

  /** `fromString(str)`: every string is accepted, as `create(str)`. */
  function FromString(str: string): (id: ResourceId)
    ensures ToString(id) == str
  {
    ResourceId(str)
  }

  /** Rendering and parsing are inverse in both directions. */
  lemma RoundTrips(id: ResourceId, s: string)
    ensures FromString(ToString(id)) == id
    ensures ToString(FromString(s)) == s
  {
  }

  datatype PreviewQuality = High | Medium | Low

  /** `quality.name`, what `pdfPreviewGenerate` passes to the native side. */
  function QualityName(q: PreviewQuality): (name: string)
    ensures name in {"HIGH", "MEDIUM", "LOW"}
  {
    match q
    case High => "HIGH"
    case Medium => "MEDIUM"
    case Low => "LOW"
  }

  /** Distinct qualities have distinct names. */
  lemma QualityNameInjective(p: PreviewQuality, q: PreviewQuality)
    requires QualityName(p) == QualityName(q)
    ensures p == q
  {
  }
}
