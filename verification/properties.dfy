/**
 * Properties.kt: user properties of a resource (titles and descriptions).
 * `Properties` is a plain class, so two instances are equal only when they
 * are the same object; `PropertiesMonoid.combine` builds a new instance from
 * the two field-wise unions.
 */
module UserProperties {

  class Properties {
    const titles: set<string>
    const descriptions: set<string>

    constructor (titles: set<string>, descriptions: set<string>)
      ensures this.titles == titles && this.descriptions == descriptions
    {
      this.titles := titles;
      this.descriptions := descriptions;
    }
  }

  class PropertiesMonoid {
    const neutral: Properties

    /** `neutral` has no titles and no descriptions. */
    predicate Valid()
    {
      neutral.titles == {} && neutral.descriptions == {}
    }

    constructor ()
      ensures fresh(neutral) && Valid()
    {
      neutral := new Properties({}, {});
    }

    /**
     * `combine(a, b)`: a fresh instance holding the union of the titles and the
     * union of the descriptions. Being fresh, it is never `== neutral`, even
     * when both unions are empty.
     */
    method Combine(a: Properties, b: Properties) returns (r: Properties)
      ensures fresh(r)
      ensures r.titles == a.titles + b.titles
      ensures r.descriptions == a.descriptions + b.descriptions
      ensures r != neutral && r != a && r != b
    {
      r := new Properties(a.titles + b.titles, a.descriptions + b.descriptions);
    }
  }

  /** The two field sets of a `Properties`, compared by content. */
  datatype Contents = Contents(titles: set<string>, descriptions: set<string>)

  function ContentsOf(p: Properties): Contents
  {
    Contents(p.titles, p.descriptions)
  }

  /** The content of `combine(a, b)`. */
  function CombinedContents(a: Contents, b: Contents): (r: Contents)
    ensures r.titles == a.titles + b.titles && r.descriptions == a.descriptions + b.descriptions
  {
    Contents(a.titles + b.titles, a.descriptions + b.descriptions)
  }

  /** By content, combining with the neutral value changes nothing, and combine is commutative and idempotent. */
  lemma CombinedContentsLaws(a: Contents, b: Contents)
    ensures CombinedContents(a, Contents({}, {})) == a
    ensures CombinedContents(a, b) == CombinedContents(b, a)
    ensures CombinedContents(a, a) == a
  {
  }

  /** A freshly built empty `Properties` has the neutral content yet is not the neutral object. */
  method EmptyIsNotNeutral(m: PropertiesMonoid) returns (p: Properties)
    requires m.Valid()
    ensures fresh(p)
    ensures ContentsOf(p) == ContentsOf(m.neutral) && p != m.neutral
  {
    p := new Properties({}, {});
  }
}
