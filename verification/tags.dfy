/**
 * Tags: `TagUtils.validateTag`, `TagsMonoid` (set union), the default
 * methods of the `TagStorage` interface, and the comma-separated string
 * codec of `RootTagsStorage`.
 */
module Tags {
  import opened Wrappers
  import opened Strings
  import opened Monoids

  type TagSet = set<string>

  /** `validateTag(tag)`: the trimmed tag, or `null` when nothing but whitespace is left. */
  function ValidateTag(tag: string): (r: Option<string>)
    ensures r.None? <==> AllWhitespace(tag)
    ensures r.Some? ==> r.value == Trim(tag) && r.value != "" && IsTrimmed(r.value)
  {
    var validated := Trim(tag);
    if |validated| == 0 then None else Some(validated)
  }

  /** A validated tag validates to itself. */
  lemma ValidateTagIdempotent(tag: string)
    requires ValidateTag(tag).Some?
    ensures ValidateTag(ValidateTag(tag).value) == ValidateTag(tag)
  {
    TrimIdempotent(tag);
  }

  const TagsMonoid: Monoid<TagSet> := Monoid({}, (a: TagSet, b: TagSet) => a + b)

  /** `TagsMonoid.combine` is union: it keeps both inputs, is commutative, associative, idempotent, and ∅ is its identity. */
  lemma TagsCombineIsUnion(a: TagSet, b: TagSet, c: TagSet)
    ensures a <= TagsMonoid.combine(a, b) && b <= TagsMonoid.combine(a, b)
    ensures forall t :: t in TagsMonoid.combine(a, b) ==> t in a || t in b
    ensures TagsMonoid.combine(a, b) == TagsMonoid.combine(b, a)
    ensures TagsMonoid.combine(TagsMonoid.combine(a, b), c) == TagsMonoid.combine(a, TagsMonoid.combine(b, c))
    ensures TagsMonoid.combine(a, a) == a
    ensures TagsMonoid.combine(TagsMonoid.neutral, a) == a && TagsMonoid.combine(a, TagsMonoid.neutral) == a
  {
  }

  // ------------------------------------------------------------ TagStorage defaults

  /** `getTags(ids)`: the union of the tags of every listed id (∅ for no ids). */
  function TagsOfAll<K>(getTags: K -> TagSet, ids: seq<K>): (r: TagSet)
    ensures forall t :: t in r <==> exists i :: 0 <= i < |ids| && t in getTags(ids[i])
    decreases |ids|
  {
    if |ids| == 0 then {}
    else
      var rest := TagsOfAll(getTags, ids[1..]);
      assert forall i :: 0 < i < |ids| ==> ids[i] == ids[1..][i - 1];
      getTags(ids[0]) + rest
  }

  /** `groupTagsByResources(ids)`: each listed id mapped to its tags. */
  function GroupTagsByResources<K>(getTags: K -> TagSet, ids: seq<K>): (r: map<K, TagSet>)
    ensures r.Keys == set i | 0 <= i < |ids| :: ids[i]
    ensures forall k :: k in r ==> r[k] == getTags(k)
  {
    map i | 0 <= i < |ids| :: ids[i] := getTags(ids[i])
  }

  // ------------------------------------------------------------ RootTagsStorage codec

  /** `valueToString`: the tags joined with ",", listed in lexicographic order. */
  function TagsToString(tags: TagSet): string
  {
    Join(Enumerate(tags), ",")
  }

  /** `valueFromString`: split on ',', trim each part, drop the empty ones, collect into a set. */
  function TagsFromString(raw: string): (tags: TagSet)
    ensures forall t :: t in tags ==> t != "" && IsTrimmed(t)
  {
    set p | p in Split(raw, ',') && Trim(p) != "" :: Trim(p)
  }

  /** A tag the codec can carry: non-empty, trimmed, and without a comma. */
  predicate IsStorableTag(t: string)
  {
    t != "" && IsTrimmed(t) && ',' !in t
  }

  /** Decoding an encoded set of storable tags gives the same set. */
  lemma TagsCodecRoundTrip(tags: TagSet)
    requires forall t :: t in tags ==> IsStorableTag(t)
    ensures TagsFromString(TagsToString(tags)) == tags
  {
    var parts := Enumerate(tags);
    if |parts| == 0 {
      assert tags == {};
      assert Split("", ',') == [""];
    } else {
      DecodeJoined(parts);
    }
  }

  /** Decoding the join of storable tags gives exactly those tags. */
  lemma DecodeJoined(parts: seq<string>)
    requires |parts| >= 1
    requires forall i :: 0 <= i < |parts| ==> IsStorableTag(parts[i])
    ensures forall t :: t in TagsFromString(Join(parts, ",")) <==> t in parts
  {
    SplitJoin(parts, ',');
    var decoded := TagsFromString(Join(parts, ","));
    forall t | t in parts ensures t in decoded {
      TrimTrimmed(t);
    }
    forall t | t in decoded ensures t in parts {
      var p :| p in parts && Trim(p) != "" && t == Trim(p);
      TrimTrimmed(p);
    }
  }

  /** A string made only of commas and whitespace decodes to ∅, the neutral value. */
  lemma BlankDecodesToNeutral(raw: string)
    requires forall i :: 0 <= i < |raw| ==> raw[i] == ',' || IsWhitespace(raw[i])
    ensures TagsFromString(raw) == TagsMonoid.neutral
  {
    var parts := Split(raw, ',');
    forall p | p in parts ensures Trim(p) == "" {
      forall i | 0 <= i < |p| ensures IsWhitespace(p[i]) {
        SplitKeepsCharacters(raw, ',', p, p[i]);
      }
    }
  }

  /** Every character of a part of `split` comes from the split string. */
  lemma {:induction false} SplitKeepsCharacters(s: string, sep: char, p: string, c: char)
    requires p in Split(s, sep) && c in p
    ensures c in s && c != sep
    decreases |s|
  {
    if |s| > 0 {
      var rest := Split(s[1..], sep);
      if s[0] == sep {
        SplitKeepsCharacters(s[1..], sep, p, c);
      } else if p == [s[0]] + rest[0] {
        if c != s[0] {
          SplitKeepsCharacters(s[1..], sep, rest[0], c);
        }
      } else {
        assert p in rest[1..];
        SplitKeepsCharacters(s[1..], sep, p, c);
      }
    }
  }
}
