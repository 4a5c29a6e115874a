/**
 * `ResourceId(dataSize, crc32)` of the older API and its string form
 * `"<dataSize>-<crc32>"`, both fields being JVM `Long`s.
 */
module LegacyIds {
  import opened Wrappers
  import opened Decimal
  import opened Strings

  datatype ResourceId = ResourceId(dataSize: int, crc32: int)

  /** Both fields fit a `Long`. */
  predicate IsLongId(id: ResourceId)
  {
    IsLong(id.dataSize) && IsLong(id.crc32)
  }

  const SEPARATOR: char := '-'

  /** Why `fromString` throws: `parts[1]` is out of bounds, or a part is not a `Long`. */
  datatype IdError = MissingSeparator | NotANumber

  /** `toString()`: the data size, "-", the checksum. */
  function ToString(id: ResourceId): (s: string)
    ensures ':' !in s
  {
    IntToStringLacks(id.dataSize, ':');
    IntToStringLacks(id.crc32, ':');
    IntToString(id.dataSize) + [SEPARATOR] + IntToString(id.crc32)
  }

  /**
   * `fromString(str)`: split on "-", parse part 0 as a `Long`, then part 1,
   * ignoring any further parts. Part 0 is parsed before part 1 is looked
   * up, so a string without "-" that is not a number fails on the number.
   */
  function FromString(str: string): (r: Result<ResourceId, IdError>)
    ensures r.Ok? ==> IsLongId(r.value) && |Split(str, SEPARATOR)| >= 2
    ensures ParseLong(Split(str, SEPARATOR)[0]).None? ==> r == Err(NotANumber)
    ensures r == Err(MissingSeparator) <==> |Split(str, SEPARATOR)| < 2 && ParseLong(Split(str, SEPARATOR)[0]).Some?
  {
    var parts := Split(str, SEPARATOR);
    match ParseLong(parts[0])
    case None => Err(NotANumber)
    case Some(size) =>
      if |parts| < 2 then Err(MissingSeparator)
      else match ParseLong(parts[1])
        case None => Err(NotANumber)
        case Some(crc) => Ok(ResourceId(size, crc))
  }

  /** `create(dataSize, crc32)`. */
  function Create(dataSize: int, crc32: int): (id: ResourceId)
    ensures id.dataSize == dataSize && id.crc32 == crc32
  {
    ResourceId(dataSize, crc32)
  }

  /**
   * A string without "-" has no second part: a number fails for the
   * missing part, anything else for not being a number.
   */
  lemma FromStringWithoutSeparator(str: string)
    requires SEPARATOR !in str
    ensures FromString(str) == if ParseLong(str).Some? then Err(MissingSeparator) else Err(NotANumber)
  {
    SplitWithoutSeparator(str, SEPARATOR);
  }

  /** `fromString(id.toString()) == id` when both fields are non-negative `Long`s. */
  lemma RoundTrip(id: ResourceId)
    requires IsLongId(id) && id.dataSize >= 0 && id.crc32 >= 0
    ensures FromString(ToString(id)) == Ok(id)
  {
    var a, b := IntToString(id.dataSize), IntToString(id.crc32);
    NonNegativeHasNoSign(id.dataSize);
    NonNegativeHasNoSign(id.crc32);
    SplitAfterFirst(a, b, SEPARATOR);
    SplitWithoutSeparator(b, SEPARATOR);
    IntToStringRoundTrip(id.dataSize, LONG_MIN, LONG_MAX);
    IntToStringRoundTrip(id.crc32, LONG_MIN, LONG_MAX);
  }

  /** A negative field brings in a second "-", an empty part appears, and `fromString` throws. */
  lemma NegativeFieldBreaksRoundTrip(id: ResourceId)
    requires id.dataSize < 0 || id.crc32 < 0
    ensures FromString(ToString(id)).Err?
  {
    var a, b := IntToString(id.dataSize), IntToString(id.crc32);
    if id.dataSize < 0 {
      // "-" + digits + "-" + b: the first part is empty
      assert ToString(id) == [] + [SEPARATOR] + (a[1..] + [SEPARATOR] + b);
      SplitAfterFirst([], a[1..] + [SEPARATOR] + b, SEPARATOR);
    } else {
      // digits + "-" + "-" + digits: the second part is empty
      NonNegativeHasNoSign(id.dataSize);
      SplitAfterFirst(a, b, SEPARATOR);
      assert b == [] + [SEPARATOR] + b[1..];
      SplitAfterFirst([], b[1..], SEPARATOR);
    }
  }

  lemma ChecksumDigits()
    ensures NatToString(907060870) == "907060870"
  {
    assert NatToString(9) == "9";
    assert NatToString(90) == "90";
    assert NatToString(907) == "907";
    assert NatToString(9070) == "9070";
    assert NatToString(90706) == "90706";
    assert NatToString(907060) == "907060";
    assert NatToString(9070608) == "9070608";
    assert NatToString(90706087) == "90706087";
  }

  /** The id of the five-byte file "hello" renders with the size first. */
  lemma HelloExample()
    ensures ToString(ResourceId(5, 907060870)) == "5-907060870"
  {
    ChecksumDigits();
    assert IntToString(5) + "-" + IntToString(907060870) == "5-907060870";
  }
}
