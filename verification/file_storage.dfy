/**
 * FileStorage.kt: a BaseStorage persisted as one text file, the header
 * line "version 2" followed by one `id:value` line per entry. The file is
 * an input (`None` when it does not exist), its modification time an
 * integer, and the ids and values are turned into text by codecs.
 */
module FileStorages {
  import opened Wrappers
  import opened Decimal
  import opened Strings
  import opened Monoids
  import opened StorageSpec
  import opened BaseStorages

  /** A string codec: `toString`/`valueToString` and the parse that may throw (`None`). */
  datatype Codec<!T> = Codec(render: T -> string, parse: string -> Option<T>)

  /** The storage file as `readAllLines` and `getLastModifiedTime` see it. */
  datatype StoredFile = StoredFile(lines: seq<string>, mtime: int)

  const STORAGE_VERSION: int := 2
  const STORAGE_VERSION_PREFIX: string := "version "
  const KEY_VALUE_SEPARATOR: char := ':'

  /** The header line `"$STORAGE_VERSION_PREFIX$STORAGE_VERSION"`. */
  function Header(): (h: string)
    ensures h == "version 2"
  {
    assert IntToString(STORAGE_VERSION) == "2";
    STORAGE_VERSION_PREFIX + IntToString(STORAGE_VERSION)
  }

  /**
   * `verifyVersion(header)`: a header without the prefix is an unknown
   * version; the rest must be an `Int` (a NumberFormatException otherwise),
   * and neither newer nor older than 2.
   */
  function VerifyVersion(header: string): (r: Outcome<StorageError>)
    ensures r == Pass <==>
      |header| >= 8 && header[..8] == STORAGE_VERSION_PREFIX && ParseInt(header[8..]) == Some(STORAGE_VERSION)
    ensures r.Fail? ==> r.error in {UnknownVersion, MalformedVersion, NewerVersion, OlderVersion}
  {
    if !(|header| >= 8 && header[..8] == STORAGE_VERSION_PREFIX) then Fail(UnknownVersion)
    else match ParseInt(header[8..])
      case None => Fail(MalformedVersion)
      case Some(version) =>
        if version > STORAGE_VERSION then Fail(NewerVersion)
        else if version < STORAGE_VERSION then Fail(OlderVersion)
        else Pass
  }

  /** The header this storage writes is accepted; other versions are refused with their reason. */
  lemma VerifyVersionExamples()
    ensures VerifyVersion(Header()) == Pass
    ensures VerifyVersion("version 3") == Fail(NewerVersion)
    ensures VerifyVersion("version 1") == Fail(OlderVersion)
    ensures VerifyVersion("version x") == Fail(MalformedVersion)
    ensures VerifyVersion("2") == Fail(UnknownVersion)
  {
    assert Header()[8..] == "2";
    assert "version 3"[8..] == "3" && "version 1"[8..] == "1" && "version x"[8..] == "x";
    assert "version 3"[..8] == STORAGE_VERSION_PREFIX;
    assert "version 1"[..8] == STORAGE_VERSION_PREFIX;
    assert "version x"[..8] == STORAGE_VERSION_PREFIX;
  }

  /** `toInt` accepts leading zeros and a plus sign, so "version 02" and "version +2" pass too. */
  lemma VerifyVersionLenient()
    ensures VerifyVersion("version 02") == Pass
    ensures VerifyVersion("version +2") == Pass
  {
    assert "version 02"[..8] == STORAGE_VERSION_PREFIX && "version 02"[8..] == "02";
    assert "version +2"[..8] == STORAGE_VERSION_PREFIX && "version +2"[8..] == "+2";
    assert DigitsValue("02") == DigitsValue("0") * 10 + 2;
    assert "+2"[1..] == "2";
  }

  /** One `id:value` line. */
  function RenderLine<K, V>(ids: Codec<K>, values: Codec<V>, id: K, v: V): string
  {
    ids.render(id) + [KEY_VALUE_SEPARATOR] + values.render(v)
  }

  /**
   * One line of `lines.associate { … }` as written: `split(':')`, the id
   * from `parts[0]` and the value from `parts[1]`, so a value that itself
   * contains ':' is cut at its first colon. A missing separator, an id or a
   * value that does not parse are wrapped in a StorageException; a neutral
   * value is a StorageException of its own.
   */
  function ParseLineAsWritten<K, V(==)>(ids: Codec<K>, values: Codec<V>, neutral: V, line: string): (r: Result<(K, V), StorageError>)
    ensures KEY_VALUE_SEPARATOR !in line ==> r.Err?
    ensures r.Ok? ==> r.value.1 != neutral
    ensures r.Ok? ==> exists text :: KEY_VALUE_SEPARATOR !in text && values.parse(text) == Some(r.value.1)
  {
    var parts := Split(line, KEY_VALUE_SEPARATOR);
    assert KEY_VALUE_SEPARATOR !in line ==> |parts| == 1 by {
      if KEY_VALUE_SEPARATOR !in line {
        SplitWithoutSeparator(line, KEY_VALUE_SEPARATOR);
      }
    }
    match ids.parse(parts[0])
    case None => Err(Unparsable)
    case Some(id) =>
      if |parts| < 2 then Err(Unparsable)
      else match values.parse(parts[1])
        case None => Err(Unparsable)
        case Some(v) => if v == neutral then Err(DirtyWrite) else Ok((id, v))
  }

  /**
   * One line, split at its first ':' only (`split(':', limit = 2)`): the
   * value is everything after the id's separator.
   */
  function ParseLine<K, V(==)>(ids: Codec<K>, values: Codec<V>, neutral: V, line: string): (r: Result<(K, V), StorageError>)
    ensures KEY_VALUE_SEPARATOR !in line ==> r.Err?
    ensures r.Ok? ==> r.value.1 != neutral
  {
    match SplitAtFirst(line, KEY_VALUE_SEPARATOR)
    case None => Err(Unparsable)
    case Some((rawId, rawValue)) =>
      match ids.parse(rawId)
      case None => Err(Unparsable)
      case Some(id) =>
        match values.parse(rawValue)
        case None => Err(Unparsable)
        case Some(v) => if v == neutral then Err(DirtyWrite) else Ok((id, v))
  }

  /**
   * `lines.associate { … }`: the first failing line decides the error;
   * otherwise, when an id occurs on several lines, the last line wins.
   */
  function ParseBody<K, V>(parseLine: string -> Result<(K, V), StorageError>, lines: seq<string>): Result<map<K, V>, StorageError>
    decreases |lines|
  {
    if |lines| == 0 then Ok(map[])
    else match parseLine(lines[0])
      case Err(e) => Err(e)
      case Ok((id, v)) =>
        match ParseBody(parseLine, lines[1..])
        case Err(e) => Err(e)
        case Ok(rest) => Ok(map[id := v] + rest)
  }

  /** An id read from a line that no later line repeats keeps that line's value: the last line wins. */
  lemma {:induction false} ParseBodyLastWins<K, V>(parseLine: string -> Result<(K, V), StorageError>, lines: seq<string>, i: nat, id: K, v: V)
    requires ParseBody(parseLine, lines).Ok?
    requires i < |lines| && parseLine(lines[i]) == Ok((id, v))
    requires forall j :: i < j < |lines| ==> parseLine(lines[j]).Ok? && parseLine(lines[j]).value.0 != id
    ensures id in ParseBody(parseLine, lines).value && ParseBody(parseLine, lines).value[id] == v
    decreases |lines|
  {
    var rest := ParseBody(parseLine, lines[1..]);
    if i == 0 {
      ParseBodyLacks(parseLine, lines[1..], id);
    } else {
      ParseBodyLastWins(parseLine, lines[1..], i - 1, id, v);
    }
  }

  /** An id no line carries is not in the parsed map. */
  lemma {:induction false} ParseBodyLacks<K, V>(parseLine: string -> Result<(K, V), StorageError>, lines: seq<string>, id: K)
    requires ParseBody(parseLine, lines).Ok?
    requires forall j :: 0 <= j < |lines| ==> parseLine(lines[j]).Ok? && parseLine(lines[j]).value.0 != id
    ensures id !in ParseBody(parseLine, lines).value
    decreases |lines|
  {
    if |lines| > 0 {
      ParseBodyLacks(parseLine, lines[1..], id);
    }
  }

  /**
   * The parsing part of `readFromDisk`: the header line is removed and
   * verified (an empty file has none: IndexOutOfBoundsException), the body
   * is parsed, and an empty result is a StorageException.
   */
  function ParseFile<K, V>(parseLine: string -> Result<(K, V), StorageError>, lines: seq<string>): (r: Result<map<K, V>, StorageError>)
    ensures |lines| == 0 ==> r == Err(MissingHeader)
    ensures r.Ok? ==> |r.value| > 0 && |lines| >= 2 && VerifyVersion(lines[0]) == Pass
  {
    if |lines| == 0 then Err(MissingHeader)
    else match VerifyVersion(lines[0])
      case Fail(e) => Err(e)
      case Pass =>
        match ParseBody(parseLine, lines[1..])
        case Err(e) => Err(e)
        case Ok(m) =>
          if |m| == 0 then Err(EmptyStorage)
          else
            assert |lines[1..]| > 0;
            Ok(m)
  }

  /** The body lines `writeToDisk` produces, one per id in the order the map is iterated. */
  function RenderBody<K, V>(ids: Codec<K>, values: Codec<V>, m: map<K, V>, order: seq<K>): (lines: seq<string>)
    requires forall i :: 0 <= i < |order| ==> order[i] in m
    ensures |lines| == |order|
    ensures forall i :: 0 <= i < |order| ==> lines[i] == RenderLine(ids, values, order[i], m[order[i]])
    decreases |order|
  {
    if |order| == 0 then []
    else [RenderLine(ids, values, order[0], m[order[0]])] + RenderBody(ids, values, m, order[1..])
  }

  /** Each key of `m` exactly once. */
  predicate Enumerates<K>(order: seq<K>, keys: set<K>)
  {
    (forall i :: 0 <= i < |order| ==> order[i] in keys)
    && (forall id :: id in keys ==> id in order)
    && (forall i, j :: 0 <= i < j < |order| ==> order[i] != order[j])
  }

  /** Ids render without the separator and parse back. */
  predicate IdsRoundTrip<K>(ids: Codec<K>, keys: set<K>)
  {
    forall id :: id in keys ==> KEY_VALUE_SEPARATOR !in ids.render(id) && ids.parse(ids.render(id)) == Some(id)
  }

  /** Every stored value is non-neutral and parses back from its rendering. */
  predicate ValuesRoundTrip<K, V(==)>(values: Codec<V>, m: map<K, V>, neutral: V)
  {
    forall id :: id in m ==> m[id] != neutral && values.parse(values.render(m[id])) == Some(m[id])
  }

  /** A rendered line parses back to its entry. */
  lemma ParseRenderedLine<K, V>(ids: Codec<K>, values: Codec<V>, neutral: V, id: K, v: V)
    requires KEY_VALUE_SEPARATOR !in ids.render(id) && ids.parse(ids.render(id)) == Some(id)
    requires v != neutral && values.parse(values.render(v)) == Some(v)
    ensures ParseLine(ids, values, neutral, RenderLine(ids, values, id, v)) == Ok((id, v))
  {
    IndexOfAfter(ids.render(id), KEY_VALUE_SEPARATOR, values.render(v));
    var line := RenderLine(ids, values, id, v);
    assert line[..|ids.render(id)|] == ids.render(id);
    assert line[|ids.render(id)| + 1..] == values.render(v);
  }

  /** The entries of `m` at the ids `order` lists. */
  function EntriesAt<K, V>(m: map<K, V>, order: seq<K>): (r: map<K, V>)
    requires forall i :: 0 <= i < |order| ==> order[i] in m
    ensures r.Keys == set i | 0 <= i < |order| :: order[i]
    ensures forall id :: id in r ==> r[id] == m[id]
  {
    map id | id in order :: m[id]
  }

  /**
   * A body whose every line a parser reads back as the entry it was
   * rendered from parses to the entries it lists.
   */
  lemma {:induction false} ParseRenderedBody<K, V>(parseLine: string -> Result<(K, V), StorageError>,
                                                   ids: Codec<K>, values: Codec<V>, m: map<K, V>, order: seq<K>)
    requires forall i :: 0 <= i < |order| ==> order[i] in m
    requires forall i :: 0 <= i < |order| ==>
      parseLine(RenderLine(ids, values, order[i], m[order[i]])) == Ok((order[i], m[order[i]]))
    ensures ParseBody(parseLine, RenderBody(ids, values, m, order)) == Ok(EntriesAt(m, order))
    decreases |order|
  {
    var lines := RenderBody(ids, values, m, order);
    if |order| > 0 {
      assert parseLine(lines[0]) == Ok((order[0], m[order[0]]));
      ParseRenderedBody(parseLine, ids, values, m, order[1..]);
      assert lines[1..] == RenderBody(ids, values, m, order[1..]);
      assert map[order[0] := m[order[0]]] + EntriesAt(m, order[1..]) == EntriesAt(m, order);
    } else {
      assert EntriesAt(m, order) == map[];
    }
  }

  /** With the corrected line parser, the rendered body of a map parses back to that map. */
  lemma ParseRenderedMap<K, V>(ids: Codec<K>, values: Codec<V>, neutral: V, m: map<K, V>, order: seq<K>)
    requires Enumerates(order, m.Keys)
    requires IdsRoundTrip(ids, m.Keys) && ValuesRoundTrip(values, m, neutral)
    ensures ParseBody((l: string) => ParseLine(ids, values, neutral, l), RenderBody(ids, values, m, order)) == Ok(m)
  {
    var parseLine := (l: string) => ParseLine(ids, values, neutral, l);
    forall i | 0 <= i < |order|
      ensures parseLine(RenderLine(ids, values, order[i], m[order[i]])) == Ok((order[i], m[order[i]]))
    {
      ParseRenderedLine(ids, values, neutral, order[i], m[order[i]]);
    }
    ParseRenderedBody(parseLine, ids, values, m, order);
    EntriesAtAll(m, order);
  }

  /** Listing every id gives back the whole map. */
  lemma EntriesAtAll<K, V>(m: map<K, V>, order: seq<K>)
    requires Enumerates(order, m.Keys)
    ensures EntriesAt(m, order) == m
  {
    var e := EntriesAt(m, order);
    forall id | id in m ensures id in e {
      var i :| 0 <= i < |order| && order[i] == id;
    }
  }

  /**
   * Reading back what `writeToDisk` wrote gives the same map, whatever
   * characters the values render to, as long as the ids render without ':'.
   */
  lemma FileRoundTrip<K, V>(ids: Codec<K>, values: Codec<V>, neutral: V, m: map<K, V>, order: seq<K>)
    requires Enumerates(order, m.Keys) && |m| > 0
    requires IdsRoundTrip(ids, m.Keys) && ValuesRoundTrip(values, m, neutral)
    ensures ParseFile((l: string) => ParseLine(ids, values, neutral, l), [Header()] + RenderBody(ids, values, m, order)) == Ok(m)
  {
    var body := RenderBody(ids, values, m, order);
    ParseRenderedMap(ids, values, neutral, m, order);
    VerifyVersionExamples();
    assert ([Header()] + body)[0] == Header();
    assert ([Header()] + body)[1..] == body;
  }

  /** As written, a rendered line parses back when the value's text has no ':'. */
  lemma ParseRenderedLineAsWritten<K, V>(ids: Codec<K>, values: Codec<V>, neutral: V, id: K, v: V)
    requires KEY_VALUE_SEPARATOR !in ids.render(id) && ids.parse(ids.render(id)) == Some(id)
    requires KEY_VALUE_SEPARATOR !in values.render(v)
    requires v != neutral && values.parse(values.render(v)) == Some(v)
    ensures ParseLineAsWritten(ids, values, neutral, RenderLine(ids, values, id, v)) == Ok((id, v))
  {
    SplitAfterFirst(ids.render(id), values.render(v), KEY_VALUE_SEPARATOR);
    SplitWithoutSeparator(values.render(v), KEY_VALUE_SEPARATOR);
  }

  /**
   * As written, a value whose text contains ':' is read back from the part
   * before its first colon only: `id:a:b` is parsed as the value of "a".
   */
  lemma AsWrittenCutsValueAtColon<K, V>(ids: Codec<K>, values: Codec<V>, neutral: V, id: K, a: string, b: string)
    requires KEY_VALUE_SEPARATOR !in ids.render(id) && ids.parse(ids.render(id)) == Some(id)
    requires KEY_VALUE_SEPARATOR !in a
    ensures ParseLineAsWritten(ids, values, neutral, ids.render(id) + [KEY_VALUE_SEPARATOR] + (a + [KEY_VALUE_SEPARATOR] + b))
         == match values.parse(a)
            case None => Err(Unparsable)
            case Some(v) => if v == neutral then Err(DirtyWrite) else Ok((id, v))
    ensures ParseLine(ids, values, neutral, ids.render(id) + [KEY_VALUE_SEPARATOR] + (a + [KEY_VALUE_SEPARATOR] + b))
         == match values.parse(a + [KEY_VALUE_SEPARATOR] + b)
            case None => Err(Unparsable)
            case Some(v) => if v == neutral then Err(DirtyWrite) else Ok((id, v))
  {
    var line := ids.render(id) + [KEY_VALUE_SEPARATOR] + (a + [KEY_VALUE_SEPARATOR] + b);
    SplitAfterFirst(ids.render(id), a + [KEY_VALUE_SEPARATOR] + b, KEY_VALUE_SEPARATOR);
    SplitAfterFirst(a, b, KEY_VALUE_SEPARATOR);
    IndexOfAfter(ids.render(id), KEY_VALUE_SEPARATOR, a + [KEY_VALUE_SEPARATOR] + b);
    assert line[..|ids.render(id)|] == ids.render(id);
    assert line[|ids.render(id)| + 1..] == a + [KEY_VALUE_SEPARATOR] + b;
  }

  /** What a persist did to the file. */
  datatype DiskEffect<K, V> = Untouched | Erased | Written(lines: seq<string>)

  /** The ids of a map in some iteration order. */
  method KeysInSomeOrder<K(==), V>(m: map<K, V>) returns (order: seq<K>)
    ensures Enumerates(order, m.Keys)
  {
    order := [];
    var rest := m.Keys;
    while rest != {}
      invariant rest <= m.Keys
      invariant forall i :: 0 <= i < |order| ==> order[i] in m.Keys - rest
      invariant forall id :: id in m.Keys - rest ==> id in order
      invariant forall i, j :: 0 <= i < j < |order| ==> order[i] != order[j]
      decreases |rest|
    {
      var id :| id in rest;
      order := order + [id];
      rest := rest - {id};
    }
  }

  class FileStorage<K(==), V(==)> {
    const base: BaseStorage<K, V>
    const ids: Codec<K>
    const values: Codec<V>
    /** The modification time of the file at our last read or write. */
    var timestamp: int

    constructor (monoid: Monoid<V>, ids: Codec<K>, values: Codec<V>)
      ensures fresh(base) && base.monoid == monoid && base.valueById == map[] && !base.initialized
      ensures this.ids == ids && this.values == values && timestamp == 0
    {
      base := new BaseStorage(monoid);
      this.ids := ids;
      this.values := values;
      timestamp := 0;
    }

    /** The line parser of this storage. */
    function LineParser(): string -> Result<(K, V), StorageError>
    {
      (l: string) => ParseLine(ids, values, base.monoid.neutral, l)
    }

    /**
     * What `readFromDisk` hands to its handler: nothing when the remembered
     * timestamp is not older than the file, else the parsed file or the
     * exception parsing raised.
     */
    function ReadFromDisk(file: StoredFile): (r: Result<Option<map<K, V>>, StorageError>)
      reads this
      ensures timestamp >= file.mtime ==> r == Ok(None)
      ensures timestamp < file.mtime ==> r.Ok? ==> r.value.Some? && NoNeutral(r.value.value, base.monoid.neutral)
    {
      if timestamp >= file.mtime then Ok(None)
      else match ParseFile(LineParser(), file.lines)
        case Err(e) => Err(e)
        case Ok(m) =>
          NoNeutralParsed(file.lines[1..]);
          Ok(Some(m))
    }

    /** Every line this storage parses carries a non-neutral value. */
    lemma {:induction false} NoNeutralParsed(lines: seq<string>)
      ensures ParseBody(LineParser(), lines).Ok? ==> NoNeutral(ParseBody(LineParser(), lines).value, base.monoid.neutral)
      decreases |lines|
    {
      if |lines| > 0 {
        NoNeutralParsed(lines[1..]);
      }
    }

    /** What `readFromDisk` hands over for the file, or nothing when there is none. */
    function Handed(file: Option<StoredFile>): Result<Option<map<K, V>>, StorageError>
      reads this
    {
      if file.Some? then ReadFromDisk(file.value) else Ok(None)
    }

    /**
     * BaseStorage's `init()` with this file: the timestamp moves to the
     * file's once the handed map has been taken.
     */
    method Init(file: Option<StoredFile>) returns (r: Outcome<StorageError>)
      modifies this, base
      ensures old(base.initialized) ==> r == Fail(AlreadyInitialized) && base.valueById == old(base.valueById) && timestamp == old(timestamp)
      ensures !old(base.initialized) && old(Handed(file)).Err? ==>
        r == Fail(old(Handed(file)).error) && !base.initialized && base.valueById == old(base.valueById) && timestamp == old(timestamp)
      ensures !old(base.initialized) && old(Handed(file)) == Ok(None) ==>
        r == Pass && base.initialized && base.valueById == old(base.valueById) && timestamp == old(timestamp)
      ensures !old(base.initialized) && old(Handed(file)).Ok? && old(Handed(file)).value.Some? ==>
        r == Pass && base.initialized && base.valueById == old(base.valueById) + old(Handed(file)).value.value
        && timestamp == file.value.mtime
    {
      var read := Handed(file);
      r := base.Init(file.Some?, read);
      if r.Pass? && read.Ok? && read.value.Some? {
        timestamp := file.value.mtime;
      }
    }

    /**
     * `refresh()`, BaseStorage's `syncWithDisk()` with this file: the
     * timestamp moves once the merge has taken the handed map, even when
     * the neutral check after it fails.
     */
    method Refresh(file: Option<StoredFile>) returns (r: Outcome<StorageError>)
      modifies this, base
      ensures base.initialized == old(base.initialized)
      ensures file.None? ==> r == Pass && base.valueById == old(base.valueById) && timestamp == old(timestamp)
      ensures file.Some? ==> var read := old(ReadFromDisk(file.value));
        && (read.Err? ==> r == Fail(read.error) && base.valueById == old(base.valueById) && timestamp == old(timestamp))
        && (read == Ok(None) ==> base.valueById == old(base.valueById) && timestamp == old(timestamp))
        && (read.Ok? && read.value.Some? ==>
              base.valueById == Merged(base.monoid, old(base.valueById), read.value.value) && timestamp == file.value.mtime)
        && (read.Ok? ==> (r == Pass <==> NoNeutral(base.valueById, base.monoid.neutral)))
    {
      var read := if file.Some? then ReadFromDisk(file.value) else Ok(None);
      r := base.SyncWithDisk(file.Some?, read);
      if file.Some? && read.Ok? && read.value.Some? {
        timestamp := file.value.mtime;
      }
    }

    /**
     * `writeToDisk(valueById)`: the header, then one line per entry in
     * iteration order; a neutral value stops it before anything is
     * written. The file's new modification time `newMtime` must differ
     * from the remembered one, and becomes it.
     */
    method WriteToDisk(m: map<K, V>, order: seq<K>, newMtime: int) returns (written: Option<seq<string>>, r: Outcome<StorageError>)
      requires Enumerates(order, m.Keys)
      modifies this
      ensures written.Some? <==> NoNeutral(m, base.monoid.neutral)
      ensures written.Some? ==> written.value == [Header()] + RenderBody(ids, values, m, order)
      ensures written.None? ==> r == Fail(Excessive) && timestamp == old(timestamp)
      ensures written.Some? && newMtime == old(timestamp) ==> r == Fail(TimestampUnchanged) && timestamp == old(timestamp)
      ensures written.Some? && newMtime != old(timestamp) ==> r == Pass && timestamp == newMtime
    {
      var lines := [Header()];
      var i := 0;
      while i < |order|
        invariant 0 <= i <= |order|
        invariant forall j :: 0 <= j < i ==> m[order[j]] != base.monoid.neutral
        invariant lines == [Header()] + RenderBody(ids, values, m, order[..i])
        invariant timestamp == old(timestamp)
      {
        var id := order[i];
        if base.IsNeutral(m[id]) {
          return None, Fail(Excessive);
        }
        assert order[..i + 1] == order[..i] + [id];
        RenderBodySnoc(m, order[..i], id);
        lines := lines + [RenderLine(ids, values, id, m[id])];
        i := i + 1;
      }
      assert order[..i] == order;
      written := Some(lines);
      if newMtime == timestamp {
        return written, Fail(TimestampUnchanged);
      }
      timestamp := newMtime;
      r := Pass;
    }

    /** One more id renders one more line at the end. */
    lemma {:induction false} RenderBodySnoc(m: map<K, V>, order: seq<K>, id: K)
      requires forall i :: 0 <= i < |order| ==> order[i] in m
      requires id in m
      ensures RenderBody(ids, values, m, order + [id]) == RenderBody(ids, values, m, order) + [RenderLine(ids, values, id, m[id])]
      decreases |order|
    {
      if |order| > 0 {
        assert (order + [id])[1..] == order[1..] + [id];
        RenderBodySnoc(m, order[1..], id);
      }
    }

    /** The map `syncWithDisk()` leaves: the handed map merged into ours, when one is handed. */
    function SyncedMap(file: Option<StoredFile>): map<K, V>
      reads this, base
    {
      if Handed(file).Ok? && Handed(file).value.Some? then Merged(base.monoid, base.valueById, Handed(file).value.value)
      else base.valueById
    }

    /** The timestamp `syncWithDisk()` leaves: the file's, when a map is handed. */
    function SyncedStamp(file: Option<StoredFile>): int
      reads this
    {
      if Handed(file).Ok? && Handed(file).value.Some? then file.value.mtime else timestamp
    }

    /**
     * Whether `syncWithDisk()` gets through: there is no file, or it reads
     * and the merge leaves no neutral value.
     */
    predicate SyncPasses(file: Option<StoredFile>)
      reads this, base
    {
      file.None? || (Handed(file).Ok? && NoNeutral(SyncedMap(file), base.monoid.neutral))
    }

    /**
     * The debounced `persist()`, run at once: `syncWithDisk()`, then the
     * no-argument `writeToDisk()`. A failed sync stops it with the map and
     * timestamp the sync left; otherwise a neutral value (possible only
     * when there is no file, as the sync then checks nothing) stops it, an
     * empty map erases an existing file (the timestamp stays), and a
     * non-empty one is written out, the timestamp moving to `newMtime`
     * unless that equals the current one.
     */
    method Persist(file: Option<StoredFile>, newMtime: int) returns (effect: DiskEffect<K, V>, r: Outcome<StorageError>)
      modifies this, base
      ensures base.initialized == old(base.initialized)
      ensures base.valueById == old(SyncedMap(file))
      ensures !old(SyncPasses(file)) ==> r.Fail? && effect == Untouched && timestamp == old(SyncedStamp(file))
      ensures old(SyncPasses(file)) && file.Some? ==> NoNeutral(base.valueById, base.monoid.neutral)
      ensures old(SyncPasses(file)) && !NoNeutral(base.valueById, base.monoid.neutral) ==>
        r == Fail(Excessive) && effect == Untouched && timestamp == old(SyncedStamp(file))
      ensures old(SyncPasses(file)) && NoNeutral(base.valueById, base.monoid.neutral) && |base.valueById| == 0 ==>
        r == Pass && timestamp == old(SyncedStamp(file)) && effect == (if file.Some? then Erased else Untouched)
      ensures old(SyncPasses(file)) && NoNeutral(base.valueById, base.monoid.neutral) && |base.valueById| > 0 ==>
        && effect.Written?
        && (exists order :: Enumerates(order, base.valueById.Keys)
              && effect.lines == [Header()] + RenderBody(ids, values, base.valueById, order))
        && (newMtime != old(SyncedStamp(file)) ==> r == Pass && timestamp == newMtime)
        && (newMtime == old(SyncedStamp(file)) ==> r == Fail(TimestampUnchanged) && timestamp == old(SyncedStamp(file)))
    {
      ghost var synced, stamp := SyncedMap(file), SyncedStamp(file);
      ghost var passes := SyncPasses(file);
      r := Refresh(file);
      assert base.valueById == synced && timestamp == stamp && (r.Pass? <==> passes);
      if r.Fail? {
        return Untouched, r;
      }
      effect, r := WriteOut(file.Some?, newMtime);
    }

    /**
     * BaseStorage's no-argument `writeToDisk()`: a neutral value stops it,
     * an empty map erases an existing file, a non-empty one is rendered in
     * some order of its keys and written.
     */
    method WriteOut(present: bool, newMtime: int) returns (effect: DiskEffect<K, V>, r: Outcome<StorageError>)
      modifies this
      ensures !NoNeutral(base.valueById, base.monoid.neutral) ==>
        r == Fail(Excessive) && effect == Untouched && timestamp == old(timestamp)
      ensures NoNeutral(base.valueById, base.monoid.neutral) && |base.valueById| == 0 ==>
        r == Pass && timestamp == old(timestamp) && effect == (if present then Erased else Untouched)
      ensures NoNeutral(base.valueById, base.monoid.neutral) && |base.valueById| > 0 ==>
        && effect.Written?
        && (exists order :: Enumerates(order, base.valueById.Keys)
              && effect.lines == [Header()] + RenderBody(ids, values, base.valueById, order))
        && (newMtime != old(timestamp) ==> r == Pass && timestamp == newMtime)
        && (newMtime == old(timestamp) ==> r == Fail(TimestampUnchanged) && timestamp == old(timestamp))
    {
      var plan := BaseWriteAction(base.valueById, base.monoid.neutral, present);
      match plan {
        case Reject(e) =>
          effect, r := Untouched, Fail(e);
        case Erase =>
          effect, r := Erased, Pass;
        case Nothing =>
          effect, r := Untouched, Pass;
        case Snapshot(m) =>
          var order := KeysInSomeOrder(m);
          var written;
          written, r := WriteToDisk(m, order, newMtime);
          effect := if written.Some? then Written(written.value) else Untouched;
      }
    }
  }
}
