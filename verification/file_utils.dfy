/** FileUtils.kt: file extensions, partial results and directory listings. */
module FileUtils {
  import opened Wrappers
  import opened Strings
  import opened Paths

  /** `PartialResult(succeeded, failed)`. */
  datatype PartialResult<S, F> = PartialResult(succeeded: S, failed: F)

  /**
   * `extension(path)`: `path.extension` (the text of the file name after its
   * last '.', or "" without a dot or a file name), lower-cased.
   */
  function Extension(p: Path): (ext: string)
    ensures '.' !in ext
    ensures forall i :: 0 <= i < |ext| ==> !('A' <= ext[i] <= 'Z')
  {
    var raw := match FileName(p) case None => "" case Some(name) => SubstringAfterLast(name, '.', "");
    LowerAscii(raw)
  }

  /** A file name without a dot has the empty extension. */
  lemma ExtensionWithoutDot(p: Path)
    requires |p.names| > 0 && '.' !in p.names[|p.names| - 1]
    ensures Extension(p) == ""
  {
  }

  /** The extension is the lower-cased final segment: `name == stem + "." + ext` for some stem. */
  lemma ExtensionIsLastSegment(p: Path)
    requires |p.names| > 0 && '.' in p.names[|p.names| - 1]
    ensures exists stem: string, raw: string ::
      p.names[|p.names| - 1] == stem + "." + raw && '.' !in raw && Extension(p) == LowerAscii(raw)
  {
    var name := p.names[|p.names| - 1];
    var raw := SubstringAfterLast(name, '.', "");
    var i :| 0 <= i < |name| && name == name[..i] + ['.'] + raw;
    assert name == name[..i] + "." + raw;
  }

  /** `extension(Path("fileWithoutExtension")) == ""`. */
  lemma ExtensionExampleNoDot()
    ensures Extension(Path(false, ["fileWithoutExtension"])) == ""
  {
    var name := "fileWithoutExtension";
    assert forall i :: 0 <= i < |name| ==> name[i] != '.';
    ExtensionWithoutDot(Path(false, [name]));
  }

  lemma LowerAsciiExamples()
    ensures LowerAscii("JPG") == "jpg" && LowerAscii("txt") == "txt" && LowerAscii("PnG") == "png"
  {
    var r := LowerAscii("JPG");
    assert r[0] == 'j' && r[1] == 'p' && r[2] == 'g';
    r := LowerAscii("txt");
    assert r[0] == 't' && r[1] == 'x' && r[2] == 't';
    r := LowerAscii("PnG");
    assert r[0] == 'p' && r[1] == 'n' && r[2] == 'g';
  }

  /** `.JPG` comes out as `jpg`, whatever the stem. */
  lemma ExtensionExampleUpperCase(stem: string)
    ensures Extension(Path(false, [stem + ".JPG"])) == "jpg"
  {
    assert LowerAscii("JPG") == "jpg" by { LowerAsciiExamples(); }
    assert '.' !in "JPG";
    ExtensionOf(stem, "JPG");
    assert stem + "." + "JPG" == stem + ".JPG";
  }

  /** `.txt` stays `txt`, whatever the stem. */
  lemma ExtensionExampleLowerCase(stem: string)
    ensures Extension(Path(false, [stem + ".txt"])) == "txt"
  {
    assert LowerAscii("txt") == "txt" by { LowerAsciiExamples(); }
    assert '.' !in "txt";
    ExtensionOf(stem, "txt");
    assert stem + "." + "txt" == stem + ".txt";
  }

  /** `.PnG` comes out as `png`, whatever the stem. */
  lemma ExtensionExampleMixedCase(stem: string)
    ensures Extension(Path(false, [stem + ".PnG"])) == "png"
  {
    assert LowerAscii("PnG") == "png" by { LowerAsciiExamples(); }
    assert '.' !in "PnG";
    ExtensionOf(stem, "PnG");
    assert stem + "." + "PnG" == stem + ".PnG";
  }

  /** Only the segment after the last dot counts: `file.with.multiple.dots.txt` gives `txt`. */
  lemma ExtensionExampleManyDots()
    ensures Extension(Path(false, ["file.with.multiple.dots" + ".txt"])) == "txt"
  {
    ExtensionExampleLowerCase("file.with.multiple.dots");
  }

  /** A name `stem.raw` with a dot-free `raw` has extension `lowercase(raw)`. */
  lemma ExtensionOf(stem: string, raw: string)
    requires '.' !in raw
    ensures Extension(Path(false, [stem + "." + raw])) == LowerAscii(raw)
  {
    var name := stem + "." + raw;
    LastIndexOfAfter(stem, '.', raw);
    assert name[|stem| + 1..] == raw;
  }

  /** One directory entry as `listDirectoryEntries` sees it, with `isHidden`/`isDirectory` answered. */
  datatype Entry = Entry(path: Path, hidden: bool, directory: bool)

  function Visible(entries: seq<Entry>): (r: seq<Entry>)
    ensures forall e :: e in r <==> e in entries && !e.hidden
    decreases |entries|
  {
    if |entries| == 0 then []
    else (if entries[0].hidden then [] else [entries[0]]) + Visible(entries[1..])
  }

  /**
   * `listChildren(folder)`: the non-hidden entries split into
   * (directories, files), each in listing order.
   */
  function ListChildren(entries: seq<Entry>): (r: (seq<Entry>, seq<Entry>))
    ensures forall e :: e in r.0 <==> e in entries && !e.hidden && e.directory
    ensures forall e :: e in r.1 <==> e in entries && !e.hidden && !e.directory
    ensures |r.0| + |r.1| == |Visible(entries)|
    decreases |entries|
  {
    if |entries| == 0 then ([], [])
    else
      var rest := ListChildren(entries[1..]);
      var e := entries[0];
      if e.hidden then rest
      else if e.directory then ([e] + rest.0, rest.1)
      else (rest.0, [e] + rest.1)
  }
}
