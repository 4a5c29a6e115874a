/**
 * `java.nio.file.Path` as a value: whether it is absolute and its name
 * elements. Paths are compared element by element, as `Path.startsWith`
 * and `Path.equals` do; no normalisation is applied.
 */
module Paths {
  import opened Wrappers

  datatype Path = Path(absolute: bool, names: seq<string>)

  /** `p.startsWith(prefix)`: same kind of path and the prefix's elements lead `p`'s. */
  predicate StartsWith(p: Path, prefix: Path)
  {
    p.absolute == prefix.absolute && prefix.names <= p.names
  }

  /** `base.resolve(other)`: an absolute `other` replaces `base`, a relative one is appended. */
  function Resolve(base: Path, other: Path): (r: Path)
    ensures !other.absolute ==> StartsWith(r, base)
    ensures other.absolute ==> r == other
  {
    if other.absolute then other else Path(base.absolute, base.names + other.names)
  }

  /** `base.resolve(name)` for a single file name. */
  function Child(base: Path, name: string): (r: Path)
    ensures StartsWith(r, base) && |r.names| == |base.names| + 1
  {
    Resolve(base, Path(false, [name]))
  }

  function CommonPrefixLength(a: seq<string>, b: seq<string>): (k: nat)
    ensures k <= |a| && k <= |b| && a[..k] == b[..k]
    ensures k < |a| && k < |b| ==> a[k] != b[k]
    decreases |a|
  {
    if |a| == 0 || |b| == 0 || a[0] != b[0] then 0
    else
      var k := CommonPrefixLength(a[1..], b[1..]);
      assert a[..k + 1] == [a[0]] + a[1..][..k];
      assert b[..k + 1] == [b[0]] + b[1..][..k];
      k + 1
  }

  function Ups(n: nat): (r: seq<string>)
    ensures |r| == n
    ensures forall i :: 0 <= i < n ==> r[i] == ".."
  {
    if n == 0 then [] else [".."] + Ups(n - 1)
  }

  /**
   * `base.relativize(p)`: `None` (an IllegalArgumentException) when only one
   * of them is absolute; otherwise one ".." per element of `base` past the
   * common prefix, followed by the rest of `p`.
   */
  function Relativize(base: Path, p: Path): (r: Option<Path>)
    ensures r.Some? <==> base.absolute == p.absolute
    ensures r.Some? ==> !r.value.absolute
  {
    if base.absolute != p.absolute then None
    else
      var k := CommonPrefixLength(base.names, p.names);
      Some(Path(false, Ups(|base.names| - k) + p.names[k..]))
  }

  /** Relativizing a path under `base` and resolving it again gives the path back. */
  lemma RelativizeResolve(base: Path, p: Path)
    requires StartsWith(p, base)
    ensures Relativize(base, p).Some?
    ensures Resolve(base, Relativize(base, p).value) == p
  {
    var k := CommonPrefixLength(base.names, p.names);
    assert Ups(0) == [];
    assert base.names + p.names[k..] == p.names;
  }

  /** The last name element, `null` for a path without names (such as the root). */
  function FileName(p: Path): (r: Option<string>)
    ensures r.Some? <==> |p.names| > 0
    ensures r.Some? ==> r.value == p.names[|p.names| - 1]
  {
    if |p.names| == 0 then None else Some(p.names[|p.names| - 1])
  }
}
