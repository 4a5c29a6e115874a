/**
 * data/folders/FoldersRepo.kt: the registry of ark roots and, per root, its
 * favourite folders (paths relative to the root). The registry is loaded
 * once from the device by `query`, which drops roots that are missing and
 * favourites that do not resolve to an existing folder, and is then kept in
 * memory and edited in place. Reading and writing the JSON files is not
 * modelled: what they hold is part of the `Device` a call sees.
 */
module FoldersRepos {
  import opened Wrappers
  import opened Paths
  import opened FileUtils

  /**
   * `Folders = Map<Path, List<Path>>`, a `LinkedHashMap`: the roots in
   * insertion order and the favourites of each.
   */
  datatype Folders = Folders(roots: seq<Path>, favorites: map<Path, seq<Path>>)

  /** The roots are the keys, each listed once. */
  ghost predicate WellFormed(f: Folders)
  {
    (forall i, j :: 0 <= i < j < |f.roots| ==> f.roots[i] != f.roots[j])
    && (forall r :: r in f.favorites <==> r in f.roots)
  }

  const NoFolders: Folders := Folders([], map[])

  /** `folders[root] = favorites`: a known root keeps its place, a new one goes last. */
  function Put(f: Folders, root: Path, favorites: seq<Path>): (g: Folders)
    requires WellFormed(f)
    ensures WellFormed(g)
    ensures g.favorites == f.favorites[root := favorites]
    ensures root in f.favorites ==> g.roots == f.roots
    ensures root !in f.favorites ==> g.roots == f.roots + [root]
  {
    if root in f.favorites then Folders(f.roots, f.favorites[root := favorites])
    else Folders(f.roots + [root], f.favorites[root := favorites])
  }

  /** `s` without `x`, the others in their order. */
  function Without(s: seq<Path>, x: Path): (r: seq<Path>)
    ensures forall y :: y in r <==> y in s && y != x
    ensures |r| <= |s|
    ensures (forall i, j :: 0 <= i < j < |s| ==> s[i] != s[j]) ==> (forall i, j :: 0 <= i < j < |r| ==> r[i] != r[j])
  {
    if |s| == 0 then []
    else
      assert (forall i, j :: 0 <= i < j < |s| ==> s[i] != s[j]) ==>
        && (forall i, j :: 0 <= i < j < |s[1..]| ==> s[1..][i] != s[1..][j])
        && s[0] !in s[1..];
      if s[0] == x then Without(s[1..], x)
      else [s[0]] + Without(s[1..], x)
  }

  /** `folders.remove(root)`: the other roots keep their favourites and their order. */
  function RemoveRoot(f: Folders, root: Path): (g: Folders)
    requires WellFormed(f)
    ensures WellFormed(g)
    ensures g.favorites == f.favorites - {root}
    ensures g.roots == Without(f.roots, root)
  {
    Folders(Without(f.roots, root), f.favorites - {root})
  }

  /** `list.minus(x)`: the list without the first occurrence of `x`. */
  function MinusFirst(s: seq<Path>, x: Path): (r: seq<Path>)
    ensures x !in s ==> r == s
    ensures x in s ==> |r| == |s| - 1 && multiset(r) == multiset(s) - multiset{x}
  {
    if |s| == 0 then []
    else
      assert s == [s[0]] + s[1..];
      if s[0] == x then s[1..]
      else [s[0]] + MinusFirst(s[1..], x)
  }

  /** `folders.keys.find { path.startsWith(it) }`: the first root, in order, above the path. */
  function FirstPrefix(roots: seq<Path>, path: Path): (r: Option<Path>)
    ensures r.Some? ==> r.value in roots && StartsWith(path, r.value)
    ensures r.Some? ==> exists i :: 0 <= i < |roots| && roots[i] == r.value
                                    && forall j :: 0 <= j < i ==> !StartsWith(path, roots[j])
    ensures r.None? <==> forall root :: root in roots ==> !StartsWith(path, root)
  {
    if |roots| == 0 then None
    else if StartsWith(path, roots[0]) then Some(roots[0])
    else
      var rest := FirstPrefix(roots[1..], path);
      assert forall j :: 1 <= j < |roots| ==> roots[j] == roots[1..][j - 1];
      rest
  }

  /** A path under a newly registered root finds a root. */
  lemma PutFindsRoot(f: Folders, root: Path, favorites: seq<Path>, path: Path)
    requires WellFormed(f) && StartsWith(path, root)
    ensures FirstPrefix(Put(f, root, favorites).roots, path).Some?
  {
    assert root in Put(f, root, favorites).roots;
  }

  /** After a root is forgotten it is never found again. */
  lemma RemovedRootNotFound(f: Folders, root: Path, path: Path)
    requires WellFormed(f)
    ensures FirstPrefix(RemoveRoot(f, root).roots, path) != Some(root)
  {
  }

  // ------------------------------------------------------------ the device

  /**
   * What the device holds when a call runs: the roots listed in the global
   * roots file (empty when it is missing or unreadable), the paths that
   * exist, the favourites file of each root, and the name of the ark folder.
   */
  datatype Device = Device(storedRoots: seq<Path>, present: set<Path>,
                           storedFavorites: Path -> seq<Path>, arkFolder: string)

  datatype FoldersError =
    | ArkFolderMissing   // require(arkFolder.exists()) { "Ark folder must exist" }
    | Uninitialized      // `folders` read before it was loaded
    | DifferentPathType  // `root.relativize(favorite)` of an absolute and a relative path

  /** `root.arkFolder()`. */
  function ArkFolderOf(dev: Device, root: Path): Path
  {
    Child(root, dev.arkFolder)
  }

  /** `readFavorites(root)`: refused without the root's ark folder. */
  function ReadFavorites(dev: Device, root: Path): (r: Result<seq<Path>, FoldersError>)
    ensures r.Ok? <==> ArkFolderOf(dev, root) in dev.present
    ensures r.Ok? ==> r.value == dev.storedFavorites(root)
    ensures r.Err? ==> r.error == ArkFolderMissing
  {
    if ArkFolderOf(dev, root) in dev.present then Ok(dev.storedFavorites(root)) else Err(ArkFolderMissing)
  }

  /**
   * `checkFavorites(root, favorites)`: the favourites whose folder exists,
   * and the resolved paths of the others; together they account for every
   * favourite once.
   */
  function CheckFavorites(root: Path, favorites: seq<Path>, present: set<Path>): (r: PartialResult<seq<Path>, seq<Path>>)
    ensures |r.succeeded| + |r.failed| == |favorites|
    ensures forall f :: f in r.succeeded <==> f in favorites && Resolve(root, f) in present
    ensures forall p :: p in r.failed <==> exists f :: f in favorites && Resolve(root, f) !in present && p == Resolve(root, f)
  {
    if |favorites| == 0 then PartialResult([], [])
    else
      var n := |favorites| - 1;
      var front := CheckFavorites(root, favorites[..n], present);
      assert favorites == favorites[..n] + [favorites[n]];
      var f := favorites[n];
      if Resolve(root, f) in present then PartialResult(front.succeeded + [f], front.failed)
      else PartialResult(front.succeeded, front.failed + [Resolve(root, f)])
  }

  /**
   * The `mapNotNull` pass of `query`: a missing root is reported and
   * dropped; with `checkArk`, so is a root whose ark folder is missing,
   * reporting the ark folder.
   */
  function Accept(dev: Device, roots: seq<Path>, checkArk: bool): (r: (seq<Path>, seq<Path>))
    ensures |r.0| + |r.1| == |roots|
    ensures forall x :: x in r.0 <==> x in roots && x in dev.present && (checkArk ==> ArkFolderOf(dev, x) in dev.present)
    ensures !checkArk ==> forall p :: p in r.1 <==> p in roots && p !in dev.present
    ensures checkArk ==> forall p :: p in r.1 <==> exists x :: x in roots && Reported(dev, x, p)
  {
    if |roots| == 0 then ([], [])
    else
      var n := |roots| - 1;
      var front := Accept(dev, roots[..n], checkArk);
      assert roots == roots[..n] + [roots[n]];
      var x := roots[n];
      if x !in dev.present then
        assert Reported(dev, x, x);
        (front.0, front.1 + [x])
      else if checkArk && ArkFolderOf(dev, x) !in dev.present then
        assert Reported(dev, x, ArkFolderOf(dev, x));
        (front.0, front.1 + [ArkFolderOf(dev, x)])
      else
        assert checkArk ==> forall p :: !Reported(dev, x, p);
        (front.0 + [x], front.1)
  }

  /** The path reported for a dropped root: the root itself, or its missing ark folder. */
  predicate Reported(dev: Device, root: Path, p: Path)
  {
    (root !in dev.present && p == root)
    || (root in dev.present && ArkFolderOf(dev, root) !in dev.present && p == ArkFolderOf(dev, root))
  }

  /**
   * The `associateWith` pass of `query`: each accepted root gets its valid
   * favourites, and the missing ones are reported after what is already
   * reported. `readFavorites` fails for a root without its ark folder.
   */
  function Gather(dev: Device, roots: seq<Path>, acc: Folders, missing: seq<Path>)
    : (r: Result<PartialResult<Folders, seq<Path>>, FoldersError>)
    requires WellFormed(acc)
    ensures r.Err? <==> exists x :: x in roots && ArkFolderOf(dev, x) !in dev.present
    ensures r.Err? ==> r.error == ArkFolderMissing
    ensures r.Ok? ==> WellFormed(r.value.succeeded)
    ensures r.Ok? ==> forall x :: x in r.value.succeeded.favorites <==> x in acc.favorites || x in roots
    ensures r.Ok? ==> forall x :: x in roots ==>
      r.value.succeeded.favorites[x] == CheckFavorites(x, dev.storedFavorites(x), dev.present).succeeded
    ensures r.Ok? ==> forall x :: x in acc.favorites && x !in roots ==> r.value.succeeded.favorites[x] == acc.favorites[x]
    ensures r.Ok? ==> forall p :: p in r.value.failed <==>
      p in missing || exists x :: x in roots && p in CheckFavorites(x, dev.storedFavorites(x), dev.present).failed
    decreases |roots|
  {
    if |roots| == 0 then Ok(PartialResult(acc, missing))
    else
      var root := roots[0];
      assert forall x :: x in roots <==> x == root || x in roots[1..];
      match ReadFavorites(dev, root)
      case Err(e) => Err(e)
      case Ok(favorites) =>
        var checked := CheckFavorites(root, favorites, dev.present);
        Gather(dev, roots[1..], Put(acc, root, checked.succeeded), missing + checked.failed)
  }

  /** `query()` checking the ark folder when the flag says so: the accepted roots, then their favourites. */
  function QueryWith(dev: Device, checkArk: bool): (r: Result<PartialResult<Folders, seq<Path>>, FoldersError>)
  {
    var accepted := Accept(dev, dev.storedRoots, checkArk);
    Gather(dev, accepted.0, NoFolders, accepted.1)
  }

  /**
   * `query()` as written: its second check looks at the root again instead of the
   * ark folder, so a root whose ark folder is missing is accepted and
   * `readFavorites` then fails for it.
   */
  function QueryAsWritten(dev: Device): (r: Result<PartialResult<Folders, seq<Path>>, FoldersError>)
    ensures r.Err? <==> exists x :: x in dev.storedRoots && x in dev.present && ArkFolderOf(dev, x) !in dev.present
  {
    var accepted := Accept(dev, dev.storedRoots, false);
    assert forall x :: x in accepted.0 <==> x in dev.storedRoots && x in dev.present;
    QueryWith(dev, false)
  }

  /**
   * `query()` checking the ark folder, as its report of the ark folder
   * intends: it always completes; it keeps exactly the stored roots that
   * exist with their ark folder, each with its existing favourites, and
   * reports every dropped root or ark folder and every missing favourite.
   */
  function Query(dev: Device): (r: PartialResult<Folders, seq<Path>>)
    ensures WellFormed(r.succeeded)
    ensures forall x :: x in r.succeeded.favorites <==>
      x in dev.storedRoots && x in dev.present && ArkFolderOf(dev, x) in dev.present
    ensures forall x :: x in r.succeeded.favorites ==>
      r.succeeded.favorites[x] == CheckFavorites(x, dev.storedFavorites(x), dev.present).succeeded
    ensures forall p :: p in r.failed <==>
      (exists x :: x in dev.storedRoots && Reported(dev, x, p))
      || (exists x :: x in r.succeeded.favorites && p in CheckFavorites(x, dev.storedFavorites(x), dev.present).failed)
  {
    var accepted := Accept(dev, dev.storedRoots, true);
    var q := QueryWith(dev, true);
    assert q.Ok?;
    q.value
  }

  /**
   * A stored root that exists without its ark folder: the query as written
   * fails, while the intended one drops the root and reports its ark folder.
   */
  lemma ArkFolderSkipped(dev: Device, root: Path)
    requires root in dev.storedRoots && root in dev.present && ArkFolderOf(dev, root) !in dev.present
    ensures QueryAsWritten(dev) == Err(ArkFolderMissing)
    ensures root !in Query(dev).succeeded.favorites
    ensures ArkFolderOf(dev, root) in Query(dev).failed
  {
    assert Reported(dev, root, ArkFolderOf(dev, root));
  }

  /** `RootAndFav(root, fav)`; its declaration is not part of this model: all roots when `root` is null. */
  datatype RootAndFav = RootAndFav(root: Option<Path>, fav: Option<Path>)

  predicate IsAllRoots(sel: RootAndFav)
  {
    sel.root.None?
  }

  class FoldersRepo {
    /** `folders`, meaningful once `initialized` (the `lateinit` property is set). */
    var folders: Folders
    var initialized: bool

    ghost predicate Valid()
      reads this
    {
      WellFormed(folders)
    }

    constructor ()
      ensures Valid() && !initialized && folders == NoFolders
    {
      folders := NoFolders;
      initialized := false;
    }

    /**
     * `provideWithMissing()`: once loaded, the folders with nothing
     * reported; the first call loads them with `query`.
     */
    method ProvideWithMissing(dev: Device) returns (r: PartialResult<Folders, seq<Path>>)
      requires Valid()
      modifies this
      ensures Valid() && initialized
      ensures old(initialized) ==> r == PartialResult(old(folders), []) && folders == old(folders)
      ensures !old(initialized) ==> r == Query(dev) && folders == r.succeeded
    {
      if initialized {
        return PartialResult(folders, []);
      }
      r := Query(dev);
      folders := r.succeeded;
      initialized := true;
    }

    /** `provideFolders()`: the folders part of `provideWithMissing()`. */
    method ProvideFolders(dev: Device) returns (f: Folders)
      requires Valid()
      modifies this
      ensures Valid() && initialized && f == folders
      ensures old(initialized) ==> folders == old(folders)
      ensures !old(initialized) ==> folders == Query(dev).succeeded
    {
      var r := ProvideWithMissing(dev);
      f := r.succeeded;
    }

    /** `resolveRoots(rootAndFav)`: the selected root alone, or every root in order. */
    method ResolveRoots(sel: RootAndFav, dev: Device) returns (roots: seq<Path>)
      requires Valid()
      modifies this
      ensures Valid()
      ensures !IsAllRoots(sel) ==> roots == [sel.root.value] && folders == old(folders) && initialized == old(initialized)
      ensures IsAllRoots(sel) ==> initialized && roots == folders.roots
      ensures IsAllRoots(sel) && old(initialized) ==> folders == old(folders)
      ensures IsAllRoots(sel) && !old(initialized) ==> folders == Query(dev).succeeded
    {
      if !IsAllRoots(sel) {
        return [sel.root.value];
      }
      var f := ProvideFolders(dev);
      roots := f.roots;
    }

    /** `findRootByPath(path)`: the first registered root above the path. */
    function FindRootByPath(path: Path): (r: Result<Option<Path>, FoldersError>)
      reads this
      ensures !initialized ==> r == Err(Uninitialized)
      ensures initialized ==> r.Ok?
      ensures r.Ok? && r.value.Some? ==> r.value.value in folders.favorites || r.value.value in folders.roots
      ensures r.Ok? && r.value.Some? ==> StartsWith(path, r.value.value)
      ensures r.Ok? && r.value.None? ==> forall root :: root in folders.roots ==> !StartsWith(path, root)
    {
      if !initialized then Err(Uninitialized) else Ok(FirstPrefix(folders.roots, path))
    }

    /**
     * `addRoot(root)`: creates the root's ark folder, loads the folders if
     * needed (seeing the new folder), and registers the root with its stored
     * favourites. The device after the call is returned.
     */
    method AddRoot(root: Path, dev: Device) returns (after: Device)
      requires Valid()
      modifies this
      ensures after == dev.(present := dev.present + {root, ArkFolderOf(dev, root)})
      ensures Valid() && initialized
      ensures old(initialized) ==> folders == Put(old(folders), root, dev.storedFavorites(root))
      ensures !old(initialized) ==> folders == Put(Query(after).succeeded, root, dev.storedFavorites(root))
    {
      after := dev.(present := dev.present + {root, ArkFolderOf(dev, root)});
      var f := ProvideFolders(after);
      var favorites := ReadFavorites(after, root);
      folders := Put(f, root, favorites.value);
    }

    /**
     * `addFavorite(root, fav)`: appends the favourite to the root's list, or
     * registers the root with it alone. Writing the favourites file then
     * fails without the root's ark folder, after the change is made.
     */
    method AddFavorite(root: Path, fav: Path, dev: Device) returns (r: Result<(), FoldersError>)
      requires Valid()
      modifies this
      ensures Valid() && initialized
      ensures var f := if old(initialized) then old(folders) else Query(dev).succeeded;
        folders == Put(f, root, if root in f.favorites then f.favorites[root] + [fav] else [fav])
      ensures r.Err? <==> ArkFolderOf(dev, root) !in dev.present
      ensures r.Err? ==> r.error == ArkFolderMissing
    {
      var f := ProvideFolders(dev);
      var favorites := if root in f.favorites then f.favorites[root] + [fav] else [fav];
      folders := Put(f, root, favorites);
      r := if ArkFolderOf(dev, root) in dev.present then Ok(()) else Err(ArkFolderMissing);
    }

    /** `forgetRoot(root)`: drops a registered root; anything else is left as it is. */
    method ForgetRoot(root: Path) returns (r: Result<(), FoldersError>)
      requires Valid()
      modifies this
      ensures Valid() && initialized == old(initialized)
      ensures !initialized ==> r == Err(Uninitialized) && folders == old(folders)
      ensures initialized ==> r.Ok? && folders == (if root in old(folders).favorites then RemoveRoot(old(folders), root) else old(folders))
    {
      if !initialized {
        return Err(Uninitialized);
      }
      if root in folders.favorites {
        folders := RemoveRoot(folders, root);
      }
      r := Ok(());
    }

    /**
     * `forgetFavorite(root, favorite)`: for a registered root whose list
     * holds `root.relativize(favorite)`, the first occurrence of it is
     * removed, and the favourites file is written (which fails without the
     * ark folder, after the change). Anything else is left as it is.
     */
    method ForgetFavorite(root: Path, favorite: Path, dev: Device) returns (r: Result<(), FoldersError>)
      requires Valid()
      modifies this
      ensures Valid() && initialized == old(initialized)
      ensures !initialized ==> r == Err(Uninitialized) && folders == old(folders)
      ensures initialized && root !in old(folders).favorites ==> r.Ok? && folders == old(folders)
      ensures initialized && root in old(folders).favorites && Relativize(root, favorite).None? ==>
        r == Err(DifferentPathType) && folders == old(folders)
      ensures initialized && root in old(folders).favorites && Relativize(root, favorite).Some? ==>
        var rel := Relativize(root, favorite).value;
        var favorites := old(folders).favorites[root];
        if rel in favorites then
          folders == Put(old(folders), root, MinusFirst(favorites, rel))
          && (r.Err? <==> ArkFolderOf(dev, root) !in dev.present)
        else
          r.Ok? && folders == old(folders)
    {
      if !initialized {
        return Err(Uninitialized);
      }
      if root !in folders.favorites {
        return Ok(());
      }
      var rel := Relativize(root, favorite);
      if rel.None? {
        return Err(DifferentPathType);
      }
      var favorites := folders.favorites[root];
      if rel.value in favorites {
        folders := Put(folders, root, MinusFirst(favorites, rel.value));
        r := if ArkFolderOf(dev, root) in dev.present then Ok(()) else Err(ArkFolderMissing);
      } else {
        r := Ok(());
      }
    }
  }
}
