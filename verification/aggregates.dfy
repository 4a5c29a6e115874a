/**
 * The two ways the aggregate indices, storages and processors combine
 * their shards' answers: a fold of `putAll` into one map, where a later
 * shard overwrites an earlier one, and `firstNotNullOfOrNull`, where the
 * first shard that answers wins.
 */
module Aggregates {
  import opened Wrappers

  /** `maps.fold(hashMapOf()) { acc, curr -> acc.putAll(curr); acc }`. */
  function Union<K, V>(maps: seq<map<K, V>>): map<K, V>
  {
    if maps == [] then map[] else Union(maps[..|maps| - 1]) + maps[|maps| - 1]
  }

  /** A key is in the union exactly when some map has it. */
  lemma {:induction false} UnionKeys<K, V>(maps: seq<map<K, V>>, k: K)
    ensures k in Union(maps) <==> exists i :: 0 <= i < |maps| && k in maps[i]
  {
    if maps != [] {
      var init := maps[..|maps| - 1];
      UnionKeys(init, k);
      if k in Union(maps) && k !in maps[|maps| - 1] {
        var i :| 0 <= i < |init| && k in init[i];
        assert k in maps[i];
      }
      if exists i :: 0 <= i < |maps| && k in maps[i] {
        var i :| 0 <= i < |maps| && k in maps[i];
        if i < |init| {
          assert k in init[i];
        }
      }
    }
  }

  /** The union holds the value of the last map that has the key. */
  lemma {:induction false} UnionValue<K, V>(maps: seq<map<K, V>>, k: K, i: nat)
    requires i < |maps| && k in maps[i]
    requires forall j :: i < j < |maps| ==> k !in maps[j]
    ensures k in Union(maps) && Union(maps)[k] == maps[i][k]
  {
    var init := maps[..|maps| - 1];
    if i < |maps| - 1 {
      UnionValue(init, k, i);
    }
  }

  /** The first `Some` of `xs`, or `None`. */
  function FirstSome<V(==)>(xs: seq<Option<V>>): (r: Option<V>)
    ensures r.None? <==> forall i :: 0 <= i < |xs| ==> xs[i].None?
    ensures r.Some? ==> exists i :: 0 <= i < |xs| && xs[i] == r && forall j :: 0 <= j < i ==> xs[j].None?
  {
    if xs == [] then None
    else if xs[0].Some? then
      xs[0]
    else
      var r := FirstSome(xs[1..]);
      if r.Some? then
        var i :| 0 <= i < |xs[1..]| && xs[1..][i] == r && forall j :: 0 <= j < i ==> xs[1..][j].None?;
        assert xs[i + 1] == r && forall j :: 0 <= j < i + 1 ==> xs[j].None?;
        r
      else
        assert forall i :: 0 <= i < |xs| ==> xs[i].None? by {
          forall i | 0 <= i < |xs| ensures xs[i].None? {
            if i > 0 {
              assert xs[i] == xs[1..][i - 1];
            }
          }
        }
        r
  }

  /** What each map answers for `k`. */
  function Lookups<K, V>(maps: seq<map<K, V>>, k: K): (r: seq<Option<V>>)
    ensures |r| == |maps|
    ensures forall i :: 0 <= i < |maps| ==> r[i] == if k in maps[i] then Some(maps[i][k]) else None
  {
    seq(|maps|, i requires 0 <= i < |maps| => if k in maps[i] then Some(maps[i][k]) else None)
  }

  /** No key is in two of the maps. */
  ghost predicate Disjoint<K, V>(maps: seq<map<K, V>>)
  {
    forall i, j :: 0 <= i < j < |maps| ==> maps[i].Keys !! maps[j].Keys
  }

  /**
   * When the maps are disjoint, asking the maps in order and reading the
   * union agree: the first map that answers is the only one that can.
   */
  lemma FirstAnswerIsUnion<K, V>(maps: seq<map<K, V>>, k: K)
    requires Disjoint(maps)
    ensures FirstSome(Lookups(maps, k)) == if k in Union(maps) then Some(Union(maps)[k]) else None
  {
    var r := FirstSome(Lookups(maps, k));
    UnionKeys(maps, k);
    if r.Some? {
      var i :| 0 <= i < |maps| && Lookups(maps, k)[i] == r && forall j :: 0 <= j < i ==> Lookups(maps, k)[j].None?;
      UnionValue(maps, k, i);
    } else {
      assert forall i :: 0 <= i < |maps| ==> k !in maps[i] by {
        forall i | 0 <= i < |maps| ensures k !in maps[i] {
          assert Lookups(maps, k)[i].None?;
        }
      }
    }
  }

  /** The total number of entries. */
  function TotalSize<K, V>(maps: seq<map<K, V>>): nat
  {
    if maps == [] then 0 else TotalSize(maps[..|maps| - 1]) + |maps[|maps| - 1]|
  }

  /** Disjoint maps lose nothing in the union: its size is the sum of theirs. */
  lemma {:induction false} DisjointUnionSize<K, V>(maps: seq<map<K, V>>)
    requires Disjoint(maps)
    ensures |Union(maps)| == TotalSize(maps)
  {
    if maps != [] {
      var init := maps[..|maps| - 1];
      var last := maps[|maps| - 1];
      DisjointUnionSize(init);
      assert Union(init).Keys !! last.Keys by {
        forall k | k in Union(init) ensures k !in last {
          UnionKeys(init, k);
          var i :| 0 <= i < |init| && k in init[i];
          assert maps[i].Keys !! maps[|maps| - 1].Keys;
        }
      }
      assert (Union(init) + last).Keys == Union(init).Keys + last.Keys;
    }
  }

  /** `flatMap { ... }.toSet()`: the union of a sequence of sets. */
  function UnionSets<T>(sets: seq<set<T>>): set<T>
  {
    if sets == [] then {} else UnionSets(sets[1..]) + sets[0]
  }

  /** An element is in the union exactly when one of the sets has it. */
  lemma {:induction false} UnionSetsMembers<T>(sets: seq<set<T>>, x: T)
    ensures x in UnionSets(sets) <==> exists i :: 0 <= i < |sets| && x in sets[i]
  {
    if sets != [] {
      UnionSetsMembers(sets[1..], x);
      if x in UnionSets(sets[1..]) {
        var i :| 0 <= i < |sets[1..]| && x in sets[1..][i];
        assert x in sets[i + 1];
      }
      if exists i :: 0 <= i < |sets| && x in sets[i] {
        var i :| 0 <= i < |sets| && x in sets[i];
        if i > 0 {
          assert x in sets[1..][i - 1];
        }
      }
    }
  }
}
