/**
 * `Atlas.SortTextures`: ordering textures with the editor's width/height
 * comparator. The comparator is not a consistent order (see
 * `CompareNotAntisymmetric`), so the only promise made about the sort is
 * that it permutes its input. The library sort is modelled by an
 * insertion sort that uses the same comparator.
 */
module SizeSort {
  import opened UnityTypes

  /** The comparator handed to `List.Sort`: 0, -1 or 1. */
  function CompareSizes(aw: int, ah: int, bw: int, bh: int): (c: int)
    ensures c == 0 <==> aw == bw && ah == bh
    ensures c == -1 <==> (aw != bw || ah != bh) && (aw > bw || ah > bh)
    ensures c == 1 <==> aw <= bw && ah <= bh && (aw != bw || ah != bh)
  {
    if aw == bw && ah == bh then 0
    else if aw > bw || ah > bh then -1
    else 1
  }

  function Compare(a: Texture2D, b: Texture2D): int {
    CompareSizes(a.width, a.height, b.width, b.height)
  }

  /** Where the comparator says "a after b", it also says "b before a". */
  lemma CompareOneImpliesMinusOne(aw: int, ah: int, bw: int, bh: int)
    requires CompareSizes(aw, ah, bw, bh) == 1
    ensures CompareSizes(bw, bh, aw, ah) == -1
  {
  }

  /** ... but not the converse: a 4x1 and a 1x4 texture each claim to come first. */
  lemma CompareNotAntisymmetric()
    ensures CompareSizes(4, 1, 1, 4) == -1 && CompareSizes(1, 4, 4, 1) == -1
  {
  }

  /** Inserts `t` after the last element of `s` that does not compare greater than it. */
  function Insert(s: seq<Texture2D>, t: Texture2D): (r: seq<Texture2D>)
    ensures |r| == |s| + 1
  {
    if s == [] then [t]
    else if Compare(s[|s| - 1], t) > 0 then
      assert s == s[..|s| - 1] + [s[|s| - 1]];
      Insert(s[..|s| - 1], t) + [s[|s| - 1]]
    else s + [t]
  }

  /** Inserting adds exactly one occurrence of `t`. */
  lemma {:induction false} InsertPermutes(s: seq<Texture2D>, t: Texture2D)
    ensures multiset(Insert(s, t)) == multiset(s) + multiset{t}
  {
    if s != [] && Compare(s[|s| - 1], t) > 0 {
      InsertPermutes(s[..|s| - 1], t);
      assert s == s[..|s| - 1] + [s[|s| - 1]];
    }
  }

  /** The order `SortTextures` produces: each texture inserted in turn. */
  function SortBySize(s: seq<Texture2D>): (r: seq<Texture2D>)
    ensures |r| == |s|
  {
    if s == [] then [] else Insert(SortBySize(s[..|s| - 1]), s[|s| - 1])
  }

  /** Sorting only reorders: same elements, same multiplicities. */
  lemma {:induction false} SortBySizePermutes(s: seq<Texture2D>)
    ensures multiset(SortBySize(s)) == multiset(s)
  {
    if s != [] {
      SortBySizePermutes(s[..|s| - 1]);
      InsertPermutes(SortBySize(s[..|s| - 1]), s[|s| - 1]);
      assert s == s[..|s| - 1] + [s[|s| - 1]];
    }
  }

  /** A one-element list is already sorted. */
  lemma SortSingleton(t: Texture2D)
    ensures SortBySize([t]) == [t]
  {
    assert [t][..0] == [];
  }

  /** One step of the backward scan: passing over an element that compares greater than `t`. */
  lemma InsertStep(s: seq<Texture2D>, j: nat, t: Texture2D)
    requires 0 < j <= |s| && Compare(s[j - 1], t) > 0
    ensures Insert(s[..j], t) + s[j..] == Insert(s[..j - 1], t) + s[j - 1..]
  {
    assert s[..j][..j - 1] == s[..j - 1];
    assert [s[j - 1]] + s[j..] == s[j - 1..];
  }

  /** Where the backward scan stops, `t` goes right after the prefix. */
  lemma InsertStop(s: seq<Texture2D>, j: nat, t: Texture2D)
    requires j <= |s| && (j == 0 || Compare(s[j - 1], t) <= 0)
    ensures Insert(s[..j], t) == s[..j] + [t]
  {
    if j > 0 { assert s[..j][j - 1] == s[j - 1]; }
  }

  /** The insertion step of the sort: scans the sorted prefix backwards for the place of `t`. */
  method InsertSorted(sorted: seq<Texture2D>, t: Texture2D) returns (r: seq<Texture2D>)
    ensures r == Insert(sorted, t)
  {
    var j := |sorted|;
    assert sorted[..j] == sorted && sorted[j..] == [];
    while j > 0 && Compare(sorted[j - 1], t) > 0
      invariant 0 <= j <= |sorted|
      invariant Insert(sorted, t) == Insert(sorted[..j], t) + sorted[j..]
    {
      InsertStep(sorted, j, t);
      j := j - 1;
    }
    InsertStop(sorted, j, t);
    r := sorted[..j] + [t] + sorted[j..];
  }

  /** The static `Atlas.SortTextures(List<Texture2D>)`: returns the sorted list. */
  method SortTextures(textures: seq<Texture2D>) returns (sorted: seq<Texture2D>)
    ensures sorted == SortBySize(textures)
    ensures multiset(sorted) == multiset(textures)
  {
    sorted := [];
    var i := 0;
    while i < |textures|
      invariant 0 <= i <= |textures|
      invariant sorted == SortBySize(textures[..i])
    {
      assert textures[..i + 1][..i] == textures[..i];
      sorted := InsertSorted(sorted, textures[i]);
      i := i + 1;
    }
    assert textures[..i] == textures;
    SortBySizePermutes(textures);
  }
}
