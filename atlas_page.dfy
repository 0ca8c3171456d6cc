/**
 * One atlas page: the textures as the materials reference them
 * (`texturesOriginal`), the textures actually packed, possibly 2x2-expanded
 * copies carrying the same name (`texturesInAtlas`), and the packer's
 * rectangles. The lookup `rects[texturesOriginal.IndexOf(t)]` made when
 * meshes are remapped relies on position `i` of both lists naming the same
 * texture; `UpdateOriginalTextureOrder` re-establishes that by name.
 */
module AtlasPage {
  import opened Wrappers
  import opened UnityTypes
  import opened SizeSort

  /** The value of an atlas page; `rects` is `None` while the C# field is null. */
  datatype Page = Page(original: seq<Texture2D>, inAtlas: seq<Texture2D>, rects: Option<seq<Rect>>)

  /** The `texturesOriginalNames` / `texturesInAtlasNames` projections. */
  function Names(s: seq<Texture2D>): (r: seq<string>)
    ensures |r| == |s| && forall i :: 0 <= i < |s| ==> r[i] == s[i].name
  {
    seq(|s|, i requires 0 <= i < |s| => s[i].name)
  }

  /** `List.FindIndex(t => t.name == name)`: the first index holding that name, or -1. */
  function FindByName(s: seq<Texture2D>, name: string): (r: int)
    ensures -1 <= r < |s|
  {
    if s == [] then -1
    else if s[0].name == name then 0
    else
      var r := FindByName(s[1..], name);
      if r < 0 then -1 else r + 1
  }

  /** A found index holds the name and is the first to; -1 exactly when no entry has the name. */
  lemma {:induction false} FindByNameFinds(s: seq<Texture2D>, name: string)
    ensures var r := FindByName(s, name);
      && (r >= 0 ==> s[r].name == name && forall k :: 0 <= k < r ==> s[k].name != name)
      && (r == -1 <==> name !in Names(s))
  {
    if s != [] && s[0].name != name {
      FindByNameFinds(s[1..], name);
      assert Names(s) == [s[0].name] + Names(s[1..]);
    }
  }

  /** Iteration `i` of the loop in `UpdateOriginalTextureOrder`: swap in the entry named like `inAtlas[i]`, if any. */
  function AlignStep(orig: seq<Texture2D>, inAtlas: seq<Texture2D>, i: nat): (r: seq<Texture2D>)
    requires i < |inAtlas| <= |orig|
    ensures |r| == |orig|
  {
    var index := FindByName(orig, inAtlas[i].name);
    if index >= 0 then orig[i := orig[index]][index := orig[i]] else orig
  }

  /** Iterations `i` to the end of the loop in `UpdateOriginalTextureOrder`. */
  function AlignFrom(orig: seq<Texture2D>, inAtlas: seq<Texture2D>, i: nat): seq<Texture2D>
    requires i <= |inAtlas| <= |orig|
    decreases |inAtlas| - i
  {
    if i == |inAtlas| then orig else AlignFrom(AlignStep(orig, inAtlas, i), inAtlas, i + 1)
  }

  /**
   * Two different textures sharing a name defeat the alignment: for the
   * second name the search finds the first texture again, and the swap
   * leaves the originals crossed with the list they were to follow.
   */
  lemma SameNameCrossed(a: Texture2D, b: Texture2D)
    requires a != b && a.name == b.name
    ensures AlignFrom([a, b], [a, b], 0) == [b, a]
  {
    assert FindByName([a, b], a.name) == 0;
    assert AlignStep([a, b], [a, b], 0) == [a, b];
    assert AlignStep([a, b], [a, b], 1) == [b, a];
    AlignFromStep([a, b], [a, b], 0);
    AlignFromStep([a, b], [a, b], 1);
  }

  /** Swapping two entries keeps the contents. */
  lemma SwapPermutes(s: seq<Texture2D>, i: nat, j: nat)
    requires i < |s| && j < |s|
    ensures multiset(s[i := s[j]][j := s[i]]) == multiset(s)
  {
    var t := s[i := s[j]];
    assert multiset(t) == multiset(s) - multiset{s[i]} + multiset{s[j]};
  }

  /** One iteration only swaps entries. */
  lemma AlignStepPermutes(orig: seq<Texture2D>, inAtlas: seq<Texture2D>, i: nat)
    requires i < |inAtlas| <= |orig|
    ensures multiset(AlignStep(orig, inAtlas, i)) == multiset(orig)
  {
    var index := FindByName(orig, inAtlas[i].name);
    if index >= 0 { SwapPermutes(orig, i, index); }
  }

  /** The loop only swaps entries: it keeps the length and the contents. */
  lemma {:induction false} AlignFromPermutes(orig: seq<Texture2D>, inAtlas: seq<Texture2D>, i: nat)
    requires i <= |inAtlas| <= |orig|
    ensures |AlignFrom(orig, inAtlas, i)| == |orig|
    ensures multiset(AlignFrom(orig, inAtlas, i)) == multiset(orig)
    decreases |inAtlas| - i
  {
    if i < |inAtlas| {
      AlignStepPermutes(orig, inAtlas, i);
      AlignFromPermutes(AlignStep(orig, inAtlas, i), inAtlas, i + 1);
    }
  }

  lemma AlignFromStep(orig: seq<Texture2D>, inAtlas: seq<Texture2D>, i: nat)
    requires i < |inAtlas| <= |orig|
    ensures AlignFrom(orig, inAtlas, i) == AlignFrom(AlignStep(orig, inAtlas, i), inAtlas, i + 1)
  {
  }

  ghost predicate AlignedUpTo(orig: seq<Texture2D>, inAtlas: seq<Texture2D>, n: nat)
    requires n <= |orig| && n <= |inAtlas|
  {
    forall k :: 0 <= k < n ==> orig[k].name == inAtlas[k].name
  }

  ghost predicate DistinctNames(s: seq<Texture2D>) {
    forall a, b :: 0 <= a < b < |s| ==> s[a].name != s[b].name
  }

  /** One iteration keeps every name present. */
  lemma AlignStepKeepsNames(orig: seq<Texture2D>, inAtlas: seq<Texture2D>, i: nat)
    requires i < |inAtlas| <= |orig|
    ensures forall n :: n in Names(orig) ==> n in Names(AlignStep(orig, inAtlas, i))
  {
    var r := AlignStep(orig, inAtlas, i);
    var index := FindByName(orig, inAtlas[i].name);
    forall n | n in Names(orig) ensures n in Names(r) {
      var m :| 0 <= m < |orig| && Names(orig)[m] == n;
      if index < 0 { assert Names(r)[m] == n; }
      else if m == i { assert Names(r)[index] == n; }
      else if m == index { assert Names(r)[i] == n; }
      else { assert Names(r)[m] == n; }
    }
  }

  /**
   * With a prefix already aligned, distinct names in `inAtlas`, and each
   * remaining name present in `orig`, the remaining iterations align
   * every position.
   */
  lemma {:induction false} AlignFromAligns(orig: seq<Texture2D>, inAtlas: seq<Texture2D>, i: nat)
    requires i <= |inAtlas| <= |orig|
    requires AlignedUpTo(orig, inAtlas, i)
    requires DistinctNames(inAtlas)
    requires forall k :: i <= k < |inAtlas| ==> inAtlas[k].name in Names(orig)
    ensures |AlignFrom(orig, inAtlas, i)| == |orig|
    ensures AlignedUpTo(AlignFrom(orig, inAtlas, i), inAtlas, |inAtlas|)
    decreases |inAtlas| - i
  {
    AlignFromPermutes(orig, inAtlas, i);
    if i < |inAtlas| {
      AlignStepAligns(orig, inAtlas, i);
      AlignFromAligns(AlignStep(orig, inAtlas, i), inAtlas, i + 1);
    }
  }

  /** One iteration extends the aligned prefix and keeps every later name present. */
  lemma AlignStepAligns(orig: seq<Texture2D>, inAtlas: seq<Texture2D>, i: nat)
    requires i < |inAtlas| <= |orig|
    requires AlignedUpTo(orig, inAtlas, i)
    requires DistinctNames(inAtlas)
    requires forall k :: i <= k < |inAtlas| ==> inAtlas[k].name in Names(orig)
    ensures AlignedUpTo(AlignStep(orig, inAtlas, i), inAtlas, i + 1)
    ensures forall k :: i + 1 <= k < |inAtlas| ==> inAtlas[k].name in Names(AlignStep(orig, inAtlas, i))
  {
    var index := FindByName(orig, inAtlas[i].name);
    FindByNameFinds(orig, inAtlas[i].name);
    assert forall k :: 0 <= k < i ==> orig[k].name != inAtlas[i].name;
    AlignStepKeepsNames(orig, inAtlas, i);
  }

  /**
   * After `UpdateOriginalTextureOrder` on lists of equal length holding the
   * same distinct names, `texturesOriginalNames == texturesInAtlasNames`.
   */
  lemma UpdateOrderAligns(orig: seq<Texture2D>, inAtlas: seq<Texture2D>)
    requires |orig| == |inAtlas|
    requires DistinctNames(inAtlas)
    requires forall k :: 0 <= k < |inAtlas| ==> inAtlas[k].name in Names(orig)
    ensures Names(AlignFrom(orig, inAtlas, 0)) == Names(inAtlas)
  {
    AlignFromAligns(orig, inAtlas, 0);
  }

  /**
   * The current page after a successful pack: the extended list sorted,
   * `main` appended to the originals and re-aligned, the new rectangles.
   */
  function CommittedPage(cur: Page, main: Texture2D, inAtlas: Texture2D, rects: seq<Rect>): Page
    requires |cur.original| == |cur.inAtlas|
  {
    var toProcess := SortBySize(cur.inAtlas + [inAtlas]);
    Page(AlignFrom(cur.original + [main], toProcess, 0), toProcess, Some(rects))
  }

  /** The committed page keeps its lists parallel and gains exactly `main` among its originals. */
  lemma CommittedPageOriginals(cur: Page, main: Texture2D, inAtlas: Texture2D, rects: seq<Rect>)
    requires |cur.original| == |cur.inAtlas|
    ensures var p := CommittedPage(cur, main, inAtlas, rects);
      |p.original| == |p.inAtlas| && multiset(p.original) == multiset(cur.original) + multiset{main}
  {
    AlignFromPermutes(cur.original + [main], SortBySize(cur.inAtlas + [inAtlas]), 0);
  }

  /** The `Atlas` class: one page's lists and rectangles. */
  class Atlas {
    var texturesOriginal: seq<Texture2D>
    var texturesInAtlas: seq<Texture2D>
    var rects: Option<seq<Rect>>

    /** The two lists are parallel. */
    ghost predicate Valid()
      reads this
    {
      |texturesOriginal| == |texturesInAtlas|
    }

    ghost function Value(): Page
      reads this
    {
      Page(texturesOriginal, texturesInAtlas, rects)
    }

    /** A page as `CreateNewAtlas` makes it: empty lists, null rects. */
    constructor ()
      ensures Valid() && Value() == Page([], [], None)
    {
      texturesOriginal := [];
      texturesInAtlas := [];
      rects := None;
    }

    /** Swaps entries of `texturesOriginal` so that position `i` carries `texturesInAtlas[i]`'s name. */
    method UpdateOriginalTextureOrder()
      requires Valid()
      modifies this`texturesOriginal
      ensures Valid()
      ensures texturesOriginal == AlignFrom(old(texturesOriginal), texturesInAtlas, 0)
    {
      var original := texturesOriginal;
      for i := 0 to |texturesInAtlas|
        invariant |original| == |texturesInAtlas|
        invariant AlignFrom(original, texturesInAtlas, i) == AlignFrom(old(texturesOriginal), texturesInAtlas, 0)
      {
        ghost var before := original;
        var index := FindByName(original, texturesInAtlas[i].name);
        if index >= 0 {
          var temp := original[i];
          original := original[i := original[index]];
          original := original[index := temp];
        }
        AlignFromStep(before, texturesInAtlas, i);
      }
      texturesOriginal := original;
    }

    /** The instance `SortTextures`: sorts `texturesInAtlas`, then re-aligns `texturesOriginal`. */
    method SortTextures()
      requires Valid()
      modifies this`texturesOriginal, this`texturesInAtlas
      ensures Valid()
      ensures texturesInAtlas == SortBySize(old(texturesInAtlas))
      ensures texturesOriginal == AlignFrom(old(texturesOriginal), texturesInAtlas, 0)
    {
      texturesInAtlas := SizeSort.SortTextures(texturesInAtlas);
      UpdateOriginalTextureOrder();
    }
  
    /**
     * Lines 167-169 and 179-180 of the editor: a successful pack of
     * `texturesToProcess` (the current list plus the new texture, sorted)
     * is committed to this page.
     */
    method Commit(mainTexture: Texture2D, texturesToProcess: seq<Texture2D>,
                  ghost mainTextureInAtlas: Texture2D, newRects: seq<Rect>)
      requires Valid()
      requires texturesToProcess == SortBySize(texturesInAtlas + [mainTextureInAtlas])
      modifies this
      ensures Valid()
      ensures Value() == CommittedPage(old(Value()), mainTexture, mainTextureInAtlas, newRects)
    {
      texturesInAtlas := texturesToProcess;
      texturesOriginal := texturesOriginal + [mainTexture];
      UpdateOriginalTextureOrder();
      rects := Some(newRects);
    }

    /** Lines 172-174 of the editor: a new, empty page receives its first texture. */
    method AddFirst(mainTexture: Texture2D, mainTextureInAtlas: Texture2D)
      requires texturesOriginal == [] && texturesInAtlas == []
      modifies this`texturesOriginal, this`texturesInAtlas
      ensures Valid()
      ensures texturesOriginal == [mainTexture] && texturesInAtlas == [mainTextureInAtlas]
    {
      texturesOriginal := texturesOriginal + [mainTexture];
      texturesInAtlas := texturesInAtlas + [mainTextureInAtlas];
      SortSingleton(mainTextureInAtlas);
      assert AlignStep([mainTexture], [mainTextureInAtlas], 0) == [mainTexture];
      assert AlignFrom([mainTexture], [mainTextureInAtlas], 0) == AlignFrom([mainTexture], [mainTextureInAtlas], 1);
      SortTextures();
    }
  }
}
