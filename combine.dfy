/**
 * The page lifecycle of `CombineTexturesIntoAtlas`, as functions on page
 * values: which materials are skipped, how a texture is added to the
 * current page, and how a failed pack opens exactly one new page.
 * The packer is an opaque oracle: every property here holds whatever it
 * returns.
 */
module Combine {
  import opened Wrappers
  import opened UnityTypes
  import opened SizeSort
  import opened AtlasPage

  /** Side of an atlas page in pixels. */
  const AtlasSize: int := 2048

  /** The shader names whose materials are combined. */
  const ShaderNames: seq<string> := ["Diffuse", "Mobile/Diffuse"]

  /**
   * `UITexturePacker.PackTextures(page, textures, paddingX, paddingY, _, maxSize)`:
   * the placement rectangles, or `None` when the textures do not fit.
   */
  type Packer = (seq<Texture2D>, int, int, int, int) -> Option<seq<Rect>>

  function Pack(pack: Packer, textures: seq<Texture2D>): Option<seq<Rect>> {
    pack(textures, 1, 1, 0, AtlasSize)
  }

  /** Every page keeps its two texture lists parallel. */
  ghost predicate AllParallel(pages: seq<Page>) {
    forall p :: 0 <= p < |pages| ==> |pages[p].original| == |pages[p].inAtlas|
  }

  /** The result of adding one texture; `oversized` is the null dereference at the rects copy. */
  datatype StepResult = StepResult(pages: seq<Page>, oversized: bool)

  /** Sorting and re-aligning a page of one texture changes nothing. */
  lemma SingletonPageSorted(main: Texture2D, inAtlas: Texture2D)
    ensures SortBySize([inAtlas]) == [inAtlas]
    ensures AlignFrom([main], [inAtlas], 0) == [main]
  {
    SortSingleton(inAtlas);
    assert AlignStep([main], [inAtlas], 0) == [main];
    assert AlignFrom([main], [inAtlas], 0) == AlignFrom([main], [inAtlas], 1);
  }

  /**
   * The new page opened after a failed pack, holding only the new texture;
   * sorting and re-aligning it changes nothing (`SingletonPageSorted`).
   */
  function FreshPage(main: Texture2D, inAtlas: Texture2D, pack: Packer): Page {
    Page([main], [inAtlas], Pack(pack, [inAtlas]))
  }

  /**
   * Adding texture `main`, packed as `inAtlas` (itself or its 2x2 copy),
   * to the last (current) page.
   */
  function AddTexture(pages: seq<Page>, main: Texture2D, inAtlas: Texture2D, pack: Packer): StepResult
    requires |pages| > 0 && AllParallel(pages)
  {
    var n := |pages|;
    var cur := pages[n - 1];
    match Pack(pack, SortBySize(cur.inAtlas + [inAtlas]))
    case Some(rects) =>
      StepResult(pages[..n - 1] + [CommittedPage(cur, main, inAtlas, rects)], false)
    case None =>
      var page := FreshPage(main, inAtlas, pack);
      StepResult(pages + [page], page.rects.None?)
  }

  /** There is still a current page, and every page keeps its lists parallel. */
  lemma AddTextureParallel(pages: seq<Page>, main: Texture2D, inAtlas: Texture2D, pack: Packer)
    requires |pages| > 0 && AllParallel(pages)
    ensures var r := AddTexture(pages, main, inAtlas, pack).pages;
      |r| > 0 && AllParallel(r)
  {
    var n := |pages|;
    match Pack(pack, SortBySize(pages[n - 1].inAtlas + [inAtlas]))
    case Some(rects) =>
      CommittedPageOriginals(pages[n - 1], main, inAtlas, rects);
      ReplaceLastParallel(pages, CommittedPage(pages[n - 1], main, inAtlas, rects));
    case None =>
      AppendPage(pages, FreshPage(main, inAtlas, pack), main);
  }

  /**
   * Pages before the current one are never touched. When the extended,
   * sorted list packs, the current page takes it together with `main` and
   * the new rectangles; when it does not, the current page is kept as it
   * was, exactly one page holding only the new texture is appended, and
   * the combine aborts if even that page does not pack.
   */
  lemma AddTextureShape(pages: seq<Page>, main: Texture2D, inAtlas: Texture2D, pack: Packer)
    requires |pages| > 0 && AllParallel(pages)
    ensures var r := AddTexture(pages, main, inAtlas, pack); var n := |pages|;
      && r.pages[..n - 1] == pages[..n - 1]
      && (Pack(pack, SortBySize(pages[n - 1].inAtlas + [inAtlas])).Some? ==>
            && !r.oversized
            && |r.pages| == n
            && r.pages[n - 1].inAtlas == SortBySize(pages[n - 1].inAtlas + [inAtlas])
            && multiset(r.pages[n - 1].original) == multiset(pages[n - 1].original) + multiset{main}
            && r.pages[n - 1].rects == Pack(pack, SortBySize(pages[n - 1].inAtlas + [inAtlas])))
      && (Pack(pack, SortBySize(pages[n - 1].inAtlas + [inAtlas])).None? ==>
            && |r.pages| == n + 1
            && r.pages[n - 1] == pages[n - 1]
            && r.pages[n].original == [main] && r.pages[n].inAtlas == [inAtlas]
            && r.pages[n].rects == Pack(pack, [inAtlas])
            && (r.oversized <==> Pack(pack, [inAtlas]).None?))
  {
    var n := |pages|;
    match Pack(pack, SortBySize(pages[n - 1].inAtlas + [inAtlas]))
    case Some(rects) =>
      AddTextureCommits(pages, main, inAtlas, pack, rects);
      CommittedPageOriginals(pages[n - 1], main, inAtlas, rects);
    case None =>
      AddTextureOpens(pages, main, inAtlas, pack);
  }

  /** Either way `main` gains exactly one occurrence among the pages' original textures. */
  lemma AddTextureAddsOriginal(pages: seq<Page>, main: Texture2D, inAtlas: Texture2D, pack: Packer)
    requires |pages| > 0 && AllParallel(pages)
    ensures multiset(AllOriginals(AddTexture(pages, main, inAtlas, pack).pages))
         == multiset(AllOriginals(pages)) + multiset{main}
  {
    var n := |pages|;
    match Pack(pack, SortBySize(pages[n - 1].inAtlas + [inAtlas]))
    case Some(rects) =>
      AddTextureCommits(pages, main, inAtlas, pack, rects);
      CommittedPageOriginals(pages[n - 1], main, inAtlas, rects);
      ReplaceLast(pages, CommittedPage(pages[n - 1], main, inAtlas, rects), main);
    case None =>
      AddTextureOpens(pages, main, inAtlas, pack);
      AppendPage(pages, FreshPage(main, inAtlas, pack), main);
  }

  /** The successful-pack case of `AddTexture`, as one equation. */
  lemma AddTextureCommits(pages: seq<Page>, main: Texture2D, inAtlas: Texture2D, pack: Packer, rects: seq<Rect>)
    requires |pages| > 0 && AllParallel(pages)
    requires Pack(pack, SortBySize(pages[|pages| - 1].inAtlas + [inAtlas])) == Some(rects)
    ensures AddTexture(pages, main, inAtlas, pack)
         == StepResult(pages[..|pages| - 1] + [CommittedPage(pages[|pages| - 1], main, inAtlas, rects)], false)
  {
  }

  /** The failed-pack case of `AddTexture`, as one equation. */
  lemma AddTextureOpens(pages: seq<Page>, main: Texture2D, inAtlas: Texture2D, pack: Packer)
    requires |pages| > 0 && AllParallel(pages)
    requires Pack(pack, SortBySize(pages[|pages| - 1].inAtlas + [inAtlas])).None?
    ensures AddTexture(pages, main, inAtlas, pack)
         == StepResult(pages + [FreshPage(main, inAtlas, pack)], Pack(pack, [inAtlas]).None?)
  {
  }

  /** Replacing the last page by a parallel one keeps all pages parallel. */
  lemma ReplaceLastParallel(pages: seq<Page>, page: Page)
    requires |pages| > 0 && AllParallel(pages) && |page.original| == |page.inAtlas|
    ensures AllParallel(pages[..|pages| - 1] + [page])
  {
    var r := pages[..|pages| - 1] + [page];
    forall p | 0 <= p < |r| ensures |r[p].original| == |r[p].inAtlas| {
      if p < |pages| - 1 { assert r[p] == pages[p]; }
    }
  }

  /** Replacing the current page by one holding one more original texture. */
  lemma ReplaceLast(pages: seq<Page>, page: Page, main: Texture2D)
    requires |pages| > 0 && AllParallel(pages) && |page.original| == |page.inAtlas|
    requires multiset(page.original) == multiset(pages[|pages| - 1].original) + multiset{main}
    ensures var r := pages[..|pages| - 1] + [page];
      && AllParallel(r)
      && multiset(AllOriginals(r)) == multiset(AllOriginals(pages)) + multiset{main}
  {
    var front := pages[..|pages| - 1];
    ReplaceLastParallel(pages, page);
    AllOriginalsSnoc(front, page);
    AllOriginalsSnoc(front, pages[|pages| - 1]);
    assert front + [pages[|pages| - 1]] == pages;
  }

  /** Appending a page that holds only `main`. */
  lemma AppendPage(pages: seq<Page>, page: Page, main: Texture2D)
    requires AllParallel(pages) && page.original == [main] && |page.inAtlas| == 1
    ensures AllParallel(pages + [page])
    ensures multiset(AllOriginals(pages + [page])) == multiset(AllOriginals(pages)) + multiset{main}
  {
    AllOriginalsSnoc(pages, page);
    var r := pages + [page];
    forall p | 0 <= p < |r| ensures |r[p].original| == |r[p].inAtlas| {
      if p < |pages| { assert r[p] == pages[p]; }
    }
  }

  /** The re-sorted, re-aligned lists of a successful pack stay aligned by name. */
  lemma {:induction false} ExtendedPageAligned(cur: Page, main: Texture2D, inAtlas: Texture2D)
    requires |cur.original| == |cur.inAtlas|
    requires Names(cur.original) == Names(cur.inAtlas) && DistinctNames(cur.inAtlas)
    requires inAtlas.name == main.name && main.name !in Names(cur.original)
    ensures var toProcess := SortBySize(cur.inAtlas + [inAtlas]);
      |toProcess| == |cur.original| + 1 &&
      Names(AlignFrom(cur.original + [main], toProcess, 0)) == Names(toProcess) && DistinctNames(toProcess)
  {
    var extended := cur.inAtlas + [inAtlas];
    var toProcess := SortBySize(extended);
    SortBySizePermutes(extended);
    var orig := cur.original + [main];
    assert Names(orig) == Names(extended) by {
      assert Names(orig) == Names(cur.original) + [main.name];
      assert Names(extended) == Names(cur.inAtlas) + [inAtlas.name];
    }
    assert DistinctNames(extended) by {
      forall a, b | 0 <= a < b < |extended| ensures extended[a].name != extended[b].name {
        if b == |extended| - 1 {
          assert Names(cur.inAtlas)[a] == extended[a].name;
        }
      }
    }
    PermutationKeepsNames(extended, toProcess);
    forall k | 0 <= k < |toProcess| ensures toProcess[k].name in Names(orig) {
      assert toProcess[k] in multiset(extended);
      var m :| 0 <= m < |extended| && extended[m] == toProcess[k];
      assert Names(orig)[m] == toProcess[k].name;
    }
    UpdateOrderAligns(orig, toProcess);
  }

  /**
   * The alignment `rects[texturesOriginal.IndexOf(t)]` relies on survives
   * adding a texture, provided the texture's name is new to the page and
   * its atlas copy carries the same name.
   */
  lemma AddTextureKeepsAlignment(pages: seq<Page>, main: Texture2D, inAtlas: Texture2D, pack: Packer)
    requires |pages| > 0 && AllParallel(pages)
    requires Names(pages[|pages| - 1].original) == Names(pages[|pages| - 1].inAtlas)
    requires DistinctNames(pages[|pages| - 1].inAtlas)
    requires inAtlas.name == main.name && main.name !in Names(pages[|pages| - 1].original)
    ensures var r := AddTexture(pages, main, inAtlas, pack).pages;
      Names(r[|r| - 1].original) == Names(r[|r| - 1].inAtlas) && DistinctNames(r[|r| - 1].inAtlas)
  {
    var cur := pages[|pages| - 1];
    var toProcess := SortBySize(cur.inAtlas + [inAtlas]);
    var r := AddTexture(pages, main, inAtlas, pack).pages;
    if Pack(pack, toProcess).Some? {
      ExtendedPageAligned(cur, main, inAtlas);
      assert r[|r| - 1] == Page(AlignFrom(cur.original + [main], toProcess, 0), toProcess, Pack(pack, toProcess));
    } else {
      assert r[|r| - 1] == FreshPage(main, inAtlas, pack);
      assert Names([main]) == [main.name];
      assert Names([inAtlas]) == [inAtlas.name];
    }
  }

  /** Reordering keeps names distinct. */
  lemma PermutationKeepsNames(s: seq<Texture2D>, t: seq<Texture2D>)
    requires multiset(s) == multiset(t) && DistinctNames(s)
    ensures DistinctNames(t)
  {
    forall a, b | 0 <= a < b < |t| ensures t[a].name != t[b].name {
      assert t[a] in multiset(s) && t[b] in multiset(s);
      var i :| 0 <= i < |s| && s[i] == t[a];
      var j :| 0 <= j < |s| && s[j] == t[b];
      if i == j {
        // t[a] and t[b] are the same texture, which then occurs twice in t but once in s.
        assert t[a] == t[b];
        DistinctHasSingleOccurrence(s, i);
        CountTwo(t, a, b);
        assert false;
      }
    }
  }

  lemma DistinctHasSingleOccurrence(s: seq<Texture2D>, i: nat)
    requires i < |s| && DistinctNames(s)
    ensures multiset(s)[s[i]] == 1
  {
    if |s| > 0 {
      var last := |s| - 1;
      assert s == s[..last] + [s[last]];
      assert DistinctNames(s[..last]);
      if i == last {
        assert s[last] !in s[..last] by {
          forall k | 0 <= k < last ensures s[..last][k] != s[last] {
            assert s[k].name != s[last].name;
          }
        }
      } else {
        DistinctHasSingleOccurrence(s[..last], i);
        assert s[last] != s[i];
      }
    }
  }

  lemma CountTwo(t: seq<Texture2D>, a: nat, b: nat)
    requires a < b < |t| && t[a] == t[b]
    ensures multiset(t)[t[a]] >= 2
  {
    assert t == t[..b] + [t[b]] + t[b + 1..];
    assert t[..b] == t[..a] + [t[a]] + t[a + 1..b];
  }

  /** `IsIncludedInCompatibleShaders` as a predicate. */
  predicate Compatible(material: Material) {
    material.shaderName in ShaderNames
  }

  ghost predicate NoDup<T>(s: seq<T>) {
    forall a, b :: 0 <= a < b < |s| ==> s[a] != s[b]
  }

  /** The `texturesOriginal` lists of all pages, in page order. */
  function AllOriginals(pages: seq<Page>): seq<Texture2D> {
    if pages == [] then [] else AllOriginals(pages[..|pages| - 1]) + pages[|pages| - 1].original
  }

  /** The state `CombineTexturesIntoAtlas` threads through its loop. */
  datatype CombineState = CombineState(pages: seq<Page>, processed: seq<Texture2D>, renderers: seq<MeshRenderer>)

  /**
   * What holds between materials: there is a current page, every page's
   * lists are parallel, no texture or renderer is recorded twice, and the
   * pages' original textures are exactly the processed ones.
   */
  ghost predicate Inv(st: CombineState) {
    && |st.pages| > 0
    && AllParallel(st.pages)
    && NoDup(st.processed)
    && NoDup(st.renderers)
    && multiset(AllOriginals(st.pages)) == multiset(st.processed)
  }

  /** The main texture is set and not processed yet. */
  predicate NewMain(processed: seq<Texture2D>, mainTexture: Option<Texture2D>) {
    mainTexture.Some? && mainTexture.value !in processed
  }

  /** The material is combined and brings a main texture not processed yet. */
  predicate NewTexture(st: CombineState, material: Material) {
    Compatible(material) && NewMain(st.processed, material.mainTexture)
  }

  /** `if(!meshRenderers.Contains(meshRenderer)) meshRenderers.Add(meshRenderer)`. */
  function Record(renderers: seq<MeshRenderer>, renderer: MeshRenderer): seq<MeshRenderer> {
    if renderer in renderers then renderers else renderers + [renderer]
  }

  /**
   * Afterwards the renderer is listed, exactly once if the list had no
   * duplicates, and the list only grew by it, at the end, when it was missing.
   */
  lemma RecordAdds(renderers: seq<MeshRenderer>, renderer: MeshRenderer)
    ensures var r := Record(renderers, renderer);
      && renderer in r
      && (NoDup(renderers) ==> NoDup(r))
      && renderers <= r
      && (|r| > |renderers| <==> renderer !in renderers)
      && |r| <= |renderers| + 1
      && (|r| > |renderers| ==> r[|renderers|] == renderer)
  {
  }

  datatype TextureResult = TextureResult(pages: seq<Page>, processed: seq<Texture2D>, oversized: bool)

  /**
   * The main texture of a combined material. `inAtlas` is the texture to
   * pack, the main texture itself or its 2x2 copy; the caller supplies it
   * whenever the main texture is new.
   */
  function ProcessTexture(pages: seq<Page>, processed: seq<Texture2D>, mainTexture: Option<Texture2D>,
                          inAtlas: Option<Texture2D>, pack: Packer): TextureResult
    requires |pages| > 0 && AllParallel(pages)
    requires NewMain(processed, mainTexture) ==> inAtlas.Some?
  {
    if !NewMain(processed, mainTexture) then TextureResult(pages, processed, false)
    else
      var main := mainTexture.value;
      var step := AddTexture(pages, main, inAtlas.value, pack);
      TextureResult(step.pages, if step.oversized then processed else processed + [main], step.oversized)
  }

  /**
   * A null or already processed main texture leaves pages and textures
   * alone; a new one is added to the pages, and recorded as processed
   * unless the combine aborts.
   */
  lemma ProcessTextureEffect(pages: seq<Page>, processed: seq<Texture2D>, mainTexture: Option<Texture2D>,
                             inAtlas: Option<Texture2D>, pack: Packer)
    requires |pages| > 0 && AllParallel(pages)
    requires NewMain(processed, mainTexture) ==> inAtlas.Some?
    ensures var r := ProcessTexture(pages, processed, mainTexture, inAtlas, pack);
      && (!NewMain(processed, mainTexture) ==> r == TextureResult(pages, processed, false))
      && (NewMain(processed, mainTexture) ==>
            && r.pages == AddTexture(pages, mainTexture.value, inAtlas.value, pack).pages
            && r.oversized == AddTexture(pages, mainTexture.value, inAtlas.value, pack).oversized
            && r.processed == if r.oversized then processed else processed + [mainTexture.value])
      && |r.pages| > 0 && AllParallel(r.pages)
  {
    if NewMain(processed, mainTexture) {
      AddTextureParallel(pages, mainTexture.value, inAtlas.value, pack);
    }
  }

  datatype MaterialResult = MaterialResult(state: CombineState, oversized: bool)

  /**
   * One material of one renderer (the body of the inner loop of
   * `CombineTexturesIntoAtlas`).
   */
  function ProcessMaterial(st: CombineState, renderer: MeshRenderer, material: Material,
                           inAtlas: Option<Texture2D>, pack: Packer): MaterialResult
    requires |st.pages| > 0 && AllParallel(st.pages)
    requires NewTexture(st, material) ==> inAtlas.Some?
  {
    if !Compatible(material) then MaterialResult(st, false)
    else
      var t := ProcessTexture(st.pages, st.processed, material.mainTexture, inAtlas, pack);
      MaterialResult(CombineState(t.pages, t.processed, Record(st.renderers, renderer)), t.oversized)
  }

  /**
   * An incompatible shader changes nothing; a compatible material records
   * its renderer, once; pages and processed textures change only for a
   * new main texture.
   */
  lemma ProcessMaterialEffect(st: CombineState, renderer: MeshRenderer, material: Material,
                              inAtlas: Option<Texture2D>, pack: Packer)
    requires |st.pages| > 0 && AllParallel(st.pages)
    requires NewTexture(st, material) ==> inAtlas.Some?
    ensures var r := ProcessMaterial(st, renderer, material, inAtlas, pack);
      && |r.state.pages| > 0 && AllParallel(r.state.pages)
      && (!Compatible(material) ==> r == MaterialResult(st, false))
      && (Compatible(material) ==> r.state.renderers == Record(st.renderers, renderer))
      && (!NewTexture(st, material) ==> r.state.pages == st.pages && r.state.processed == st.processed && !r.oversized)
      && (NewTexture(st, material) ==>
            r.state.pages == AddTexture(st.pages, material.mainTexture.value, inAtlas.value, pack).pages
            && r.oversized == AddTexture(st.pages, material.mainTexture.value, inAtlas.value, pack).oversized
            && r.state.processed == if r.oversized then st.processed else st.processed + [material.mainTexture.value])
  {
    if Compatible(material) {
      ProcessTextureEffect(st.pages, st.processed, material.mainTexture, inAtlas, pack);
    }
  }

  /** Every material that does not abort the combine keeps the invariant. */
  lemma ProcessMaterialKeepsInv(st: CombineState, renderer: MeshRenderer, material: Material,
                                inAtlas: Option<Texture2D>, pack: Packer)
    requires Inv(st) && (NewTexture(st, material) ==> inAtlas.Some?)
    ensures var r := ProcessMaterial(st, renderer, material, inAtlas, pack);
      !r.oversized ==> Inv(r.state)
  {
    var r := ProcessMaterial(st, renderer, material, inAtlas, pack);
    ProcessMaterialEffect(st, renderer, material, inAtlas, pack);
    RecordAdds(st.renderers, renderer);
    if NewTexture(st, material) && !r.oversized {
      AddTextureAddsOriginal(st.pages, material.mainTexture.value, inAtlas.value, pack);
      var main := material.mainTexture.value;
      assert NoDup(st.processed + [main]) by {
        var s := st.processed + [main];
        forall a, b | 0 <= a < b < |s| ensures s[a] != s[b] {
          if b == |s| - 1 { assert s[a] == st.processed[a]; }
        }
      }
    }
  }

  lemma AllOriginalsSnoc(pages: seq<Page>, page: Page)
    ensures AllOriginals(pages + [page]) == AllOriginals(pages) + page.original
  {
    assert (pages + [page])[..|pages|] == pages;
  }

  lemma {:induction false} InAllOriginals(pages: seq<Page>, p: nat, t: Texture2D)
    requires p < |pages| && t in pages[p].original
    ensures t in multiset(AllOriginals(pages))
  {
    var n := |pages|;
    if p < n - 1 {
      assert pages[..n - 1][p] == pages[p];
      InAllOriginals(pages[..n - 1], p, t);
    }
  }

  /** A texture on two different pages occurs twice among the originals. */
  lemma {:induction false} TwoPagesCountTwice(pages: seq<Page>, p: nat, q: nat, t: Texture2D)
    requires p < q < |pages| && t in pages[p].original && t in pages[q].original
    ensures multiset(AllOriginals(pages))[t] >= 2
  {
    var n := |pages|;
    assert pages[..n - 1][p] == pages[p];
    if q == n - 1 {
      InAllOriginals(pages[..n - 1], p, t);
    } else {
      assert pages[..n - 1][q] == pages[q];
      TwoPagesCountTwice(pages[..n - 1], p, q, t);
    }
  }

  lemma {:induction false} NoDupCountsOnce<T>(s: seq<T>, t: T)
    requires NoDup(s)
    ensures multiset(s)[t] <= 1
  {
    if s != [] {
      var n := |s|;
      assert s == s[..n - 1] + [s[n - 1]];
      NoDupCountsOnce(s[..n - 1], t);
      if s[n - 1] == t {
        assert t !in s[..n - 1];
      }
    }
  }

  /**
   * Between materials every processed texture sits on exactly one page:
   * the lookup made when meshes are remapped finds it, and finds no other page.
   */
  lemma PlacementUnique(st: CombineState, t: Texture2D)
    requires Inv(st) && t in st.processed
    ensures exists p :: 0 <= p < |st.pages| && t in st.pages[p].original
    ensures forall p, q :: (0 <= p < |st.pages| && 0 <= q < |st.pages| &&
      t in st.pages[p].original && t in st.pages[q].original) ==> p == q
  {
    assert t in multiset(AllOriginals(st.pages));
    OriginalOnSomePage(st.pages, t);
    NoDupCountsOnce(st.processed, t);
    forall p, q | 0 <= p < |st.pages| && 0 <= q < |st.pages| &&
      t in st.pages[p].original && t in st.pages[q].original
      ensures p == q
    {
      if p < q { TwoPagesCountTwice(st.pages, p, q, t); }
      if q < p { TwoPagesCountTwice(st.pages, q, p, t); }
    }
  }

  lemma {:induction false} OriginalOnSomePage(pages: seq<Page>, t: Texture2D)
    requires t in multiset(AllOriginals(pages))
    ensures exists p :: 0 <= p < |pages| && t in pages[p].original
  {
    var n := |pages|;
    if t !in pages[n - 1].original {
      OriginalOnSomePage(pages[..n - 1], t);
      var p :| 0 <= p < n - 1 && t in pages[..n - 1][p].original;
      assert pages[..n - 1][p] == pages[p];
    }
  }

  /** One visit of the combine loops: a renderer and one of its shared materials. */
  datatype Use = Use(renderer: MeshRenderer, material: Material)

  /** The visits for one renderer, material by material. */
  function UsesOf(renderer: MeshRenderer, materials: seq<Material>): (r: seq<Use>)
    ensures |r| == |materials|
  {
    seq(|materials|, j requires 0 <= j < |materials| => Use(renderer, materials[j]))
  }

  /** All visits of the two nested loops, in order, `materials[k]` being the shared materials of `renderers[k]`. */
  function UsesFrom(renderers: seq<MeshRenderer>, materials: seq<seq<Material>>): (r: seq<Use>)
    requires |materials| == |renderers|
  {
    if renderers == [] then []
    else
      var n := |renderers|;
      UsesFrom(renderers[..n - 1], materials[..n - 1]) + UsesOf(renderers[n - 1], materials[n - 1])
  }

  /** The renderers' shared materials, as they are when the combine starts. */
  ghost function Materials(renderers: seq<MeshRenderer>): (r: seq<seq<Material>>)
    reads renderers
    ensures |r| == |renderers|
  {
    seq(|renderers|, k reads renderers requires 0 <= k < |renderers| => renderers[k].sharedMaterials)
  }

  ghost function Uses(renderers: seq<MeshRenderer>): seq<Use>
    reads renderers
  {
    UsesFrom(renderers, Materials(renderers))
  }

  /** The state before the first renderer: one empty page, nothing processed or recorded. */
  const Start: CombineState := CombineState([Page([], [], None)], [], [])

  lemma StartInv()
    ensures Inv(Start)
  {
    assert AllOriginals(Start.pages) == AllOriginals([]) + [];
  }

  /** A texture to pack is at hand for every combined material that has a main texture. */
  ghost predicate CopiesGiven(uses: seq<Use>, copies: seq<Option<Texture2D>>) {
    && |copies| == |uses|
    && forall k :: 0 <= k < |uses| && Compatible(uses[k].material) && uses[k].material.mainTexture.Some? ==>
         copies[k].Some?
  }

  /**
   * The two nested loops of `CombineTexturesIntoAtlas` over the visits
   * `uses`, `copies[k]` being the texture packed at visit `k`; the first
   * oversized texture ends the combine.
   */
  function CombineUses(st: CombineState, uses: seq<Use>, copies: seq<Option<Texture2D>>, pack: Packer): (r: MaterialResult)
    requires |st.pages| > 0 && AllParallel(st.pages) && CopiesGiven(uses, copies)
    ensures !r.oversized ==> |r.state.pages| > 0 && AllParallel(r.state.pages)
    decreases |uses|
  {
    if uses == [] then MaterialResult(st, false)
    else
      var n := |uses|;
      var prev := CombineUses(st, uses[..n - 1], copies[..n - 1], pack);
      if prev.oversized then prev
      else
        ProcessMaterialEffect(prev.state, uses[n - 1].renderer, uses[n - 1].material, copies[n - 1], pack);
        ProcessMaterial(prev.state, uses[n - 1].renderer, uses[n - 1].material, copies[n - 1], pack)
  }

  /** Every state the combine reaches without aborting satisfies the invariant. */
  lemma {:induction false} CombineUsesKeepsInv(st: CombineState, uses: seq<Use>, copies: seq<Option<Texture2D>>,
                                               pack: Packer)
    requires Inv(st) && CopiesGiven(uses, copies)
    ensures var r := CombineUses(st, uses, copies, pack);
      !r.oversized ==> Inv(r.state)
    decreases |uses|
  {
    if uses != [] {
      var n := |uses|;
      CombineUsesKeepsInv(st, uses[..n - 1], copies[..n - 1], pack);
      var prev := CombineUses(st, uses[..n - 1], copies[..n - 1], pack);
      if !prev.oversized {
        ProcessMaterialKeepsInv(prev.state, uses[n - 1].renderer, uses[n - 1].material, copies[n - 1], pack);
      }
    }
  }

  /** Unfolding the fold at its last visit. */
  lemma CombineUsesStep(st: CombineState, uses: seq<Use>, copies: seq<Option<Texture2D>>, u: Use, c: Option<Texture2D>,
                        pack: Packer)
    requires |st.pages| > 0 && AllParallel(st.pages) && CopiesGiven(uses + [u], copies + [c])
    ensures CopiesGiven(uses, copies)
    ensures var prev := CombineUses(st, uses, copies, pack);
      CombineUses(st, uses + [u], copies + [c], pack)
        == if prev.oversized then prev else ProcessMaterial(prev.state, u.renderer, u.material, c, pack)
  {
    assert (uses + [u])[..|uses|] == uses;
    assert (copies + [c])[..|copies|] == copies;
    assert forall k :: 0 <= k < |uses| ==> (uses + [u])[k] == uses[k];
  }

  /**
   * What one material does to the recorded lists: they only grow; a
   * combined material that does not abort leaves its renderer and main
   * texture recorded; anything new comes from this material.
   */
  lemma ProcessMaterialRecords(st: CombineState, renderer: MeshRenderer, material: Material,
                               inAtlas: Option<Texture2D>, pack: Packer)
    requires |st.pages| > 0 && AllParallel(st.pages) && (NewTexture(st, material) ==> inAtlas.Some?)
    ensures var r := ProcessMaterial(st, renderer, material, inAtlas, pack);
      && st.processed <= r.state.processed
      && st.renderers <= r.state.renderers
      && (Compatible(material) && !r.oversized ==>
            renderer in r.state.renderers
            && (material.mainTexture.Some? ==> material.mainTexture.value in r.state.processed))
      && (forall x :: x in r.state.renderers ==> x in st.renderers || (Compatible(material) && x == renderer))
      && (forall t :: t in r.state.processed ==>
            t in st.processed || (Compatible(material) && material.mainTexture == Some(t)))
  {
    ProcessMaterialEffect(st, renderer, material, inAtlas, pack);
    RecordAdds(st.renderers, renderer);
  }

  /**
   * A combine that does not abort records the renderer and the main
   * texture of every visited material with a compatible shader.
   */
  lemma {:induction false} CombineUsesCovers(st: CombineState, uses: seq<Use>, copies: seq<Option<Texture2D>>,
                                             pack: Packer, k: nat)
    requires |st.pages| > 0 && AllParallel(st.pages) && CopiesGiven(uses, copies)
    requires k < |uses| && Compatible(uses[k].material)
    ensures var r := CombineUses(st, uses, copies, pack);
      !r.oversized ==>
        && uses[k].renderer in r.state.renderers
        && (uses[k].material.mainTexture.Some? ==> uses[k].material.mainTexture.value in r.state.processed)
    decreases |uses|
  {
    var n := |uses|;
    var front, cs := uses[..n - 1], copies[..n - 1];
    assert uses == front + [uses[n - 1]] && copies == cs + [copies[n - 1]];
    CombineUsesStep(st, front, cs, uses[n - 1], copies[n - 1], pack);
    var prev := CombineUses(st, front, cs, pack);
    if !prev.oversized {
      var u := uses[n - 1];
      ProcessMaterialRecords(prev.state, u.renderer, u.material, copies[n - 1], pack);
      if k < n - 1 {
        CombineUsesCovers(st, front, cs, pack, k);
      }
    }
  }

  /**
   * Conversely, every recorded renderer and processed texture was already
   * recorded or comes from a visited material with a compatible shader.
   */
  lemma {:induction false} CombineUsesSound(st: CombineState, uses: seq<Use>, copies: seq<Option<Texture2D>>,
                                            pack: Packer)
    requires |st.pages| > 0 && AllParallel(st.pages) && CopiesGiven(uses, copies)
    ensures var r := CombineUses(st, uses, copies, pack);
      && (forall x :: x in r.state.renderers ==>
            x in st.renderers || exists k :: 0 <= k < |uses| && Compatible(uses[k].material) && uses[k].renderer == x)
      && (forall t :: t in r.state.processed ==>
            t in st.processed
            || exists k :: 0 <= k < |uses| && Compatible(uses[k].material) && uses[k].material.mainTexture == Some(t))
    decreases |uses|
  {
    if uses != [] {
      var n := |uses|;
      var front, cs := uses[..n - 1], copies[..n - 1];
      assert uses == front + [uses[n - 1]] && copies == cs + [copies[n - 1]];
      CombineUsesStep(st, front, cs, uses[n - 1], copies[n - 1], pack);
      CombineUsesSound(st, front, cs, pack);
      var prev := CombineUses(st, front, cs, pack);
      if !prev.oversized {
        var u := uses[n - 1];
        ProcessMaterialRecords(prev.state, u.renderer, u.material, copies[n - 1], pack);
        var r := CombineUses(st, uses, copies, pack);
        forall x | x in r.state.renderers
          ensures x in st.renderers || exists k :: 0 <= k < n && Compatible(uses[k].material) && uses[k].renderer == x
        {
          if x !in prev.state.renderers {
            assert Compatible(uses[n - 1].material) && uses[n - 1].renderer == x;
          } else if x !in st.renderers {
            var k :| 0 <= k < n - 1 && Compatible(front[k].material) && front[k].renderer == x;
            assert uses[k] == front[k];
          }
        }
        forall t | t in r.state.processed
          ensures t in st.processed
            || exists k :: 0 <= k < n && Compatible(uses[k].material) && uses[k].material.mainTexture == Some(t)
        {
          if t !in prev.state.processed {
            assert Compatible(uses[n - 1].material) && uses[n - 1].material.mainTexture == Some(t);
          } else if t !in st.processed {
            var k :| 0 <= k < n - 1 && Compatible(front[k].material) && front[k].material.mainTexture == Some(t);
            assert uses[k] == front[k];
          }
        }
      } else {
        var r := CombineUses(st, uses, copies, pack);
        assert r == prev;
        forall x | x in r.state.renderers && x !in st.renderers
          ensures exists k :: 0 <= k < n && Compatible(uses[k].material) && uses[k].renderer == x
        {
          var k :| 0 <= k < n - 1 && Compatible(front[k].material) && front[k].renderer == x;
          assert uses[k] == front[k];
        }
        forall t | t in r.state.processed && t !in st.processed
          ensures exists k :: 0 <= k < n && Compatible(uses[k].material) && uses[k].material.mainTexture == Some(t)
        {
          var k :| 0 <= k < n - 1 && Compatible(front[k].material) && front[k].material.mainTexture == Some(t);
          assert uses[k] == front[k];
        }
      }
    }
  }

  /**
   * The texture packed for a material is its main texture or, for a main
   * texture tiled at another scale, a copy twice its size; either way it
   * carries the main texture's name.
   */
  ghost predicate CopyMatches(material: Material, copy: Option<Texture2D>) {
    copy.Some? ==>
      && material.mainTexture.Some?
      && copy.value.name == material.mainTexture.value.name
      && (|| copy.value == material.mainTexture.value
          || (&& material.mainTextureScale != One
              && copy.value.width == 2 * material.mainTexture.value.width
              && copy.value.height == 2 * material.mainTexture.value.height))
  }

  ghost predicate CopiesMatch(uses: seq<Use>, copies: seq<Option<Texture2D>>) {
    |copies| == |uses| && forall k :: 0 <= k < |uses| ==> CopyMatches(uses[k].material, copies[k])
  }

  lemma CopiesMatchStep(uses: seq<Use>, copies: seq<Option<Texture2D>>, u: Use, c: Option<Texture2D>)
    requires CopiesMatch(uses, copies) && CopyMatches(u.material, c)
    ensures CopiesMatch(uses + [u], copies + [c])
  {
    assert forall k :: 0 <= k < |uses| ==> (uses + [u])[k] == uses[k] && (copies + [c])[k] == copies[k];
  }

  /**
   * The visits `uses`, with `copies` the texture packed at each, lead
   * from the start to state `st`, aborted or not.
   */
  ghost predicate Combined(uses: seq<Use>, copies: seq<Option<Texture2D>>, pack: Packer, st: CombineState, oversized: bool) {
    && CopiesGiven(uses, copies)
    && CopiesMatch(uses, copies)
    && CombineUses(Start, uses, copies, pack) == MaterialResult(st, oversized)
  }

  /**
   * No two different main textures of combined materials share a name:
   * the page alignment, which matches textures by name, relies on it.
   */
  ghost predicate NamesIdentify(uses: seq<Use>) {
    forall k, l ::
      && 0 <= k < |uses| && 0 <= l < |uses|
      && Compatible(uses[k].material) && Compatible(uses[l].material)
      && uses[k].material.mainTexture.Some? && uses[l].material.mainTexture.Some?
      && uses[k].material.mainTexture.value.name == uses[l].material.mainTexture.value.name
      ==> uses[k].material.mainTexture == uses[l].material.mainTexture
  }

  /** Every combined material whose main texture has `main`'s name has `main` itself. */
  ghost predicate OnlyOneNamed(uses: seq<Use>, main: Texture2D) {
    forall k :: 0 <= k < |uses| && Compatible(uses[k].material) && uses[k].material.mainTexture.Some? ==>
      (uses[k].material.mainTexture.value.name == main.name ==> uses[k].material.mainTexture.value == main)
  }

  /** Every page's two lists agree name by name, and no page holds a name twice. */
  ghost predicate PagesAligned(pages: seq<Page>) {
    forall p :: 0 <= p < |pages| ==>
      Names(pages[p].original) == Names(pages[p].inAtlas) && DistinctNames(pages[p].inAtlas)
  }

  /**
   * A main texture not processed yet, whose name no visited main texture
   * of another identity carries, has a name the current page lacks.
   */
  lemma NewNameMissing(uses: seq<Use>, copies: seq<Option<Texture2D>>, pack: Packer, main: Texture2D)
    requires CopiesGiven(uses, copies)
    requires OnlyOneNamed(uses, main)
    ensures var r := CombineUses(Start, uses, copies, pack);
      !r.oversized && main !in r.state.processed ==>
        main.name !in Names(r.state.pages[|r.state.pages| - 1].original)
  {
    var r := CombineUses(Start, uses, copies, pack);
    if !r.oversized && main !in r.state.processed {
      StartInv();
      CombineUsesKeepsInv(Start, uses, copies, pack);
      CombineUsesSound(Start, uses, copies, pack);
      var pages := r.state.pages;
      var cur := pages[|pages| - 1];
      forall i | 0 <= i < |cur.original| ensures cur.original[i].name != main.name {
        var t := cur.original[i];
        InAllOriginals(pages, |pages| - 1, t);
        assert t in r.state.processed;
        var k :| 0 <= k < |uses| && Compatible(uses[k].material) && uses[k].material.mainTexture == Some(t);
      }
    }
  }

  /** Adding a texture whose name the current page lacks keeps every page aligned. */
  lemma AddTextureKeepsAligned(pages: seq<Page>, main: Texture2D, inAtlas: Texture2D, pack: Packer)
    requires |pages| > 0 && AllParallel(pages) && PagesAligned(pages)
    requires inAtlas.name == main.name && main.name !in Names(pages[|pages| - 1].original)
    ensures var r := AddTexture(pages, main, inAtlas, pack); !r.oversized ==> PagesAligned(r.pages)
  {
    AddTextureKeepsAlignment(pages, main, inAtlas, pack);
    AddTextureShape(pages, main, inAtlas, pack);
    var r := AddTexture(pages, main, inAtlas, pack);
    forall p | 0 <= p < |r.pages| - 1
      ensures Names(r.pages[p].original) == Names(r.pages[p].inAtlas) && DistinctNames(r.pages[p].inAtlas)
    {
      if p < |pages| - 1 {
        assert r.pages[p] == r.pages[..|pages| - 1][p] == pages[p];
      }
    }
  }

  /** One material keeps every page aligned when a new main texture brings a name the current page lacks. */
  lemma ProcessMaterialKeepsAligned(st: CombineState, renderer: MeshRenderer, material: Material,
                                    inAtlas: Option<Texture2D>, pack: Packer)
    requires |st.pages| > 0 && AllParallel(st.pages) && PagesAligned(st.pages)
    requires (NewTexture(st, material) ==> inAtlas.Some?) && CopyMatches(material, inAtlas)
    requires NewTexture(st, material) ==>
      material.mainTexture.value.name !in Names(st.pages[|st.pages| - 1].original)
    ensures var r := ProcessMaterial(st, renderer, material, inAtlas, pack);
      !r.oversized ==> PagesAligned(r.state.pages)
  {
    ProcessMaterialEffect(st, renderer, material, inAtlas, pack);
    if NewTexture(st, material) {
      AddTextureKeepsAligned(st.pages, material.mainTexture.value, inAtlas.value, pack);
    }
  }

  /** What the visits before the last inherit from all of them, and what the last one brings. */
  lemma AlignedPrefix(uses: seq<Use>, copies: seq<Option<Texture2D>>)
    requires |uses| > 0 && CopiesMatch(uses, copies) && NamesIdentify(uses)
    ensures var n := |uses|; var u := uses[n - 1];
      && CopiesMatch(uses[..n - 1], copies[..n - 1]) && NamesIdentify(uses[..n - 1])
      && CopyMatches(u.material, copies[n - 1])
      && (Compatible(u.material) && u.material.mainTexture.Some? ==>
            OnlyOneNamed(uses[..n - 1], u.material.mainTexture.value))
  {
    var n := |uses|;
    assert forall k :: 0 <= k < n - 1 ==> uses[..n - 1][k] == uses[k] && copies[..n - 1][k] == copies[k];
  }

  /**
   * When main textures are told apart by name, every page the combine
   * builds keeps its original and packed lists aligned name by name, with
   * no name twice: the alignment `rects[texturesOriginal.IndexOf(t)]`
   * relies on holds across the whole combine.
   */
  lemma {:induction false} CombineUsesKeepsAligned(uses: seq<Use>, copies: seq<Option<Texture2D>>, pack: Packer)
    requires CopiesGiven(uses, copies) && CopiesMatch(uses, copies) && NamesIdentify(uses)
    ensures var r := CombineUses(Start, uses, copies, pack);
      !r.oversized ==> PagesAligned(r.state.pages)
    decreases |uses|
  {
    if uses == [] {
      assert Names([]) == [];
    } else {
      var n := |uses|;
      var u := uses[n - 1];
      AlignedPrefix(uses, copies);
      CombineUsesKeepsAligned(uses[..n - 1], copies[..n - 1], pack);
      var prev := CombineUses(Start, uses[..n - 1], copies[..n - 1], pack);
      if !prev.oversized {
        if NewTexture(prev.state, u.material) {
          NewNameMissing(uses[..n - 1], copies[..n - 1], pack, u.material.mainTexture.value);
        }
        ProcessMaterialKeepsAligned(prev.state, u.renderer, u.material, copies[n - 1], pack);
      }
    }
  }

  /** The visits of a renderer's first `j + 1` materials extend those of its first `j`. */
  lemma UsesOfStep(renderer: MeshRenderer, materials: seq<Material>, j: nat)
    requires j < |materials|
    ensures UsesOf(renderer, materials[..j + 1]) == UsesOf(renderer, materials[..j]) + [Use(renderer, materials[j])]
  {
  }

  /** The visits of the first `i + 1` renderers extend those of the first `i`. */
  lemma UsesStep(renderers: seq<MeshRenderer>, materials: seq<seq<Material>>, i: nat)
    requires |materials| == |renderers| && i < |renderers|
    ensures UsesFrom(renderers[..i + 1], materials[..i + 1])
         == UsesFrom(renderers[..i], materials[..i]) + UsesOf(renderers[i], materials[i])
  {
    assert renderers[..i + 1][..i] == renderers[..i];
    assert materials[..i + 1][..i] == materials[..i];
  }

  /** The visits made so far are a prefix of all visits. */
  lemma {:induction false} UsesPrefix(renderers: seq<MeshRenderer>, materials: seq<seq<Material>>, i: nat)
    requires |materials| == |renderers| && i <= |renderers|
    ensures UsesFrom(renderers[..i], materials[..i]) <= UsesFrom(renderers, materials)
    decreases |renderers|
  {
    if i < |renderers| {
      var n := |renderers|;
      UsesPrefix(renderers[..n - 1], materials[..n - 1], i);
      assert renderers[..n - 1][..i] == renderers[..i];
      assert materials[..n - 1][..i] == materials[..i];
    } else {
      assert renderers[..i] == renderers && materials[..i] == materials;
    }
  }

  /** The visits up to material `j` of renderer `i` are a prefix of all visits. */
  lemma UsesPrefixAt(renderers: seq<MeshRenderer>, materials: seq<seq<Material>>, i: nat, j: nat)
    requires |materials| == |renderers| && i < |renderers| && j <= |materials[i]|
    ensures UsesFrom(renderers[..i], materials[..i]) + UsesOf(renderers[i], materials[i][..j])
         <= UsesFrom(renderers, materials)
  {
    UsesStep(renderers, materials, i);
    UsesPrefix(renderers, materials, i + 1);
    assert UsesOf(renderers[i], materials[i][..j]) <= UsesOf(renderers[i], materials[i]);
  }
}
