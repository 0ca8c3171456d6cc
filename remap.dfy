/**
 * What `UpdateMeshes` computes for one renderer, as functions on values:
 * where each material's main texture was placed, the vertex colour that
 * tells the tiling shader a texture's scale and width, and the buffers
 * and material list after every slot has been visited.
 */
module Remap {
  import opened Wrappers
  import opened UnityTypes
  import opened AtlasPage
  import opened SizeSort
  import opened Combine

  /** The first position of `x` in `s`, or `|s|` when it does not occur. */
  function FirstIndex<T(==)>(s: seq<T>, x: T): (r: nat)
    ensures r <= |s|
  {
    if s == [] then 0
    else if s[0] == x then 0
    else 1 + FirstIndex(s[1..], x)
  }

  /** `FirstIndex` is the first occurrence, and `|s|` exactly when there is none. */
  lemma {:induction false} FirstIndexFinds<T>(s: seq<T>, x: T)
    ensures var r := FirstIndex(s, x);
      && (r < |s| ==> s[r] == x)
      && (forall k :: 0 <= k < r ==> s[k] != x)
      && (r == |s| <==> x !in s)
  {
    if s != [] && s[0] != x {
      FirstIndexFinds(s[1..], x);
      assert s == [s[0]] + s[1..];
      forall k | 0 < k < FirstIndex(s, x) ensures s[k] != x {
        assert s[k] == s[1..][k - 1];
      }
    }
  }

  /** `List.IndexOf`: the first position holding `t` (by reference), or -1. */
  function IndexOf(s: seq<Texture2D>, t: Texture2D): (r: int)
    ensures -1 <= r < |s|
  {
    var i := FirstIndex(s, t);
    if i < |s| then i else -1
  }

  /** A found index holds `t` and is the first to; -1 exactly when `t` is absent. */
  lemma IndexOfFinds(s: seq<Texture2D>, t: Texture2D)
    ensures var r := IndexOf(s, t);
      && (r >= 0 ==> s[r] == t && forall k :: 0 <= k < r ==> s[k] != t)
      && (r == -1 <==> t !in s)
  {
    FirstIndexFinds(s, t);
  }

  /** The first page whose original textures hold `t`, as `GetAtlasContainingTexture` finds it. */
  function PageOf(pages: seq<Page>, t: Texture2D): (r: Option<nat>)
    ensures r.Some? ==> r.value < |pages|
  {
    if pages == [] then None
    else if t in pages[0].original then Some(0)
    else
      match PageOf(pages[1..], t)
      case None => None
      case Some(p) => Some(p + 1)
  }

  /** `PageOf` answers the first page holding `t`, and `None` exactly when no page does. */
  lemma {:induction false} PageOfFinds(pages: seq<Page>, t: Texture2D)
    ensures var r := PageOf(pages, t);
      && (r.Some? ==> t in pages[r.value].original && forall k :: 0 <= k < r.value ==> t !in pages[k].original)
      && (r.None? <==> forall k :: 0 <= k < |pages| ==> t !in pages[k].original)
  {
    if pages != [] && t !in pages[0].original {
      PageOfFinds(pages[1..], t);
      var r := PageOf(pages[1..], t);
      if r.None? {
        forall k | 0 <= k < |pages| ensures t !in pages[k].original {
          if k > 0 { assert pages[k] == pages[1..][k - 1]; }
        }
      } else {
        forall k | 0 <= k < r.value + 1 ensures t !in pages[k].original {
          if k > 0 { assert pages[k] == pages[1..][k - 1]; }
        }
      }
    }
  }

  /** Every page holding a texture has one packer rectangle per packed texture. */
  ghost predicate Packed(pages: seq<Page>) {
    forall p :: 0 <= p < |pages| && |pages[p].original| > 0 ==>
      pages[p].rects.Some? && |pages[p].rects.value| == |pages[p].inAtlas|
  }

  /** What the lookup of one material slot yields. */
  datatype Slot =
    | Skip                        // not combined: incompatible shader or no main texture
    | Fail                        // the lookup throws: no page, null rects, or an index out of range
    | Place(page: nat, rect: Rect)

  /**
   * Lines 237-247 of the slot loop: a combined material with a main
   * texture is looked up on the first page holding it, and its rectangle
   * is the one at the texture's position in that page's originals.
   */
  function SlotOf(pages: seq<Page>, material: Material): (r: Slot)
    ensures r.Place? ==> r.page < |pages|
  {
    if !Compatible(material) || material.mainTexture.None? then Skip
    else
      var t := material.mainTexture.value;
      match PageOf(pages, t)
      case None => Fail
      case Some(p) =>
        match pages[p].rects
        case None => Fail
        case Some(rects) =>
          var index := IndexOf(pages[p].original, t);
          if 0 <= index < |rects| then Place(p, rects[index]) else Fail
  }

  /**
   * A placed slot's rectangle is the packer's rectangle for the texture:
   * its page is the first holding it, and the rectangle sits at the
   * texture's first position among that page's originals.
   */
  lemma SlotOfPlaces(pages: seq<Page>, material: Material)
    requires SlotOf(pages, material).Place?
    ensures var s := SlotOf(pages, material); var t := material.mainTexture.value;
      && Compatible(material) && material.mainTexture.Some?
      && t in pages[s.page].original
      && (forall k :: 0 <= k < s.page ==> t !in pages[k].original)
      && pages[s.page].rects.Some?
      && exists i :: 0 <= i < |pages[s.page].original| && i < |pages[s.page].rects.value|
           && pages[s.page].original[i] == t && pages[s.page].rects.value[i] == s.rect
           && forall k :: 0 <= k < i ==> pages[s.page].original[k] != t
  {
    var t := material.mainTexture.value;
    PageOfFinds(pages, t);
    var p := PageOf(pages, t).value;
    IndexOfFinds(pages[p].original, t);
  }

  /**
   * Over the state the combine leaves (`Inv`), with every page holding a
   * texture packed one rectangle per texture, the lookup of a combined
   * material whose main texture was processed never throws, and its page
   * is the only one holding the texture.
   */
  lemma SlotOfAfterCombine(st: CombineState, material: Material)
    requires Inv(st) && Packed(st.pages)
    requires Compatible(material) && material.mainTexture.Some? && material.mainTexture.value in st.processed
    ensures SlotOf(st.pages, material).Place?
    ensures forall q :: 0 <= q < |st.pages| && material.mainTexture.value in st.pages[q].original ==>
      q == SlotOf(st.pages, material).page
  {
    var t := material.mainTexture.value;
    PlacementUnique(st, t);
    PageOfFinds(st.pages, t);
    var p := PageOf(st.pages, t).value;
    IndexOfFinds(st.pages[p].original, t);
  }

  /**
   * The packer returns one rectangle per texture when `textures` fit; a
   * packer is sound when this holds for all texture lists.
   */
  predicate RectPerTexture(pack: Packer, textures: seq<Texture2D>) {
    Pack(pack, textures).Some? ==> |Pack(pack, textures).value| == |textures|
  }

  /** Adding a texture without aborting leaves every non-empty page with its rectangles. */
  lemma AddTextureKeepsPacked(pages: seq<Page>, main: Texture2D, inAtlas: Texture2D, pack: Packer)
    requires |pages| > 0 && AllParallel(pages) && Packed(pages)
    requires forall textures :: RectPerTexture(pack, textures)
    ensures var r := AddTexture(pages, main, inAtlas, pack);
      !r.oversized ==> Packed(r.pages)
  {
    AddTextureShape(pages, main, inAtlas, pack);
    var r := AddTexture(pages, main, inAtlas, pack);
    var n := |pages|;
    if !r.oversized {
      forall p | 0 <= p < |r.pages| && |r.pages[p].original| > 0
        ensures r.pages[p].rects.Some? && |r.pages[p].rects.value| == |r.pages[p].inAtlas|
      {
        var merged := SortBySize(pages[n - 1].inAtlas + [inAtlas]);
        assert RectPerTexture(pack, merged) && RectPerTexture(pack, [inAtlas]);
        if p < n - 1 {
          assert r.pages[p] == r.pages[..n - 1][p] == pages[p];
        }
      }
    }
  }

  /** The combine, visit by visit, keeps `Packed` until it aborts. */
  lemma {:induction false} CombineUsesKeepsPacked(st: CombineState, uses: seq<Use>, copies: seq<Option<Texture2D>>,
                                                  pack: Packer)
    requires |st.pages| > 0 && AllParallel(st.pages) && Packed(st.pages)
    requires forall textures :: RectPerTexture(pack, textures)
    requires CopiesGiven(uses, copies)
    ensures var r := CombineUses(st, uses, copies, pack);
      !r.oversized ==> Packed(r.state.pages)
    decreases |uses|
  {
    if uses != [] {
      var n := |uses|;
      CombineUsesKeepsPacked(st, uses[..n - 1], copies[..n - 1], pack);
      var prev := CombineUses(st, uses[..n - 1], copies[..n - 1], pack);
      if !prev.oversized {
        var u := uses[n - 1];
        ProcessMaterialEffect(prev.state, u.renderer, u.material, copies[n - 1], pack);
        if NewTexture(prev.state, u.material) {
          AddTextureKeepsPacked(prev.state.pages, u.material.mainTexture.value, copies[n - 1].value, pack);
        }
      }
    }
  }

  /** A combine that did not abort ends in the invariant, with every non-empty page packed. */
  lemma CombinedInvPacked(uses: seq<Use>, copies: seq<Option<Texture2D>>, pack: Packer)
    requires CopiesGiven(uses, copies) && forall textures :: RectPerTexture(pack, textures)
    ensures var r := CombineUses(Start, uses, copies, pack);
      !r.oversized ==> Inv(r.state) && Packed(r.state.pages)
  {
    StartInv();
    CombineUsesKeepsInv(Start, uses, copies, pack);
    CombineUsesKeepsPacked(Start, uses, copies, pack);
  }

  /**
   * After a combine that did not abort, with a sound packer, no visited
   * material makes the remapping lookup throw: its main texture sits on a
   * page with rectangles, at a position they cover.
   */
  lemma CombinedSlotResolves(uses: seq<Use>, copies: seq<Option<Texture2D>>, pack: Packer, k: nat)
    requires CopiesGiven(uses, copies) && (forall textures :: RectPerTexture(pack, textures)) && k < |uses|
    ensures var r := CombineUses(Start, uses, copies, pack);
      !r.oversized ==> !SlotOf(r.state.pages, uses[k].material).Fail?
  {
    var r := CombineUses(Start, uses, copies, pack);
    var material := uses[k].material;
    if !r.oversized && Compatible(material) && material.mainTexture.Some? {
      CombinedInvPacked(uses, copies, pack);
      CombineUsesCovers(Start, uses, copies, pack, k);
      SlotOfAfterCombine(r.state, material);
    }
  }

  /**
   * What the crossing does to a slot: a page holding texture `a`, joined by
   * a different texture `b` of the same name that is no larger in either
   * dimension and smaller in one, packs `[a, b]` with rectangles `[ra, rb]`
   * (the comparator orders these two consistently, so any sort agrees), yet
   * `a`'s material is placed on `rb`, the rectangle packed for `b`.
   */
  lemma SameNameTakesOtherRect(a: Texture2D, b: Texture2D, ra: Rect, rb: Rect, material: Material)
    requires a != b && a.name == b.name
    requires a.width >= b.width && a.height >= b.height && (a.width > b.width || a.height > b.height)
    requires Compatible(material) && material.mainTexture == Some(a)
    ensures var page := CommittedPage(Page([a], [a], None), b, b, [ra, rb]);
      page.inAtlas == [a, b] && page.original == [b, a] && SlotOf([page], material) == Place(0, rb)
  {
    var page := CommittedPage(Page([a], [a], None), b, b, [ra, rb]);
    SortSingleton(a);
    assert SortBySize([a] + [b]) == [a, b] by {
      assert [a] + [b] == [a, b] && [a, b][..1] == [a];
      assert Insert([a], b) == [a, b];
    }
    SameNameCrossed(a, b);
    assert page.original == [b, a];
    assert IndexOf([b, a], a) == 1 by { IndexOfFinds([b, a], a); }
  }

  /**
   * On aligned pages a placed slot's rectangle is the one packed for a
   * texture carrying the main texture's name: the rectangle at the
   * texture's position in `texturesOriginal` belongs to the packed list's
   * entry at that same position.
   */
  lemma PlacedOnOwnCopy(pages: seq<Page>, material: Material)
    requires PagesAligned(pages) && SlotOf(pages, material).Place?
    ensures var s := SlotOf(pages, material); var page := pages[s.page];
      var t := material.mainTexture.value; var i := IndexOf(page.original, t);
      && 0 <= i < |page.inAtlas|
      && page.inAtlas[i].name == t.name
      && page.rects.Some? && i < |page.rects.value| && s.rect == page.rects.value[i]
  {
    var s := SlotOf(pages, material);
    var page := pages[s.page];
    var t := material.mainTexture.value;
    var i := IndexOf(page.original, t);
    IndexOfFinds(page.original, t);
    assert Names(page.original)[i] == Names(page.inAtlas)[i];
  }

  /**
   * After a combine that did not abort, over materials whose main textures
   * are told apart by name, every combined material with a main texture is
   * placed, and on the rectangle packed for its own (name-matching) copy.
   */
  lemma CombinedSlotOnOwnCopy(uses: seq<Use>, copies: seq<Option<Texture2D>>, pack: Packer, k: nat)
    requires CopiesGiven(uses, copies) && CopiesMatch(uses, copies) && NamesIdentify(uses)
    requires (forall textures :: RectPerTexture(pack, textures)) && k < |uses|
    requires Compatible(uses[k].material) && uses[k].material.mainTexture.Some?
    ensures var r := CombineUses(Start, uses, copies, pack);
      !r.oversized ==>
        var s := SlotOf(r.state.pages, uses[k].material);
        && s.Place?
        && var page := r.state.pages[s.page]; var t := uses[k].material.mainTexture.value;
           var i := IndexOf(page.original, t);
           0 <= i < |page.inAtlas| && page.inAtlas[i].name == t.name && s.rect == page.rects.value[i]
  {
    var r := CombineUses(Start, uses, copies, pack);
    if !r.oversized {
      CombinedSlotResolves(uses, copies, pack, k);
      CombineUsesKeepsAligned(uses, copies, pack);
      PlacedOnOwnCopy(r.state.pages, uses[k].material);
    }
  }

  /**
   * Remapping right after a combine of the same renderers that did not
   * abort throws for none of them.
   */
  lemma CombinedRenderersResolve(renderers: seq<MeshRenderer>, materials: seq<seq<Material>>,
                                 copies: seq<Option<Texture2D>>, pack: Packer)
    requires |materials| == |renderers| && (forall textures :: RectPerTexture(pack, textures))
    requires CopiesGiven(UsesFrom(renderers, materials), copies)
    ensures var r := CombineUses(Start, UsesFrom(renderers, materials), copies, pack);
      !r.oversized ==> FirstFailing(r.state.pages, materials) == |materials|
  {
    var uses := UsesFrom(renderers, materials);
    var r := CombineUses(Start, uses, copies, pack);
    if !r.oversized {
      forall i | 0 <= i < |materials| ensures !Fails(r.state.pages, materials[i]) {
        FirstFailFinds(r.state.pages, materials[i]);
        var j := FirstFail(r.state.pages, materials[i]);
        if j < |materials[i]| {
          UsesPrefixAt(renderers, materials, i, j + 1);
          var front := UsesFrom(renderers[..i], materials[..i]);
          var k := |front| + j;
          assert uses[k] == (front + UsesOf(renderers[i], materials[i][..j + 1]))[k] == Use(renderers[i], materials[i][j]);
          CombinedSlotResolves(uses, copies, pack, k);
          assert false;
        }
      }
      FirstFailingFinds(r.state.pages, materials);
    }
  }

  /** Lines 258-263: the vertex colour carrying a material's texture scale and its rectangle's width. */
  function VertexColor(scale: Vec2, width: real): Color {
    if scale.x != 1.0 || scale.y != 1.0 then Color(scale.x / 128.0, scale.y / 128.0, width / 2.0, 1.0)
    else Color(scale.x / 128.0, scale.y / 128.0, width, 0.0)
  }

  /** The texture scale the tiling shader reads back from a vertex colour. */
  function DecodedScale(c: Color): Vec2 {
    Vec2(c.r * 128.0, c.g * 128.0)
  }

  /** The rectangle width the tiling shader reads back: halved when the alpha flags a tiled texture. */
  function DecodedWidth(c: Color): real {
    if c.a == 1.0 then c.b * 2.0 else c.b
  }

  /**
   * The colour encoding round-trips: the scale and width come back, and
   * the alpha is 1 exactly for a tiled (non-unit) scale and 0 otherwise.
   */
  lemma VertexColorDecodes(scale: Vec2, width: real)
    ensures DecodedScale(VertexColor(scale, width)) == scale
    ensures DecodedWidth(VertexColor(scale, width)) == width
    ensures VertexColor(scale, width).a == (if scale != One then 1.0 else 0.0)
  {
  }

  /** Lines 224-233: a mesh buffer, or `count` default entries when the buffer is empty. */
  function OrDefault<T>(buffer: seq<T>, count: nat, default: T): (r: seq<T>)
    ensures |buffer| > 0 ==> r == buffer
    ensures |buffer| == 0 ==> |r| == count && forall k :: 0 <= k < count ==> r[k] == default
  {
    if |buffer| == 0 then seq(count, _ => default) else buffer
  }

  /** The colour buffer before any slot (lines 224-227). */
  function InitialColors(mesh: Mesh): seq<Color> {
    OrDefault(mesh.colors, mesh.vertexCount, ClearColor)
  }

  /** The `newUv` and `newUv2` buffers before any slot (lines 229-233). */
  function InitialUv(mesh: Mesh): seq<Vec2> {
    OrDefault(mesh.uv, mesh.vertexCount, Zero2)
  }

  /** The colours after every vertex named by `tris` is set to `c`. */
  function Paint(colors: seq<Color>, tris: seq<int>, c: Color): (r: seq<Color>)
    ensures |r| == |colors|
  {
    seq(|colors|, v requires 0 <= v < |colors| => if v in tris then c else colors[v])
  }

  /** The UV2 buffer after its first `n` entries are set to `p`. */
  function Fill(uv2: seq<Vec2>, n: nat, p: Vec2): (r: seq<Vec2>)
    ensures |r| == |uv2|
  {
    seq(|uv2|, k requires 0 <= k < |uv2| => if k < n then p else uv2[k])
  }

  /**
   * Lines 315-323: a fresh UV array of the input's length whose first four
   * entries are the corners of `rect`, bottom-left, top-right, bottom-right,
   * top-left, and whose other entries keep the default zero vector; an
   * input shorter than four entries makes the first out-of-range write throw.
   */
  function RecalculateUVs(uv: seq<Vec2>, rect: Rect): (r: Option<seq<Vec2>>)
    ensures r.None? <==> |uv| < 4
    ensures r.Some? ==> |r.value| == |uv| && forall k :: 4 <= k < |uv| ==> r.value[k] == Zero2
    ensures r.Some? ==> r.value[..4] == [Vec2(rect.x, rect.y), Vec2(rect.x + rect.width, rect.y + rect.height),
                                         Vec2(rect.x + rect.width, rect.y), Vec2(rect.x, rect.y + rect.height)]
  {
    if |uv| < 4 then None
    else
      var corners := [Vec2(rect.x, rect.y), Vec2(rect.x + rect.width, rect.y + rect.height),
                      Vec2(rect.x + rect.width, rect.y), Vec2(rect.x, rect.y + rect.height)];
      Some(corners + seq(|uv| - 4, _ => Zero2))
  }

  /** `p` lies in the closed rectangle `rect`. */
  predicate InRect(p: Vec2, rect: Rect) {
    rect.x <= p.x <= rect.x + rect.width && rect.y <= p.y <= rect.y + rect.height
  }

  /**
   * The four recomputed UVs of a rectangle with a non-negative size lie in
   * it and form a quad: entries 0 and 1 are its lowest and highest corners,
   * entries 2 and 3 the other diagonal, and the two diagonals share their
   * midpoint, the rectangle's centre.
   */
  lemma RecalculateUVsQuad(uv: seq<Vec2>, rect: Rect)
    requires |uv| >= 4 && rect.width >= 0.0 && rect.height >= 0.0
    ensures var q := RecalculateUVs(uv, rect).value;
      && (forall k :: 0 <= k < 4 ==> InRect(q[k], rect))
      && (forall k :: 0 <= k < 4 ==> q[0].x <= q[k].x <= q[1].x && q[0].y <= q[k].y <= q[1].y)
      && q[0].x + q[1].x == q[2].x + q[3].x == 2.0 * rect.x + rect.width
      && q[0].y + q[1].y == q[2].y + q[3].y == 2.0 * rect.y + rect.height
      && ((rect.width > 0.0 || rect.height > 0.0) ==> q[2] != q[3])
  {
  }

  /** A renderer's material list and new buffers, as far as the slots go. */
  datatype Remapped = Remapped(materials: seq<Material>, colors: seq<Color>, uv2: seq<Vec2>)

  /**
   * Slot `j` (material `material`) applied to the buffers: a placed
   * texture repaints sub-mesh `j`, if the mesh has one, fills the UV2
   * entries with the rectangle's corner, and puts the page's material in
   * slot `j`; any other slot changes nothing.
   */
  function ApplySlot(pages: seq<Page>, pageMaterials: seq<Material>, mesh: Mesh, material: Material, j: nat,
                     prev: Remapped): (r: Remapped)
    requires |pageMaterials| == |pages| && j < |prev.materials|
    ensures |r.materials| == |prev.materials| && |r.colors| == |prev.colors| && |r.uv2| == |prev.uv2|
  {
    match SlotOf(pages, material)
    case Place(p, rect) =>
      Remapped(prev.materials[j := pageMaterials[p]],
               if j < |mesh.subMeshes|
               then Paint(prev.colors, mesh.subMeshes[j], VertexColor(material.mainTextureScale, rect.width))
               else prev.colors,
               if |mesh.uv| <= |prev.uv2| then Fill(prev.uv2, |mesh.uv|, Vec2(rect.x, rect.y)) else prev.uv2)
    case _ => prev
  }

  /** The first `n` slots of a renderer with materials `materials` and mesh `mesh`. */
  function RemapPrefix(pages: seq<Page>, pageMaterials: seq<Material>, mesh: Mesh, materials: seq<Material>,
                       n: nat): (r: Remapped)
    requires |pageMaterials| == |pages| && n <= |materials|
    ensures |r.materials| == |materials|
    ensures |r.colors| == |InitialColors(mesh)| && |r.uv2| == |InitialUv(mesh)|
  {
    if n == 0 then Remapped(materials, InitialColors(mesh), InitialUv(mesh))
    else ApplySlot(pages, pageMaterials, mesh, materials[n - 1], n - 1,
                   RemapPrefix(pages, pageMaterials, mesh, materials, n - 1))
  }

  /** The first slot whose lookup throws, or `|materials|` when none does. */
  function FirstFail(pages: seq<Page>, materials: seq<Material>): (r: nat)
    ensures r <= |materials|
  {
    if materials == [] then 0
    else if SlotOf(pages, materials[0]).Fail? then 0
    else 1 + FirstFail(pages, materials[1..])
  }

  /** `FirstFail` is the first failing slot. */
  lemma {:induction false} FirstFailFinds(pages: seq<Page>, materials: seq<Material>)
    ensures var r := FirstFail(pages, materials);
      && (forall k :: 0 <= k < r ==> !SlotOf(pages, materials[k]).Fail?)
      && (r < |materials| ==> SlotOf(pages, materials[r]).Fail?)
  {
    if materials != [] && !SlotOf(pages, materials[0]).Fail? {
      FirstFailFinds(pages, materials[1..]);
      forall k | 0 < k < FirstFail(pages, materials) ensures !SlotOf(pages, materials[k]).Fail? {
        assert materials[k] == materials[1..][k - 1];
      }
    }
  }

  /** The slot `j` of a renderer's material list after all its slots: a placed one holds its page's material. */
  lemma {:induction false} RemapMaterials(pages: seq<Page>, pageMaterials: seq<Material>, mesh: Mesh,
                                          materials: seq<Material>, n: nat, j: nat)
    requires |pageMaterials| == |pages| && n <= |materials| && j < |materials|
    ensures var s := SlotOf(pages, materials[j]);
      RemapPrefix(pages, pageMaterials, mesh, materials, n).materials[j]
        == if j < n && s.Place? then pageMaterials[s.page] else materials[j]
  {
    if n > 0 {
      RemapMaterials(pages, pageMaterials, mesh, materials, n - 1, j);
    }
  }

  /** Slot `j` repaints vertex `v`: it is placed, has a sub-mesh, and that sub-mesh names `v`. */
  predicate Paints(pages: seq<Page>, mesh: Mesh, materials: seq<Material>, j: nat, v: int)
    requires j < |materials|
  {
    && SlotOf(pages, materials[j]).Place?
    && j < |mesh.subMeshes|
    && v in mesh.subMeshes[j]
  }

  /** The colour slot `j` paints with. */
  function SlotColor(pages: seq<Page>, materials: seq<Material>, j: nat): Color
    requires j < |materials| && SlotOf(pages, materials[j]).Place?
  {
    VertexColor(materials[j].mainTextureScale, SlotOf(pages, materials[j]).rect.width)
  }

  /** A vertex no slot up to `n` repaints keeps its initial colour. */
  lemma {:induction false} RemapColorsKeep(pages: seq<Page>, pageMaterials: seq<Material>, mesh: Mesh,
                                           materials: seq<Material>, n: nat, v: nat)
    requires |pageMaterials| == |pages| && n <= |materials| && v < |InitialColors(mesh)|
    requires forall j :: 0 <= j < n ==> !Paints(pages, mesh, materials, j, v)
    ensures RemapPrefix(pages, pageMaterials, mesh, materials, n).colors[v] == InitialColors(mesh)[v]
  {
    if n > 0 {
      RemapColorsKeep(pages, pageMaterials, mesh, materials, n - 1, v);
      SlotStep(pages, pageMaterials, mesh, materials, n - 1);
    }
  }

  /**
   * The last slot wins: a vertex repainted by slot `j` and by no later
   * slot up to `n` has slot `j`'s colour.
   */
  lemma {:induction false} RemapColorsLast(pages: seq<Page>, pageMaterials: seq<Material>, mesh: Mesh,
                                           materials: seq<Material>, n: nat, v: nat, j: nat)
    requires |pageMaterials| == |pages| && n <= |materials| && v < |InitialColors(mesh)|
    requires j < n && Paints(pages, mesh, materials, j, v)
    requires forall k :: j < k < n ==> !Paints(pages, mesh, materials, k, v)
    ensures RemapPrefix(pages, pageMaterials, mesh, materials, n).colors[v] == SlotColor(pages, materials, j)
  {
    SlotStep(pages, pageMaterials, mesh, materials, n - 1);
    if j < n - 1 {
      RemapColorsLast(pages, pageMaterials, mesh, materials, n - 1, v, j);
    }
  }

  /** Slot `j` as a step: a placed slot repaints its sub-mesh and fills the UV2 entries; others change no buffer. */
  lemma SlotStep(pages: seq<Page>, pageMaterials: seq<Material>, mesh: Mesh, materials: seq<Material>, j: nat)
    requires |pageMaterials| == |pages| && j < |materials|
    ensures var prev := RemapPrefix(pages, pageMaterials, mesh, materials, j);
      var r := RemapPrefix(pages, pageMaterials, mesh, materials, j + 1);
      var s := SlotOf(pages, materials[j]);
      && (forall v :: 0 <= v < |r.colors| ==>
            r.colors[v] == if Paints(pages, mesh, materials, j, v) then SlotColor(pages, materials, j) else prev.colors[v])
      && (s.Place? ==> forall k :: 0 <= k < |r.uv2| ==>
            r.uv2[k] == if k < |mesh.uv| then Vec2(s.rect.x, s.rect.y) else prev.uv2[k])
      && (!s.Place? ==> r.uv2 == prev.uv2)
  {
  }

  /** With no slot up to `n` placed, the UV2 buffer keeps its initial contents. */
  lemma {:induction false} RemapUv2Keep(pages: seq<Page>, pageMaterials: seq<Material>, mesh: Mesh,
                                        materials: seq<Material>, n: nat)
    requires |pageMaterials| == |pages| && n <= |materials|
    requires forall j :: 0 <= j < n ==> !SlotOf(pages, materials[j]).Place?
    ensures RemapPrefix(pages, pageMaterials, mesh, materials, n).uv2 == InitialUv(mesh)
  {
    if n > 0 {
      RemapUv2Keep(pages, pageMaterials, mesh, materials, n - 1);
      SlotStep(pages, pageMaterials, mesh, materials, n - 1);
    }
  }

  /**
   * With slot `j` the last placed one up to `n`, every UV2 entry the mesh
   * has a UV for holds the corner of slot `j`'s rectangle, and the rest
   * keep their initial values.
   */
  lemma {:induction false} RemapUv2Last(pages: seq<Page>, pageMaterials: seq<Material>, mesh: Mesh,
                                        materials: seq<Material>, n: nat, j: nat)
    requires |pageMaterials| == |pages| && n <= |materials|
    requires j < n && SlotOf(pages, materials[j]).Place?
    requires forall k :: j < k < n ==> !SlotOf(pages, materials[k]).Place?
    ensures var uv2 := RemapPrefix(pages, pageMaterials, mesh, materials, n).uv2;
      var rect := SlotOf(pages, materials[j]).rect;
      forall k :: 0 <= k < |uv2| ==> uv2[k] == if k < |mesh.uv| then Vec2(rect.x, rect.y) else InitialUv(mesh)[k]
  {
    SlotStep(pages, pageMaterials, mesh, materials, n - 1);
    if j < n - 1 {
      RemapUv2Last(pages, pageMaterials, mesh, materials, n - 1, j);
    } else {
      RemapUv2Beyond(pages, pageMaterials, mesh, materials, j);
    }
  }

  /** No slot touches a UV2 entry past the mesh's own UVs. */
  lemma {:induction false} RemapUv2Beyond(pages: seq<Page>, pageMaterials: seq<Material>, mesh: Mesh,
                                          materials: seq<Material>, n: nat)
    requires |pageMaterials| == |pages| && n <= |materials|
    ensures var uv2 := RemapPrefix(pages, pageMaterials, mesh, materials, n).uv2;
      forall k :: |mesh.uv| <= k < |uv2| ==> uv2[k] == InitialUv(mesh)[k]
  {
    if n > 0 {
      RemapUv2Beyond(pages, pageMaterials, mesh, materials, n - 1);
      SlotStep(pages, pageMaterials, mesh, materials, n - 1);
    }
  }

  /** A renderer's slots up to the first that throws. */
  function RemapDone(pages: seq<Page>, pageMaterials: seq<Material>, mesh: Mesh, materials: seq<Material>): Remapped
    requires |pageMaterials| == |pages|
  {
    RemapPrefix(pages, pageMaterials, mesh, materials, FirstFail(pages, materials))
  }

  /**
   * Lines 287-301: the replacement mesh keeps the original's name,
   * vertices and sub-meshes, takes the defaulted UVs, and the colours and
   * UV2 computed over the slots.
   */
  ghost predicate MadeFrom(made: Mesh, mesh: Mesh, r: Remapped) {
    && made.name == mesh.name
    && made.vertexCount == mesh.vertexCount
    && made.subMeshes == mesh.subMeshes
    && made.uv == InitialUv(mesh)
    && made.uv2 == r.uv2
    && made.colors == r.colors
  }

  /** The renderers' shared meshes. */
  ghost function Meshes(renderers: seq<MeshRenderer>): (r: seq<Mesh>)
    reads renderers
    ensures |r| == |renderers|
  {
    seq(|renderers|, k reads renderers requires 0 <= k < |renderers| => renderers[k].sharedMesh)
  }

  /** Some slot of a renderer with these materials throws. */
  predicate Fails(pages: seq<Page>, materials: seq<Material>) {
    FirstFail(pages, materials) < |materials|
  }

  /** The first renderer, by materials, whose remapping throws, or the count when none does. */
  function FirstFailing(pages: seq<Page>, materials: seq<seq<Material>>): (r: nat)
    ensures r <= |materials|
  {
    if materials == [] then 0
    else if Fails(pages, materials[0]) then 0
    else 1 + FirstFailing(pages, materials[1..])
  }

  /** `FirstFailing` is the first renderer that throws. */
  lemma {:induction false} FirstFailingFinds(pages: seq<Page>, materials: seq<seq<Material>>)
    ensures var r := FirstFailing(pages, materials);
      && (forall k :: 0 <= k < r ==> !Fails(pages, materials[k]))
      && (r < |materials| ==> Fails(pages, materials[r]))
  {
    if materials != [] && !Fails(pages, materials[0]) {
      FirstFailingFinds(pages, materials[1..]);
      forall k | 0 < k < FirstFailing(pages, materials) ensures !Fails(pages, materials[k]) {
        assert materials[k] == materials[1..][k - 1];
      }
    }
  }

  /** The first renderer, up to `i`, with renderer `i`'s original mesh. */
  function FirstSharing(meshes: seq<Mesh>, i: nat): (r: nat)
    requires i < |meshes|
    ensures r <= i && meshes[r] == meshes[i]
  {
    FirstIndexFinds(meshes, meshes[i]);
    FirstIndex(meshes, meshes[i])
  }

  /**
   * The material lists after remapping: every renderer before the first
   * failing one fully, the failing one up to its failing slot, the rest
   * as they were.
   */
  function RemappedMaterials(pages: seq<Page>, pageMaterials: seq<Material>, meshes: seq<Mesh>,
                             materials: seq<seq<Material>>): (r: seq<seq<Material>>)
    requires |pageMaterials| == |pages| && |meshes| == |materials|
    ensures |r| == |materials|
  {
    var failing := FirstFailing(pages, materials);
    seq(|materials|, i requires 0 <= i < |materials| =>
      if i <= failing then RemapDone(pages, pageMaterials, meshes[i], materials[i]).materials else materials[i])
  }

  /**
   * The meshes after the first `i` renderers: each shares the replacement
   * of the first renderer with its original mesh, and `processed` maps
   * exactly the original meshes seen so far to their replacements; later
   * renderers keep their meshes.
   */
  ghost predicate SharedUpTo(meshes: seq<Mesh>, made: seq<Mesh>, processed: map<Mesh, Mesh>, i: nat)
    requires |made| == |meshes| && i <= |meshes|
  {
    && (forall k :: i <= k < |made| ==> made[k] == meshes[k])
    && (forall k :: 0 <= k < i ==> made[k] == made[FirstSharing(meshes, k)])
    && processed.Keys == (set k | 0 <= k < i :: meshes[k])
    && (forall k :: 0 <= k < i ==> processed[meshes[k]] == made[FirstSharing(meshes, k)])
  }

  /**
   * Renderer `i` takes the replacement already made for its original mesh
   * when there is one, and otherwise `x`, which becomes that mesh's
   * replacement; the first renderer with a mesh is the one that finds no
   * replacement yet.
   */
  lemma SharedStep(meshes: seq<Mesh>, made: seq<Mesh>, processed: map<Mesh, Mesh>, i: nat, x: Mesh)
    requires |made| == |meshes| && i < |meshes| && SharedUpTo(meshes, made, processed, i)
    requires meshes[i] in processed ==> x == processed[meshes[i]]
    ensures meshes[i] !in processed <==> FirstSharing(meshes, i) == i
    ensures SharedUpTo(meshes, made[i := x],
                       if meshes[i] in processed then processed else processed[meshes[i] := x], i + 1)
  {
    FirstIndexFinds(meshes, meshes[i]);
    var next := made[i := x];
    var processed' := if meshes[i] in processed then processed else processed[meshes[i] := x];
    assert meshes[..i + 1] == meshes[..i] + [meshes[i]];
    if meshes[i] in processed {
      var k :| 0 <= k < i && meshes[k] == meshes[i];
      assert FirstSharing(meshes, i) < i;
      assert FirstSharing(meshes, i) == FirstSharing(meshes, k);
    } else {
      assert FirstSharing(meshes, i) == i;
    }
    forall k | 0 <= k < i + 1
      ensures next[k] == next[FirstSharing(meshes, k)] && processed'[meshes[k]] == next[FirstSharing(meshes, k)]
    {
      FirstIndexFinds(meshes, meshes[k]);
      if k < i && FirstSharing(meshes, k) == i {
        assert false;
      }
    }
  }

  /**
   * What holds after the first `i` renderers of `UpdateMeshes`: none of
   * them threw, each has its remapped materials (`curMats`) and its
   * shared replacement mesh (`made`), and the rest are untouched.
   */
  ghost predicate RemapProgress(pages: seq<Page>, pageMaterials: seq<Material>, mats: seq<seq<Material>>,
                                meshes: seq<Mesh>, curMats: seq<seq<Material>>, made: seq<Mesh>,
                                processed: map<Mesh, Mesh>, i: nat)
    requires |pageMaterials| == |pages| && |meshes| == |mats| == |curMats| == |made| && i <= |mats|
  {
    && i <= FirstFailing(pages, mats)
    && (forall k :: 0 <= k < |mats| ==>
          curMats[k] == if k < i then RemapDone(pages, pageMaterials, meshes[k], mats[k]).materials else mats[k])
    && SharedUpTo(meshes, made, processed, i)
    && (forall k :: 0 <= k < i && FirstSharing(meshes, k) == k ==>
          MadeFrom(made[k], meshes[k], RemapDone(pages, pageMaterials, meshes[k], mats[k])))
  }

  /**
   * The meshes after `UpdateMeshes`: every renderer before the first that
   * threw shares the replacement built for the first renderer with its
   * original mesh, built from that renderer's buffers; the others keep
   * their meshes.
   */
  ghost predicate MeshesRemapped(pages: seq<Page>, pageMaterials: seq<Material>, mats: seq<seq<Material>>,
                                 meshes: seq<Mesh>, now: seq<Mesh>)
    requires |pageMaterials| == |pages| && |meshes| == |mats| == |now|
  {
    var failing := FirstFailing(pages, mats);
    && (forall i :: 0 <= i < failing ==> now[i] == now[FirstSharing(meshes, i)])
    && (forall i :: 0 <= i < failing && FirstSharing(meshes, i) == i ==>
          MadeFrom(now[i], meshes[i], RemapDone(pages, pageMaterials, meshes[i], mats[i])))
    && (forall i :: failing <= i < |now| ==> now[i] == meshes[i])
  }

  /** Remapping renderer `i` without a throw extends the progress to `i + 1`. */
  lemma ProgressStep(pages: seq<Page>, pageMaterials: seq<Material>, mats: seq<seq<Material>>, meshes: seq<Mesh>,
                     curMats: seq<seq<Material>>, made: seq<Mesh>, processed: map<Mesh, Mesh>, i: nat, x: Mesh)
    requires |pageMaterials| == |pages| && |meshes| == |mats| == |curMats| == |made| && i < |mats|
    requires RemapProgress(pages, pageMaterials, mats, meshes, curMats, made, processed, i)
    requires !Fails(pages, mats[i])
    requires meshes[i] in processed ==> x == processed[meshes[i]]
    requires meshes[i] !in processed ==> MadeFrom(x, meshes[i], RemapDone(pages, pageMaterials, meshes[i], mats[i]))
    ensures meshes[i] !in processed <==> FirstSharing(meshes, i) == i
    ensures RemapProgress(pages, pageMaterials, mats, meshes,
                          curMats[i := RemapDone(pages, pageMaterials, meshes[i], mats[i]).materials], made[i := x],
                          if meshes[i] in processed then processed else processed[meshes[i] := x], i + 1)
  {
    FirstFailingFinds(pages, mats);
    SharedStep(meshes, made, processed, i, x);
    assert FirstFailing(pages, mats) != i;
    DoneStep(pages, pageMaterials, mats, meshes, curMats, i);
    MadeStep(pages, pageMaterials, mats, meshes, made, i, x);
  }

  /** The materials part of the progress, extended by renderer `i`. */
  lemma DoneStep(pages: seq<Page>, pageMaterials: seq<Material>, mats: seq<seq<Material>>, meshes: seq<Mesh>,
                 curMats: seq<seq<Material>>, i: nat)
    requires |pageMaterials| == |pages| && |meshes| == |mats| == |curMats| && i < |mats|
    requires forall k :: 0 <= k < |mats| ==>
      curMats[k] == if k < i then RemapDone(pages, pageMaterials, meshes[k], mats[k]).materials else mats[k]
    ensures var curMats' := curMats[i := RemapDone(pages, pageMaterials, meshes[i], mats[i]).materials];
      forall k :: 0 <= k < |mats| ==>
        curMats'[k] == if k < i + 1 then RemapDone(pages, pageMaterials, meshes[k], mats[k]).materials else mats[k]
  {
  }

  /** The built-meshes part of the progress, extended by renderer `i`'s mesh `x`. */
  lemma MadeStep(pages: seq<Page>, pageMaterials: seq<Material>, mats: seq<seq<Material>>, meshes: seq<Mesh>,
                 made: seq<Mesh>, i: nat, x: Mesh)
    requires |pageMaterials| == |pages| && |meshes| == |mats| == |made| && i < |mats|
    requires forall k :: 0 <= k < i && FirstSharing(meshes, k) == k ==>
      MadeFrom(made[k], meshes[k], RemapDone(pages, pageMaterials, meshes[k], mats[k]))
    requires FirstSharing(meshes, i) == i ==> MadeFrom(x, meshes[i], RemapDone(pages, pageMaterials, meshes[i], mats[i]))
    ensures forall k :: 0 <= k < i + 1 && FirstSharing(meshes, k) == k ==>
      MadeFrom(made[i := x][k], meshes[k], RemapDone(pages, pageMaterials, meshes[k], mats[k]))
  {
    forall k | 0 <= k < i + 1 && FirstSharing(meshes, k) == k
      ensures MadeFrom(made[i := x][k], meshes[k], RemapDone(pages, pageMaterials, meshes[k], mats[k]))
    {
      if k < i {
        assert made[i := x][k] == made[k];
      }
    }
  }

  /**
   * Progress up to the first renderer that throws (or the last) gives the
   * final materials, with that renderer's partial remapping, and meshes.
   */
  lemma ProgressFinal(pages: seq<Page>, pageMaterials: seq<Material>, mats: seq<seq<Material>>, meshes: seq<Mesh>,
                      curMats: seq<seq<Material>>, made: seq<Mesh>, processed: map<Mesh, Mesh>, i: nat)
    requires |pageMaterials| == |pages| && |meshes| == |mats| == |curMats| == |made| && i <= |mats|
    requires RemapProgress(pages, pageMaterials, mats, meshes, curMats, made, processed, i)
    requires i < |mats| ==> Fails(pages, mats[i])
    ensures i == FirstFailing(pages, mats)
    ensures MeshesRemapped(pages, pageMaterials, mats, meshes, made)
    ensures RemappedMaterials(pages, pageMaterials, meshes, mats)
         == if i < |mats| then curMats[i := RemapDone(pages, pageMaterials, meshes[i], mats[i]).materials] else curMats
  {
    FirstFailingFinds(pages, mats);
  }
}
