/**
 * The editor window's state and the operations that change it: the list
 * of atlas pages and the list of renderers to remap.
 */
module Editor {
  import opened Wrappers
  import opened UnityTypes
  import opened SizeSort
  import opened AtlasPage
  import opened Combine
  import opened Tile
  import opened Remap

  class TiledTextureAtlasEditor {
    var atlases: seq<Atlas>
    var meshRenderers: seq<MeshRenderer>
    /** The values of the pages, in order. */
    ghost var pages: seq<Page>

    /**
     * `pages` mirrors the page objects, which keep their lists parallel;
     * the last (current) page, the only one ever changed, is not shared
     * with an earlier position.
     */
    ghost predicate Valid()
      reads this, atlases
    {
      && |pages| == |atlases|
      && (forall i :: 0 <= i < |atlases| ==> atlases[i].Value() == pages[i])
      && (forall i :: 0 <= i < |atlases| - 1 ==> atlases[i] != atlases[|atlases| - 1])
      && AllParallel(pages)
    }

    constructor ()
      ensures Valid() && atlases == [] && meshRenderers == []
    {
      atlases := [];
      meshRenderers := [];
      pages := [];
    }

    /** Appends a fresh, empty page and returns it. */
    method CreateNewAtlas() returns (atlas: Atlas)
      requires Valid()
      modifies this`atlases, this`pages
      ensures Valid() && fresh(atlas) && atlas.Value() == Page([], [], None)
      ensures atlases == old(atlases) + [atlas]
      ensures pages == old(pages) + [Page([], [], None)]
    {
      atlas := new Atlas();
      atlases := atlases + [atlas];
      pages := pages + [Page([], [], None)];
    }

    /** Whether the material's shader is one of `ShaderNames`. */
    method IsIncludedInCompatibleShaders(material: Material) returns (r: bool)
      ensures r <==> material.shaderName in ShaderNames
    {
      for i := 0 to |ShaderNames|
        invariant material.shaderName !in ShaderNames[..i]
      {
        if ShaderNames[i] == material.shaderName {
          return true;
        }
      }
      return false;
    }

    /**
     * The index of the first page whose `texturesOriginal` holds the
     * texture, `None` (null in the editor) when no page does.
     */
    method GetAtlasContainingTexture(texture: Texture2D) returns (r: Option<nat>)
      ensures r.Some? ==> r.value < |atlases| && texture in atlases[r.value].texturesOriginal
      ensures r.Some? ==> forall k :: 0 <= k < r.value ==> texture !in atlases[k].texturesOriginal
      ensures r.None? <==> forall k :: 0 <= k < |atlases| ==> texture !in atlases[k].texturesOriginal
    {
      for i := 0 to |atlases|
        invariant forall k :: 0 <= k < i ==> texture !in atlases[k].texturesOriginal
      {
        var atlas := atlases[i];
        if texture in atlas.texturesOriginal {
          return Some(i);
        }
      }
      return None;
    }

    /** The pack succeeded (lines 166-169 and 179-180): the current page takes the new lists and rectangles. */
    method CommitToAtlas(currentAtlas: Atlas, mainTexture: Texture2D, texturesToProcess: seq<Texture2D>,
                         mainTextureInAtlas: Texture2D, rects: seq<Rect>, ghost pack: Packer)
      requires Valid() && |atlases| > 0 && currentAtlas == atlases[|atlases| - 1]
      requires texturesToProcess == SortBySize(currentAtlas.texturesInAtlas + [mainTextureInAtlas])
      requires Pack(pack, texturesToProcess) == Some(rects)
      modifies this`pages, currentAtlas
      ensures Valid() && atlases == old(atlases)
      ensures AddTexture(old(pages), mainTexture, mainTextureInAtlas, pack) == StepResult(pages, false)
    {
      var n := |atlases|;
      AddTextureCommits(pages, mainTexture, mainTextureInAtlas, pack, rects);
      ghost var page := CommittedPage(pages[n - 1], mainTexture, mainTextureInAtlas, rects);
      currentAtlas.Commit(mainTexture, texturesToProcess, mainTextureInAtlas, rects);
      pages := pages[..n - 1] + [page];
      forall i | 0 <= i < n ensures atlases[i].Value() == pages[i] {
        if i < n - 1 {
          assert atlases[i] != currentAtlas;
        }
      }
      ReplaceLastParallel(old(pages), page);
    }

    /** The pack failed (lines 171-177 and 179-180): a page holding only the new texture is appended. */
    method OpenNewAtlas(mainTexture: Texture2D, mainTextureInAtlas: Texture2D, pack: Packer)
      returns (nextAtlas: Atlas, oversized: bool)
      requires Valid() && |pages| > 0
      requires Pack(pack, SortBySize(pages[|pages| - 1].inAtlas + [mainTextureInAtlas])).None?
      modifies this`atlases, this`pages
      ensures Valid() && fresh(nextAtlas) && atlases == old(atlases) + [nextAtlas]
      ensures AddTexture(old(pages), mainTexture, mainTextureInAtlas, pack) == StepResult(pages, oversized)
    {
      AddTextureOpens(pages, mainTexture, mainTextureInAtlas, pack);
      nextAtlas := CreateNewAtlas();
      nextAtlas.AddFirst(mainTexture, mainTextureInAtlas);
      var rects := Pack(pack, nextAtlas.texturesInAtlas);
      oversized := rects.None?;
      if !oversized {
        nextAtlas.rects := Some(rects.value);
      }
      ghost var page := FreshPage(mainTexture, mainTextureInAtlas, pack);
      pages := old(pages) + [page];
      var n := |atlases|;
      forall i | 0 <= i < n ensures atlases[i].Value() == pages[i] {
        if i < n - 1 {
          assert atlases[i] != nextAtlas;
        }
      }
    }

    /**
     * Lines 159-181: pack the current page's textures plus the new one; on
     * success commit the new lists to the current page, on failure open a
     * new page holding only the new texture.
     */
    method AddToAtlas(currentAtlas: Atlas, mainTexture: Texture2D, mainTextureInAtlas: Texture2D, pack: Packer)
      returns (nextAtlas: Atlas, oversized: bool)
      requires Valid() && |atlases| > 0 && currentAtlas == atlases[|atlases| - 1]
      modifies this`atlases, this`pages, currentAtlas
      ensures Valid() && |atlases| > 0 && nextAtlas == atlases[|atlases| - 1]
      ensures nextAtlas == currentAtlas || fresh(nextAtlas)
      ensures pages == AddTexture(old(pages), mainTexture, mainTextureInAtlas, pack).pages
      ensures oversized == AddTexture(old(pages), mainTexture, mainTextureInAtlas, pack).oversized
    {
      var texturesToProcess := SizeSort.SortTextures(currentAtlas.texturesInAtlas + [mainTextureInAtlas]);
      var rects := Pack(pack, texturesToProcess);
      if rects.Some? {
        CommitToAtlas(currentAtlas, mainTexture, texturesToProcess, mainTextureInAtlas, rects.value, pack);
        nextAtlas, oversized := currentAtlas, false;
      } else {
        assert pages[|pages| - 1] == currentAtlas.Value();
        nextAtlas, oversized := OpenNewAtlas(mainTexture, mainTextureInAtlas, pack);
      }
    }

    /**
     * Lines 155-181 for a main texture not processed yet: the texture to
     * pack is the main texture itself, or its 2x2 copy when the material
     * tiles it, and is then added to the pages.
     */
    method AddMainTexture(currentAtlas: Atlas, mainTexture: Texture2D, mainTextureScale: Vec2, pack: Packer)
      returns (nextAtlas: Atlas, mainTextureInAtlas: Texture2D, oversized: bool)
      requires Valid() && |atlases| > 0 && currentAtlas == atlases[|atlases| - 1]
      requires mainTexture.Valid()
      modifies this`atlases, this`pages, currentAtlas
      ensures Valid() && |atlases| > 0 && nextAtlas == atlases[|atlases| - 1]
      ensures nextAtlas == currentAtlas || fresh(nextAtlas)
      ensures mainTextureScale == One ==> mainTextureInAtlas == mainTexture
      ensures mainTextureScale != One ==>
        && fresh(mainTextureInAtlas)
        && mainTextureInAtlas.name == mainTexture.name
        && mainTextureInAtlas.width == 2 * mainTexture.width
        && mainTextureInAtlas.height == 2 * mainTexture.height
      ensures pages == AddTexture(old(pages), mainTexture, mainTextureInAtlas, pack).pages
      ensures oversized == AddTexture(old(pages), mainTexture, mainTextureInAtlas, pack).oversized
    {
      mainTextureInAtlas := mainTexture;
      if mainTextureScale != One {
        mainTextureInAtlas := Create2x2Texture(mainTexture);
      }
      nextAtlas, oversized := AddToAtlas(currentAtlas, mainTexture, mainTextureInAtlas, pack);
    }

    /** Lines 145-146: the renderer is listed for remapping, once. */
    method RecordRenderer(meshRenderer: MeshRenderer)
      modifies this`meshRenderers
      ensures meshRenderers == Record(old(meshRenderers), meshRenderer)
    {
      if meshRenderer !in meshRenderers {
        meshRenderers := meshRenderers + [meshRenderer];
      }
    }

    /**
     * Lines 148-184: the main texture of a combined material; a null or
     * already processed one is skipped.
     */
    method CombineMainTexture(mainTexture: Option<Texture2D>, mainTextureScale: Vec2, currentAtlas: Atlas,
                              processedTextures: seq<Texture2D>, pack: Packer)
      returns (nextAtlas: Atlas, processed: seq<Texture2D>, inAtlas: Option<Texture2D>, oversized: bool)
      requires Valid() && |atlases| > 0 && currentAtlas == atlases[|atlases| - 1]
      requires mainTexture.Some? ==> mainTexture.value.Valid()
      modifies this`atlases, this`pages, currentAtlas
      ensures Valid() && |atlases| > 0 && nextAtlas == atlases[|atlases| - 1]
      ensures nextAtlas == currentAtlas || fresh(nextAtlas)
      ensures NewMain(processedTextures, mainTexture) ==>
        && inAtlas.Some?
        && (mainTextureScale == One ==> inAtlas.value == mainTexture.value)
        && (mainTextureScale != One ==>
              (&& fresh(inAtlas.value)
               && inAtlas.value.name == mainTexture.value.name
               && inAtlas.value.width == 2 * mainTexture.value.width
               && inAtlas.value.height == 2 * mainTexture.value.height))
      ensures !NewMain(processedTextures, mainTexture) ==> inAtlas == mainTexture
      ensures var t := ProcessTexture(old(pages), processedTextures, mainTexture, inAtlas, pack);
        pages == t.pages && processed == t.processed && oversized == t.oversized
    {
      nextAtlas, processed, inAtlas, oversized := currentAtlas, processedTextures, mainTexture, false;
      if mainTexture.None? || mainTexture.value in processedTextures {
        return;
      }
      var mainTextureInAtlas;
      nextAtlas, mainTextureInAtlas, oversized := AddMainTexture(currentAtlas, mainTexture.value, mainTextureScale, pack);
      inAtlas := Some(mainTextureInAtlas);
      if !oversized {
        processed := processedTextures + [mainTexture.value];
      }
    }

    /**
     * One material of one renderer: the body of the inner loop of
     * `CombineTexturesIntoAtlas`. Returns the page that is current
     * afterwards, the processed textures, the texture packed for a new
     * main texture, and whether the fatal oversized case was hit.
     */
    method CombineMaterial(meshRenderer: MeshRenderer, material: Material, currentAtlas: Atlas,
                           processedTextures: seq<Texture2D>, pack: Packer)
      returns (nextAtlas: Atlas, processed: seq<Texture2D>, inAtlas: Option<Texture2D>, oversized: bool)
      requires Valid() && |atlases| > 0 && currentAtlas == atlases[|atlases| - 1]
      requires material.mainTexture.Some? ==> material.mainTexture.value.Valid()
      modifies this`atlases, this`pages, this`meshRenderers, currentAtlas
      ensures Valid() && |atlases| > 0 && nextAtlas == atlases[|atlases| - 1]
      ensures nextAtlas == currentAtlas || fresh(nextAtlas)
      ensures NewTexture(CombineState(old(pages), processedTextures, old(meshRenderers)), material) ==>
        && inAtlas.Some?
        && (material.mainTextureScale == One ==> inAtlas.value == material.mainTexture.value)
        && (material.mainTextureScale != One ==>
              (&& fresh(inAtlas.value)
               && inAtlas.value.name == material.mainTexture.value.name
               && inAtlas.value.width == 2 * material.mainTexture.value.width
               && inAtlas.value.height == 2 * material.mainTexture.value.height))
      ensures !NewTexture(CombineState(old(pages), processedTextures, old(meshRenderers)), material) ==>
        inAtlas == material.mainTexture
      ensures
        var res := ProcessMaterial(CombineState(old(pages), processedTextures, old(meshRenderers)),
                                   meshRenderer, material, inAtlas, pack);
        && pages == res.state.pages
        && processed == res.state.processed
        && meshRenderers == res.state.renderers
        && oversized == res.oversized
    {
      nextAtlas, processed, inAtlas, oversized := currentAtlas, processedTextures, material.mainTexture, false;
      var compatible := IsIncludedInCompatibleShaders(material);
      if !compatible {
        return;
      }
      RecordRenderer(meshRenderer);
      nextAtlas, processed, inAtlas, oversized :=
        CombineMainTexture(material.mainTexture, material.mainTextureScale, currentAtlas, processedTextures, pack);
    }
  
    /** One iteration of the inner loop of `CombineTexturesIntoAtlas`, as a step of the fold. */
    method Visit(meshRenderer: MeshRenderer, material: Material, currentAtlas: Atlas,
                 processedTextures: seq<Texture2D>, pack: Packer, ghost uses: seq<Use>, ghost copies: seq<Option<Texture2D>>)
      returns (nextAtlas: Atlas, processed: seq<Texture2D>, oversized: bool,
               ghost uses': seq<Use>, ghost copies': seq<Option<Texture2D>>)
      requires Valid() && |atlases| > 0 && currentAtlas == atlases[|atlases| - 1]
      requires material.mainTexture.Some? ==> material.mainTexture.value.Valid()
      requires Combined(uses, copies, pack, CombineState(pages, processedTextures, meshRenderers), false)
      modifies this`atlases, this`pages, this`meshRenderers, currentAtlas
      ensures Valid() && |atlases| > 0 && nextAtlas == atlases[|atlases| - 1]
      ensures nextAtlas == currentAtlas || fresh(nextAtlas)
      ensures uses' == uses + [Use(meshRenderer, material)]
      ensures Combined(uses', copies', pack, CombineState(pages, processed, meshRenderers), oversized)
    {
      var inAtlas;
      nextAtlas, processed, inAtlas, oversized :=
        CombineMaterial(meshRenderer, material, currentAtlas, processedTextures, pack);
      uses', copies' := uses + [Use(meshRenderer, material)], copies + [inAtlas];
      CombineUsesStep(Start, uses, copies, Use(meshRenderer, material), inAtlas, pack);
      CopiesMatchStep(uses, copies, Use(meshRenderer, material), inAtlas);
    }

    /**
     * Lines 138-183: the materials of one renderer, `materials`, in order,
     * until one aborts the combine.
     */
    method CombineRenderer(meshRenderer: MeshRenderer, ghost materials: seq<Material>, currentAtlas: Atlas,
                           processedTextures: seq<Texture2D>, pack: Packer,
                           ghost uses: seq<Use>, ghost copies: seq<Option<Texture2D>>)
      returns (nextAtlas: Atlas, processed: seq<Texture2D>, oversized: bool,
               ghost visited: nat, ghost uses': seq<Use>, ghost copies': seq<Option<Texture2D>>)
      requires Valid() && |atlases| > 0 && currentAtlas == atlases[|atlases| - 1]
      requires meshRenderer.sharedMaterials == materials
      requires forall j :: 0 <= j < |materials| ==>
        var texture := materials[j].mainTexture; texture.Some? ==> texture.value.Valid()
      requires Combined(uses, copies, pack, CombineState(pages, processedTextures, meshRenderers), false)
      modifies this`atlases, this`pages, this`meshRenderers, currentAtlas
      ensures Valid() && |atlases| > 0 && nextAtlas == atlases[|atlases| - 1]
      ensures nextAtlas == currentAtlas || fresh(nextAtlas)
      ensures visited <= |materials| && (!oversized ==> visited == |materials|)
      ensures uses' == uses + UsesOf(meshRenderer, materials[..visited])
      ensures Combined(uses', copies', pack, CombineState(pages, processed, meshRenderers), oversized)
    {
      nextAtlas, processed, oversized, visited, uses', copies' := currentAtlas, processedTextures, false, 0, uses, copies;
      var j := 0;
      while j < |meshRenderer.sharedMaterials| && !oversized
        invariant j <= |materials| && visited == j && meshRenderer.sharedMaterials == materials
        invariant Valid() && |atlases| > 0 && nextAtlas == atlases[|atlases| - 1]
        invariant nextAtlas == currentAtlas || fresh(nextAtlas)
        invariant uses' == uses + UsesOf(meshRenderer, materials[..j])
        invariant Combined(uses', copies', pack, CombineState(pages, processed, meshRenderers), oversized)
      {
        UsesOfStep(meshRenderer, materials, j);
        nextAtlas, processed, oversized, uses', copies' :=
          Visit(meshRenderer, meshRenderer.sharedMaterials[j], nextAtlas, processed, pack, uses', copies');
        j := j + 1;
        visited := j;
      }
    }

    /**
     * Lines 124-186: every material of every renderer in turn, starting
     * from one empty page. `uses` are the visits made, all of them unless
     * the combine aborted on an oversized texture, and `copies` the texture
     * to pack at each; the final state is the fold of the per-material
     * step over them.
     */
    method CombineTexturesIntoAtlas(allRenderers: seq<MeshRenderer>, pack: Packer)
      returns (processedTextures: seq<Texture2D>, oversized: bool,
               ghost uses: seq<Use>, ghost copies: seq<Option<Texture2D>>)
      requires forall i, j :: 0 <= i < |allRenderers| && 0 <= j < |allRenderers[i].sharedMaterials| ==>
        var texture := allRenderers[i].sharedMaterials[j].mainTexture; texture.Some? ==> texture.value.Valid()
      modifies this`atlases, this`pages, this`meshRenderers
      ensures Valid() && |atlases| > 0
      ensures uses <= old(Uses(allRenderers)) && (!oversized ==> uses == old(Uses(allRenderers)))
      ensures Combined(uses, copies, pack, CombineState(pages, processedTextures, meshRenderers), oversized)
    {
      ghost var materials, all := Materials(allRenderers), Uses(allRenderers);
      atlases := [];
      meshRenderers := [];
      pages := [];
      var currentAtlas := CreateNewAtlas();
      processedTextures, oversized := [], false;
      uses, copies := [], [];
      for i := 0 to |allRenderers|
        invariant Valid() && |atlases| > 0 && currentAtlas == atlases[|atlases| - 1] && fresh(currentAtlas)
        invariant uses == UsesFrom(allRenderers[..i], materials[..i])
        invariant Combined(uses, copies, pack, CombineState(pages, processedTextures, meshRenderers), false)
      {
        assert allRenderers[i].sharedMaterials == materials[i];
        ghost var visited;
        currentAtlas, processedTextures, oversized, visited, uses, copies :=
          CombineRenderer(allRenderers[i], materials[i], currentAtlas, processedTextures, pack, uses, copies);
        UsesPrefixAt(allRenderers, materials, i, visited);
        if oversized {
          assert uses <= all;
          return;
        }
        assert materials[i][..visited] == materials[i];
        UsesStep(allRenderers, materials, i);
      }
      assert allRenderers[..|allRenderers|] == allRenderers && materials[..|allRenderers|] == materials;
    }
  
    /** Lines 256-265: every vertex named by the sub-mesh's triangles takes colour `c`. */
    static method PaintTriangles(colors: seq<Color>, tris: seq<int>, c: Color) returns (painted: seq<Color>)
      requires forall k :: 0 <= k < |tris| ==> 0 <= tris[k] < |colors|
      ensures painted == Paint(colors, tris, c)
    {
      painted := colors;
      for k := 0 to |tris|
        invariant |painted| == |colors|
        invariant forall v :: 0 <= v < |colors| ==> painted[v] == if v in tris[..k] then c else colors[v]
      {
        var vertex := tris[k];
        painted := painted[vertex := c];
        assert tris[..k + 1] == tris[..k] + [vertex];
      }
      assert tris[..|tris|] == tris;
    }

    /** Lines 268-270: the first `n` UV2 entries take the rectangle's corner `p`. */
    static method FillUv2(uv2: seq<Vec2>, n: nat, p: Vec2) returns (filled: seq<Vec2>)
      requires n <= |uv2|
      ensures filled == Fill(uv2, n, p)
    {
      filled := uv2;
      for k := 0 to n
        invariant |filled| == |uv2|
        invariant forall i :: 0 <= i < |uv2| ==> filled[i] == if i < k then p else uv2[i]
      {
        filled := filled[k := p];
      }
    }

    /**
     * Lines 236-276, slot `j` of a renderer: a combined material with a
     * main texture is looked up, its sub-mesh repainted, the UV2 buffer
     * filled and the slot given the page's material. `ok` is false where
     * the editor throws: no page holds the texture, the page's rectangles
     * are null, or the texture's index is out of their range.
     */
    method RemapSlot(meshRenderer: MeshRenderer, j: nat, mesh: Mesh, colors: seq<Color>, uv2: seq<Vec2>,
                     pageMaterials: seq<Material>)
      returns (ok: bool, colors': seq<Color>, uv2': seq<Vec2>)
      requires Valid() && |pageMaterials| == |pages|
      requires j < |meshRenderer.sharedMaterials|
      requires mesh.Valid() && |colors| == mesh.vertexCount && |mesh.uv| <= |uv2|
      modifies meshRenderer`sharedMaterials
      ensures ok <==> !SlotOf(pages, old(meshRenderer.sharedMaterials[j])).Fail?
      ensures ok ==>
        Remapped(meshRenderer.sharedMaterials, colors', uv2')
          == ApplySlot(pages, pageMaterials, mesh, old(meshRenderer.sharedMaterials[j]), j,
                       Remapped(old(meshRenderer.sharedMaterials), colors, uv2))
      ensures !ok ==> meshRenderer.sharedMaterials == old(meshRenderer.sharedMaterials)
    {
      ok, colors', uv2' := true, colors, uv2;
      var material := meshRenderer.sharedMaterials[j];
      var compatible := IsIncludedInCompatibleShaders(material);
      if !compatible || material.mainTexture.None? {
        return;
      }
      var mainTexture := material.mainTexture.value;
      var found := GetAtlasContainingTexture(mainTexture);
      PageOfFinds(pages, mainTexture);
      if found.None? {
        assert PageOf(pages, mainTexture).None?;
        ok := false;
        return;
      }
      var p := found.value;
      assert PageOf(pages, mainTexture) == Some(p);
      var atlas := atlases[p];
      if atlas.rects.None? {
        ok := false;
        return;
      }
      var rects := atlas.rects.value;
      var index := IndexOf(atlas.texturesOriginal, mainTexture);
      if !(0 <= index < |rects|) {
        ok := false;
        return;
      }
      var mainRect := rects[index];
      var scale := material.mainTextureScale;
      if j < |mesh.subMeshes| {
        colors' := PaintTriangles(colors, mesh.subMeshes[j], VertexColor(scale, mainRect.width));
      }
      uv2' := FillUv2(uv2, |mesh.uv|, Vec2(mainRect.x, mainRect.y));
      meshRenderer.sharedMaterials := meshRenderer.sharedMaterials[j := pageMaterials[p]];
    }

    /**
     * Lines 235-277: a renderer's slots in order, up to the first that
     * throws (`ok` false), with the colour and UV2 buffers they produce.
     */
    method RemapSlots(meshRenderer: MeshRenderer, mesh: Mesh, pageMaterials: seq<Material>)
      returns (ok: bool, colors: seq<Color>, newUv2: seq<Vec2>)
      requires Valid() && |pageMaterials| == |pages| && mesh.Valid()
      modifies meshRenderer`sharedMaterials
      ensures var done := RemapDone(pages, pageMaterials, mesh, old(meshRenderer.sharedMaterials));
        && (ok <==> !Fails(pages, old(meshRenderer.sharedMaterials)))
        && meshRenderer.sharedMaterials == done.materials
        && (ok ==> colors == done.colors && newUv2 == done.uv2)
    {
      ghost var materials := meshRenderer.sharedMaterials;
      colors := OrDefault(mesh.colors, mesh.vertexCount, ClearColor);
      newUv2 := OrDefault(mesh.uv, mesh.vertexCount, Zero2);
      FirstFailFinds(pages, materials);
      for j := 0 to |meshRenderer.sharedMaterials|
        invariant j <= FirstFail(pages, materials)
        invariant Remapped(meshRenderer.sharedMaterials, colors, newUv2)
               == RemapPrefix(pages, pageMaterials, mesh, materials, j)
      {
        RemapMaterials(pages, pageMaterials, mesh, materials, j, j);
        ok, colors, newUv2 := RemapSlot(meshRenderer, j, mesh, colors, newUv2, pageMaterials);
        if !ok {
          return;
        }
      }
      ok := true;
    }

    /**
     * Lines 214-305 for renderer `i`: its slots, then, unless one threw,
     * its mesh replaced by a new one built from the buffers, or by the one
     * already built for the same original mesh (`processedMeshes`). No
     * other renderer changes.
     */
    method RemapRenderer(i: nat, pageMaterials: seq<Material>, processedMeshes: map<Mesh, Mesh>)
      returns (ok: bool, processed: map<Mesh, Mesh>)
      requires Valid() && |pageMaterials| == |pages| && i < |meshRenderers|
      requires forall a, b :: 0 <= a < b < |meshRenderers| ==> meshRenderers[a] != meshRenderers[b]
      requires meshRenderers[i].sharedMesh.Valid()
      modifies meshRenderers[i]
      ensures Valid()
      ensures var mats, meshes := old(Materials(meshRenderers)), old(Meshes(meshRenderers));
        var done := RemapDone(pages, pageMaterials, meshes[i], mats[i]);
        var now := Meshes(meshRenderers);
        && (ok <==> !Fails(pages, mats[i]))
        && Materials(meshRenderers) == mats[i := done.materials]
        && now == meshes[i := now[i]]
        && (!ok ==> now[i] == meshes[i] && processed == processedMeshes)
        && (ok && meshes[i] in processedMeshes ==> now[i] == processedMeshes[meshes[i]] && processed == processedMeshes)
        && (ok && meshes[i] !in processedMeshes ==>
              fresh(now[i]) && MadeFrom(now[i], meshes[i], done) && processed == processedMeshes[meshes[i] := now[i]])
    {
      ghost var mats, meshes := Materials(meshRenderers), Meshes(meshRenderers);
      var meshRenderer := meshRenderers[i];
      var mesh := meshRenderer.sharedMesh;
      var newUv := OrDefault(mesh.uv, mesh.vertexCount, Zero2);
      var colors, newUv2;
      ok, colors, newUv2 := RemapSlots(meshRenderer, mesh, pageMaterials);
      processed := processedMeshes;
      if ok {
        if mesh in processed {
          meshRenderer.sharedMesh := processed[mesh];
        } else {
          var newMesh := new Mesh(mesh.name, mesh.vertexCount, colors, newUv, newUv2, mesh.subMeshes);
          processed := processed[mesh := newMesh];
          meshRenderer.sharedMesh := newMesh;
        }
      }
      forall k | 0 <= k < |meshRenderers| && k != i
        ensures meshRenderers[k].sharedMaterials == mats[k] && meshRenderers[k].sharedMesh == meshes[k]
      {
        assert meshRenderers[k] != meshRenderer;
      }
      assert Materials(meshRenderers) == mats[i := meshRenderer.sharedMaterials];
      assert Meshes(meshRenderers) == meshes[i := meshRenderer.sharedMesh];
    }

    /**
     * The state of the renderer loop of `UpdateMeshes` before renderer
     * `i`: the renderers' materials and meshes are `curMats` and `made`,
     * and the progress over the first `i` renderers holds.
     */
    ghost predicate Remapping(pageMaterials: seq<Material>, mats: seq<seq<Material>>, meshes: seq<Mesh>,
                              curMats: seq<seq<Material>>, made: seq<Mesh>, processed: map<Mesh, Mesh>, i: nat)
      reads this, atlases, meshRenderers
    {
      && Valid() && |pageMaterials| == |pages| && i <= |meshRenderers|
      && |meshes| == |mats| == |curMats| == |made| == |meshRenderers|
      && (forall k :: 0 <= k < |meshes| ==> meshes[k].Valid())
      && Materials(meshRenderers) == curMats && Meshes(meshRenderers) == made
      && RemapProgress(pages, pageMaterials, mats, meshes, curMats, made, processed, i)
    }

    /**
     * One iteration of the renderer loop of `UpdateMeshes`: renderer `i`
     * is remapped, and the progress over the first `i` renderers extends
     * to `i + 1`, unless renderer `i` throws.
     */
    method RemapNext(i: nat, pageMaterials: seq<Material>, processedMeshes: map<Mesh, Mesh>,
                     ghost mats: seq<seq<Material>>, ghost meshes: seq<Mesh>,
                     ghost curMats: seq<seq<Material>>, ghost made: seq<Mesh>)
      returns (ok: bool, processed: map<Mesh, Mesh>, ghost curMats': seq<seq<Material>>, ghost made': seq<Mesh>)
      requires Remapping(pageMaterials, mats, meshes, curMats, made, processedMeshes, i) && i < |meshRenderers|
      requires forall a, b :: 0 <= a < b < |meshRenderers| ==> meshRenderers[a] != meshRenderers[b]
      modifies meshRenderers[i]
      ensures Valid() && Materials(meshRenderers) == curMats' && Meshes(meshRenderers) == made'
      ensures curMats' == curMats[i := RemapDone(pages, pageMaterials, meshes[i], mats[i]).materials]
      ensures ok <==> !Fails(pages, mats[i])
      ensures ok ==> Remapping(pageMaterials, mats, meshes, curMats', made', processed, i + 1)
      ensures ok ==> made' == made[i := made'[i]] && (FirstSharing(meshes, i) == i ==> fresh(made'[i]))
      ensures !ok ==> made' == made
    {
      assert meshRenderers[i].sharedMesh == made[i] == meshes[i];
      assert curMats[i] == mats[i];
      ok, processed := RemapRenderer(i, pageMaterials, processedMeshes);
      curMats', made' := Materials(meshRenderers), Meshes(meshRenderers);
      if ok {
        ProgressStep(pages, pageMaterials, mats, meshes, curMats, made, processedMeshes, i, made'[i]);
      }
    }

    /**
     * Lines 211-306: every recorded renderer in turn, the renderers of one
     * original mesh sharing the replacement built for the first of them.
     * `pageMaterials[p]` is the material saved for page `p`. `ok` is false
     * when a lookup throws: the renderers before the failing one are
     * remapped, the failing one up to its failing slot, the rest untouched.
     */
    method UpdateMeshes(pageMaterials: seq<Material>) returns (ok: bool)
      requires Valid() && |pageMaterials| == |atlases|
      requires forall a, b :: 0 <= a < b < |meshRenderers| ==> meshRenderers[a] != meshRenderers[b]
      requires forall i :: 0 <= i < |meshRenderers| ==> meshRenderers[i].sharedMesh.Valid()
      modifies meshRenderers
      ensures ok <==> FirstFailing(pages, old(Materials(meshRenderers))) == |meshRenderers|
      ensures Materials(meshRenderers)
           == RemappedMaterials(pages, pageMaterials, old(Meshes(meshRenderers)), old(Materials(meshRenderers)))
      ensures MeshesRemapped(pages, pageMaterials, old(Materials(meshRenderers)), old(Meshes(meshRenderers)),
                             Meshes(meshRenderers))
      ensures var mats, meshes, now := old(Materials(meshRenderers)), old(Meshes(meshRenderers)), Meshes(meshRenderers);
        forall i :: 0 <= i < FirstFailing(pages, mats) && FirstSharing(meshes, i) == i ==> fresh(now[i])
    {
      ghost var mats, meshes := Materials(meshRenderers), Meshes(meshRenderers);
      var processedMeshes: map<Mesh, Mesh> := map[];
      ghost var curMats, made := mats, meshes;
      for i := 0 to |meshRenderers|
        invariant Remapping(pageMaterials, mats, meshes, curMats, made, processedMeshes, i)
        invariant forall k :: 0 <= k < i && FirstSharing(meshes, k) == k ==> fresh(made[k])
      {
        ghost var before, madeBefore, processedBefore := curMats, made, processedMeshes;
        assert RemapProgress(pages, pageMaterials, mats, meshes, before, madeBefore, processedBefore, i);
        ok, processedMeshes, curMats, made :=
          RemapNext(i, pageMaterials, processedMeshes, mats, meshes, curMats, made);
        if !ok {
          ProgressFinal(pages, pageMaterials, mats, meshes, before, madeBefore, processedBefore, i);
          return;
        }
      }
      ok := true;
      ProgressFinal(pages, pageMaterials, mats, meshes, curMats, made, processedMeshes, |meshRenderers|);
    }
  }
}
