# Tiled texture atlas editor — a Dafny model

`TiledTextureAtlasEditor` is a Unity editor window. It packs the main
textures of a model's materials into 2048x2048 atlas pages. A texture whose
material tiles it (texture scale other than 1) is first expanded into a 2x2
tile, so that a tiling shader can wrap inside its atlas cell. The editor
then rewrites every combined mesh:

- each vertex colour carries the material's texture scale and its
  rectangle's width;
- the second UV channel carries the rectangle's corner;
- each material slot receives the page's atlas material.

Meshes shared by several renderers are rebuilt once.

This project models that core in Dafny and proves what it promises:

- `SizeSort` models the size comparator and `Atlas.SortTextures`. The
  library sort is modelled by an insertion sort using the same comparator. The
  comparator is not antisymmetric (`CompareNotAntisymmetric`), so only the
  permutation is promised.
- `AtlasPage` models one atlas page and the `Atlas` class:
  - the name projections;
  - `UpdateOriginalTextureOrder`, which re-aligns `texturesOriginal` with
    `texturesInAtlas` by name;
  - the instance sort.
- `Tile` models the pixel copy of `Create2x2Texture` on `array2` pixel
  buffers.
- `Combine` models `CombineTexturesIntoAtlas` as a fold over the visits
  (renderer, material) of its two loops, together with the invariant kept
  between materials:
  - every processed texture sits on exactly one page;
  - no renderer is recorded twice;
  - the two lists of a page stay parallel.
- `Remap` models the remapping done by `UpdateMeshes` as pure
  specification functions. It covers the slot lookup, the colour encoding
  and its decoding, the colour and UV2 buffers, the material slots, and
  the sharing of rebuilt meshes. It also holds `RecalculateUVs`.
- `Editor` holds the editor window as a class whose methods change its
  state step by step, as the C# does. Each method is proved against the
  functions above.

Exceptions the C# would throw become an explicit outcome:

- A packer that cannot place a lone texture dereferences a null array at
  line 179. This is `oversized` here, and the combine stops where it was.
- A remapping lookup that finds no page, a page without rectangles, or an
  index of -1 throws at line 245. This is `ok == false` here, and the state
  reached before the throw is kept.

`CombinedRenderersResolve` shows that the second outcome cannot happen
right after a combine that completed, provided the packer returns one
rectangle per texture.

## Model

| member | source | states |
|---|---|---|
| SizeSort.CompareSizes | Assets/Editor/TiledTextureAtlasEditor.cs:59-66 | The comparator answers 0 exactly for equal sizes, -1 exactly when the sizes differ and either side of `a` is larger, and 1 otherwise. |
| SizeSort.CompareOneImpliesMinusOne | Assets/Editor/TiledTextureAtlasEditor.cs:82-89 | Whenever the comparator puts `a` after `b`, it also puts `b` before `a`. |
| SizeSort.CompareNotAntisymmetric | Assets/Editor/TiledTextureAtlasEditor.cs:82-89 | The converse fails: a 4x1 and a 1x4 texture each compare as the first. So the comparator is not a consistent order. |
| SizeSort.InsertPermutes | Assets/Editor/TiledTextureAtlasEditor.cs:82-89 | One insertion step of the sort adds exactly one occurrence of the inserted texture. |
| SizeSort.SortBySizePermutes | Assets/Editor/TiledTextureAtlasEditor.cs:81-90 | Sorting only reorders: the same textures with the same multiplicities. |
| SizeSort.SortSingleton | Assets/Editor/TiledTextureAtlasEditor.cs:174 | Sorting a one-texture page leaves it unchanged. |
| SizeSort.InsertSorted | Assets/Editor/TiledTextureAtlasEditor.cs:82-89 | The backward scan inserts the texture after the last element that does not compare greater. The result equals the insertion function. |
| SizeSort.SortTextures | Assets/Editor/TiledTextureAtlasEditor.cs:81-90 | The static sort returns the insertion-sort order of its input, which is a permutation of it. |
| AtlasPage.Names | Assets/Editor/TiledTextureAtlasEditor.cs:44-56 | `texturesOriginalNames` / `texturesInAtlasNames`: same length, and entry `i` is the name of texture `i`. |
| AtlasPage.FindByNameFinds | Assets/Editor/TiledTextureAtlasEditor.cs:72 | `FindIndex` by name returns the first index holding the name, and returns -1 exactly when no texture has it. |
| AtlasPage.AlignFromPermutes | Assets/Editor/TiledTextureAtlasEditor.cs:70-79 | The swaps of `UpdateOriginalTextureOrder` only reorder `texturesOriginal`. |
| AtlasPage.AlignFromAligns | Assets/Editor/TiledTextureAtlasEditor.cs:70-79 | Suppose a prefix is aligned, the names in `texturesInAtlas` are distinct, and each remaining name is present. Then the remaining iterations align every position. |
| AtlasPage.UpdateOrderAligns | Assets/Editor/TiledTextureAtlasEditor.cs:70-79 | For equal-length lists holding the same distinct names, afterwards `texturesOriginalNames == texturesInAtlasNames` holds. |
| AtlasPage.SameNameCrossed | Assets/Editor/TiledTextureAtlasEditor.cs:70-79 | Two different textures with one name, in the same order in both lists, come out of the alignment swapped. |
| AtlasPage.CommittedPageOriginals | Assets/Editor/TiledTextureAtlasEditor.cs:166-169 | A committed page keeps its lists parallel and gains exactly the new main texture among its originals. |
| AtlasPage.Atlas.constructor | Assets/Editor/TiledTextureAtlasEditor.cs:325-331 | A new page has empty lists and null rectangles. |
| AtlasPage.Atlas.UpdateOriginalTextureOrder | Assets/Editor/TiledTextureAtlasEditor.cs:70-79 | The in-place loop leaves `texturesOriginal` equal to the alignment function of its old value and keeps the lists parallel. |
| AtlasPage.Atlas.SortTextures | Assets/Editor/TiledTextureAtlasEditor.cs:58-68 | `texturesInAtlas` becomes its sorted order, and `texturesOriginal` is then re-aligned to it. |
| AtlasPage.Atlas.Commit | Assets/Editor/TiledTextureAtlasEditor.cs:166-169 | After a successful pack, the page takes the sorted extended list and the main texture appended and re-aligned. The rectangle copy is lines 179-180. |
| AtlasPage.Atlas.AddFirst | Assets/Editor/TiledTextureAtlasEditor.cs:172-174 | A fresh page receives its only texture in both lists. |
| Tile.Wrap | Assets/Editor/TiledTextureAtlasEditor.cs:336-346 | A coordinate of the doubled texture folds back to `p mod size`. |
| Tile.SetPixels | Assets/Editor/TiledTextureAtlasEditor.cs:339-345 | `SetPixels` overwrites exactly the destination block with the source pixels and leaves every other pixel as it was. |
| Tile.Create2x2Texture | Assets/Editor/TiledTextureAtlasEditor.cs:333-346 | The result is a fresh texture with the source's name and twice its width and height. Pixel `(x, y)` is source pixel `(x mod w, y mod h)`. |
| UnityTypes.Texture2D.constructor | Assets/Editor/TiledTextureAtlasEditor.cs:335-336 | `new Texture2D(w, h)` with its name set has a pixel buffer of that size. |
| Combine.AddTextureParallel | Assets/Editor/TiledTextureAtlasEditor.cs:159-181 | Adding a texture keeps every page's two lists the same length. |
| Combine.AddTextureShape | Assets/Editor/TiledTextureAtlasEditor.cs:159-181 | A successful pack commits to the current page. A failed one keeps that page and opens a page holding only the new texture, with the re-pack's rectangles. The abort happens exactly when the re-pack fails too. |
| Combine.AddTextureAddsOriginal | Assets/Editor/TiledTextureAtlasEditor.cs:166-174 | Either way, the main texture gains exactly one occurrence among all pages' originals. |
| Combine.ExtendedPageAligned | Assets/Editor/TiledTextureAtlasEditor.cs:159-169 | Sorting and re-aligning an extended page keeps the two lists aligned by name with distinct names, given that the new name is new to the page. |
| Combine.AddTextureKeepsAlignment | Assets/Editor/TiledTextureAtlasEditor.cs:159-177 | The alignment that `rects[texturesOriginal.IndexOf(t)]` relies on survives adding a texture, on both branches. |
| Combine.AddTextureKeepsAligned | Assets/Editor/TiledTextureAtlasEditor.cs:159-181 | Adding a texture whose name the current page lacks, packed as a texture of the same name, keeps every page aligned by name with distinct names. |
| Combine.ProcessMaterialKeepsAligned | Assets/Editor/TiledTextureAtlasEditor.cs:140-183 | One material keeps every page aligned, given that a new main texture's name is new to the current page. |
| Combine.NewNameMissing | Assets/Editor/TiledTextureAtlasEditor.cs:150-169 | Suppose no other visited main texture shares a new main texture's name. Then the current page holds no texture of that name. |
| Combine.CombineUsesKeepsAligned | Assets/Editor/TiledTextureAtlasEditor.cs:132-185 | When main textures are told apart by name, every page the combine builds keeps `texturesOriginalNames == texturesInAtlasNames`, with distinct names, until it aborts. |
| Combine.ProcessTextureEffect | Assets/Editor/TiledTextureAtlasEditor.cs:146-182 | A null or already processed main texture changes nothing. A new one is added to the pages, and it is recorded as processed unless the combine aborts. |
| Combine.ProcessMaterialEffect | Assets/Editor/TiledTextureAtlasEditor.cs:140-183 | An incompatible shader changes nothing. A compatible material records its renderer once. Pages change only for a new main texture. |
| Combine.ProcessMaterialKeepsInv | Assets/Editor/TiledTextureAtlasEditor.cs:140-183 | Every material that does not abort keeps the invariant: parallel lists, no duplicates, and the pages' originals are exactly the processed textures. |
| Combine.PlacementUnique | Assets/Editor/TiledTextureAtlasEditor.cs:150-182 | Between materials, every processed texture sits on exactly one page. |
| Combine.CombineUsesKeepsInv | Assets/Editor/TiledTextureAtlasEditor.cs:132-185 | Every state the two loops reach without aborting satisfies the invariant. |
| Combine.CombineUsesCovers | Assets/Editor/TiledTextureAtlasEditor.cs:139-183 | A combine that does not abort records the renderer and main texture of every visited compatible material. |
| Combine.CombineUsesSound | Assets/Editor/TiledTextureAtlasEditor.cs:139-183 | Conversely, every recorded renderer and processed texture comes from a visited compatible material. |
| Combine.UsesStep | Assets/Editor/TiledTextureAtlasEditor.cs:132-139 | The visits of the first `i + 1` renderers extend those of the first `i` by renderer `i`'s materials in order. |
| Combine.UsesPrefix | Assets/Editor/TiledTextureAtlasEditor.cs:132-139 | The visits of the first `i` renderers are a prefix of all visits. |
| Editor.TiledTextureAtlasEditor.CreateNewAtlas | Assets/Editor/TiledTextureAtlasEditor.cs:325-331 | Appends a fresh empty page with null rectangles to `atlases` and returns it. |
| Editor.TiledTextureAtlasEditor.IsIncludedInCompatibleShaders | Assets/Editor/TiledTextureAtlasEditor.cs:367-373 | True exactly when the shader's name is "Diffuse" or "Mobile/Diffuse" (lines 22-25). |
| Editor.TiledTextureAtlasEditor.GetAtlasContainingTexture | Assets/Editor/TiledTextureAtlasEditor.cs:358-365 | Returns the first page whose originals hold the texture, or null (`None`) exactly when no page does. |
| Editor.TiledTextureAtlasEditor.CommitToAtlas | Assets/Editor/TiledTextureAtlasEditor.cs:166-180 | The successful-pack branch produces the fold step's pages, with no abort. |
| Editor.TiledTextureAtlasEditor.OpenNewAtlas | Assets/Editor/TiledTextureAtlasEditor.cs:170-180 | The failed-pack branch appends a fresh page object and produces the fold step's pages and abort flag. |
| Editor.TiledTextureAtlasEditor.AddToAtlas | Assets/Editor/TiledTextureAtlasEditor.cs:159-181 | Packing the current list plus the new texture leaves the page objects equal to the fold step. |
| Editor.TiledTextureAtlasEditor.AddMainTexture | Assets/Editor/TiledTextureAtlasEditor.cs:153-181 | A tiled material packs a fresh 2x2 copy with the texture's name and doubled size. Otherwise the texture itself is packed. |
| Editor.TiledTextureAtlasEditor.RecordRenderer | Assets/Editor/TiledTextureAtlasEditor.cs:143-144 | The renderer is appended unless already listed. |
| Editor.TiledTextureAtlasEditor.CombineMainTexture | Assets/Editor/TiledTextureAtlasEditor.cs:146-182 | A null or processed main texture is skipped. The state otherwise equals the texture step of the fold. |
| Editor.TiledTextureAtlasEditor.CombineMaterial | Assets/Editor/TiledTextureAtlasEditor.cs:140-183 | One material of one renderer: the new pages, processed textures and renderer list are those of the per-material step. |
| Editor.TiledTextureAtlasEditor.CombineRenderer | Assets/Editor/TiledTextureAtlasEditor.cs:138-184 | The renderer's materials are visited in order, all of them unless one aborts. The state is the fold over the visits made, and each packed texture carries its main texture's name. |
| Editor.TiledTextureAtlasEditor.CombineTexturesIntoAtlas | Assets/Editor/TiledTextureAtlasEditor.cs:124-186 | Starting from one empty page, the visits made are all (renderer, material) pairs in loop order, or a prefix of them if the combine aborted. The final pages, processed textures and renderer list are the fold over those visits. The texture packed at each visit is the main texture itself, or a copy with its name and twice its size when the material is tiled. |
| Remap.IndexOfFinds | Assets/Editor/TiledTextureAtlasEditor.cs:245 | `IndexOf` by reference returns the first position of the texture, and -1 exactly when the texture is absent. |
| Remap.PageOfFinds | Assets/Editor/TiledTextureAtlasEditor.cs:358-365 | The page lookup finds the first page holding the texture, and `None` exactly when no page does. |
| Remap.SlotOfPlaces | Assets/Editor/TiledTextureAtlasEditor.cs:238-245 | A placed slot is a compatible material with a main texture. Its page is the first holding the texture, and its rectangle is the one at the texture's first position there. |
| Remap.SlotOfAfterCombine | Assets/Editor/TiledTextureAtlasEditor.cs:244-245 | Over a combined state with packed pages, the lookup of a processed texture never throws. The page it finds is the only one holding the texture. |
| Remap.AddTextureKeepsPacked | Assets/Editor/TiledTextureAtlasEditor.cs:159-180 | Given a packer that returns one rectangle per texture, adding a texture without aborting leaves every non-empty page with one rectangle per packed texture. |
| Remap.CombineUsesKeepsPacked | Assets/Editor/TiledTextureAtlasEditor.cs:132-185 | The same holds for the whole combine, until it aborts. |
| Remap.CombinedInvPacked | Assets/Editor/TiledTextureAtlasEditor.cs:132-185 | Given a packer that returns one rectangle per texture, a combine that did not abort ends in the invariant, with every non-empty page packed. |
| Remap.CombinedSlotResolves | Assets/Editor/TiledTextureAtlasEditor.cs:237-245 | After a combine that did not abort, no visited material makes the line-245 lookup throw. |
| Remap.PlacedOnOwnCopy | Assets/Editor/TiledTextureAtlasEditor.cs:244-245 | On aligned pages, a placed slot's rectangle is the one packed for the texture of the main texture's name: `texturesInAtlas[texturesOriginal.IndexOf(t)]` is named like `t`. |
| Remap.CombinedSlotOnOwnCopy | Assets/Editor/TiledTextureAtlasEditor.cs:237-245 | After a combine that did not abort, over main textures told apart by name, every combined material with a main texture is placed on the rectangle packed for the texture of its name. |
| Remap.SameNameTakesOtherRect | Assets/Editor/TiledTextureAtlasEditor.cs:70-79 | A page holding `a`, joined by a different texture `b` of the same name, no larger in either dimension and smaller in one, packs `[a, b]` under any sort consistent with the comparator, yet the lookup for `a` returns `b`'s rectangle. |
| Remap.CombinedRenderersResolve | Assets/Editor/TiledTextureAtlasEditor.cs:212-245 | After such a combine, remapping those renderers throws for none of them. |
| Remap.VertexColorDecodes | Assets/Editor/TiledTextureAtlasEditor.cs:254-265 | The vertex colour round-trips: the texture scale and the rectangle width decode back. The alpha is 1 exactly for a tiled (non-unit) scale. |
| Remap.OrDefault | Assets/Editor/TiledTextureAtlasEditor.cs:225-235 | A non-empty mesh buffer is used as is. An empty one becomes `vertexCount` default entries. |
| Remap.RecalculateUVs | Assets/Editor/TiledTextureAtlasEditor.cs:315-323 | Returns a fresh array of the input's length. Its first four entries are the rectangle's corners (x, y), (x + w, y + h), (x + w, y) and (x, y + h), and the entries past the fourth are zero. The writes throw exactly when the input is shorter than four. |
| Remap.RecalculateUVsQuad | Assets/Editor/TiledTextureAtlasEditor.cs:315-323 | For a rectangle of non-negative size, the four UVs lie in it. Entries 0 and 1 are its lowest and highest corners, and both diagonals meet at its centre. |
| Remap.FirstFailFinds | Assets/Editor/TiledTextureAtlasEditor.cs:237-277 | The slot loop throws at the first slot whose lookup fails. No earlier slot fails. |
| Remap.RemapMaterials | Assets/Editor/TiledTextureAtlasEditor.cs:272-276 | After the slots up to `n`, slot `j` holds its page's atlas material if it was placed, and its old material otherwise. |
| Remap.RemapColorsKeep | Assets/Editor/TiledTextureAtlasEditor.cs:257-266 | A vertex that no placed slot's sub-mesh names keeps its initial colour. |
| Remap.RemapColorsLast | Assets/Editor/TiledTextureAtlasEditor.cs:257-266 | The last slot wins: a vertex repainted by slot `j` and by no later slot has slot `j`'s encoded colour. |
| Remap.SlotStep | Assets/Editor/TiledTextureAtlasEditor.cs:238-276 | A placed slot repaints exactly its sub-mesh's vertices and sets the UV2 entries the mesh has UVs for. Any other slot changes no buffer. |
| Remap.RemapUv2Keep | Assets/Editor/TiledTextureAtlasEditor.cs:268-270 | With no slot placed, the UV2 buffer keeps its initial contents. |
| Remap.RemapUv2Last | Assets/Editor/TiledTextureAtlasEditor.cs:268-270 | With slot `j` the last placed one, every UV2 entry covered by the mesh's UVs holds that rectangle's corner. The rest keep their initial values. |
| Remap.RemapUv2Beyond | Assets/Editor/TiledTextureAtlasEditor.cs:268-270 | No slot touches a UV2 entry past the mesh's own UVs. |
| Remap.FirstFailingFinds | Assets/Editor/TiledTextureAtlasEditor.cs:215-305 | The renderer loop throws at the first renderer some slot of which fails. |
| Remap.FirstSharing | Assets/Editor/TiledTextureAtlasEditor.cs:282-304 | The first renderer up to `i` with the same original mesh comes no later than `i` and has that mesh. |
| Remap.SharedStep | Assets/Editor/TiledTextureAtlasEditor.cs:282-304 | The dedup step: an original mesh is missing from the processed meshes exactly when its renderer is the first with it. That renderer's new mesh becomes the one all later sharers get. |
| Remap.ProgressStep | Assets/Editor/TiledTextureAtlasEditor.cs:215-305 | A renderer remapped without a throw extends the loop's progress invariant by one. |
| Remap.ProgressFinal | Assets/Editor/TiledTextureAtlasEditor.cs:215-305 | Progress up to the first throwing renderer, or to the end, gives the final material lists and meshes. |
| Editor.TiledTextureAtlasEditor.PaintTriangles | Assets/Editor/TiledTextureAtlasEditor.cs:258-265 | Every vertex named by the sub-mesh's triangles gets the colour. All others keep theirs. |
| Editor.TiledTextureAtlasEditor.FillUv2 | Assets/Editor/TiledTextureAtlasEditor.cs:268-270 | The first `uv.Length` UV2 entries get the rectangle's corner. The others are unchanged. |
| Editor.TiledTextureAtlasEditor.RemapSlot | Assets/Editor/TiledTextureAtlasEditor.cs:238-276 | Slot `j` throws exactly when its lookup fails. Otherwise, the renderer's materials and the buffers advance by that slot's step. |
| Editor.TiledTextureAtlasEditor.RemapSlots | Assets/Editor/TiledTextureAtlasEditor.cs:224-277 | The slot loop throws exactly when some slot fails. The materials end as the slots up to the failing one leave them. On success, the buffers are those computed over all slots. |
| Editor.TiledTextureAtlasEditor.RemapRenderer | Assets/Editor/TiledTextureAtlasEditor.cs:222-304 | One renderer gets its remapped materials. Its mesh is either the replacement already made for its original mesh or a fresh mesh built from the buffers, which is then recorded as processed. No other renderer changes. |
| Editor.TiledTextureAtlasEditor.RemapNext | Assets/Editor/TiledTextureAtlasEditor.cs:215-305 | One iteration of the renderer loop keeps the progress invariant, or reports the throw. |
| Editor.TiledTextureAtlasEditor.UpdateMeshes | Assets/Editor/TiledTextureAtlasEditor.cs:212-306 | Succeeds exactly when no renderer's lookup throws. Renderers before the first throwing one are fully remapped, the throwing one up to its failing slot, and later ones not at all. Renderers sharing an original mesh share one fresh replacement built from the first one's buffers. The rest keep their meshes. |

## Left out

- The window and its UI (`Init`, `OnGUI`, `ProcessObject`, the progress bars) are not modelled. They only gather input and show progress.
- `SaveAtlasesToDisk` (PNG encoding, JSON serialisation, asset creation) is I/O. The atlas materials it creates reach `UpdateMeshes` as its `pageMaterials` parameter, one per page.
- `MakeTextureReadable` (importer settings), `LogVector2Array` (logging), the PNG write and re-import at the end of `Create2x2Texture`, and `AssetDatabase.CreateAsset` for meshes are I/O and are not modelled.
- `UITexturePacker.PackTextures` is not part of this model. It is the parameter `pack`, which returns the rectangles or nothing. `Pack` passes it the padding 1, 1, 0 and the maximum size `ATLAS_SIZE` (2048) as constants, as lines 163 and 175 do. How it places textures and the page texture it draws into are not modelled. `RectPerTexture` is the one property assumed of it where stated.
- The library sort (an introsort) is replaced by an insertion sort with the same comparator. Because the comparator is inconsistent, the library's order for equal or incomparable sizes is not captured. Only the permutation is promised.
- The page's `texture` and `material` fields are not modelled: the packer draws the pixels, and the material is created on disk. `rects` is modelled.
- Reloading a shared mesh from its asset path (name plus instance ID) is modelled as a map from each original mesh to the replacement made for it. Identical paths for distinct meshes are not modelled.
- The mesh's vertices, normals and tangents are not modelled. Neither is `RecalculateBounds`. Meshes keep their name, vertex count, sub-mesh triangles, colours, UV and UV2.
- `float` is modelled as `real`. The only arithmetic is the `/128`, `/2` and the rectangle corner, which hold exactly in reals. Unity's `Vector2 !=` at line 154 compares approximately, while `scale.x != 1` at line 261 compares exactly; the model compares both exactly, so a scale within Unity's tolerance of one is treated as tiled here.
- `mainTextureOffset` is read at line 255 but never used, and `pixelOffset` is the constant 0. Both are left out: the corner is `mainRect.x`, `mainRect.y`, and the width is `mainRect.width`.
- The `(Texture2D)` casts of lines 146 and 241 would throw for a main texture of another texture class. `Material.mainTexture` is typed `Option<Texture2D>` here, so that case is not modelled.
- A recorded renderer without a `MeshFilter`, or whose `sharedMesh` is null, throws at lines 223-225 and aborts `UpdateMeshes`. `MeshRenderer` here always carries a mesh, so that error path is not modelled.
- A null material in `sharedMaterials` is not modelled. It would throw inside `IsIncludedInCompatibleShaders`. Materials are values here.
- Editor.TiledTextureAtlasEditor.UpdateMeshes: requires the renderers to be distinct. The combine guarantees this (`Combine.Inv`). It also requires every mesh's triangle indices to be in range, which the C# relies on at line 262.
- Combine.CombineUsesKeepsAligned: assumes `NamesIdentify`, that no two different main textures share a name. The alignment matches by name, and without this assumption it fails (see Findings). `Remap.CombinedSlotOnOwnCopy` matches the packed texture by name, not by identity.
- Remap.SlotOfAfterCombine: takes `Packed` (one rectangle per packed texture) as an assumption. `CombineUsesKeepsPacked` proves it for a packer satisfying `RectPerTexture`.

## Findings

| source | as written | input that shows it | evidently intended | confidence | as-written member | corrected member |
|---|---|---|---|---|---|---|
| Assets/Editor/TiledTextureAtlasEditor.cs:70-79 | `UpdateOriginalTextureOrder` swaps the first original with a matching name into place. Two different textures with one name then match the same original. | Texture `a` on the current page, then a different texture `b` with the same name, no larger than `a` in either dimension and smaller in one (so the comparator orders `a` first under any sort): `texturesInAtlas` is `[a, b]` but `texturesOriginal` ends as `[b, a]`. So `a`'s material gets `b`'s rectangle. | Each original sits at the position of its own packed texture. That holds whenever no two main textures share a name. | not executed | AtlasPage.SameNameCrossed, Remap.SameNameTakesOtherRect | AtlasPage.UpdateOrderAligns, Combine.CombineUsesKeepsAligned, Remap.CombinedSlotOnOwnCopy |
