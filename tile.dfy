/**
 * `Create2x2Texture`: the tile expansion that bakes one repeat cycle of a
 * tiled material's texture into a single atlas cell. Only the pixel copy is
 * modelled; the PNG encode and asset re-import of the result are not.
 */
module Tile {
  import opened UnityTypes

  /** Position `p < 2 * size` folded back into `[0, size)`. */
  function Wrap(p: nat, size: nat): (r: nat)
    requires 0 < size && p < 2 * size
    ensures r < size && r == p % size
  {
    if p < size then p else p - size
  }

  /**
   * `Texture2D.SetPixels(x0, y0, width, height, source.GetPixels())`:
   * overwrites the block at `(x0, y0)` with `src` and nothing else.
   */
  method SetPixels(dst: array2<Color>, x0: nat, y0: nat, src: array2<Color>)
    requires dst != src
    requires x0 + src.Length0 <= dst.Length0 && y0 + src.Length1 <= dst.Length1
    modifies dst
    ensures forall x, y :: 0 <= x < dst.Length0 && 0 <= y < dst.Length1 ==>
      dst[x, y] == if x0 <= x < x0 + src.Length0 && y0 <= y < y0 + src.Length1
                   then src[x - x0, y - y0] else old(dst[x, y])
  {
    for i := 0 to src.Length0
      invariant forall x, y :: 0 <= x < dst.Length0 && 0 <= y < dst.Length1 ==>
        dst[x, y] == if x0 <= x < x0 + i && y0 <= y < y0 + src.Length1
                     then src[x - x0, y - y0] else old(dst[x, y])
    {
      for j := 0 to src.Length1
        invariant forall x, y :: 0 <= x < dst.Length0 && 0 <= y < dst.Length1 ==>
          dst[x, y] == if (x0 <= x < x0 + i && y0 <= y < y0 + src.Length1) || (x == x0 + i && y0 <= y < y0 + j)
                       then src[x - x0, y - y0] else old(dst[x, y])
      {
        dst[x0 + i, y0 + j] := src[i, j];
      }
    }
  }

  /** Whether block `(blockX, blockY)` of the 2x2 grid is written before iteration `(x, y)` of the copy loops. */
  predicate BlockDone(blockX: nat, blockY: nat, x: nat, y: nat) {
    blockX < x || (blockX == x && blockY < y)
  }

  /**
   * A `2w x 2h` texture with the source's name whose pixel `(x, y)` is the
   * source's pixel `(x mod w, y mod h)`; the source is not modified (the
   * method modifies only what it allocates).
   */
  method Create2x2Texture(mainTexture: Texture2D) returns (texture: Texture2D)
    requires mainTexture.Valid()
    ensures fresh(texture) && fresh(texture.pixels) && texture.Valid()
    ensures texture.name == mainTexture.name
    ensures texture.width == 2 * mainTexture.width && texture.height == 2 * mainTexture.height
    ensures forall x, y :: 0 <= x < texture.width && 0 <= y < texture.height ==>
      texture.pixels[x, y] == mainTexture.pixels[x % mainTexture.width, y % mainTexture.height]
  {
    var w, h := mainTexture.width, mainTexture.height;
    texture := new Texture2D(mainTexture.name, w * 2, h * 2);
    var dst := texture.pixels;
    for x := 0 to 2
      invariant forall px, py :: 0 <= px < 2 * w && 0 <= py < 2 * h ==>
        BlockDone(if px < w then 0 else 1, if py < h then 0 else 1, x, 0) ==>
        dst[px, py] == mainTexture.pixels[Wrap(px, w), Wrap(py, h)]
    {
      for y := 0 to 2
        invariant forall px, py :: 0 <= px < 2 * w && 0 <= py < 2 * h ==>
          BlockDone(if px < w then 0 else 1, if py < h then 0 else 1, x, y) ==>
          dst[px, py] == mainTexture.pixels[Wrap(px, w), Wrap(py, h)]
      {
        ghost var x0, y0 := if x == 0 then 0 else w, if y == 0 then 0 else h;
        assert x0 == x * w && y0 == y * h;
        SetPixels(dst, x * w, y * h, mainTexture.pixels);
      }
    }
  }
}
