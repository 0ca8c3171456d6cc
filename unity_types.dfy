/**
 * The host-engine objects the atlas editor works on, reduced to the
 * fields it reads and writes. Floating-point values are `real`
 * (no IEEE rounding is modelled).
 */
module UnityTypes {
  import opened Wrappers

  datatype Vec2 = Vec2(x: real, y: real)

  /** `Vector2.one`, the unit texture scale of an untiled material. */
  const One: Vec2 := Vec2(1.0, 1.0)

  /** A placement rectangle as returned by the packer. */
  datatype Rect = Rect(x: real, y: real, width: real, height: real)

  datatype Color = Color(r: real, g: real, b: real, a: real)

  /** The value a freshly allocated `Color[]` or `Vector2[]` holds. */
  const ClearColor: Color := Color(0.0, 0.0, 0.0, 0.0)
  const Zero2: Vec2 := Vec2(0.0, 0.0)

  /**
   * A texture object. Its identity is the reference; `pixels` is indexed
   * `[x, y]`, with `x < width` and `y < height`.
   */
  class Texture2D {
    const name: string
    const width: nat
    const height: nat
    const pixels: array2<Color>

    predicate Valid() {
      pixels.Length0 == width && pixels.Length1 == height && width > 0 && height > 0
    }

    /** `new Texture2D(width, height)` followed by setting its name. */
    constructor (name: string, width: nat, height: nat)
      requires width > 0 && height > 0
      ensures Valid() && fresh(pixels)
      ensures this.name == name && this.width == width && this.height == height
    {
      this.name := name;
      this.width := width;
      this.height := height;
      this.pixels := new Color[width, height]((_, _) => ClearColor);
    }
  }

  /** A material binding: its shader's name, main texture (null when absent) and texture scale. */
  datatype Material = Material(shaderName: string, mainTexture: Option<Texture2D>, mainTextureScale: Vec2)

  /**
   * A mesh asset. Unity returns copies of its buffers, so they are values
   * here; `subMeshes[j]` is the triangle index list of sub-mesh `j`.
   */
  class Mesh {
    const name: string
    const vertexCount: nat
    const colors: seq<Color>
    const uv: seq<Vec2>
    const uv2: seq<Vec2>
    const subMeshes: seq<seq<int>>

    /** What the engine guarantees of every mesh: buffers are empty or one entry per vertex, triangles index vertices. */
    predicate Valid() {
      && (|colors| == 0 || |colors| == vertexCount)
      && (|uv| == 0 || |uv| == vertexCount)
      && forall j, k :: 0 <= j < |subMeshes| && 0 <= k < |subMeshes[j]| ==> 0 <= subMeshes[j][k] < vertexCount
    }

    constructor (name: string, vertexCount: nat, colors: seq<Color>, uv: seq<Vec2>, uv2: seq<Vec2>, subMeshes: seq<seq<int>>)
      ensures this.name == name && this.vertexCount == vertexCount && this.colors == colors
      ensures this.uv == uv && this.uv2 == uv2 && this.subMeshes == subMeshes
    {
      this.name := name;
      this.vertexCount := vertexCount;
      this.colors := colors;
      this.uv := uv;
      this.uv2 := uv2;
      this.subMeshes := subMeshes;
    }
  }

  /** A mesh renderer together with its mesh filter's shared mesh. */
  class MeshRenderer {
    var sharedMaterials: seq<Material>
    var sharedMesh: Mesh

    constructor (materials: seq<Material>, mesh: Mesh)
      ensures sharedMaterials == materials && sharedMesh == mesh
    {
      sharedMaterials := materials;
      sharedMesh := mesh;
    }
  }
}
