/** The records of a BSP file as the loader decodes them, and the on-disk
    size of each fixed-size record. */
module BspLumps {
  import opened Bytes
  import opened BspDefs

  /** Fixed-length arrays as the loader's array readers produce them. */
  type Vec3 = s: seq<real> | |s| == 3 witness [0.0, 0.0, 0.0]
  type Short3 = s: seq<int> | |s| == 3 witness [0, 0, 0]
  type ShortPair = s: seq<int> | |s| == 2 witness [0, 0]
  type Int3 = s: seq<int> | |s| == 3 witness [0, 0, 0]
  type UShortPair = s: seq<nat> | |s| == 2 witness [0, 0]
  type UInt4 = s: seq<nat> | |s| == 4 witness [0, 0, 0, 0]

  const PLANE_SIZE: nat := 20
  const FACE_SIZE: nat := 20
  const VERTEX_SIZE: nat := 12
  const EDGE_SIZE: nat := 4
  const LEAF_SIZE: nat := 28
  const NODE_SIZE: nat := 24
  const CLIPNODE_SIZE: nat := 8

  /** One directory entry: where a lump starts and how many bytes it has. */
  datatype BspLump = BspLump(offset: int, length: int)

  datatype BspHeader = BspHeader(version: int, lumps: seq<BspLump>)

  /** A plane: normal . X == distance. */
  datatype BspPlane = BspPlane(normal: Vec3, distance: real, planeType: int)

  /** A face; `styles` holds the light-style bytes, at most MAXLIGHTMAPS. */
  datatype BspFace = BspFace(
    planeId: int, planeSide: int, firstEdge: int, numEdges: int,
    textureInfo: int, styles: seq<byte>, lightmapOffset: int)

  datatype BspVertex = BspVertex(point: Vec3)

  /** An edge; the loader fills the field under the name `Vertex`. */
  datatype BspEdge = BspEdge(vertex: UShortPair)

  /** A leaf; `ambientLevels` may be shorter than 4 bytes when the file ends
      inside the last leaf. */
  datatype BspLeaf = BspLeaf(
    contents: int, visOffset: int, mins: Short3, maxs: Short3,
    firstMarkSurface: nat, numMarkSurfaces: nat, ambientLevels: seq<byte>)

  /** A node.  A child c >= 0 is an index into the nodes; a child c < 0
      stands for leaf ~c. */
  datatype BspNode = BspNode(
    planeId: int, children: ShortPair, mins: Short3, maxs: Short3,
    firstFace: nat, numFaces: nat)

  datatype BspClipNode = BspClipNode(planeId: int, children: ShortPair)

  datatype BspModel = BspModel(
    mins: Vec3, maxs: Vec3, origin: Vec3, nodes: Int3,
    numLeafs: int, firstFace: int, numFaces: int)

  datatype BspMipTexture = BspMipTexture(name: string, width: nat, height: nat, offsets: UInt4)

  datatype BspTextureInfo = BspTextureInfo(
    vec3s: Vec3, sShift: real, vec3t: Vec3, tShift: real, mipTex: nat, flags: nat)

  /** The leaf a negative child stands for: its bitwise complement, the
      one leaf whose child value is `child`. */
  function ChildLeaf(child: int): (leaf: nat)
    requires child < 0
    ensures LeafChild(leaf) == child
    ensures forall other: nat :: LeafChild(other) == child ==> other == leaf
  {
    -child - 1
  }

  /** The child value that stands for a leaf. */
  function LeafChild(leaf: nat): (child: int)
    ensures child < 0
  {
    -(leaf as int) - 1
  }

  /** Leaf references and negative children are in one-to-one correspondence. */
  lemma ChildLeafRoundTrip(leaf: nat, child: int)
    requires child < 0
    ensures ChildLeaf(LeafChild(leaf)) == leaf
    ensures LeafChild(ChildLeaf(child)) == child
  {
  }

  /** Every face record carries MAXLIGHTMAPS style bytes, and the record
      sizes are the sums of their field widths. */
  lemma RecordSizes()
    ensures PLANE_SIZE == 3 * 4 + 4 + 4
    ensures FACE_SIZE == 2 + 2 + 4 + 2 + 2 + MAXLIGHTMAPS + 4
    ensures VERTEX_SIZE == 3 * 4 && EDGE_SIZE == 2 * 2
    ensures LEAF_SIZE == 4 + 4 + 3 * 2 + 3 * 2 + 2 + 2 + 4
    ensures NODE_SIZE == 4 + 2 * 2 + 3 * 2 + 3 * 2 + 2 + 2
    ensures CLIPNODE_SIZE == 4 + 2 * 2
  {
  }
}
