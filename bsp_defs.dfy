/** The constants of the Half-Life BSP (version 30) format: leaf content
    codes, the directory index of each lump, the number of light styles per
    face and the plane types. */
module BspDefs {

  const CONTENTS_EMPTY: int := -1
  const CONTENTS_SOLID: int := -2
  const CONTENTS_WATER: int := -3
  const CONTENTS_SLIME: int := -4
  const CONTENTS_LAVA: int := -5
  const CONTENTS_SKY: int := -6
  const CONTENTS_ORIGIN: int := -7
  const CONTENTS_CLIP: int := -8
  const CONTENTS_CURRENT_0: int := -9
  const CONTENTS_CURRENT_90: int := -10
  const CONTENTS_CURRENT_180: int := -11
  const CONTENTS_CURRENT_270: int := -12
  const CONTENTS_CURRENT_UP: int := -13
  const CONTENTS_CURRENT_DOWN: int := -14
  const CONTENTS_TRANSLUCENT: int := -15

  const LUMP_ENTITIES: nat := 0
  const LUMP_PLANES: nat := 1
  const LUMP_TEXTURES: nat := 2
  const LUMP_VERTEXES: nat := 3
  const LUMP_VISIBILITY: nat := 4
  const LUMP_NODES: nat := 5
  const LUMP_TEXINFO: nat := 6
  const LUMP_FACES: nat := 7
  const LUMP_LIGHTING: nat := 8
  const LUMP_CLIPNODES: nat := 9
  const LUMP_LEAFS: nat := 10
  const LUMP_MARKSURFACES: nat := 11
  const LUMP_EDGES: nat := 12
  const LUMP_SURFEDGES: nat := 13
  const LUMP_MODELS: nat := 14
  const HEADER_LUMPS: nat := 15

  const MAXLIGHTMAPS: nat := 4

  const PLANE_X: int := 0
  const PLANE_Y: int := 1
  const PLANE_Z: int := 2
  const PLANE_ANYX: int := 3
  const PLANE_ANYY: int := 4
  const PLANE_ANYZ: int := 5

  /** The lump indices in declaration order. */
  function LumpIndices(): (r: seq<nat>)
    ensures |r| == HEADER_LUMPS
  {
    [LUMP_ENTITIES, LUMP_PLANES, LUMP_TEXTURES, LUMP_VERTEXES, LUMP_VISIBILITY,
     LUMP_NODES, LUMP_TEXINFO, LUMP_FACES, LUMP_LIGHTING, LUMP_CLIPNODES,
     LUMP_LEAFS, LUMP_MARKSURFACES, LUMP_EDGES, LUMP_SURFEDGES, LUMP_MODELS]
  }

  /** The content codes in declaration order. */
  function ContentCodes(): (r: seq<int>)
    ensures |r| == 15
  {
    [CONTENTS_EMPTY, CONTENTS_SOLID, CONTENTS_WATER, CONTENTS_SLIME, CONTENTS_LAVA,
     CONTENTS_SKY, CONTENTS_ORIGIN, CONTENTS_CLIP, CONTENTS_CURRENT_0,
     CONTENTS_CURRENT_90, CONTENTS_CURRENT_180, CONTENTS_CURRENT_270,
     CONTENTS_CURRENT_UP, CONTENTS_CURRENT_DOWN, CONTENTS_TRANSLUCENT]
  }

  /** Plane types whose normal is a coordinate axis. */
  predicate IsAxial(planeType: int)
  {
    planeType == PLANE_X || planeType == PLANE_Y || planeType == PLANE_Z
  }

  /** The lump directory has one slot per lump: the 15 indices are exactly
      0..14, so each of them names a distinct slot of the 15 read by the
      header loop. */
  lemma LumpIndicesAreTheDirectorySlots()
    ensures forall i :: 0 <= i < HEADER_LUMPS ==> LumpIndices()[i] == i
    ensures forall i, j :: 0 <= i < j < HEADER_LUMPS ==> LumpIndices()[i] != LumpIndices()[j]
  {
  }

  /** The content codes are the distinct integers -1 .. -15, the second of
      them (the solid code) being -2. */
  lemma ContentCodesAreDistinctNegatives()
    ensures forall i :: 0 <= i < 15 ==> ContentCodes()[i] == -(i + 1)
    ensures forall i, j :: 0 <= i < j < 15 ==> ContentCodes()[i] != ContentCodes()[j]
    ensures ContentCodes()[1] == CONTENTS_SOLID == -2
  {
  }

  /** Exactly the types 0, 1 and 2 are axial; the snapped types 3..5 are not. */
  lemma AxialPlaneTypes(planeType: int)
    ensures IsAxial(planeType) <==> 0 <= planeType <= 2
    ensures PLANE_ANYX == 3 && PLANE_ANYY == 4 && PLANE_ANYZ == 5
  {
  }
}
