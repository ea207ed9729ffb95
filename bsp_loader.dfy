/** BspLoader: reads the header and every lump of a BSP version 30 file
    through a positioned reader, collects them into a map, and, on its own,
    decodes the potentially visible sets. */
module BspLoading {
  import opened Wrappers
  import opened Bytes
  import opened BinaryReading
  import opened BspDefs
  import opened BspLumps
  import opened BspDecode
  import opened BspVis
  import opened EntityKeyValues
  import opened EntityLookup
  import opened EntityParsing

  /** The loaded level.  `textureOffsets` are the relative offsets of the
      textures lump, which the WAD loader adds to the lump offset; `visList`
      stays empty because Load never decodes the visibility lists. */
  datatype BspMap = BspMap(
    header: BspHeader,
    entities: Entities,
    models: seq<BspModel>,
    planes: seq<BspPlane>,
    faces: seq<BspFace>,
    vertices: seq<BspVertex>,
    edges: seq<BspEdge>,
    leafs: seq<BspLeaf>,
    nodes: seq<BspNode>,
    clipNodes: seq<BspClipNode>,
    markSurfaces: seq<int>,
    surfEdges: seq<int>,
    mipTextures: seq<BspMipTexture>,
    textureOffsets: seq<int>,
    textureInfos: seq<BspTextureInfo>,
    visList: Option<seq<Option<seq<bool>>>>)

  // ---------------------------------------------------------------------
  // What Load computes

  /** ReadHeader from position p: 124 bytes, or the end of the stream. */
  function HeaderFrom(d: seq<byte>, p: nat): (r: Result<BspHeader>)
    ensures r.Ok? <==> p + HEADER_SIZE <= |d|
    ensures r.Ok? ==> |r.value.lumps| == HEADER_LUMPS
  {
    if p + HEADER_SIZE <= |d| then Ok(HeaderAt(d, p)) else Err(EndOfStream)
  }

  /** ReadEntities: the lump's bytes, split into entities by the parser. */
  function EntitiesLump(d: seq<byte>, lump: BspLump): (r: Result<Entities>)
    ensures r.Ok? <==> lump.offset >= 0 && lump.length >= 0 && Scan(Available(d, lump.offset, lump.length)).braceCount == 0
    ensures r.Ok? ==> |r.value.items| == |Scan(Available(d, lump.offset, lump.length)).blocks|
    ensures lump.offset >= 0 && lump.length >= 0 && r.Err? ==>
      r.error == BraceMismatch(Scan(Available(d, lump.offset, lump.length)).braceCount)
  {
    var bytes :- LumpBytes(d, lump.offset, lump.length);
    var st := Scan(bytes);
    if st.braceCount != 0 then Err(BraceMismatch(st.braceCount))
    else Ok(FromList(BlockEntities(st.blocks)))
  }

  /** Every lump after the header, in the order Load reads them; the first
      lump that fails decides the error. */
  function LumpsOf(d: seq<byte>, header: BspHeader): (r: Result<BspMap>)
    requires |header.lumps| == HEADER_LUMPS
    ensures r.Ok? ==> r.value.header == header && r.value.visList.None?
  {
    var lumps := header.lumps;
    var models :- ModelsLump(d, lumps[LUMP_MODELS]);
    var entities :- EntitiesLump(d, lumps[LUMP_ENTITIES]);
    var planes :- PlanesLump(d, lumps[LUMP_PLANES]);
    var faces :- FacesLump(d, lumps[LUMP_FACES]);
    var vertices :- VerticesLump(d, lumps[LUMP_VERTEXES]);
    var edges :- EdgesLump(d, lumps[LUMP_EDGES]);
    var leafs :- LeafsLump(d, lumps[LUMP_LEAFS]);
    var nodes :- NodesLump(d, lumps[LUMP_NODES]);
    var clipNodes :- ClipNodesLump(d, lumps[LUMP_CLIPNODES]);
    var markSurfaces :- MarkSurfacesLump(d, lumps[LUMP_MARKSURFACES]);
    var surfEdges :- SurfEdgesLump(d, lumps[LUMP_SURFEDGES]);
    var mipTextures :- MipTexturesLump(d, lumps[LUMP_TEXTURES]);
    var textureInfos :- TextureInfosLump(d, lumps[LUMP_TEXINFO]);
    var visData :- LumpBytes(d, lumps[LUMP_VISIBILITY].offset, lumps[LUMP_VISIBILITY].length);
    Ok(BspMap(header, entities, models, planes, faces, vertices, edges, leafs, nodes, clipNodes,
              markSurfaces, surfEdges, mipTextures, MipOffsetsLump(d, lumps[LUMP_TEXTURES]).value,
              textureInfos, None))
  }

  /** Load: a missing file fails; otherwise the header at the start of the
      file and then every lump. */
  function LoadMap(file: Option<seq<byte>>): (r: Result<BspMap>)
    ensures r.Ok? ==> file.Some? && |r.value.header.lumps| == HEADER_LUMPS
  {
    if file.None? then Err(FileNotFound)
    else
      var header :- HeaderFrom(file.value, 0);
      LumpsOf(file.value, header)
  }

  /** The table of LoadVis once its first entries are known: the entries
      from a later index on, behind the ones already filled, or the error
      those later entries end in. */
  function Behind(filled: seq<Option<seq<bool>>>, rest: Result<seq<Option<seq<bool>>>>): (r: Result<seq<Option<seq<bool>>>>)
    ensures r.Ok? <==> rest.Ok?
    ensures r.Ok? ==> |r.value| == |filled| + |rest.value| && r.value[..|filled|] == filled
  {
    if rest.Ok? then Ok(filled + rest.value) else rest
  }

  /** Filling entries one at a time: what is behind a and then b is what
      is behind a + b. */
  lemma BehindAppend(a: seq<Option<seq<bool>>>, b: seq<Option<seq<bool>>>, rest: Result<seq<Option<seq<bool>>>>)
    ensures Behind(a, Behind(b, rest)) == Behind(a + b, rest)
  {
    if rest.Ok? {
      assert a + (b + rest.value) == (a + b) + rest.value;
    }
  }

  // ---------------------------------------------------------------------
  // The loader

  class BspLoader {
    /** The file's bytes, or None when it does not exist. */
    const file: Option<seq<byte>>

    var header: BspHeader
    var entities: Entities
    var models: seq<BspModel>
    var planes: seq<BspPlane>
    var faces: seq<BspFace>
    var vertices: seq<BspVertex>
    var edges: seq<BspEdge>
    var leafs: seq<BspLeaf>
    var nodes: seq<BspNode>
    var clipNodes: seq<BspClipNode>
    var markSurfaces: seq<int>
    var surfEdges: seq<int>
    var mipTextures: seq<BspMipTexture>
    var textureOffsets: seq<int>
    var textureInfos: seq<BspTextureInfo>
    var visData: seq<byte>

    /** The loader only remembers its file; every other field is empty. */
    constructor (file: Option<seq<byte>>)
      ensures this.file == file
      ensures header == BspHeader(0, []) && entities == Entities([])
      ensures models == [] && planes == [] && faces == [] && vertices == []
      ensures edges == [] && leafs == [] && nodes == [] && clipNodes == []
      ensures markSurfaces == [] && surfEdges == [] && mipTextures == []
      ensures textureOffsets == [] && textureInfos == [] && visData == []
    {
      this.file := file;
      header := BspHeader(0, []);
      entities := Entities([]);
      models, planes, faces, vertices := [], [], [], [];
      edges, leafs, nodes, clipNodes := [], [], [], [];
      markSurfaces, surfEdges, mipTextures := [], [], [];
      textureOffsets, textureInfos, visData := [], [], [];
    }

    // ---- one record at the reader's position

    static method ReadPlane(reader: Reader) returns (r: Result<BspPlane>)
      modifies reader
      ensures old(reader.pos) + PLANE_SIZE <= |reader.data| ==>
        r == Ok(PlaneAt(reader.data, old(reader.pos))) && reader.pos == old(reader.pos) + PLANE_SIZE
      ensures old(reader.pos) + PLANE_SIZE > |reader.data| ==> r == Err(EndOfStream)
    {
      var normal := reader.ReadSingleArray();
      if normal.Err? { return Err(normal.error); }
      var distance := reader.ReadSingle();
      if distance.Err? { return Err(distance.error); }
      var planeType := reader.ReadInt32();
      if planeType.Err? { return Err(planeType.error); }
      return Ok(BspPlane(normal.value, distance.value, planeType.value));
    }

    static method ReadFace(reader: Reader) returns (r: Result<BspFace>)
      modifies reader
      ensures old(reader.pos) + FACE_SIZE <= |reader.data| ==>
        r == Ok(FaceAt(reader.data, old(reader.pos))) && reader.pos == old(reader.pos) + FACE_SIZE
      ensures old(reader.pos) + FACE_SIZE > |reader.data| ==> r == Err(EndOfStream)
    {
      var planeId := reader.ReadInt16();
      if planeId.Err? { return Err(planeId.error); }
      var planeSide := reader.ReadInt16();
      if planeSide.Err? { return Err(planeSide.error); }
      var firstEdge := reader.ReadInt32();
      if firstEdge.Err? { return Err(firstEdge.error); }
      var numEdges := reader.ReadInt16();
      if numEdges.Err? { return Err(numEdges.error); }
      var textureInfo := reader.ReadInt16();
      if textureInfo.Err? { return Err(textureInfo.error); }
      var styles := reader.ReadBytes(MAXLIGHTMAPS);
      var lightmapOffset := reader.ReadInt32();
      if lightmapOffset.Err? { return Err(lightmapOffset.error); }
      return Ok(BspFace(planeId.value, planeSide.value, firstEdge.value, numEdges.value, textureInfo.value, styles.value, lightmapOffset.value));
    }

    static method ReadVertex(reader: Reader) returns (r: Result<BspVertex>)
      modifies reader
      ensures old(reader.pos) + VERTEX_SIZE <= |reader.data| ==>
        r == Ok(VertexAt(reader.data, old(reader.pos))) && reader.pos == old(reader.pos) + VERTEX_SIZE
      ensures old(reader.pos) + VERTEX_SIZE > |reader.data| ==> r == Err(EndOfStream)
    {
      var point := reader.ReadSingleArray();
      if point.Err? { return Err(point.error); }
      return Ok(BspVertex(point.value));
    }

    static method ReadEdge(reader: Reader) returns (r: Result<BspEdge>)
      modifies reader
      ensures old(reader.pos) + EDGE_SIZE <= |reader.data| ==>
        r == Ok(EdgeAt(reader.data, old(reader.pos))) && reader.pos == old(reader.pos) + EDGE_SIZE
      ensures old(reader.pos) + EDGE_SIZE > |reader.data| ==> r == Err(EndOfStream)
    {
      var vertex := reader.ReadUInt16Array();
      if vertex.Err? { return Err(vertex.error); }
      return Ok(BspEdge(vertex.value));
    }

    /** A leaf: the ambient levels take whatever of their 4 bytes the file
        still has, so the reader may stop short of 28 bytes. */
    static method ReadLeaf(reader: Reader) returns (r: Result<BspLeaf>)
      modifies reader
      ensures old(reader.pos) + LEAF_SIZE - 4 <= |reader.data| ==>
        r == Ok(LeafAt(reader.data, old(reader.pos)))
        && reader.pos == old(reader.pos) + LEAF_SIZE - 4 + |Available(reader.data, old(reader.pos) + LEAF_SIZE - 4, 4)|
      ensures old(reader.pos) + LEAF_SIZE - 4 > |reader.data| ==> r == Err(EndOfStream)
    {
      var contents := reader.ReadInt32();
      if contents.Err? { return Err(contents.error); }
      var visOffset := reader.ReadInt32();
      if visOffset.Err? { return Err(visOffset.error); }
      var mins := reader.ReadInt16Array();
      if mins.Err? { return Err(mins.error); }
      var maxs := reader.ReadInt16Array();
      if maxs.Err? { return Err(maxs.error); }
      var firstMarkSurface := reader.ReadUInt16();
      if firstMarkSurface.Err? { return Err(firstMarkSurface.error); }
      var numMarkSurfaces := reader.ReadUInt16();
      if numMarkSurfaces.Err? { return Err(numMarkSurfaces.error); }
      var ambientLevels := reader.ReadBytes(4);
      return Ok(BspLeaf(contents.value, visOffset.value, mins.value, maxs.value, firstMarkSurface.value, numMarkSurfaces.value, ambientLevels.value));
    }

    static method ReadNode(reader: Reader) returns (r: Result<BspNode>)
      modifies reader
      ensures old(reader.pos) + NODE_SIZE <= |reader.data| ==>
        r == Ok(NodeAt(reader.data, old(reader.pos))) && reader.pos == old(reader.pos) + NODE_SIZE
      ensures old(reader.pos) + NODE_SIZE > |reader.data| ==> r == Err(EndOfStream)
    {
      var planeId := reader.ReadInt32();
      if planeId.Err? { return Err(planeId.error); }
      var children := reader.ReadInt16Array(2);
      if children.Err? { return Err(children.error); }
      var mins := reader.ReadInt16Array();
      if mins.Err? { return Err(mins.error); }
      var maxs := reader.ReadInt16Array();
      if maxs.Err? { return Err(maxs.error); }
      var firstFace := reader.ReadUInt16();
      if firstFace.Err? { return Err(firstFace.error); }
      var numFaces := reader.ReadUInt16();
      if numFaces.Err? { return Err(numFaces.error); }
      return Ok(BspNode(planeId.value, children.value, mins.value, maxs.value, firstFace.value, numFaces.value));
    }

    static method ReadClipNode(reader: Reader) returns (r: Result<BspClipNode>)
      modifies reader
      ensures old(reader.pos) + CLIPNODE_SIZE <= |reader.data| ==>
        r == Ok(ClipNodeAt(reader.data, old(reader.pos))) && reader.pos == old(reader.pos) + CLIPNODE_SIZE
      ensures old(reader.pos) + CLIPNODE_SIZE > |reader.data| ==> r == Err(EndOfStream)
    {
      var planeId := reader.ReadInt32();
      if planeId.Err? { return Err(planeId.error); }
      var children := reader.ReadInt16Array(2);
      if children.Err? { return Err(children.error); }
      return Ok(BspClipNode(planeId.value, children.value));
    }

    static method ReadModel(reader: Reader) returns (r: Result<BspModel>)
      modifies reader
      ensures old(reader.pos) + MODEL_READ_SIZE <= |reader.data| ==>
        r == Ok(ModelAt(reader.data, old(reader.pos))) && reader.pos == old(reader.pos) + MODEL_READ_SIZE
      ensures old(reader.pos) + MODEL_READ_SIZE > |reader.data| ==> r == Err(EndOfStream)
    {
      var mins := reader.ReadSingleArray();
      if mins.Err? { return Err(mins.error); }
      var maxs := reader.ReadSingleArray();
      if maxs.Err? { return Err(maxs.error); }
      var origin := reader.ReadSingleArray();
      if origin.Err? { return Err(origin.error); }
      var headNodes := reader.ReadInt32Array();
      if headNodes.Err? { return Err(headNodes.error); }
      var numLeafs := reader.ReadInt32();
      if numLeafs.Err? { return Err(numLeafs.error); }
      var firstFace := reader.ReadInt32();
      if firstFace.Err? { return Err(firstFace.error); }
      var numFaces := reader.ReadInt32();
      if numFaces.Err? { return Err(numFaces.error); }
      return Ok(BspModel(mins.value, maxs.value, origin.value, headNodes.value, numLeafs.value, firstFace.value, numFaces.value));
    }

    static method ReadTextureInfo(reader: Reader) returns (r: Result<BspTextureInfo>)
      modifies reader
      ensures old(reader.pos) + TEXINFO_SIZE <= |reader.data| ==>
        r == Ok(TextureInfoAt(reader.data, old(reader.pos))) && reader.pos == old(reader.pos) + TEXINFO_SIZE
      ensures old(reader.pos) + TEXINFO_SIZE > |reader.data| ==> r == Err(EndOfStream)
    {
      var vec3s := reader.ReadSingleArray();
      if vec3s.Err? { return Err(vec3s.error); }
      var sShift := reader.ReadSingle();
      if sShift.Err? { return Err(sShift.error); }
      var vec3t := reader.ReadSingleArray();
      if vec3t.Err? { return Err(vec3t.error); }
      var tShift := reader.ReadSingle();
      if tShift.Err? { return Err(tShift.error); }
      var mipTex := reader.ReadUInt32();
      if mipTex.Err? { return Err(mipTex.error); }
      var flags := reader.ReadUInt32();
      if flags.Err? { return Err(flags.error); }
      return Ok(BspTextureInfo(vec3s.value, sShift.value, vec3t.value, tShift.value, mipTex.value, flags.value));
    }

    static method ReadMipTexture(reader: Reader) returns (r: Result<BspMipTexture>)
      modifies reader
      ensures old(reader.pos) + MIPTEX_HEADER_SIZE <= |reader.data| ==>
        r == Ok(MipTextureAt(reader.data, old(reader.pos))) && reader.pos == old(reader.pos) + MIPTEX_HEADER_SIZE
      ensures old(reader.pos) + MIPTEX_HEADER_SIZE > |reader.data| ==> r == Err(EndOfStream)
    {
      var name := reader.ReadString(16);
      var width := reader.ReadUInt32();
      if width.Err? { return Err(width.error); }
      var height := reader.ReadUInt32();
      if height.Err? { return Err(height.error); }
      var offsets := reader.ReadUInt32Array(4);
      if offsets.Err? { return Err(offsets.error); }
      return Ok(BspMipTexture(name.value, width.value, height.value, offsets.value));
    }

    // ---- whole lumps

    /** ReadPlanes: seek to the lump, then Length / 20 records in a row. */
    method ReadPlanes(reader: Reader) returns (r: Result<seq<BspPlane>>)
      requires |header.lumps| == HEADER_LUMPS
      modifies reader
      ensures r == PlanesLump(reader.data, header.lumps[LUMP_PLANES])
    {
      var lump := header.lumps[LUMP_PLANES];
      var seek := reader.Seek(lump.offset);
      if seek.Fail? {
        return Err(seek.error);
      }
      var n := RecordCount(lump.length, PLANE_SIZE);
      ghost var d, start: nat := reader.data, lump.offset;
      var planes: seq<BspPlane> := [];
      for i := 0 to n
        invariant reader.pos == start + PLANE_SIZE * i
        invariant RecordsFit(d, start, PLANE_SIZE, i)
        invariant planes == seq(i, k requires 0 <= k < i => PlaneAt(d, start + PLANE_SIZE * k))
      {
        var record := ReadPlane(reader);
        if record.Err? {
          RecordPastEnd(d, start, PLANE_SIZE, i, n);
          return Err(record.error);
        }
        planes := planes + [record.value];
      }
      return Ok(planes);
    }

    /** ReadFaces: seek to the lump, then Length / 20 records in a row. */
    method ReadFaces(reader: Reader) returns (r: Result<seq<BspFace>>)
      requires |header.lumps| == HEADER_LUMPS
      modifies reader
      ensures r == FacesLump(reader.data, header.lumps[LUMP_FACES])
    {
      var lump := header.lumps[LUMP_FACES];
      var seek := reader.Seek(lump.offset);
      if seek.Fail? {
        return Err(seek.error);
      }
      var n := RecordCount(lump.length, FACE_SIZE);
      ghost var d, start: nat := reader.data, lump.offset;
      var faces: seq<BspFace> := [];
      for i := 0 to n
        invariant reader.pos == start + FACE_SIZE * i
        invariant RecordsFit(d, start, FACE_SIZE, i)
        invariant faces == seq(i, k requires 0 <= k < i => FaceAt(d, start + FACE_SIZE * k))
      {
        var record := ReadFace(reader);
        if record.Err? {
          RecordPastEnd(d, start, FACE_SIZE, i, n);
          return Err(record.error);
        }
        faces := faces + [record.value];
      }
      return Ok(faces);
    }

    /** ReadVertices: seek to the lump, then Length / 12 records in a row. */
    method ReadVertices(reader: Reader) returns (r: Result<seq<BspVertex>>)
      requires |header.lumps| == HEADER_LUMPS
      modifies reader
      ensures r == VerticesLump(reader.data, header.lumps[LUMP_VERTEXES])
    {
      var lump := header.lumps[LUMP_VERTEXES];
      var seek := reader.Seek(lump.offset);
      if seek.Fail? {
        return Err(seek.error);
      }
      var n := RecordCount(lump.length, VERTEX_SIZE);
      ghost var d, start: nat := reader.data, lump.offset;
      var vertices: seq<BspVertex> := [];
      for i := 0 to n
        invariant reader.pos == start + VERTEX_SIZE * i
        invariant RecordsFit(d, start, VERTEX_SIZE, i)
        invariant vertices == seq(i, k requires 0 <= k < i => VertexAt(d, start + VERTEX_SIZE * k))
      {
        var record := ReadVertex(reader);
        if record.Err? {
          RecordPastEnd(d, start, VERTEX_SIZE, i, n);
          return Err(record.error);
        }
        vertices := vertices + [record.value];
      }
      return Ok(vertices);
    }

    /** ReadEdges: seek to the lump, then Length / 4 records in a row. */
    method ReadEdges(reader: Reader) returns (r: Result<seq<BspEdge>>)
      requires |header.lumps| == HEADER_LUMPS
      modifies reader
      ensures r == EdgesLump(reader.data, header.lumps[LUMP_EDGES])
    {
      var lump := header.lumps[LUMP_EDGES];
      var seek := reader.Seek(lump.offset);
      if seek.Fail? {
        return Err(seek.error);
      }
      var n := RecordCount(lump.length, EDGE_SIZE);
      ghost var d, start: nat := reader.data, lump.offset;
      var edges: seq<BspEdge> := [];
      for i := 0 to n
        invariant reader.pos == start + EDGE_SIZE * i
        invariant RecordsFit(d, start, EDGE_SIZE, i)
        invariant edges == seq(i, k requires 0 <= k < i => EdgeAt(d, start + EDGE_SIZE * k))
      {
        var record := ReadEdge(reader);
        if record.Err? {
          RecordPastEnd(d, start, EDGE_SIZE, i, n);
          return Err(record.error);
        }
        edges := edges + [record.value];
      }
      return Ok(edges);
    }

    /** ReadNodes: seek to the lump, then Length / 24 records in a row. */
    method ReadNodes(reader: Reader) returns (r: Result<seq<BspNode>>)
      requires |header.lumps| == HEADER_LUMPS
      modifies reader
      ensures r == NodesLump(reader.data, header.lumps[LUMP_NODES])
    {
      var lump := header.lumps[LUMP_NODES];
      var seek := reader.Seek(lump.offset);
      if seek.Fail? {
        return Err(seek.error);
      }
      var n := RecordCount(lump.length, NODE_SIZE);
      ghost var d, start: nat := reader.data, lump.offset;
      var nodes: seq<BspNode> := [];
      for i := 0 to n
        invariant reader.pos == start + NODE_SIZE * i
        invariant RecordsFit(d, start, NODE_SIZE, i)
        invariant nodes == seq(i, k requires 0 <= k < i => NodeAt(d, start + NODE_SIZE * k))
      {
        var record := ReadNode(reader);
        if record.Err? {
          RecordPastEnd(d, start, NODE_SIZE, i, n);
          return Err(record.error);
        }
        nodes := nodes + [record.value];
      }
      return Ok(nodes);
    }

    /** ReadClipNodes: seek to the lump, then Length / 8 records in a row. */
    method ReadClipNodes(reader: Reader) returns (r: Result<seq<BspClipNode>>)
      requires |header.lumps| == HEADER_LUMPS
      modifies reader
      ensures r == ClipNodesLump(reader.data, header.lumps[LUMP_CLIPNODES])
    {
      var lump := header.lumps[LUMP_CLIPNODES];
      var seek := reader.Seek(lump.offset);
      if seek.Fail? {
        return Err(seek.error);
      }
      var n := RecordCount(lump.length, CLIPNODE_SIZE);
      ghost var d, start: nat := reader.data, lump.offset;
      var clipNodes: seq<BspClipNode> := [];
      for i := 0 to n
        invariant reader.pos == start + CLIPNODE_SIZE * i
        invariant RecordsFit(d, start, CLIPNODE_SIZE, i)
        invariant clipNodes == seq(i, k requires 0 <= k < i => ClipNodeAt(d, start + CLIPNODE_SIZE * k))
      {
        var record := ReadClipNode(reader);
        if record.Err? {
          RecordPastEnd(d, start, CLIPNODE_SIZE, i, n);
          return Err(record.error);
        }
        clipNodes := clipNodes + [record.value];
      }
      return Ok(clipNodes);
    }

    /** ReadTextureInfos: seek to the lump, then Length / 40 records in a row. */
    method ReadTextureInfos(reader: Reader) returns (r: Result<seq<BspTextureInfo>>)
      requires |header.lumps| == HEADER_LUMPS
      modifies reader
      ensures r == TextureInfosLump(reader.data, header.lumps[LUMP_TEXINFO])
    {
      var lump := header.lumps[LUMP_TEXINFO];
      var seek := reader.Seek(lump.offset);
      if seek.Fail? {
        return Err(seek.error);
      }
      var n := RecordCount(lump.length, TEXINFO_SIZE);
      ghost var d, start: nat := reader.data, lump.offset;
      var textureInfos: seq<BspTextureInfo> := [];
      for i := 0 to n
        invariant reader.pos == start + TEXINFO_SIZE * i
        invariant RecordsFit(d, start, TEXINFO_SIZE, i)
        invariant textureInfos == seq(i, k requires 0 <= k < i => TextureInfoAt(d, start + TEXINFO_SIZE * k))
      {
        var record := ReadTextureInfo(reader);
        if record.Err? {
          RecordPastEnd(d, start, TEXINFO_SIZE, i, n);
          return Err(record.error);
        }
        textureInfos := textureInfos + [record.value];
      }
      return Ok(textureInfos);
    }

    /** ReadMarkSurfaces: seek to the lump, then Length / 2 int16 face indices in a row. */
    method ReadMarkSurfaces(reader: Reader) returns (r: Result<seq<int>>)
      requires |header.lumps| == HEADER_LUMPS
      modifies reader
      ensures r == MarkSurfacesLump(reader.data, header.lumps[LUMP_MARKSURFACES])
    {
      var lump := header.lumps[LUMP_MARKSURFACES];
      var seek := reader.Seek(lump.offset);
      if seek.Fail? {
        return Err(seek.error);
      }
      var n := RecordCount(lump.length, MARKSURFACE_SIZE);
      ghost var d, start: nat := reader.data, lump.offset;
      var markSurfaces: seq<int> := [];
      for i := 0 to n
        invariant reader.pos == start + MARKSURFACE_SIZE * i
        invariant RecordsFit(d, start, MARKSURFACE_SIZE, i)
        invariant markSurfaces == seq(i, k requires 0 <= k < i => I16(d, start + MARKSURFACE_SIZE * k))
      {
        var value := reader.ReadInt16();
        if value.Err? {
          RecordPastEnd(d, start, MARKSURFACE_SIZE, i, n);
          return Err(value.error);
        }
        markSurfaces := markSurfaces + [value.value];
      }
      if n > 0 {
        assert markSurfaces == Int16sAt(d, start, n);
      }
      return Ok(markSurfaces);
    }

    /** ReadSurfEdges: seek to the lump, then Length / 4 int32 signed edge indices in a row. */
    method ReadSurfEdges(reader: Reader) returns (r: Result<seq<int>>)
      requires |header.lumps| == HEADER_LUMPS
      modifies reader
      ensures r == SurfEdgesLump(reader.data, header.lumps[LUMP_SURFEDGES])
    {
      var lump := header.lumps[LUMP_SURFEDGES];
      var seek := reader.Seek(lump.offset);
      if seek.Fail? {
        return Err(seek.error);
      }
      var n := RecordCount(lump.length, SURFEDGE_SIZE);
      ghost var d, start: nat := reader.data, lump.offset;
      var surfEdges: seq<int> := [];
      for i := 0 to n
        invariant reader.pos == start + SURFEDGE_SIZE * i
        invariant RecordsFit(d, start, SURFEDGE_SIZE, i)
        invariant surfEdges == seq(i, k requires 0 <= k < i => I32(d, start + SURFEDGE_SIZE * k))
      {
        var value := reader.ReadInt32();
        if value.Err? {
          RecordPastEnd(d, start, SURFEDGE_SIZE, i, n);
          return Err(value.error);
        }
        surfEdges := surfEdges + [value.value];
      }
      if n > 0 {
        assert surfEdges == Int32sAt(d, start, n);
      }
      return Ok(surfEdges);
    }

    /** ReadModels: Length / 64 models, each 60 bytes read back to back. */
    method ReadModels(reader: Reader) returns (r: Result<seq<BspModel>>)
      requires |header.lumps| == HEADER_LUMPS
      modifies reader
      ensures r == ModelsLump(reader.data, header.lumps[LUMP_MODELS])
    {
      var lump := header.lumps[LUMP_MODELS];
      var seek := reader.Seek(lump.offset);
      if seek.Fail? {
        return Err(seek.error);
      }
      var n := RecordCount(lump.length, MODEL_STRIDE);
      ghost var d, start: nat := reader.data, lump.offset;
      var models: seq<BspModel> := [];
      for i := 0 to n
        invariant reader.pos == start + MODEL_READ_SIZE * i
        invariant RecordsFit(d, start, MODEL_READ_SIZE, i)
        invariant models == seq(i, k requires 0 <= k < i => ModelAt(d, start + MODEL_READ_SIZE * k))
      {
        var model := ReadModel(reader);
        if model.Err? {
          RecordPastEnd(d, start, MODEL_READ_SIZE, i, n);
          return Err(model.error);
        }
        models := models + [model.value];
      }
      return Ok(models);
    }

    /** ReadLeafs: Length / 28 leafs; once a leaf's ambient levels come up
        short, the reader sits at the end of the file and the next leaf, if
        any, fails. */
    method ReadLeafs(reader: Reader) returns (r: Result<seq<BspLeaf>>)
      requires |header.lumps| == HEADER_LUMPS
      modifies reader
      ensures r == LeafsLump(reader.data, header.lumps[LUMP_LEAFS])
    {
      var lump := header.lumps[LUMP_LEAFS];
      var seek := reader.Seek(lump.offset);
      if seek.Fail? {
        return Err(seek.error);
      }
      var n := RecordCount(lump.length, LEAF_SIZE);
      ghost var d, start: nat := reader.data, lump.offset;
      var leafs: seq<BspLeaf> := [];
      for i := 0 to n
        invariant reader.pos == start + LEAF_SIZE * i || (reader.pos == |d| && start + LEAF_SIZE * i > |d|)
        invariant i == 0 || start + LEAF_SIZE * (i - 1) + LEAF_SIZE - 4 <= |d|
        invariant leafs == seq(i, k requires 0 <= k < i => LeafAt(d, start + LEAF_SIZE * k))
      {
        ghost var p := reader.pos;
        var leaf := ReadLeaf(reader);
        if leaf.Err? {
          LeafPastEnd(d, start, i, n);
          return Err(leaf.error);
        }
        assert p == start + LEAF_SIZE * i;
        leafs := leafs + [leaf.value];
      }
      return Ok(leafs);
    }

    /** ReadMipTextures: the offset table, then one header at each
        absolute offset.  Also returns the relative offsets. */
    method ReadMipTextures(reader: Reader) returns (r: Result<seq<BspMipTexture>>, relative: seq<int>)
      requires |header.lumps| == HEADER_LUMPS
      modifies reader
      ensures r == MipTexturesLump(reader.data, header.lumps[LUMP_TEXTURES])
      ensures r.Ok? ==> relative == MipOffsetsLump(reader.data, header.lumps[LUMP_TEXTURES]).value
    {
      var offsets, absolute := ReadMipOffsets(reader, header.lumps[LUMP_TEXTURES]);
      if offsets.Err? {
        return Err(offsets.error), [];
      }
      r := ReadMipHeaders(reader, absolute);
      relative := offsets.value;
    }

    /** The first loop of ReadMipTextures: an int32 count, then that many
        relative offsets, each added to the lump offset as an unchecked
        int32.  A negative count fails when the offset array is
        allocated. */
    static method ReadMipOffsets(reader: Reader, lump: BspLump) returns (r: Result<seq<int>>, absolute: seq<int>)
      modifies reader
      ensures r == MipOffsetsLump(reader.data, lump)
      ensures r.Ok? ==> absolute == AbsoluteOffsets(lump.offset, r.value)
    {
      absolute := [];
      var seek := reader.Seek(lump.offset);
      if seek.Fail? {
        return Err(seek.error), [];
      }
      ghost var d, start: nat := reader.data, lump.offset;
      var count := reader.ReadInt32();
      if count.Err? {
        return Err(count.error), [];
      }
      var n := count.value;
      if n < 0 {
        return Err(Overflow), [];
      }
      var relative: seq<int> := [];
      for i := 0 to n
        invariant reader.pos == start + 4 + 4 * i
        invariant RecordsFit(d, start + 4, 4, i)
        invariant relative == seq(i, k requires 0 <= k < i => I32(d, start + 4 + 4 * k))
        invariant absolute == AbsoluteOffsets(lump.offset, relative)
      {
        var value := reader.ReadInt32();
        if value.Err? {
          RecordPastEnd(d, start + 4, 4, i, n);
          return Err(value.error), [];
        }
        relative := relative + [value.value];
        absolute := absolute + [ToInt32(lump.offset + value.value)];
      }
      assert relative == Int32sAt(d, start + 4, n);
      return Ok(relative), absolute;
    }

    /** The second loop of ReadMipTextures: seek to each absolute offset
        and read a header there. */
    static method ReadMipHeaders(reader: Reader, absolute: seq<int>) returns (r: Result<seq<BspMipTexture>>)
      modifies reader
      ensures r == MipHeaders(reader.data, absolute)
    {
      ghost var d := reader.data;
      var textures: seq<BspMipTexture> := [];
      for i := 0 to |absolute|
        invariant |textures| == i
        invariant forall k :: 0 <= k < i ==>
          0 <= absolute[k] && absolute[k] + MIPTEX_HEADER_SIZE <= |d| && textures[k] == MipTextureAt(d, absolute[k])
      {
        var seek := reader.Seek(absolute[i]);
        if seek.Fail? {
          MipHeadersFirstFailure(d, absolute, i);
          return Err(seek.error);
        }
        var texture := ReadMipTexture(reader);
        if texture.Err? {
          MipHeadersFirstFailure(d, absolute, i);
          return Err(texture.error);
        }
        textures := textures + [texture.value];
      }
      MipHeadersSucceed(d, absolute);
      MipHeadersAreAtOffsets(d, absolute);
      assert textures == MipHeaders(d, absolute).value;
      return Ok(textures);
    }

    /** ReadEntities: the lump's bytes handed to a fresh entity parser. */
    method ReadEntities(reader: Reader) returns (r: Result<Entities>)
      requires |header.lumps| == HEADER_LUMPS
      modifies reader
      ensures r == EntitiesLump(reader.data, header.lumps[LUMP_ENTITIES])
    {
      var lump := header.lumps[LUMP_ENTITIES];
      var seek := reader.Seek(lump.offset);
      if seek.Fail? {
        return Err(seek.error);
      }
      var bytes := reader.ReadBytes(lump.length);
      if bytes.Err? {
        return Err(bytes.error);
      }
      var parser := new EntityParser(bytes.value);
      r := parser.Parse();
      assert parser.items == BlockEntities(Scan(bytes.value).blocks);
    }

    /** ReadVisData(reader): the visibility lump's bytes, as many as its
        length asks for and the file has. */
    method ReadVisData(reader: Reader) returns (r: Result<seq<byte>>)
      requires |header.lumps| == HEADER_LUMPS
      modifies reader
      ensures r == LumpBytes(reader.data, header.lumps[LUMP_VISIBILITY].offset, header.lumps[LUMP_VISIBILITY].length)
    {
      r := ReadVisBytes(reader, header.lumps[LUMP_VISIBILITY].length);
    }

    /** ReadVisData(reader, length): `length` bytes from the start of the
        visibility lump. */
    method ReadVisBytes(reader: Reader, length: int) returns (r: Result<seq<byte>>)
      requires |header.lumps| == HEADER_LUMPS
      modifies reader
      ensures r == LumpBytes(reader.data, header.lumps[LUMP_VISIBILITY].offset, length)
    {
      var seek := reader.Seek(header.lumps[LUMP_VISIBILITY].offset);
      if seek.Fail? {
        return Err(seek.error);
      }
      r := reader.ReadBytes(length);
    }

    /** ReadHeader: an int32 version and 15 (offset, length) pairs from the
        reader's position. */
    static method ReadHeader(reader: Reader) returns (r: Result<BspHeader>)
      modifies reader
      ensures r == HeaderFrom(reader.data, old(reader.pos))
      ensures r.Ok? ==> reader.pos == old(reader.pos) + HEADER_SIZE
    {
      ghost var d, p := reader.data, reader.pos;
      var version := reader.ReadInt32();
      if version.Err? {
        return Err(version.error);
      }
      var lumps: seq<BspLump> := [];
      for i := 0 to HEADER_LUMPS
        invariant reader.pos == p + 4 + 8 * i <= |d|
        invariant |lumps| == i
        invariant forall k :: 0 <= k < i ==> lumps[k] == BspLump(I32(d, p + 4 + 8 * k), I32(d, p + 8 + 8 * k))
      {
        var offset := reader.ReadInt32();
        if offset.Err? {
          return Err(offset.error);
        }
        var length := reader.ReadInt32();
        if length.Err? {
          return Err(length.error);
        }
        lumps := lumps + [BspLump(offset.value, length.value)];
      }
      assert lumps == seq(HEADER_LUMPS, k requires 0 <= k < HEADER_LUMPS =>
        BspLump(I32(d, p + 4 + 8 * k), I32(d, p + 8 + 8 * k)));
      return Ok(BspHeader(version.value, lumps));
    }

    // ---- the whole file

    /** Load: a missing file fails; otherwise the header, then every lump
        (the first lump that fails ends the load with its exception), and
        the fields take what was read. */
    method Load() returns (r: Result<BspMap>)
      modifies this
      ensures r == LoadMap(file)
      ensures r.Ok? ==> r.value == Map()
      ensures r.Ok? ==> file.Some? && |header.lumps| == HEADER_LUMPS
      ensures r.Ok? ==> LumpBytes(file.value, header.lumps[LUMP_VISIBILITY].offset, header.lumps[LUMP_VISIBILITY].length) == Ok(visData)
    {
      if file.None? {
        return Err(FileNotFound);
      }
      var reader := new Reader(file.value);
      var readHeader := ReadHeader(reader);
      if readHeader.Err? {
        return Err(readHeader.error);
      }
      header := readHeader.value;
      var lumps, vis := ReadLumps(reader);
      assert LoadMap(file) == lumps;
      if lumps.Err? {
        return Err(lumps.error);
      }
      var m := lumps.value;
      Store(m, vis);
      return Ok(m);
    }

    /** The map the fields hold. */
    function Map(): BspMap
      reads this
    {
      BspMap(header, entities, models, planes, faces, vertices, edges, leafs, nodes, clipNodes,
             markSurfaces, surfEdges, mipTextures, textureOffsets, textureInfos, None)
    }

    /** The assignments at the end of Load: every field but the header
        takes the lump read for it. */
    method Store(m: BspMap, vis: seq<byte>)
      requires m.header == header && m.visList.None?
      modifies this
      ensures Map() == m && header == old(header) && visData == vis
    {
      StoreGeometry(m);
      StoreTree(m);
      StoreSurfaces(m, vis);
    }

    method StoreGeometry(m: BspMap)
      modifies this`models, this`planes, this`faces, this`vertices, this`edges
      ensures models == m.models && planes == m.planes && faces == m.faces
      ensures vertices == m.vertices && edges == m.edges
    {
      models := m.models;
      planes := m.planes;
      faces := m.faces;
      vertices := m.vertices;
      edges := m.edges;
    }

    method StoreTree(m: BspMap)
      modifies this`entities, this`leafs, this`nodes, this`clipNodes, this`markSurfaces
      ensures entities == m.entities && leafs == m.leafs && nodes == m.nodes
      ensures clipNodes == m.clipNodes && markSurfaces == m.markSurfaces
    {
      entities := m.entities;
      leafs := m.leafs;
      nodes := m.nodes;
      clipNodes := m.clipNodes;
      markSurfaces := m.markSurfaces;
    }

    method StoreSurfaces(m: BspMap, vis: seq<byte>)
      modifies this`surfEdges, this`mipTextures, this`textureOffsets, this`textureInfos, this`visData
      ensures surfEdges == m.surfEdges && mipTextures == m.mipTextures
      ensures textureOffsets == m.textureOffsets && textureInfos == m.textureInfos && visData == vis
    {
      surfEdges := m.surfEdges;
      mipTextures := m.mipTextures;
      textureOffsets := m.textureOffsets;
      textureInfos := m.textureInfos;
      visData := vis;
    }

    /** The body of Load after the header: every lump reader in the order
        Load calls them, then the visibility bytes. */
    method ReadLumps(reader: Reader) returns (r: Result<BspMap>, visBytes: seq<byte>)
      requires |header.lumps| == HEADER_LUMPS
      modifies reader
      ensures r == LumpsOf(reader.data, header)
      ensures r.Ok? ==> LumpBytes(reader.data, header.lumps[LUMP_VISIBILITY].offset, header.lumps[LUMP_VISIBILITY].length) == Ok(visBytes)
    {
      var readModels := ReadModels(reader);
      if readModels.Err? {
        return Err(readModels.error), [];
      }
      var readEntities := ReadEntities(reader);
      if readEntities.Err? {
        return Err(readEntities.error), [];
      }
      var readPlanes := ReadPlanes(reader);
      if readPlanes.Err? {
        return Err(readPlanes.error), [];
      }
      var readFaces := ReadFaces(reader);
      if readFaces.Err? {
        return Err(readFaces.error), [];
      }
      var readVertices := ReadVertices(reader);
      if readVertices.Err? {
        return Err(readVertices.error), [];
      }
      var readEdges := ReadEdges(reader);
      if readEdges.Err? {
        return Err(readEdges.error), [];
      }
      var readLeafs := ReadLeafs(reader);
      if readLeafs.Err? {
        return Err(readLeafs.error), [];
      }
      var readNodes := ReadNodes(reader);
      if readNodes.Err? {
        return Err(readNodes.error), [];
      }
      var readClipNodes := ReadClipNodes(reader);
      if readClipNodes.Err? {
        return Err(readClipNodes.error), [];
      }
      var readMarkSurfaces := ReadMarkSurfaces(reader);
      if readMarkSurfaces.Err? {
        return Err(readMarkSurfaces.error), [];
      }
      var readSurfEdges := ReadSurfEdges(reader);
      if readSurfEdges.Err? {
        return Err(readSurfEdges.error), [];
      }
      var readMipTextures, relative := ReadMipTextures(reader);
      if readMipTextures.Err? {
        return Err(readMipTextures.error), [];
      }
      var readTextureInfos := ReadTextureInfos(reader);
      if readTextureInfos.Err? {
        return Err(readTextureInfos.error), [];
      }
      var readVisData := ReadVisData(reader);
      if readVisData.Err? {
        return Err(readVisData.error), [];
      }
      return Ok(BspMap(header, readEntities.value, readModels.value, readPlanes.value, readFaces.value, readVertices.value, readEdges.value, readLeafs.value, readNodes.value, readClipNodes.value,
                       readMarkSurfaces.value, readSurfEdges.value, readMipTextures.value, relative, readTextureInfos.value, None)), readVisData.value;
    }

    // ---- potentially visible sets

    /** GetPVS: a list of Leafs - 1 entries, all false at first, decoded
        from the first `lump offset + VisOffset` bytes of the visibility
        lump, until the write index reaches visLeaves. */
    method GetPVS(reader: Reader, leafIndex: int, visLeaves: int) returns (r: Result<seq<bool>>)
      requires |header.lumps| == HEADER_LUMPS
      modifies reader
      ensures r == PVS(reader.data, header.lumps[LUMP_VISIBILITY], leafs, leafIndex, visLeaves)
    {
      if |leafs| == 0 {
        return Err(Overflow);
      }
      var list := new bool[|leafs| - 1];
      for i := 0 to list.Length
        invariant forall k :: 0 <= k < i ==> !list[k]
      {
        list[i] := false;
      }
      if leafIndex < 0 || leafIndex >= |leafs| {
        return Err(IndexOutOfRange);
      }
      var visLump := header.lumps[LUMP_VISIBILITY];
      var compressed := ReadVisBytes(reader, ToInt32(visLump.offset + leafs[leafIndex].visOffset));
      if compressed.Err? {
        return Err(compressed.error);
      }
      var c := compressed.value;
      assert list[..] == AllFalse(list.Length);
      assert PVS(reader.data, visLump, leafs, leafIndex, visLeaves) == Decompress(c, 0, 0, visLeaves, list[..]);
      r := DecompressInto(list, c, visLeaves);
    }

    /** The decoding loop of GetPVS: a zero byte skips 8 entries per unit
        of the byte after it, any other byte goes through the mask loop. */
    static method DecompressInto(list: array<bool>, c: seq<byte>, visLeaves: int) returns (r: Result<seq<bool>>)
      modifies list
      ensures r == Decompress(c, 0, 0, visLeaves, old(list[..]))
    {
      ghost var decoded := Decompress(c, 0, 0, visLeaves, list[..]);
      var writeIndex := 0;
      var curByte := 0;
      while writeIndex < visLeaves
        invariant curByte <= |c|
        invariant -TWO_POW_31 <= writeIndex < TWO_POW_31
        invariant Decompress(c, curByte, writeIndex, visLeaves, list[..]) == decoded
        decreases |c| - curByte
      {
        if curByte >= |c| {
          return Err(IndexOutOfRange);
        }
        if c[curByte] == 0 {
          curByte := curByte + 1;
          if curByte >= |c| {
            return Err(IndexOutOfRange);
          }
          writeIndex := ToInt32(writeIndex + 8 * (c[curByte] as int));
        } else {
          var next := ScanByte(list, c[curByte], writeIndex, visLeaves);
          if next.Err? {
            return Err(next.error);
          }
          writeIndex := next.value;
        }
        curByte := curByte + 1;
      }
      return Ok(list[..]);
    }

    /** The mask loop of GetPVS over one non-zero byte: the masks 0x01 to
        0x80 in turn, each advancing the write index by one (unchecked).
        Only the first mask can make `byte & mask` equal 1, so an odd byte
        sets the entry at the starting index, which must lie in the list,
        and an even byte sets nothing. */
    static method ScanByte(list: array<bool>, b: byte, start: int, visLeaves: int) returns (r: Result<int>)
      requires start < visLeaves && -TWO_POW_31 <= start < TWO_POW_31
      modifies list
      ensures r.Err? <==> b % 2 == 1 && (start < 0 || start >= list.Length)
      ensures r.Err? ==> r.error == IndexOutOfRange
      ensures r.Ok? ==> r.value == ToInt32(start + 8)
      ensures r.Ok? ==> list[..] == if b % 2 == 1 then old(list[..])[start := true] else old(list[..])
    {
      ghost var before := list[..];
      var writeIndex := start;
      var mask: bv16 := 1;
      ghost var bit: nat := 0;
      while mask != 0x100
        invariant bit <= 8 && mask == Mask(bit) && (mask == 0x100 <==> bit == 8)
        invariant writeIndex == ToInt32(start + bit)
        invariant bit > 0 && b % 2 == 1 ==> 0 <= start < list.Length
        invariant list[..] == if bit > 0 && b % 2 == 1 then before[start := true] else before
        decreases 8 - bit
      {
        MaskFacts(b, bit);
        if (b as bv16) & mask == 1 && writeIndex < visLeaves {
          if writeIndex < 0 || writeIndex >= list.Length {
            return Err(IndexOutOfRange);
          }
          list[writeIndex] := true;
        }
        assert ToInt32(writeIndex + 1) == ToInt32(start + (bit + 1)) by {
          ToInt32Add(start + bit, 1);
        }
        writeIndex := ToInt32(writeIndex + 1);
        mask := mask << 1;
        bit := bit + 1;
      }
      return Ok(writeIndex);
    }

    /** LoadVis: nothing for an empty visibility lump; otherwise one entry
        per counted leaf, entry i being leaf i+1's list, or none when that
        leaf's VisOffset is negative. */
    method LoadVis(reader: Reader) returns (r: Result<Option<seq<Option<seq<bool>>>>>)
      requires |header.lumps| == HEADER_LUMPS && Ordered(nodes)
      modifies reader
      ensures r == VisLists(reader.data, header.lumps[LUMP_VISIBILITY], visData, nodes, leafs)
    {
      if |visData| == 0 {
        return Ok(None);
      }
      var count := CountVisLeafs(nodes, leafs, 0);
      if count.Err? {
        return Err(count.error);
      }
      var visLeaves := count.value;
      if visLeaves < 0 {
        return Err(Overflow);
      }
      var visLists := new Option<seq<bool>>[visLeaves](_ => None);
      ghost var d, lump := reader.data, header.lumps[LUMP_VISIBILITY];
      for i := 0 to visLeaves
        invariant Behind(visLists[..i], VisEntries(d, lump, leafs, visLeaves, i)) == VisEntries(d, lump, leafs, visLeaves, 0)
      {
        if i + 1 >= |leafs| {
          return Err(IndexOutOfRange);
        }
        if leafs[i + 1].visOffset >= 0 {
          var pvs := GetPVS(reader, i + 1, visLeaves);
          if pvs.Err? {
            return Err(pvs.error);
          }
          visLists[i] := Some(pvs.value);
        } else {
          visLists[i] := None;
        }
        assert VisEntries(d, lump, leafs, visLeaves, i) == Behind([visLists[i]], VisEntries(d, lump, leafs, visLeaves, i + 1));
        BehindAppend(visLists[..i], [visLists[i]], VisEntries(d, lump, leafs, visLeaves, i + 1));
        assert visLists[..i + 1] == visLists[..i] + [visLists[i]];
      }
      assert VisEntries(d, lump, leafs, visLeaves, visLeaves) == Ok([]);
      assert visLists[..] == visLists[..visLeaves] + [];
      return Ok(Some(visLists[..]));
    }
  }
}
