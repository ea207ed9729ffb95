# BspViewer core, modelled in Dafny

BspViewer reads a Half-Life (GoldSrc) level: a BSP version 30 file and the
WAD2/WAD3 texture archives that go with it. It walks the level's BSP tree
to decide what to draw. This project models the parts of it that decide
what the viewer reads and draws, and proves what they promise.

- **Byte cursor** (`Bytes`, `BinaryReading`). The positioned
  `BinaryReader` is a class holding the file's bytes and a position. Its
  extension array readers are loops that advance that position. The string
  reader decodes bytes and drops control characters.
- **Level layout** (`BspDefs`, `BspLumps`, `BspDecode`). These modules hold
  the lump indices, content codes and plane types, the record types with
  their sizes, and how each record is decoded from its bytes.
- **BSP loader** (`BspLoading`). The header, every lump reader, the
  mip-texture table and `Load`. `GetPVS` is the in-place run-length decoder
  of one leaf's visibility bits.
- **Visibility** (`BspVis`). `CountVisLeafs`, the decoding of potentially
  visible sets, and the table `LoadVis` builds.
- **Entities** (`EntityKeyValues`, `EntityParsing`, `EntityLookup`).
  - The parser splits the entity lump into brace blocks.
  - The line state machine turns each block into key/value pairs, and the
    first value for a key wins.
  - The entity list is looked up by value.
- **Traversal** (`BspRendering`). Finding the camera's leaf with
  `PointInBox`, the ordered front-to-back node walk with visibility
  culling, and the mark-surface expansion of a leaf.
- **Desktop renderer** (`DesktopRendering`). The layout `PreRender` gives
  each face in the vertex buffers, the surf-edge vertex walk, and the
  choices `RenderFace` makes: sky faces are skipped, the primitive depends
  on the edge count, and the normal is flipped by plane side.
- **WAD textures** (`WadLoading`, `WadAlpha`).
  - The WAD header check.
  - The split between internal and external textures, and the missing
    list.
  - Palette placement and the palette → RGBA translation.
  - The in-place alpha-key pass over the float pixel buffer.
- **Texture helpers** (`TexUtil`, `DesktopTexUtil`). The power-of-two bit
  tricks over 32-bit ints, and the byte fill of `PixelsToTexture`.

Each exception the C# code throws is an `Err` value of `Wrappers.Result`.
Examples are a read past the end of the stream, an index out of range, a
bad WAD magic and unbalanced braces. Each kind of exception is a separate
constructor of `Wrappers.Error`. C# `int` and `uint` arithmetic wraps
modulo 2^32 explicitly, where the code relies on it. The file system is a
parameter: either a map from file names to bytes, or the optional content
of the level file.

Where the pieces of the source disagree with each other, the model follows
what each line does:
- Edges are read and used through `Vertex`, not the `Vertices` that
  `BspEdge` declares.
- The texture header offsets that WadLoader.cs:167 reads are the relative
  offsets read at BspLoader.cs:130.
- `ReadUInt8Array(offset, count)` reads `count` bytes at the absolute
  position `offset`.

## Model

| member | source | states |
|---|---|---|
| Bytes.U16 | BspViewer/Extensions/BinaryReaderExtensions.cs:63 | a ushort read from two little-endian bytes is below 2^16 |
| Bytes.I16 | BspViewer/Extensions/BinaryReaderExtensions.cs:39 | a short is in [-2^15, 2^15) and is the two's-complement reading of the same two bytes |
| Bytes.U32 | BspViewer/Extensions/BinaryReaderExtensions.cs:51 | a uint read from four little-endian bytes is below 2^32 |
| Bytes.I32 | BspViewer/Extensions/BinaryReaderExtensions.cs:27 | an int is in [-2^31, 2^31) and is the two's-complement reading of the same four bytes |
| Bytes.ToInt32 | BspViewer/SourceMap/BspLoader.cs:130 | unchecked int arithmetic: the result is in int range, congruent to the mathematical value modulo 2^32, and equal to it when it fits |
| Bytes.ToInt32Periodic | BspViewer/SourceMap/BspLoader.cs:130 | wrapped int arithmetic depends only on the value modulo 2^32 |
| Bytes.ToInt32Add | BspViewer/SourceMap/BspLoader.cs:130 | wrapping after each of two additions gives the same int as wrapping once |
| Bytes.ToUInt32 | BspViewer/Extensions/BinaryReaderExtensions.cs:51 | an unchecked uint value is below 2^32 and unchanged when it already fits |
| Bytes.SingleFromBits | BspViewer/Extensions/BinaryReaderExtensions.cs:15 | the sign bit decides the sign of the float; both zeros and every infinity or NaN pattern read as 0.0 |
| Bytes.F32 | BspViewer/Extensions/BinaryReaderExtensions.cs:15 | the float is non-negative when the top bit of its last little-endian byte is clear, and non-positive when it is set |
| Bytes.Utf8Char | BspViewer/Extensions/BinaryReaderExtensions.cs:78 | a byte keeps its code exactly when it is ASCII, and decodes to a control character exactly when it is below 0x20 or 0x7F |
| Bytes.CleanString | BspViewer/Extensions/BinaryReaderExtensions.cs:78-84 | the kept characters are never control characters and are at most as many as the bytes read |
| Bytes.AsChars | BspViewer/Extensions/BinaryReaderExtensions.cs:78 | an ASCII byte decodes to the character with the same code, one for one |
| Bytes.CleanStringStripsPadding | BspViewer/Extensions/BinaryReaderExtensions.cs:78-84 | a printable ASCII name followed by control-byte (NUL) padding reads back as exactly the name |
| Bytes.CleanStringOfControls | BspViewer/Extensions/BinaryReaderExtensions.cs:80-82 | a field of control bytes only reads back as the empty string |
| Bytes.CleanStringAppend | BspViewer/Extensions/BinaryReaderExtensions.cs:80-82 | the control-character filter keeps order: cleaning a concatenation is the concatenation of the cleaned parts |
| BinaryReading.Available | BspViewer/Extensions/BinaryReaderExtensions.cs:71 | ReadBytes delivers at most count bytes: exactly the next count when they exist, the rest of the file when fewer remain, nothing past the end |
| BinaryReading.SinglesAt | BspViewer/Extensions/BinaryReaderExtensions.cs:9-19 | n floats from 4n bytes give exactly n elements |
| BinaryReading.Int32sAt | BspViewer/Extensions/BinaryReaderExtensions.cs:21-31 | n ints from 4n bytes give exactly n elements |
| BinaryReading.UInt32sAt | BspViewer/Extensions/BinaryReaderExtensions.cs:45-55 | n uints from 4n bytes give exactly n elements |
| BinaryReading.Int16sAt | BspViewer/Extensions/BinaryReaderExtensions.cs:33-43 | n shorts from 2n bytes give exactly n elements |
| BinaryReading.UInt16sAt | BspViewer/Extensions/BinaryReaderExtensions.cs:57-67 | n ushorts from 2n bytes give exactly n elements |
| BinaryReading.Int32sAtIsLocal | BspViewer/Extensions/BinaryReaderExtensions.cs:25-28 | element i of an int array comes from bytes start+4i .. start+4i+3 alone, in order |
| BinaryReading.Int16sAtIsLocal | BspViewer/Extensions/BinaryReaderExtensions.cs:37-40 | element i of a short array comes from bytes start+2i and start+2i+1 alone |
| BinaryReading.Int32sAtSplit | BspViewer/Extensions/BinaryReaderExtensions.cs:25-28 | reading m then n ints in sequence gives the m+n ints read at once |
| BinaryReading.Reader.constructor | BspViewer/SourceMap/BspLoader.cs:45 | a new reader is over the whole file, at position 0 |
| BinaryReading.Reader.Seek | BspViewer/SourceMap/BspLoader.cs:107 | seeking to a non-negative offset moves there; a negative offset fails and leaves the position |
| BinaryReading.Reader.ReadBytes | BspViewer/Extensions/BinaryReaderExtensions.cs:71 | a negative count fails; otherwise the available bytes are returned and the position advances by their number |
| BinaryReading.Reader.ReadUInt16 | BspViewer/Extensions/BinaryReaderExtensions.cs:63 | two bytes decode to a ushort and advance the position by 2; fewer remaining is end of stream |
| BinaryReading.Reader.ReadInt16 | BspViewer/Extensions/BinaryReaderExtensions.cs:39 | two bytes decode to a short and advance by 2; fewer remaining is end of stream |
| BinaryReading.Reader.ReadUInt32 | BspViewer/Extensions/BinaryReaderExtensions.cs:51 | four bytes decode to a uint and advance by 4; fewer remaining is end of stream |
| BinaryReading.Reader.ReadInt32 | BspViewer/Extensions/BinaryReaderExtensions.cs:27 | four bytes decode to an int and advance by 4; fewer remaining is end of stream |
| BinaryReading.Reader.ReadSingle | BspViewer/Extensions/BinaryReaderExtensions.cs:15 | four bytes decode to a float and advance by 4; fewer remaining is end of stream |
| BinaryReading.Reader.ReadSingleArray | BspViewer/Extensions/BinaryReaderExtensions.cs:9-19 | count floats (default 3) are exactly the floats at the position and the cursor moves 4·count; a short file is end of stream |
| BinaryReading.Reader.ReadInt32Array | BspViewer/Extensions/BinaryReaderExtensions.cs:21-31 | count ints (default 3) are exactly the ints at the position and the cursor moves 4·count; a short file is end of stream |
| BinaryReading.Reader.ReadInt16Array | BspViewer/Extensions/BinaryReaderExtensions.cs:33-43 | count shorts (default 3) are exactly the shorts at the position and the cursor moves 2·count; a short file is end of stream |
| BinaryReading.Reader.ReadUInt32Array | BspViewer/Extensions/BinaryReaderExtensions.cs:45-55 | count uints (default 3) are exactly the uints at the position and the cursor moves 4·count; a short file is end of stream |
| BinaryReading.Reader.ReadUInt16Array | BspViewer/Extensions/BinaryReaderExtensions.cs:57-67 | count ushorts (default 2) are exactly the ushorts at the position and the cursor moves 2·count; a short file is end of stream |
| BinaryReading.Reader.ReadString | BspViewer/Extensions/BinaryReaderExtensions.cs:69-85 | count bytes (default 16) are consumed even when the string is shorter; the result is those bytes without control characters, so it is no longer than count |
| BspDefs.LumpIndicesAreTheDirectorySlots | BspViewer/SourceMap/BspDefs.cs:22-37 | LUMP_ENTITIES .. LUMP_MODELS are exactly 0..14, pairwise distinct, one per slot of the 15-entry directory |
| BspDefs.ContentCodesAreDistinctNegatives | BspViewer/SourceMap/BspDefs.cs:6-20 | the content codes are the distinct integers -1..-15 and CONTENTS_SOLID is -2 |
| BspDefs.AxialPlaneTypes | BspViewer/SourceMap/BspDefs.cs:41-46 | a plane type is axial exactly when it is PLANE_X, PLANE_Y or PLANE_Z (0..2); the snapped types are 3..5 |
| BspLumps.ChildLeaf | BspViewer/SourceMap/BspLumps.cs:77 | a negative child names the one leaf whose child value it is: LeafChild of the result gives the child back, and no other leaf has that child value |
| BspLumps.LeafChild | BspViewer/SourceMap/BspLumps.cs:77 | the child that names a leaf is negative |
| BspLumps.ChildLeafRoundTrip | BspViewer/SourceMap/BspLumps.cs:77 | leaf indices and negative children correspond one to one through the bitwise inverse |
| BspDecode.RecordCountIsWholeRecords | BspViewer/SourceMap/BspLoader.cs:184 | Length / size counts the whole records in a lump: trailing bytes are ignored and a non-positive length reads none |
| BspDecode.ModelReadsStayInLump | BspViewer/SourceMap/BspLoader.cs:149-154 | models are counted in 64-byte units but read 60 bytes apart, so the reads stay inside the lump and leave 4 bytes per model unread |
| BspDecode.HeaderAt | BspViewer/SourceMap/BspLoader.cs:329-340 | a header holds exactly 15 lumps |
| BspDecode.LumpOutcome | BspViewer/SourceMap/BspLoader.cs:104-118 | a successful lump read seeks to a non-negative offset and reads Length / size records that all fit in the file |
| BspDecode.LumpInsideFileDecodes | BspViewer/SourceMap/BspLoader.cs:104-118 | a lump inside the file decodes into exactly Length / size records; a negative offset fails the seek |
| BspDecode.RecordPastEnd | BspViewer/SourceMap/BspLoader.cs:112-115 | a record running past the end of the file makes the lump read fail |
| BspDecode.LeafPastEnd | BspViewer/SourceMap/BspLoader.cs:247-250 | a leaf whose fixed fields run past the end of the file makes the leafs lump fail |
| BspDecode.PlanesLump | BspViewer/SourceMap/BspLoader.cs:300-313 | planes: Length / 20 records, read exactly when the seek succeeds and they fit |
| BspDecode.FacesLump | BspViewer/SourceMap/BspLoader.cs:285-298 | faces: Length / 20 records, read exactly when the seek succeeds and they fit |
| BspDecode.VerticesLump | BspViewer/SourceMap/BspLoader.cs:270-283 | vertices: Length / 12 records, read exactly when the seek succeeds and they fit |
| BspDecode.EdgesLump | BspViewer/SourceMap/BspLoader.cs:255-268 | edges: Length / 4 records, read exactly when the seek succeeds and they fit |
| BspDecode.NodesLump | BspViewer/SourceMap/BspLoader.cs:225-238 | nodes: Length / 24 records, read exactly when the seek succeeds and they fit |
| BspDecode.ClipNodesLump | BspViewer/SourceMap/BspLoader.cs:210-223 | clip nodes: Length / 8 records, read exactly when the seek succeeds and they fit |
| BspDecode.TextureInfosLump | BspViewer/SourceMap/BspLoader.cs:104-118 | texture infos: Length / 40 records, read exactly when the seek succeeds and they fit |
| BspDecode.MarkSurfacesLump | BspViewer/SourceMap/BspLoader.cs:195-208 | mark surfaces: Length / 2 shorts, read exactly when the seek succeeds and they fit |
| BspDecode.SurfEdgesLump | BspViewer/SourceMap/BspLoader.cs:180-193 | surf-edges: Length / 4 ints, read exactly when the seek succeeds and they fit |
| BspDecode.ModelsLump | BspViewer/SourceMap/BspLoader.cs:145-158 | models: Length / 64 records, read exactly when the seek succeeds and every 60-byte read fits |
| BspDecode.LeafsLump | BspViewer/SourceMap/BspLoader.cs:240-253 | leafs: Length / 28 records, read exactly when the seek succeeds and the last leaf's fixed fields fit |
| BspDecode.LumpBytes | BspViewer/SourceMap/BspLoader.cs:160-168 | the raw bytes of a lump: fails on a negative offset or length, at most Length bytes, exactly the lump's bytes when it lies inside the file |
| BspDecode.AbsoluteOffsets | BspViewer/SourceMap/BspLoader.cs:128-131 | one absolute offset per relative offset |
| BspDecode.MipHeaders | BspViewer/SourceMap/BspLoader.cs:134-140 | one mip-texture header per offset |
| BspDecode.MipOffsetsLump | BspViewer/SourceMap/BspLoader.cs:122-131 | the textures lump starts with an int32 count followed by that many int32 offsets, all inside the file |
| BspDecode.MipTexturesLump | BspViewer/SourceMap/BspLoader.cs:120-143 | the textures lump gives as many headers as its count says, header i being the one read at the lump offset plus relative offset i, wrapped as int, which lies inside the file |
| BspDecode.MipHeadersAreAtOffsets | BspViewer/SourceMap/BspLoader.cs:134-140 | header i is the 16-byte name, width, height and 4 mip offsets read at offset i |
| BspDecode.MipHeadersSucceed | BspViewer/SourceMap/BspLoader.cs:134-140 | when every offset holds a whole header, reading the headers succeeds |
| BspDecode.MipHeadersFirstFailure | BspViewer/SourceMap/BspLoader.cs:134-140 | the first offset that is negative or too close to the end decides the error: a failed seek or the end of the stream |
| BspDecode.EncodeI32RoundTrip | BspViewer/SourceMap/BspLoader.cs:336 | an int32 written as four little-endian bytes reads back unchanged |
| BspDecode.EncodeLumpsReadsBack | BspViewer/SourceMap/BspLoader.cs:334-337 | lump i of an encoded directory reads back its offset at 8i and its length at 8i+4 |
| BspDecode.HeaderRoundTrip | BspViewer/SourceMap/BspLoader.cs:329-340 | the header is one int32 version and 15 (offset, length) pairs, 124 bytes, with no validation: any such header written out reads back unchanged |
| BspLoading.HeaderFrom | BspViewer/SourceMap/BspLoader.cs:329-340 | the header reads exactly when 124 bytes remain, and then holds 15 lumps |
| BspLoading.LumpsOf | BspViewer/SourceMap/BspLoader.cs:48-62 | the lumps read after a header keep that header, and the vis list stays unset because LoadVis is not called |
| BspLoading.LoadMap | BspViewer/SourceMap/BspLoader.cs:38-88 | a map is loaded only from an existing file, and its header has 15 lumps |
| BspLoading.EntitiesLump | BspViewer/SourceMap/BspLoader.cs:315-327 | the entities lump parses exactly when its offset and length are non-negative and its braces balance, with one entity per block; otherwise the brace mismatch reports the final depth |
| BspLoading.Behind | BspViewer/SourceMap/BspLoader.cs:353-361 | entries filled so far stay in front of the later ones, and the table fails exactly when the later entries do |
| BspLoading.BehindAppend | BspViewer/SourceMap/BspLoader.cs:355-361 | filling the table one entry at a time composes: a then b in front is a + b in front |
| BspLoading.BspLoader.constructor | BspViewer/SourceMap/BspLoader.cs:33-36 | the loader keeps only its file; every lump field is empty |
| BspLoading.BspLoader.ReadPlane | BspViewer/SourceMap/BspLoader.cs:309 | a plane is the 20-byte record at the cursor (normal, distance, type), and the cursor moves 20 |
| BspLoading.BspLoader.ReadFace | BspViewer/SourceMap/BspLoader.cs:294 | a face is the 20-byte record at the cursor, with 4 style bytes, and the cursor moves 20 |
| BspLoading.BspLoader.ReadVertex | BspViewer/SourceMap/BspLoader.cs:279 | a vertex is the three floats at the cursor, and the cursor moves 12 |
| BspLoading.BspLoader.ReadEdge | BspViewer/SourceMap/BspLoader.cs:264 | an edge is the two ushorts at the cursor, and the cursor moves 4 |
| BspLoading.BspLoader.ReadLeaf | BspViewer/SourceMap/BspLoader.cs:249 | a leaf is the record at the cursor; its ambient levels take at most the 4 bytes left, so the cursor moves 24 plus what they took |
| BspLoading.BspLoader.ReadNode | BspViewer/SourceMap/BspLoader.cs:234 | a node is the 24-byte record at the cursor, and the cursor moves 24 |
| BspLoading.BspLoader.ReadClipNode | BspViewer/SourceMap/BspLoader.cs:219 | a clip node is the 8-byte record at the cursor, and the cursor moves 8 |
| BspLoading.BspLoader.ReadModel | BspViewer/SourceMap/BspLoader.cs:154 | a model is read as 60 bytes (three head nodes, the default count) at the cursor |
| BspLoading.BspLoader.ReadTextureInfo | BspViewer/SourceMap/BspLoader.cs:114 | a texture info is the 40-byte record at the cursor, and the cursor moves 40 |
| BspLoading.BspLoader.ReadMipTexture | BspViewer/SourceMap/BspLoader.cs:139 | a mip-texture header is a 16-byte name, width, height and 4 offsets, 40 bytes |
| BspLoading.BspLoader.ReadPlanes | BspViewer/SourceMap/BspLoader.cs:300-313 | the loop reads exactly the planes lump: Length / 20 records from the lump offset |
| BspLoading.BspLoader.ReadFaces | BspViewer/SourceMap/BspLoader.cs:285-298 | the loop reads exactly the faces lump: Length / 20 records |
| BspLoading.BspLoader.ReadVertices | BspViewer/SourceMap/BspLoader.cs:270-283 | the loop reads exactly the vertices lump: Length / 12 records |
| BspLoading.BspLoader.ReadEdges | BspViewer/SourceMap/BspLoader.cs:255-268 | the loop reads exactly the edges lump: Length / 4 records |
| BspLoading.BspLoader.ReadNodes | BspViewer/SourceMap/BspLoader.cs:225-238 | the loop reads exactly the nodes lump: Length / 24 records |
| BspLoading.BspLoader.ReadClipNodes | BspViewer/SourceMap/BspLoader.cs:210-223 | the loop reads exactly the clip-nodes lump: Length / 8 records |
| BspLoading.BspLoader.ReadTextureInfos | BspViewer/SourceMap/BspLoader.cs:104-118 | the loop reads exactly the texture-info lump: Length / 40 records |
| BspLoading.BspLoader.ReadMarkSurfaces | BspViewer/SourceMap/BspLoader.cs:195-208 | the loop reads exactly the mark-surfaces lump: Length / 2 shorts |
| BspLoading.BspLoader.ReadSurfEdges | BspViewer/SourceMap/BspLoader.cs:180-193 | the loop reads exactly the surf-edges lump: Length / 4 ints |
| BspLoading.BspLoader.ReadModels | BspViewer/SourceMap/BspLoader.cs:145-158 | the loop reads exactly the models lump: Length / 64 models read 60 bytes apart |
| BspLoading.BspLoader.ReadLeafs | BspViewer/SourceMap/BspLoader.cs:240-253 | the loop reads exactly the leafs lump: Length / 28 leafs |
| BspLoading.BspLoader.ReadMipTextures | BspViewer/SourceMap/BspLoader.cs:120-143 | the textures lump: a count, the relative offsets, then header i read at lump offset + offset i |
| BspLoading.BspLoader.ReadMipOffsets | BspViewer/SourceMap/BspLoader.cs:125-131 | the first loop reads the count and the relative offsets and adds each to the lump offset as an unchecked int |
| BspLoading.BspLoader.ReadMipHeaders | BspViewer/SourceMap/BspLoader.cs:133-142 | the second loop seeks to each absolute offset in turn and reads the header there |
| BspLoading.BspLoader.ReadEntities | BspViewer/SourceMap/BspLoader.cs:315-327 | the entities are the parser's output on the entities lump's bytes |
| BspLoading.BspLoader.ReadVisData | BspViewer/SourceMap/BspLoader.cs:160-168 | the compressed visibility data is the visibility lump's bytes |
| BspLoading.BspLoader.ReadVisBytes | BspViewer/SourceMap/BspLoader.cs:170-178 | the second overload reads `length` bytes from the start of the visibility lump |
| BspLoading.BspLoader.ReadHeader | BspViewer/SourceMap/BspLoader.cs:329-340 | the header is read from the cursor, which moves 124 bytes |
| BspLoading.BspLoader.Load | BspViewer/SourceMap/BspLoader.cs:38-88 | Load returns the specified map for its file, the fields hold that map, and the vis data is the visibility lump's bytes |
| BspLoading.BspLoader.Store | BspViewer/SourceMap/BspLoader.cs:47-62 | every field takes the lump read for it and the header is kept |
| BspLoading.BspLoader.StoreGeometry | BspViewer/SourceMap/BspLoader.cs:48-53 | models, planes, faces, vertices and edges take the lumps read for them |
| BspLoading.BspLoader.StoreTree | BspViewer/SourceMap/BspLoader.cs:49-57 | entities, leafs, nodes, clip nodes and mark surfaces take the lumps read for them |
| BspLoading.BspLoader.StoreSurfaces | BspViewer/SourceMap/BspLoader.cs:58-62 | surf-edges, mip textures, texture infos and vis data take the lumps read for them |
| BspLoading.BspLoader.ReadLumps | BspViewer/SourceMap/BspLoader.cs:48-62 | the lump readers run in Load's order, and the first failure decides the error |
| BspLoading.BspLoader.GetPVS | BspViewer/SourceMap/BspLoader.cs:388-421 | the list returned is the run-length decoding of the first lump offset + VisOffset bytes of the visibility lump |
| BspLoading.BspLoader.DecompressInto | BspViewer/SourceMap/BspLoader.cs:396-418 | the decoding loop computes exactly the specified decompression, including its out-of-range failures |
| BspLoading.BspLoader.ScanByte | BspViewer/SourceMap/BspLoader.cs:411-416 | the mask loop advances by 8; only an odd byte sets an entry (the one at the starting index), and that entry must lie in the list |
| BspLoading.BspLoader.LoadVis | BspViewer/SourceMap/BspLoader.cs:347-367 | nothing for an empty lump; otherwise one entry per counted leaf, each being leaf i+1's PVS or none when its VisOffset is negative |
| BspVis.CountVisLeafs | BspViewer/SourceMap/BspLoader.cs:369-386 | the count is an int: the sum over a node's children wraps as C# int addition does |
| BspVis.LeafRefs | BspViewer/SourceMap/BspLoader.cs:383-385 | the leaves under a child, left to right, are all leaf references (negative children) |
| BspVis.CountedRefs | BspViewer/SourceMap/BspLoader.cs:374-380 | no more leaves are counted than are referenced |
| BspVis.CountedRefsAppend | BspViewer/SourceMap/BspLoader.cs:385 | the counted leaves of two children add up |
| BspVis.CountsLeafChild | BspViewer/SourceMap/BspLoader.cs:371-381 | child -1 counts 0, a solid leaf 0, any other leaf 1 |
| BspVis.ChildrenInRange | BspViewer/SourceMap/BspLumps.cs:77 | in a well-indexed tree a node child indexes the nodes and a leaf child the leafs |
| BspVis.CountVisLeafsCountsLeaves | BspViewer/SourceMap/BspLoader.cs:369-386 | CountVisLeafs counts exactly the leaves of the subtree that are neither leaf 0 nor solid, while that count fits in an int |
| BspVis.Decompress | BspViewer/SourceMap/BspLoader.cs:396-418 | run-length decoding keeps the list's length |
| BspVis.MaskFacts | BspViewer/SourceMap/BspLoader.cs:411-414 | `byte & mask == 1` holds only for the first mask and an odd byte; the mask doubles each step and reaches 0x100 after eight |
| BspVis.AdvanceKeepsLane | BspViewer/SourceMap/BspLoader.cs:406 | skipping 8n entries with int addition keeps the write index's residue modulo 8 |
| BspVis.DecompressSetsOnly | BspViewer/SourceMap/BspLoader.cs:398-418 | decoding only sets entries, only below visLeaves, and only at indices congruent to the start index modulo 8 |
| BspVis.DecompressIgnoresTrailing | BspViewer/SourceMap/BspLoader.cs:398 | bytes after those the loop consumes do not change the result |
| BspVis.AllFalse | BspViewer/SourceMap/BspLoader.cs:390-393 | the fresh list has the requested length and every entry false |
| BspVis.DecompressExample | BspViewer/SourceMap/BspLoader.cs:401-417 | `FF 00 02 01` for 24 leaves sets entry 0 only, skips 8..23 for the zero run, and stops before the last byte |
| BspVis.EvenByteSetsNothing | BspViewer/SourceMap/BspLoader.cs:414 | an even non-zero byte sets nothing, because the test compares against 1 |
| BspVis.PVS | BspViewer/SourceMap/BspLoader.cs:388-421 | the list has Leafs - 1 entries; with no leafs the array size is negative and allocation fails |
| BspVis.VisEntries | BspViewer/SourceMap/BspLoader.cs:355-361 | the table from entry i on has visLeaves - i entries |
| BspVis.VisLists | BspViewer/SourceMap/BspLoader.cs:349-366 | an empty visibility lump gives no table |
| BspVis.VisEntriesShape | BspViewer/SourceMap/BspLoader.cs:355-361 | entry j is missing exactly when leaf j+1 has a negative VisOffset, and is otherwise that leaf's PVS |
| EntityKeyValues.Split | BspViewer/SourceEntity/Entity.cs:174 | splitting on a separator gives at least one piece and no piece contains the separator |
| EntityKeyValues.SplitJoin | BspViewer/SourceEntity/Entity.cs:174 | splitting on newlines loses nothing: the pieces joined with the separator give the text back |
| EntityKeyValues.FirstKept | BspViewer/SourceEntity/Entity.cs:21 | the scan for the start of the trimmed text stops at the first kept character, or at the end |
| EntityKeyValues.EndKept | BspViewer/SourceEntity/Entity.cs:21 | the scan back for the end of the trimmed text stops after the last kept character |
| EntityKeyValues.Trim | BspViewer/SourceEntity/Entity.cs:21 | the trimmed line is no longer than the line and neither starts nor ends with a space, tab or CR |
| EntityKeyValues.FirstKeptSkipsTrimmed | BspViewer/SourceEntity/Entity.cs:21 | everything the leading scan passes is a space, tab or CR |
| EntityKeyValues.EndKeptSkipsTrimmed | BspViewer/SourceEntity/Entity.cs:21 | everything the trailing scan passes is a space, tab or CR |
| EntityKeyValues.TrimDropsOnlyTrimmed | BspViewer/SourceEntity/Entity.cs:21 | Trim removes only a leading and a trailing run of spaces, tabs and CRs |
| EntityKeyValues.TrimIsTheUniqueInfix | BspViewer/SourceEntity/Entity.cs:21 | conversely, any split of the line into such runs around a text with kept ends has Trim's result as its middle |
| EntityKeyValues.Cull | BspViewer/SourceEntity/Entity.cs:24-37 | the culled line is a prefix of the line, and when it is shorter a `//` follows it |
| EntityKeyValues.CullIsPrefix | BspViewer/SourceEntity/Entity.cs:24-37 | culling keeps a prefix of the line, and what it cuts starts with `//` |
| EntityKeyValues.CullWithoutSlash | BspViewer/SourceEntity/Entity.cs:33-36 | a line without a slash is never cut |
| EntityKeyValues.CullComment | BspViewer/SourceEntity/Entity.cs:24-37 | the culling loop, which shortens the string it scans, computes exactly the line up to the first `//` outside quotes |
| EntityKeyValues.ScanKeyValue | BspViewer/SourceEntity/Entity.cs:103-134 | the extraction loop only appends to the key and the value, leaves the key alone once in the value, and counts at most one comma per value character |
| EntityKeyValues.AddProperty | BspViewer/SourceEntity/Entity.cs:135-167 | Add keeps every stored key and value, and the only key it can add is the non-empty key it scanned |
| EntityKeyValues.AddPropertyKeeps | BspViewer/SourceEntity/Entity.cs:135-167 | Add never overwrites a key (the first value wins), and the only key it can add is the non-empty key it scanned |
| EntityKeyValues.ScanQuotedKey | BspViewer/SourceEntity/Entity.cs:120-125 | inside the key's quotes every character goes to the key |
| EntityKeyValues.ScanQuotedValue | BspViewer/SourceEntity/Entity.cs:126-130 | inside the value's quotes every character goes to the value, and commas and 0x1B are counted |
| EntityKeyValues.CountCommasCons | BspViewer/SourceEntity/Entity.cs:129 | a comma or 0x1B counts one, any other character none |
| EntityKeyValues.KeyValueLineLayout | BspViewer/SourceEntity/Entity.cs:103-133 | where the key, the value and the four quotes lie in `"key" "value"` |
| EntityKeyValues.ScanKeyPart | BspViewer/SourceEntity/Entity.cs:106-125 | scanning `"key" "` leaves the scan inside the value's quotes with the key read |
| EntityKeyValues.QuoteFreeSlice | BspViewer/SourceEntity/Entity.cs:106 | a quote-free value copied into a line puts no quote there |
| EntityKeyValues.ScanStopsAtClosingQuote | BspViewer/SourceEntity/Entity.cs:108-113 | an unescaped quote that closes the value ends the scan |
| EntityKeyValues.ScanValueRun | BspViewer/SourceEntity/Entity.cs:126-130 | a quote-free value scanned from inside its quotes is read completely |
| EntityKeyValues.ScanValuePart | BspViewer/SourceEntity/Entity.cs:106-130 | scanning `value"` reads the value and stops at its closing quote |
| EntityKeyValues.KeyValueLineRoundTrip | BspViewer/SourceEntity/Entity.cs:96-169 | Add reads back a pair written as `"key" "value"`: a fresh key gets exactly that value, whatever follows the closing quote, unless the value has 4 or 6 commas |
| EntityKeyValues.LineStep | BspViewer/SourceEntity/Entity.cs:19-94 | a line inside a brush never stores a property |
| EntityKeyValues.CleanLineStep | BspViewer/SourceEntity/Entity.cs:45-93 | a trimmed, culled line inside a brush never stores a property |
| EntityKeyValues.LineStepKeeps | BspViewer/SourceEntity/Entity.cs:19-94 | one line keeps every stored value and can only add the key scanned from that line |
| EntityKeyValues.ProcessLines | BspViewer/SourceEntity/Entity.cs:19-94 | the line loop keeps every property stored before it |
| EntityKeyValues.FirstValueWins | BspViewer/SourceEntity/Entity.cs:163-166 | across all the lines, a key once stored keeps its first value |
| EntityKeyValues.PropertiesComeFromLines | BspViewer/SourceEntity/Entity.cs:93 | every property key is the key scanned from one of the lines |
| EntityKeyValues.Entity.constructor | BspViewer/SourceEntity/Entity.cs:10-170 | the entity holds exactly the properties the line-by-line state machine stores |
| EntityKeyValues.Entity.HandleLine | BspViewer/SourceEntity/Entity.cs:45-93 | one line's brace, brush and connections handling and its insertion are the specified line step |
| EntityKeyValues.Entity.Add | BspViewer/SourceEntity/Entity.cs:96-169 | the extraction loop and the insertion give the specified dictionary update |
| EntityKeyValues.Entity.FromString | BspViewer/SourceEntity/Entity.cs:172-175 | FromString builds a fresh entity from the newline-separated lines |
| EntityKeyValues.Entity.Get | BspViewer/SourceEntity/Entity.cs:179-189 | the getter returns the stored value, or "" for a missing key |
| EntityKeyValues.Entity.Set | BspViewer/SourceEntity/Entity.cs:190 | the setter overwrites, and the getter then returns the new value |
| EntityParsing.ParseStep | BspViewer/SourceEntity/EntityParser.cs:30-76 | one byte adds at most one block and never changes the blocks already closed |
| EntityParsing.ParseFrom | BspViewer/SourceEntity/EntityParser.cs:30-76 | each remaining byte closes at most one block |
| EntityParsing.Scan | BspViewer/SourceEntity/EntityParser.cs:16-76 | no more blocks than bytes; data without a `{` gives no block and ends at a depth of at most 0 |
| EntityParsing.BlockEntities | BspViewer/SourceEntity/EntityParser.cs:68 | block i becomes the entity Entity.FromString builds from its text, one entity per block |
| EntityParsing.ParseStepDelimited | BspViewer/SourceEntity/EntityParser.cs:40-75 | one byte keeps the scanner's shape: an empty buffer outside a block, a buffer starting with `{` inside, every closed block braced |
| EntityParsing.ParseFromDelimited | BspViewer/SourceEntity/EntityParser.cs:30-76 | the whole byte loop keeps that shape |
| EntityParsing.BlocksAreBraced | BspViewer/SourceEntity/EntityParser.cs:54-72 | every block handed to Entity.FromString starts with its opening `{` and ends with its closing `}` |
| EntityParsing.ParseFromAppends | BspViewer/SourceEntity/EntityParser.cs:66-72 | blocks are only appended, in closing order |
| EntityParsing.NoOpenBraceNoBlocks | BspViewer/SourceEntity/EntityParser.cs:42-50 | text without a `{` yields no entity and never raises the depth |
| EntityParsing.EntityParser.constructor | BspViewer/SourceEntity/EntityParser.cs:11-14 | a new parser holds its data and an empty entity list |
| EntityParsing.EntityParser.Parse | BspViewer/SourceEntity/EntityParser.cs:16-84 | one entity per closed block is appended to the parser's own list; a non-zero final depth throws the brace mismatch, otherwise all the entities the list holds are returned |
| EntityParsing.EmptyEntityExample | BspViewer/SourceEntity/EntityParser.cs:54-72 | `{`, newline, `}` is one block holding those three characters |
| EntityParsing.QuotedBraceExample | BspViewer/SourceEntity/EntityParser.cs:35-38 | a `}` inside quotes does not close the block even after a space |
| EntityParsing.StrayCloseExample | BspViewer/SourceEntity/EntityParser.cs:61-65 | a lone `}` still lowers the depth, to -1, a brace mismatch |
| EntityParsing.GluedBracesExample | BspViewer/SourceEntity/EntityParser.cs:47 | braces glued to other text do not count, so nothing is parsed |
| EntityLookup.FromList | BspViewer/SourceEntity/Entities.cs:9-24 | the constructor keeps one entity per element, and looking a value up afterwards gives the first given entity that holds it, or an empty dictionary when none does |
| EntityLookup.FindIndexFrom | BspViewer/SourceEntity/Entities.cs:16 | FindIndex gives the first index whose entity has the value, or -1 when none has |
| EntityLookup.Lookup | BspViewer/SourceEntity/Entities.cs:14-24 | the getter returns the lowest-index entity having the value, or a new empty dictionary when none matches |
| EntityLookup.Assign | BspViewer/SourceEntity/Entities.cs:25 | the setter changes nothing: the list and every lookup stay as they were |
| EntityLookup.LookupHoldsValue | BspViewer/SourceEntity/Entities.cs:16-23 | the entity found holds the value exactly when some entity does |
| EntityLookup.LookupSkipsNonMatching | BspViewer/SourceEntity/Entities.cs:16 | entities in front that lack the value never change the answer: the first match wins |
| BspRendering.PointInBox | BspViewer/SourceMap/BspRenderer.cs:46-57 | the point is in the box iff min <= p <= max on all three axes, or max <= p <= min on all three |
| BspRendering.PointInBoxUnmixed | BspViewer/SourceMap/BspRenderer.cs:48-53 | the orientation is not mixed per axis: a point inside min..max on one axis and max..min on another is outside |
| BspRendering.TraverseTree | BspViewer/SourceMap/BspRenderer.cs:21-44 | the answer is -1 or a leaf index of at least 1 whose box holds the point and which lies under the node |
| BspRendering.TraverseChildren | BspViewer/SourceMap/BspRenderer.cs:26-41 | the loop over the children answers -1 or a leaf under the node whose box holds the point |
| BspRendering.Descend | BspViewer/SourceMap/BspRenderer.cs:26-41 | a leaf child answers its leaf, the one whose child value it is; descending into a node answers -1 or a leaf under that node whose box holds the point |
| BspRendering.TraverseTreeFirstChild | BspViewer/SourceMap/BspRenderer.cs:26-43 | child 0 is tried before child 1 without backtracking: the first node child whose box holds the point is descended into, the first such leaf other than leaf 0 is the answer, else -1 |
| BspRendering.TraverseTreeTotal | BspViewer/SourceMap/BspRenderer.cs:21-44 | a tree whose children are all in range always traverses without an index error |
| BspRendering.AxialDistanceIsDotProduct | BspViewer/SourceMap/BspRenderer.cs:96-111 | the axial shortcut (coordinate minus distance) equals dot(normal, pos) minus distance when the normal is the axis |
| BspRendering.LeafFaces | BspViewer/SourceMap/BspRenderer.cs:125-132 | a leaf draws MarkSurfaces[FirstMarkSurface + i] for i below NumMarkSurfaces, in order, and fails exactly when the leaf or one of those entries is out of range |
| BspRendering.RenderLeaf | BspViewer/SourceMap/BspRenderer.cs:125-132 | the loop draws exactly the leaf's faces |
| BspRendering.Culled | BspViewer/SourceMap/BspRenderer.cs:79-84 | a leaf is culled exactly when the camera is in a leaf, the visibility lump is non-empty, the vis list has an entry for the camera leaf and that entry marks the leaf invisible; an index past the vis list or past the camera's entry is IndexOutOfRange |
| BspRendering.Then | BspViewer/SourceMap/BspRenderer.cs:115-121 | two draws in a row draw both, first the first; either failing fails the walk |
| BspRendering.ThenNothing | BspViewer/SourceMap/BspRenderer.cs:76-77 | a subtree that draws nothing does not change what is drawn around it |
| BspRendering.ThenAssociative | BspViewer/SourceMap/BspRenderer.cs:113-122 | sequencing draws is associative, so the walk's order is the left-to-right order of its calls |
| BspRendering.RenderNode | BspViewer/SourceMap/BspRenderer.cs:72-123 | child -1 draws nothing, and every face drawn comes from the mark-surface list |
| BspRendering.RenderLevel | BspViewer/SourceMap/BspRenderer.cs:63-70 | the level is the walk from node 0 with the camera leaf TraverseTree finds from node 0 |
| BspRendering.RefFacesAppend | BspViewer/SourceMap/BspRenderer.cs:115-121 | the faces of two runs of leaves are the faces of the first run, then of the second |
| BspRendering.RefFaces | BspViewer/SourceMap/BspRenderer.cs:125-132 | the faces of a run of leaves are read exactly when every leaf's faces are, and all come from the mark-surface list |
| BspRendering.ThenMultiset | BspViewer/SourceMap/BspRenderer.cs:113-122 | whichever child goes first, the same faces are drawn |
| BspRendering.NothingCulled | BspViewer/SourceMap/BspRenderer.cs:79-83 | without a vis list, or with the camera outside every leaf, no leaf is culled |
| BspRendering.UnculledLeaf | BspViewer/SourceMap/BspRenderer.cs:74-88 | without culling a leaf child draws its leaf's faces, and leaf 0 nothing |
| BspRendering.UnculledWalkDrawsEveryLeaf | BspViewer/SourceMap/BspRenderer.cs:72-123 | without culling the walk draws the faces of every leaf below the node exactly once, whatever the camera's side of each plane |
| BspRendering.CullingOnlyRemoves | BspViewer/SourceMap/BspRenderer.cs:79-84 | culling only removes draws: with the vis list every face is drawn at most as often as without |
| DesktopRendering.EdgeVertexIndex | BspViewer.Desktop/Renderer.cs:66-79 | a positive surf edge e gives Edges[e].Vertex[0]; any other e gives Edges[-e].Vertex[1], so e = 0 takes Vertex[1] of edge 0; an edge out of range fails |
| DesktopRendering.WalkVertex | BspViewer.Desktop/Renderer.cs:66-81 | step j succeeds exactly when surf edge FirstEdge + j, its edge and its vertex exist, and then gives the point of the vertex the edge's sign selects |
| DesktopRendering.FaceWalk | BspViewer.Desktop/Renderer.cs:64-81 | the walk has one vertex per step, and succeeds exactly when every step's lookups do |
| DesktopRendering.FaceWalkFails | BspViewer.Desktop/Renderer.cs:64-81 | once a step of the walk fails, the whole walk fails with that error |
| DesktopRendering.Repeat3 | BspViewer.Desktop/Renderer.cs:89-91 | the normal is pushed as three floats once per vertex |
| DesktopRendering.Repeat3At | BspViewer.Desktop/Renderer.cs:89-91 | the three floats pushed for vertex q are the plane's normal |
| DesktopRendering.Layout | BspViewer.Desktop/Renderer.cs:40-98 | one region per face, as many vertices as the positive NumEdges add up to, and three normal floats per vertex |
| DesktopRendering.LayoutStep | BspViewer.Desktop/Renderer.cs:49-94 | one more face appends its region (start = vertices so far, count = NumEdges), its walk and its normals |
| DesktopRendering.LayoutStopsAtPlane | BspViewer.Desktop/Renderer.cs:60 | a face whose plane is missing makes PreRender fail with an index error |
| DesktopRendering.LayoutStopsAtWalk | BspViewer.Desktop/Renderer.cs:66-81 | a face whose walk fails makes PreRender fail with the walk's error |
| DesktopRendering.LayoutPrefix | BspViewer.Desktop/Renderer.cs:49-95 | the buffers only grow: those for the first k faces are prefixes of those for the first n |
| DesktopRendering.LayoutFails | BspViewer.Desktop/Renderer.cs:49-95 | once a face fails, PreRender fails with that error whatever follows |
| DesktopRendering.LayoutLast | BspViewer.Desktop/Renderer.cs:53-93 | the buffers for the first i+1 faces end with face i's region, walk and normals |
| DesktopRendering.LayoutRegions | BspViewer.Desktop/Renderer.cs:45-93 | face i's region starts at the sum of the NumEdges before it and counts its own; the vertices there are its walk and the normals its plane's normal |
| DesktopRendering.Renderer.constructor | BspViewer.Desktop/Renderer.cs:24-28 | the constructor runs PreRender: the renderer holds its map, one region slot per face, and the outcome of the specified layout, whose regions the array holds when it succeeds |
| DesktopRendering.Renderer.PreRender | BspViewer.Desktop/Renderer.cs:40-98 | the loops compute exactly the specified layout, and the region array holds its regions |
| DesktopRendering.Renderer.WalkFace | BspViewer.Desktop/Renderer.cs:64-94 | the inner loop walks exactly NumEdges surf edges from FirstEdge |
| DesktopRendering.Renderer.RenderFace | BspViewer.Desktop/Renderer.cs:111-169 | RenderFace makes exactly the specified decisions for the face |
| DesktopRendering.ModeOf | BspViewer.Desktop/Renderer.cs:123-135 | 3 edges are triangles, 4 quads, anything else a polygon |
| DesktopRendering.FaceNormal | BspViewer.Desktop/Renderer.cs:139-143 | the normal is the plane's normal, negated iff PlaneSide is not 0 |
| DesktopRendering.FaceDrawOf | BspViewer.Desktop/Renderer.cs:111-169 | a face whose first style is 0xFF is skipped; any other is drawn with the primitive for its edge count and one oriented normal and vertex per edge |
| DesktopRendering.DrawMatchesRegion | BspViewer.Desktop/Renderer.cs:53-57 | the vertices RenderFace draws are the ones PreRender put in that face's region |
| WadAlpha.RoundHalfEven | BspViewer/SourceMap/WadLoader.cs:398-400 | Math.Round returns an integer within one half of its argument, and a value exactly halfway between two integers goes to the even one |
| WadAlpha.AreaIsProduct | BspViewer/SourceMap/WadLoader.cs:234 | the buffers are sized by width * height pixels, which the row-by-row count equals |
| WadAlpha.PixelIndexIsProduct | BspViewer/SourceMap/WadLoader.cs:240 | the pixel at column x of row y is pixel y * width + x |
| WadAlpha.PixelInRange | BspViewer/SourceMap/WadLoader.cs:240 | every position inside the texture has a pixel number below width * height |
| WadAlpha.AreaAtLeastRow | BspViewer/SourceMap/WadLoader.cs:234 | a texture with at least one row holds at least one row of pixels |
| WadAlpha.PixelCoordinates | BspViewer/SourceMap/WadLoader.cs:240 | row and column come back from a pixel number, so distinct positions have distinct pixel numbers |
| WadAlpha.Decompose | BspViewer/SourceMap/WadLoader.cs:236-245 | every pixel number below width * height is the number of some position inside the texture |
| WadAlpha.PixelsDistinct | BspViewer/SourceMap/WadLoader.cs:255 | writing one position's pixel leaves every other position's pixel alone |
| WadAlpha.Neighbour | BspViewer/SourceMap/WadLoader.cs:271-389 | one neighbour adds at most one to the count of usable neighbours |
| WadAlpha.NeighboursUpTo | BspViewer/SourceMap/WadLoader.cs:271-389 | after n neighbours at most n have been counted |
| WadAlpha.Neighbours | BspViewer/SourceMap/WadLoader.cs:264-389 | at most the eight neighbours are counted, and the one pixel of a 1x1 texture has none |
| WadAlpha.Interpolated | BspViewer/SourceMap/WadLoader.cs:391-401 | a key pixel with no usable neighbour keeps the key colour |
| WadAlpha.MeanIsQuotient | BspViewer/SourceMap/WadLoader.cs:393-395 | the mean is the weighted sum divided by the number of usable neighbours |
| WadAlpha.AlphaChannel | BspViewer/SourceMap/WadLoader.cs:255-423 | a float outside key pixels is unchanged, a key pixel's alpha is 0, and its colour channel is either unchanged or the interpolated one |
| WadAlpha.AlphaSections | BspViewer/SourceMap/WadLoader.cs:231-424 | the pass keeps the buffer's length, every float of a pixel that is not of the key colour, and sets the alpha of every key pixel to 0 |
| WadAlpha.AlphaStep | BspViewer/SourceMap/WadLoader.cs:231-424 | a completed pass keeps the length of the pixel buffer |
| WadAlpha.AlphaKeepsOtherPixels | BspViewer/SourceMap/WadLoader.cs:257-259 | a pixel not of the key colour keeps all four floats |
| WadAlpha.AlphaClearsKeyPixels | BspViewer/SourceMap/WadLoader.cs:257-263 | a pixel of the key colour gets alpha 0 and the interpolated colour of its neighbours |
| WadAlpha.KeyPixelChannel | BspViewer/SourceMap/WadLoader.cs:397-420 | each colour channel of a key pixel is the matching channel of the interpolated colour |
| WadAlpha.NeighbourReadsColoursOnly | BspViewer/SourceMap/WadLoader.cs:275-277 | a neighbour's contribution depends on the colour floats only, never on alpha |
| WadAlpha.NeighboursUpToReadColoursOnly | BspViewer/SourceMap/WadLoader.cs:271-389 | the neighbour sums depend on the colours only, so alpha values written earlier in the scan cannot change them |
| WadAlpha.NeighboursReadColoursOnly | BspViewer/SourceMap/WadLoader.cs:263 | the interpolated colour is the same whatever the alpha values are |
| WadAlpha.DiagonalWeightNotNormalised | BspViewer/SourceMap/WadLoader.cs:279-281 | diagonal neighbours are weighted by SQRT2 but counted as one, so a lone diagonal grey 100 gives grey 141 |
| WadAlpha.Targets | BspViewer/SourceMap/WadLoader.cs:397-400 | there is one interpolated colour per pixel |
| WadAlpha.TargetAt | BspViewer/SourceMap/WadLoader.cs:397-400 | the target colour of pixel (x, y) is its interpolated colour |
| WadAlpha.ChannelComposes | BspViewer/SourceMap/WadLoader.cs:236-423 | every float after the three loop nests is the one the whole-texture definition gives |
| WadAlpha.PassesCompose | BspViewer/SourceMap/WadLoader.cs:236-423 | the three loop nests together compute the whole-texture definition |
| WadAlpha.ApplyAlphaSections | BspViewer/SourceMap/WadLoader.cs:231-424 | the pixel array ends as the pass's result when the pass completes, and an overflowing buffer size is reported as the pass's error |
| WadAlpha.FillKey | BspViewer/SourceMap/WadLoader.cs:233-245 | afterwards every pixel's entry in the colour buffer holds the key colour |
| WadAlpha.ScanKeyPixels | BspViewer/SourceMap/WadLoader.cs:250-404 | the scan leaves all colours alone, clears the alpha of every key pixel and puts its interpolated colour in the buffer |
| WadAlpha.ScanStart | BspViewer/SourceMap/WadLoader.cs:233-245 | a buffer filled with the key colour is the state before the scan |
| WadAlpha.ScanRowDone | BspViewer/SourceMap/WadLoader.cs:251-253 | reaching the end of row y is reaching the start of row y + 1 |
| WadAlpha.ScanPixel | BspViewer/SourceMap/WadLoader.cs:255-402 | one step of the scan extends both scan invariants by one pixel |
| WadAlpha.KeyPixelSeen | BspViewer/SourceMap/WadLoader.cs:257-259 | while the colours are untouched, the key test on the working pixels is the key test on the original ones |
| WadAlpha.ClearKeyPixel | BspViewer/SourceMap/WadLoader.cs:261-401 | only the alpha of the key pixel changes, and only its buffer entry, which takes the interpolated colour |
| WadAlpha.ScanAlphaStep | BspViewer/SourceMap/WadLoader.cs:257-263 | only the alpha of pixel (x, y) may change, and only when it is a key pixel |
| WadAlpha.ScanBufferStep | BspViewer/SourceMap/WadLoader.cs:391-401 | only the buffer entry of pixel (x, y) may change, to its target colour when it is a key pixel |
| WadAlpha.TransferColours | BspViewer/SourceMap/WadLoader.cs:406-423 | a pixel whose buffer colour differs from the key takes it, the other pixels and every alpha stay |
| WadAlpha.TransferStep | BspViewer/SourceMap/WadLoader.cs:411-421 | one transfer step changes at most the colour of pixel (x, y) |
| WadLoading.WadHeaderAt | BspViewer/SourceMap/WadLoader.cs:58-73 | a header that reads has magic "WAD2" or "WAD3"; a short file is EndOfStream, any other magic InvalidData |
| WadLoading.MagicBytes | BspViewer/SourceMap/WadLoader.cs:62 | a magic string is four bytes |
| WadLoading.MagicReadsBack | BspViewer/SourceMap/WadLoader.cs:62 | the bytes of "WAD2" and "WAD3" read back as those strings |
| WadLoading.WadHeaderRoundTrip | BspViewer/SourceMap/WadLoader.cs:58-73 | a header written out reads back unchanged, whatever bytes follow it |
| WadLoading.AcceptedMagicIsExact | BspViewer/SourceMap/WadLoader.cs:62-70 | a header is accepted only when its first four bytes are exactly "WAD2" or "WAD3" |
| WadLoading.PaletteOffset | BspViewer/SourceMap/WadLoader.cs:191 | the palette offset is computed in uint arithmetic, so it is below 2^32 |
| WadLoading.PaletteToRgba | BspViewer/SourceMap/WadLoader.cs:202-213 | n indexed pixels give 4 * n floats |
| WadLoading.KeyColour | BspViewer/SourceMap/WadLoader.cs:202-220 | the key colour is the colour the translation gives every pixel of index 255, so every such pixel is keyed, whatever palette entry 255 holds |
| WadLoading.FetchTextureAt | BspViewer/SourceMap/WadLoader.cs:176-224 | a fetch that succeeds gives a texture image |
| WadLoading.TextureFrom | BspViewer/SourceMap/WadLoader.cs:195-223 | a decoded texture keeps the header's name and its sides cast to int, and holds four floats per index byte read |
| WadLoading.WrappedSizeFailsLoop | BspViewer/SourceMap/WadLoader.cs:202-212 | when count * 4 wraps to a shorter non-negative array, the loop's first write past it is exactly one past the end |
| WadLoading.OpaqueTexture | BspViewer/SourceMap/WadLoader.cs:205-213 | in a texture whose name does not start with '{', pixel j is palette entry indexes[j] with alpha 255 |
| WadLoading.AlphaTextureTransparency | BspViewer/SourceMap/WadLoader.cs:215-221 | in a texture whose name starts with '{', a pixel has alpha 0 exactly when its colour is that of palette entry 255, and every other pixel keeps its palette colour and alpha 255 |
| WadLoading.AlphaTextureIsAlphaSections | BspViewer/SourceMap/WadLoader.cs:215-221 | an alpha texture is the alpha pass over the RGBA image, keyed on palette entry 255 |
| WadLoading.AlphaPixelFloats | BspViewer/SourceMap/WadLoader.cs:207-212 | the four floats of pixel k are the three channels of its palette entry and 255 |
| WadLoading.ReadUInt8Array | BspViewer/SourceMap/WadLoader.cs:192 | reading count bytes at an absolute offset gives the bytes there, or the error of the seek or the read |
| WadLoading.FetchTextureAtOffset | BspViewer/SourceMap/WadLoader.cs:176-224 | the fetch returns what the fetch definition gives for the level data and the offset |
| WadLoading.TranslateIndexes | BspViewer/SourceMap/WadLoader.cs:202-213 | the loop succeeds exactly when every index and its palette entry exist, and then yields the RGBA image |
| WadLoading.DecodeTexture | BspViewer/SourceMap/WadLoader.cs:195-223 | the decoding returns what the decoding definition gives |
| WadLoading.LoadTextureFromWad | BspViewer/SourceMap/WadLoader.cs:226-229 | the WAD search never finds an image |
| WadLoading.FetchedUpTo | BspViewer/SourceMap/WadLoader.cs:129-173 | there is one fetch result per mip texture visited |
| WadLoading.FetchedUpToAt | BspViewer/SourceMap/WadLoader.cs:167-169 | fetch result i is the fetch of mip texture i at the textures lump offset plus its relative offset |
| WadLoading.TextureStep | BspViewer/SourceMap/WadLoader.cs:131-172 | a turn of the loop keeps the size of the lookup |
| WadLoading.TextureStepWrites | BspViewer/SourceMap/WadLoader.cs:133-172 | a turn writes slot i only, blank with a missing-list entry for an external texture, the fetched image for an internal one |
| WadLoading.TextureStepSucceeds | BspViewer/SourceMap/WadLoader.cs:131-172 | a turn succeeds exactly when slot i exists and, for an internal texture, its relative offset exists and its fetch succeeds |
| WadLoading.TexturesUpTo | BspViewer/SourceMap/WadLoader.cs:126-173 | the lookup has one slot per face |
| WadLoading.TexturesUpToFailureStays | BspViewer/SourceMap/WadLoader.cs:129-173 | the loop stops at its first failure, whose error is the result |
| WadLoading.TextureTableOf | BspViewer/SourceMap/WadLoader.cs:77-174 | LoadTextures succeeds only when every coordinate lookup succeeds, and then has one slot per face |
| WadLoading.TexturesUpToSucceeds | BspViewer/SourceMap/WadLoader.cs:126-173 | the loop succeeds exactly when every mip texture has a slot and every internal one has a relative offset and a fetch that succeeds |
| WadLoading.TexturesUpToSlots | BspViewer/SourceMap/WadLoader.cs:126-173 | afterwards slot i holds fetched texture i when it is internal and the blank texture otherwise |
| WadLoading.MissingTexturesAreExternal | BspViewer/SourceMap/WadLoader.cs:152-154 | each missing-list entry is an external texture, with its own index and name |
| WadLoading.MissingTexturesInOrder | BspViewer/SourceMap/WadLoader.cs:129-154 | the missing list is in index order |
| WadLoading.MissingTexturesComplete | BspViewer/SourceMap/WadLoader.cs:133-159 | every external texture has a missing-list entry |
| WadLoading.TextureTableSlots | BspViewer/SourceMap/WadLoader.cs:77-174 | LoadTextures succeeds exactly when every lookup, slot, relative offset and fetch succeeds; slot i then holds decoded internal texture i, every other slot is blank |
| WadLoading.WadFileHeader | BspViewer/SourceMap/WadLoader.cs:41-49 | a WAD fails only as a missing file or a bad header |
| WadLoading.HeadersUpTo | BspViewer/SourceMap/WadLoader.cs:39-49 | there is one header result per WAD visited |
| WadLoading.HeadersUpToAt | BspViewer/SourceMap/WadLoader.cs:39-49 | header result j is the header of WAD j |
| WadLoading.WadStep | BspViewer/SourceMap/WadLoader.cs:46-51 | a pass succeeds exactly when the header and the texture pass do; it then holds that header, lookup and missing list, and otherwise the first error |
| WadLoading.WadPasses | BspViewer/SourceMap/WadLoader.cs:39-52 | with no WAD the state is unchanged; after successful passes the state holds the last WAD's header and the texture table's lookup and missing list |
| WadLoading.LoadOutcome | BspViewer/SourceMap/WadLoader.cs:35-56 | a missing level file is FileNotFound; with no WAD the state is kept; a load with WADs ends with the last WAD's header and the texture table's lookup |
| WadLoading.WadPassesFailureStays | BspViewer/SourceMap/WadLoader.cs:39-52 | the first WAD that fails decides the error |
| WadLoading.WadPassesSucceed | BspViewer/SourceMap/WadLoader.cs:39-52 | the passes succeed exactly when every header is valid and, with at least one WAD, the texture pass succeeds |
| WadLoading.LoadReturnsLastPass | BspViewer/SourceMap/WadLoader.cs:35-56 | Load succeeds exactly when the level and every WAD exist, every header is valid and (with a WAD) the texture pass succeeds; it ends with the last WAD's header and the one texture table, and with no WAD keeps its state |
| WadLoading.WadLoader.constructor | BspViewer/SourceMap/WadLoader.cs:26-33 | the loader keeps the level and the file names, with no header, no lookup and no missing textures |
| WadLoading.WadLoader.Load | BspViewer/SourceMap/WadLoader.cs:35-56 | Load returns the lookup and leaves the state the Load definition gives, or fails with its error |
| WadLoading.WadLoader.LoadWad | BspViewer/SourceMap/WadLoader.cs:41-51 | one turn of Load's loop ends in the state of one pass, or fails with its error |
| WadLoading.WadLoader.ReadHeader | BspViewer/SourceMap/WadLoader.cs:58-73 | the header read at the reader's position is the header definition's |
| WadLoading.WadLoader.LoadTextures | BspViewer/SourceMap/WadLoader.cs:77-174 | LoadTextures stores the lookup and missing list of the texture table, or fails with its error, and keeps the header |
| WadLoading.WadLoader.FillLookup | BspViewer/SourceMap/WadLoader.cs:126-173 | the loop stores the lookup and missing list the loop definition gives, or fails with its error |
| WadLoading.WadLoader.LoadTexture | BspViewer/SourceMap/WadLoader.cs:131-172 | one turn updates the lookup and missing list as one turn of the definition does |
| WadLoading.WadLoader.CheckTextureCoordinates | BspViewer/SourceMap/WadLoader.cs:81-120 | the coordinate loop passes exactly when all its lookups are in range, and fails with IndexOutOfRange otherwise |
| TexUtil.BitIsPowerOfTwo | BspViewer/Utils/TexUtil.cs:43-46 | every single-bit int, int.MinValue included, passes IsPowerOfTwo |
| TexUtil.SingleBit | BspViewer/Utils/TexUtil.cs:43-46 | a non-zero int passing IsPowerOfTwo with no bit above k is a single bit at or below k |
| TexUtil.IsPowerOfTwo | BspViewer/Utils/TexUtil.cs:43-46 | the test holds exactly for 0 and the 32 single-bit patterns, int.MinValue included |
| TexUtil.IsPowerOfTwoIff | BspViewer/Utils/TexUtil.cs:43-46 | x & (x - 1) is 0 exactly for 0 and the 32 single-bit patterns |
| TexUtil.ShiftStep | BspViewer/Utils/TexUtil.cs:51 | the shift i of the loop stays below 32 for the five turns and reaches 32 after them |
| TexUtil.RoundsResult | BspViewer/Utils/TexUtil.cs:48-54 | the five rounds give 0 for 0 and for negative x other than int.MinValue, int.MinValue above 2^30 and for int.MinValue, and otherwise a power of two at least x whose half is below x |
| TexUtil.SmearedRounds | BspViewer/Utils/TexUtil.cs:51-52 | the smeared value after n turns is n rounds of x = x \| x >> i |
| TexUtil.RoundsOutcome | BspViewer/Utils/TexUtil.cs:48-54 | the five rounds give the outcome NextHighestPowerOfTwo promises |
| TexUtil.SmearedOutcome | BspViewer/Utils/TexUtil.cs:48-54 | smearing x - 1 and adding one gives the outcome NextHighestPowerOfTwo promises |
| TexUtil.HalfBelowIsSmallest | BspViewer/Utils/TexUtil.cs:48-54 | a power of two at least x whose half is below x is the smallest power of two at least x |
| TexUtil.SmallestPowerUnique | BspViewer/Utils/TexUtil.cs:48-54 | there is only one smallest power of two at least x |
| TexUtil.NextPowerOutcomeUnique | BspViewer/Utils/TexUtil.cs:48-54 | the outcome determines the result, for every x |
| TexUtil.NextPowerFixesPowers | BspViewer/Utils/TexUtil.cs:43-54 | for 1 <= x <= 2^30 the result passes IsPowerOfTwo, and equals x exactly when x does |
| TexUtil.NextHighestPowerOfTwo | BspViewer/Utils/TexUtil.cs:48-54 | the smallest power of two at least x for 1 <= x <= 2^30, int.MinValue above that and for int.MinValue, 0 for 0 and for negative x other than int.MinValue |
| TexUtil.SmearRound | BspViewer/Utils/TexUtil.cs:52 | one turn of the loop advances the smeared value by one round |
| TexUtil.PixelInImage | BspViewer/Utils/TexUtil.cs:24-25 | each position inside the image has a pixel number below width * height |
| TexUtil.DataIndex | BspViewer/Utils/TexUtil.cs:24 | each byte written lies inside the width * height * 4 byte image |
| TexUtil.PixelIndexInjective | BspViewer/Utils/TexUtil.cs:24-25 | distinct positions have distinct pixel numbers |
| TexUtil.NoRowBetween | BspViewer/Utils/TexUtil.cs:24 | every pixel of a lower row comes before every pixel of a higher one |
| TexUtil.DataIndexInjective | BspViewer/Utils/TexUtil.cs:24-33 | distinct positions or channels are written to distinct bytes, so no write overwrites another |
| TexUtil.DataIndexCovers | BspViewer/Utils/TexUtil.cs:19-35 | every byte of the image is written by some position and channel |
| TexUtil.PixelsToTexture | BspViewer/Utils/TexUtil.cs:10-41 | a non-positive side fails as InvalidParameter and a short pixel array as IndexOutOfRange; otherwise every byte is the low byte of its source channel, with alpha 255 unless channels is 4 |
| DesktopTexUtil.IsPowerOfTwo | BspViewer.Desktop/Utils/TexUtil.cs:8-11 | true exactly for 0 and the 32 single-bit patterns |
| DesktopTexUtil.NextHighestPowerOfTwo | BspViewer.Desktop/Utils/TexUtil.cs:13-19 | the same outcome as the viewer's version; for 1 <= x <= 2^30 a power of two that equals x exactly when x is one |

## Left out

- Floating point: each C# `float` is decoded from its IEEE binary32 bits to an exact `real`. Infinities and NaNs read as 0.0. No arithmetic rounds to single precision.
- WadAlpha.Interpolated: the sums and the division are exact real arithmetic, with MathLib.SQRT2 taken as 1.41421356237. Only the final Math.Round (to nearest, ties to even) is modelled. Float rounding of the intermediate sums is not.
- BinaryReading.ReadString: UTF-8 decoding is exact for ASCII bytes. Each byte of 0x80 or above becomes U+FFFD on its own, so multi-byte sequences are not decoded.
- CountVisLeafs, TraverseTree and RenderNode, the three walks over the node tree, require the tree to be ordered: a child node has a larger index than its parent. The C# code would recurse forever on a cyclic tree, and the model does not represent that. A child index out of range is not excluded: it is the `IndexOutOfRange` error, as the C# code's IndexOutOfRangeException.
- BspLoading.BspLoader.Load: after a failed load, the contract says nothing about the loader's fields. The C# code leaves the lumps read so far assigned.
- `LoadVis` is never called by `Load`, so the level's visibility list is always absent at render time. `LoadVis` and `GetPVS` are modelled on their own, and `RenderNode` takes an optional list.
- `CreateRandomFaceColors` is left out: it draws random colours, and `ColorUtils` is not part of this model.
- Every OpenGL call is left out: buffer creation, `GL.Begin`, `GL.Vertex`, `GL.Normal` and the leaf outlines. `RenderFace` returns what it would draw instead of drawing it.
- DesktopTexUtil's `PixelsToTexture` is left out: it only asks OpenGL for a texture name.
- The window, input and camera code are left out: they are an event loop and trigonometry.
- StringExtensions is left out: it is a wrapper over `Single.Parse`.
- WadLoader's texture-coordinate loop computes floating-point coordinates and then discards them. The model keeps only its array lookups, which can fail.
- `LoadTextureFromWad` is a stub that never finds an image. Its "found" branch cannot run and is not modelled.
- The WAD directory, WadDefs and the WAD lump records are not part of this model. Only the header fields that WadLoader reads are modelled. MIPLEVELS = 4 is written out, and the texture name is read with the string reader's 16-byte default.
- File-system access is left out. `File.Exists`, `FileStream`, `Path` and `FileNotFoundException` become lookups in a map from names to bytes, or an optional byte sequence.
- The `Bitmap`, `LockBits` and `Marshal.Copy` calls of TexUtil.PixelsToTexture are left out. The bitmap is the byte image the loop fills, with a stride of 4 · width. A side that is not positive is the `ArgumentException` that `new Bitmap` throws.
- TexUtil.PixelsToTexture: the index arithmetic `(x + y * width) * channels` does not wrap to 32 bits. Images large enough to overflow it are not modelled.
- A `_missingTextures` list that is null before the first `LoadTextures` is modelled as an empty list.
- Entity connection tuples are left out: that code is commented out. Brush children are collected and then discarded, so the model does not keep them.
- BspMap.cs and the other declaration files appear only as datatypes.
