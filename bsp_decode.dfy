/** What the BSP loader produces from the bytes of a file, as pure
    functions: the decoding of each fixed-size record, the number of
    records a lump holds, and the whole result (records or the exception)
    of reading each lump. */
module BspDecode {
  import opened Wrappers
  import opened Bytes
  import opened BinaryReading
  import opened BspDefs
  import opened BspLumps

  const HEADER_SIZE: nat := 4 + 8 * HEADER_LUMPS
  const MODEL_STRIDE: nat := 64
  const MODEL_READ_SIZE: nat := 60
  const TEXINFO_SIZE: nat := 40
  const MIPTEX_HEADER_SIZE: nat := 40
  const MARKSURFACE_SIZE: nat := 2
  const SURFEDGE_SIZE: nat := 4

  // ---------------------------------------------------------------------
  // Record counts

  /** `length / size` in C#, where a count below one reads no record. */
  function RecordCount(length: int, size: nat): (n: nat)
    requires size > 0
  {
    if length <= 0 then 0 else length / size
  }

  /** The count is the number of whole records in the lump: trailing bytes
      that do not fill a record are ignored, and a lump of non-positive
      length has none. */
  lemma RecordCountIsWholeRecords(length: int, size: nat)
    requires size > 0
    ensures length <= 0 ==> RecordCount(length, size) == 0
    ensures length > 0 ==> size * RecordCount(length, size) <= length < size * (RecordCount(length, size) + 1)
  {
  }

  /** The models lump is counted in 64-byte units while each model read
      takes 60 bytes, so the reads stay inside the lump and leave 4 bytes
      per model (plus the remainder) unread at its end. */
  lemma ModelReadsStayInLump(length: int)
    ensures MODEL_READ_SIZE * RecordCount(length, MODEL_STRIDE) <= if length < 0 then 0 else length
    ensures length >= MODEL_STRIDE ==>
      length - MODEL_READ_SIZE * RecordCount(length, MODEL_STRIDE) >= 4 * RecordCount(length, MODEL_STRIDE)
  {
  }

  // ---------------------------------------------------------------------
  // Records

  /** The directory: an int32 version and 15 (offset, length) int32 pairs. */
  function HeaderAt(d: seq<byte>, p: nat): (h: BspHeader)
    requires p + HEADER_SIZE <= |d|
    ensures |h.lumps| == HEADER_LUMPS
  {
    BspHeader(I32(d, p), seq(HEADER_LUMPS, i requires 0 <= i < HEADER_LUMPS =>
      BspLump(I32(d, p + 4 + 8 * i), I32(d, p + 8 + 8 * i))))
  }

  function PlaneAt(d: seq<byte>, p: nat): BspPlane
    requires p + PLANE_SIZE <= |d|
  {
    BspPlane(SinglesAt(d, p, 3), F32(d, p + 12), I32(d, p + 16))
  }

  function FaceAt(d: seq<byte>, p: nat): BspFace
    requires p + FACE_SIZE <= |d|
  {
    BspFace(I16(d, p), I16(d, p + 2), I32(d, p + 4), I16(d, p + 8), I16(d, p + 10),
            d[p + 12..p + 16], I32(d, p + 16))
  }

  function VertexAt(d: seq<byte>, p: nat): BspVertex
    requires p + VERTEX_SIZE <= |d|
  {
    BspVertex(SinglesAt(d, p, 3))
  }

  function EdgeAt(d: seq<byte>, p: nat): BspEdge
    requires p + EDGE_SIZE <= |d|
  {
    BspEdge(UInt16sAt(d, p, 2))
  }

  /** A leaf: its last field is read with ReadBytes, which takes whatever
      is left, so only its first 24 bytes must be in the file. */
  function LeafAt(d: seq<byte>, p: nat): BspLeaf
    requires p + LEAF_SIZE - 4 <= |d|
  {
    BspLeaf(I32(d, p), I32(d, p + 4), Int16sAt(d, p + 8, 3), Int16sAt(d, p + 14, 3),
            U16(d, p + 20), U16(d, p + 22), Available(d, p + 24, 4))
  }

  function NodeAt(d: seq<byte>, p: nat): BspNode
    requires p + NODE_SIZE <= |d|
  {
    BspNode(I32(d, p), Int16sAt(d, p + 4, 2), Int16sAt(d, p + 8, 3), Int16sAt(d, p + 14, 3),
            U16(d, p + 20), U16(d, p + 22))
  }

  function ClipNodeAt(d: seq<byte>, p: nat): BspClipNode
    requires p + CLIPNODE_SIZE <= |d|
  {
    BspClipNode(I32(d, p), Int16sAt(d, p + 4, 2))
  }

  /** A model as read: three vectors, three (not four) head nodes and three
      int32s, 60 bytes. */
  function ModelAt(d: seq<byte>, p: nat): BspModel
    requires p + MODEL_READ_SIZE <= |d|
  {
    BspModel(SinglesAt(d, p, 3), SinglesAt(d, p + 12, 3), SinglesAt(d, p + 24, 3),
             Int32sAt(d, p + 36, 3), I32(d, p + 48), I32(d, p + 52), I32(d, p + 56))
  }

  function TextureInfoAt(d: seq<byte>, p: nat): BspTextureInfo
    requires p + TEXINFO_SIZE <= |d|
  {
    BspTextureInfo(SinglesAt(d, p, 3), F32(d, p + 12), SinglesAt(d, p + 16, 3), F32(d, p + 28),
                   U32(d, p + 32), U32(d, p + 36))
  }

  /** A mip-texture header: a 16-byte name, width, height and 4 offsets. */
  function MipTextureAt(d: seq<byte>, p: nat): BspMipTexture
    requires p + MIPTEX_HEADER_SIZE <= |d|
  {
    BspMipTexture(CleanString(d[p..p + 16]), U32(d, p + 16), U32(d, p + 20), UInt32sAt(d, p + 24, 4))
  }

  // ---------------------------------------------------------------------
  // Lumps

  /** Seek to the lump, then read n records of `size` bytes: a negative
      offset fails the seek; otherwise the reads fail as soon as a record
      does not fit in the file. */
  predicate RecordsFit(d: seq<byte>, offset: int, size: nat, n: nat)
  {
    n == 0 || offset + size * n <= |d|
  }

  /** A lump read outcome with its error cases: the seek, then the records. */
  function LumpOutcome(d: seq<byte>, lump: BspLump, size: nat): (r: Result<nat>)
    requires size > 0
    ensures r.Ok? ==> r.value == RecordCount(lump.length, size) && lump.offset >= 0
    ensures r.Ok? ==> RecordsFit(d, lump.offset, size, r.value)
  {
    if lump.offset < 0 then Err(NegativeSeek)
    else if RecordsFit(d, lump.offset, size, RecordCount(lump.length, size)) then Ok(RecordCount(lump.length, size))
    else Err(EndOfStream)
  }

  /** A lump lying inside the file decodes, into exactly Length / size
      records; a negative offset fails the seek whatever the length. */
  lemma LumpInsideFileDecodes(d: seq<byte>, lump: BspLump, size: nat)
    requires size > 0
    ensures lump.offset < 0 ==> LumpOutcome(d, lump, size) == Err(NegativeSeek)
    ensures 0 <= lump.offset && lump.offset + lump.length <= |d| ==>
      LumpOutcome(d, lump, size) == Ok(RecordCount(lump.length, size))
  {
    RecordCountIsWholeRecords(lump.length, size);
  }

  /** Multiplying by a natural number keeps the order. */
  lemma MulMonotone(a: nat, b: nat, c: nat)
    requires b <= c
    ensures a * b <= a * c
  {
    assert a * c == a * b + a * (c - b);
  }

  /** A record that runs past the end of the file means the run of n
      records does not fit. */
  lemma RecordPastEnd(d: seq<byte>, offset: int, size: nat, i: nat, n: nat)
    requires i < n
    requires offset + size * i + size > |d|
    ensures !RecordsFit(d, offset, size, n)
  {
    MulMonotone(size, i + 1, n);
    assert size * (i + 1) == size * i + size;
  }

  /** A leaf whose first 24 bytes run past the end of the file means the
      leafs lump cannot be read. */
  lemma LeafPastEnd(d: seq<byte>, offset: int, i: nat, n: nat)
    requires i < n
    requires offset + LEAF_SIZE * i + LEAF_SIZE - 4 > |d|
    ensures offset + LEAF_SIZE * (n - 1) + LEAF_SIZE - 4 > |d|
  {
    MulMonotone(LEAF_SIZE, i, n - 1);
  }

  function PlanesLump(d: seq<byte>, lump: BspLump): (r: Result<seq<BspPlane>>)
    ensures r.Ok? ==> |r.value| == RecordCount(lump.length, PLANE_SIZE)
    ensures r.Ok? <==> lump.offset >= 0 && RecordsFit(d, lump.offset, PLANE_SIZE, RecordCount(lump.length, PLANE_SIZE))
    ensures lump.offset < 0 ==> r == Err(NegativeSeek)
  {
    var n :- LumpOutcome(d, lump, PLANE_SIZE);
    Ok(seq(n, i requires 0 <= i < n => PlaneAt(d, lump.offset + PLANE_SIZE * i)))
  }

  function FacesLump(d: seq<byte>, lump: BspLump): (r: Result<seq<BspFace>>)
    ensures r.Ok? ==> |r.value| == RecordCount(lump.length, FACE_SIZE)
    ensures r.Ok? <==> lump.offset >= 0 && RecordsFit(d, lump.offset, FACE_SIZE, RecordCount(lump.length, FACE_SIZE))
    ensures lump.offset < 0 ==> r == Err(NegativeSeek)
  {
    var n :- LumpOutcome(d, lump, FACE_SIZE);
    Ok(seq(n, i requires 0 <= i < n => FaceAt(d, lump.offset + FACE_SIZE * i)))
  }

  function VerticesLump(d: seq<byte>, lump: BspLump): (r: Result<seq<BspVertex>>)
    ensures r.Ok? ==> |r.value| == RecordCount(lump.length, VERTEX_SIZE)
    ensures r.Ok? <==> lump.offset >= 0 && RecordsFit(d, lump.offset, VERTEX_SIZE, RecordCount(lump.length, VERTEX_SIZE))
    ensures lump.offset < 0 ==> r == Err(NegativeSeek)
  {
    var n :- LumpOutcome(d, lump, VERTEX_SIZE);
    Ok(seq(n, i requires 0 <= i < n => VertexAt(d, lump.offset + VERTEX_SIZE * i)))
  }

  function EdgesLump(d: seq<byte>, lump: BspLump): (r: Result<seq<BspEdge>>)
    ensures r.Ok? ==> |r.value| == RecordCount(lump.length, EDGE_SIZE)
    ensures r.Ok? <==> lump.offset >= 0 && RecordsFit(d, lump.offset, EDGE_SIZE, RecordCount(lump.length, EDGE_SIZE))
    ensures lump.offset < 0 ==> r == Err(NegativeSeek)
  {
    var n :- LumpOutcome(d, lump, EDGE_SIZE);
    Ok(seq(n, i requires 0 <= i < n => EdgeAt(d, lump.offset + EDGE_SIZE * i)))
  }

  function NodesLump(d: seq<byte>, lump: BspLump): (r: Result<seq<BspNode>>)
    ensures r.Ok? ==> |r.value| == RecordCount(lump.length, NODE_SIZE)
    ensures r.Ok? <==> lump.offset >= 0 && RecordsFit(d, lump.offset, NODE_SIZE, RecordCount(lump.length, NODE_SIZE))
    ensures lump.offset < 0 ==> r == Err(NegativeSeek)
  {
    var n :- LumpOutcome(d, lump, NODE_SIZE);
    Ok(seq(n, i requires 0 <= i < n => NodeAt(d, lump.offset + NODE_SIZE * i)))
  }

  function ClipNodesLump(d: seq<byte>, lump: BspLump): (r: Result<seq<BspClipNode>>)
    ensures r.Ok? ==> |r.value| == RecordCount(lump.length, CLIPNODE_SIZE)
    ensures r.Ok? <==> lump.offset >= 0 && RecordsFit(d, lump.offset, CLIPNODE_SIZE, RecordCount(lump.length, CLIPNODE_SIZE))
    ensures lump.offset < 0 ==> r == Err(NegativeSeek)
  {
    var n :- LumpOutcome(d, lump, CLIPNODE_SIZE);
    Ok(seq(n, i requires 0 <= i < n => ClipNodeAt(d, lump.offset + CLIPNODE_SIZE * i)))
  }

  function TextureInfosLump(d: seq<byte>, lump: BspLump): (r: Result<seq<BspTextureInfo>>)
    ensures r.Ok? ==> |r.value| == RecordCount(lump.length, TEXINFO_SIZE)
    ensures r.Ok? <==> lump.offset >= 0 && RecordsFit(d, lump.offset, TEXINFO_SIZE, RecordCount(lump.length, TEXINFO_SIZE))
    ensures lump.offset < 0 ==> r == Err(NegativeSeek)
  {
    var n :- LumpOutcome(d, lump, TEXINFO_SIZE);
    Ok(seq(n, i requires 0 <= i < n => TextureInfoAt(d, lump.offset + TEXINFO_SIZE * i)))
  }

  function MarkSurfacesLump(d: seq<byte>, lump: BspLump): (r: Result<seq<int>>)
    ensures r.Ok? ==> |r.value| == RecordCount(lump.length, MARKSURFACE_SIZE)
    ensures r.Ok? <==> lump.offset >= 0 && RecordsFit(d, lump.offset, MARKSURFACE_SIZE, RecordCount(lump.length, MARKSURFACE_SIZE))
    ensures lump.offset < 0 ==> r == Err(NegativeSeek)
  {
    var n :- LumpOutcome(d, lump, MARKSURFACE_SIZE);
    Ok(if n == 0 then [] else Int16sAt(d, lump.offset, n))
  }

  function SurfEdgesLump(d: seq<byte>, lump: BspLump): (r: Result<seq<int>>)
    ensures r.Ok? ==> |r.value| == RecordCount(lump.length, SURFEDGE_SIZE)
    ensures r.Ok? <==> lump.offset >= 0 && RecordsFit(d, lump.offset, SURFEDGE_SIZE, RecordCount(lump.length, SURFEDGE_SIZE))
    ensures lump.offset < 0 ==> r == Err(NegativeSeek)
  {
    var n :- LumpOutcome(d, lump, SURFEDGE_SIZE);
    Ok(if n == 0 then [] else Int32sAt(d, lump.offset, n))
  }

  /** Models: counted in 64-byte units, read 60 bytes apart. */
  function ModelsLump(d: seq<byte>, lump: BspLump): (r: Result<seq<BspModel>>)
    ensures r.Ok? ==> |r.value| == RecordCount(lump.length, MODEL_STRIDE)
    ensures r.Ok? <==> lump.offset >= 0 && RecordsFit(d, lump.offset, MODEL_READ_SIZE, RecordCount(lump.length, MODEL_STRIDE))
    ensures lump.offset < 0 ==> r == Err(NegativeSeek)
  {
    if lump.offset < 0 then Err(NegativeSeek)
    else
      var n := RecordCount(lump.length, MODEL_STRIDE);
      if RecordsFit(d, lump.offset, MODEL_READ_SIZE, n) then
        Ok(seq(n, i requires 0 <= i < n => ModelAt(d, lump.offset + MODEL_READ_SIZE * i)))
      else Err(EndOfStream)
  }

  /** Leafs: every leaf but the last needs its 28 bytes; the last one needs
      only 24, its ambient levels being whatever bytes are left. */
  function LeafsLump(d: seq<byte>, lump: BspLump): (r: Result<seq<BspLeaf>>)
    ensures r.Ok? ==> |r.value| == RecordCount(lump.length, LEAF_SIZE)
    ensures r.Ok? <==>
      lump.offset >= 0
      && (RecordCount(lump.length, LEAF_SIZE) == 0 || lump.offset + LEAF_SIZE * RecordCount(lump.length, LEAF_SIZE) - 4 <= |d|)
    ensures lump.offset < 0 ==> r == Err(NegativeSeek)
  {
    if lump.offset < 0 then Err(NegativeSeek)
    else
      var n := RecordCount(lump.length, LEAF_SIZE);
      if n == 0 || lump.offset + LEAF_SIZE * (n - 1) + LEAF_SIZE - 4 <= |d| then
        Ok(seq(n, i requires 0 <= i < n => LeafAt(d, lump.offset + LEAF_SIZE * i)))
      else Err(EndOfStream)
  }

  /** The bytes at a lump's offset, as many as its length asks for and the
      file still has. */
  function LumpBytes(d: seq<byte>, offset: int, length: int): (r: Result<seq<byte>>)
    ensures r.Ok? <==> offset >= 0 && length >= 0
    ensures r.Ok? ==> |r.value| <= length
    ensures r.Ok? && offset + length <= |d| ==> r.value == d[offset..offset + length]
  {
    if offset < 0 then Err(NegativeSeek)
    else if length < 0 then Err(ArgumentOutOfRange)
    else Ok(Available(d, offset, length))
  }

  /** The absolute position of each mip-texture header: the lump offset plus
      the relative offset, added as unchecked int32s. */
  function AbsoluteOffsets(lumpOffset: int, relative: seq<int>): (r: seq<int>)
    ensures |r| == |relative|
    ensures forall i :: 0 <= i < |relative| ==> -TWO_POW_31 <= r[i] < TWO_POW_31
    ensures forall i :: 0 <= i < |relative| ==> r[i] == ToInt32(lumpOffset + relative[i])
  {
    seq(|relative|, i requires 0 <= i < |relative| => ToInt32(lumpOffset + relative[i]))
  }

  /** The mip-texture headers at the given positions, read in order; the
      first position that cannot be sought or read decides the error. */
  function MipHeaders(d: seq<byte>, offsets: seq<int>): (r: Result<seq<BspMipTexture>>)
    ensures r.Ok? ==> |r.value| == |offsets|
  {
    if offsets == [] then Ok([])
    else if offsets[0] < 0 then Err(NegativeSeek)
    else if offsets[0] + MIPTEX_HEADER_SIZE > |d| then Err(EndOfStream)
    else
      var rest :- MipHeaders(d, offsets[1..]);
      Ok([MipTextureAt(d, offsets[0])] + rest)
  }

  /** The relative offsets of the textures lump: an int32 count, then that
      many int32s. */
  function MipOffsetsLump(d: seq<byte>, lump: BspLump): (r: Result<seq<int>>)
    ensures r.Ok? ==> lump.offset >= 0 && lump.offset + 4 + 4 * |r.value| <= |d|
    ensures r.Ok? ==> |r.value| == I32(d, lump.offset)
  {
    if lump.offset < 0 then Err(NegativeSeek)
    else if lump.offset + 4 > |d| then Err(EndOfStream)
    else
      var count := I32(d, lump.offset);
      if count < 0 then Err(Overflow)
      else if lump.offset + 4 + 4 * count > |d| then Err(EndOfStream)
      else Ok(Int32sAt(d, lump.offset + 4, count))
  }

  /** The textures lump: header i is read at lump offset + relative offset i. */
  function MipTexturesLump(d: seq<byte>, lump: BspLump): (r: Result<seq<BspMipTexture>>)
    ensures r.Ok? ==> MipOffsetsLump(d, lump).Ok?
    ensures r.Ok? ==> |r.value| == |MipOffsetsLump(d, lump).value| == I32(d, lump.offset)
    ensures r.Ok? ==> forall i :: 0 <= i < |r.value| ==>
      var at := ToInt32(lump.offset + MipOffsetsLump(d, lump).value[i]);
      0 <= at && at + MIPTEX_HEADER_SIZE <= |d| && r.value[i] == MipTextureAt(d, at)
  {
    var relative :- MipOffsetsLump(d, lump);
    var headers := MipHeaders(d, AbsoluteOffsets(lump.offset, relative));
    if headers.Ok? then
      MipHeadersAreAtOffsets(d, AbsoluteOffsets(lump.offset, relative));
      headers
    else headers
  }

  /** Every header read sits at its own offset: header i is the record at
      position offsets[i], and the result has one header per offset. */
  lemma {:induction false} MipHeadersAreAtOffsets(d: seq<byte>, offsets: seq<int>)
    requires MipHeaders(d, offsets).Ok?
    ensures forall i :: 0 <= i < |offsets| ==>
      0 <= offsets[i] && offsets[i] + MIPTEX_HEADER_SIZE <= |d|
      && MipHeaders(d, offsets).value[i] == MipTextureAt(d, offsets[i])
  {
    if offsets != [] {
      MipHeadersAreAtOffsets(d, offsets[1..]);
      var r := MipHeaders(d, offsets).value;
      var rest := MipHeaders(d, offsets[1..]).value;
      assert r == [MipTextureAt(d, offsets[0])] + rest;
      forall i | 1 <= i < |offsets|
        ensures 0 <= offsets[i] && offsets[i] + MIPTEX_HEADER_SIZE <= |d| && r[i] == MipTextureAt(d, offsets[i])
      {
        assert offsets[i] == offsets[1..][i - 1];
        assert r[i] == rest[i - 1];
      }
    }
  }

  /** Conversely, when every offset holds a whole header, reading them all
      succeeds. */
  lemma {:induction false} MipHeadersSucceed(d: seq<byte>, offsets: seq<int>)
    requires forall i :: 0 <= i < |offsets| ==> 0 <= offsets[i] && offsets[i] + MIPTEX_HEADER_SIZE <= |d|
    ensures MipHeaders(d, offsets).Ok?
  {
    if offsets != [] {
      assert 0 <= offsets[0];
      forall i | 0 <= i < |offsets[1..]|
        ensures 0 <= offsets[1..][i] && offsets[1..][i] + MIPTEX_HEADER_SIZE <= |d|
      {
        assert offsets[1..][i] == offsets[i + 1];
      }
      MipHeadersSucceed(d, offsets[1..]);
    }
  }

  /** The first offset that is negative or leaves no room for a whole
      header decides the error: a failed seek, or the end of the stream. */
  lemma {:induction false} MipHeadersFirstFailure(d: seq<byte>, offsets: seq<int>, i: nat)
    requires i < |offsets|
    requires forall k :: 0 <= k < i ==> 0 <= offsets[k] && offsets[k] + MIPTEX_HEADER_SIZE <= |d|
    requires offsets[i] < 0 || offsets[i] + MIPTEX_HEADER_SIZE > |d|
    ensures MipHeaders(d, offsets) == Err(if offsets[i] < 0 then NegativeSeek else EndOfStream)
  {
    if i > 0 {
      assert 0 <= offsets[0] && offsets[0] + MIPTEX_HEADER_SIZE <= |d|;
      forall k | 0 <= k < i - 1
        ensures 0 <= offsets[1..][k] && offsets[1..][k] + MIPTEX_HEADER_SIZE <= |d|
      {
        assert offsets[1..][k] == offsets[k + 1];
      }
      assert offsets[1..][i - 1] == offsets[i];
      MipHeadersFirstFailure(d, offsets[1..], i - 1);
    }
  }

  // ---------------------------------------------------------------------
  // The header, written and read back

  /** The four little-endian bytes of an int32. */
  function EncodeI32(x: int): (r: seq<byte>)
    requires -TWO_POW_31 <= x < TWO_POW_31
    ensures |r| == 4
  {
    var u := ToUInt32(x);
    var q1 := u / 0x100;
    var q2 := q1 / 0x100;
    var q3 := q2 / 0x100;
    [u % 0x100, q1 % 0x100, q2 % 0x100, q3]
  }

  lemma EncodeI32RoundTrip(x: int)
    requires -TWO_POW_31 <= x < TWO_POW_31
    ensures I32(EncodeI32(x), 0) == x
  {
    var u := ToUInt32(x);
    var q1 := u / 0x100;
    var q2 := q1 / 0x100;
    var q3 := q2 / 0x100;
    assert u == u % 0x100 + 0x100 * q1;
    assert q1 == q1 % 0x100 + 0x100 * q2;
    assert q2 == q2 % 0x100 + 0x100 * q3;
    assert U32(EncodeI32(x), 0) == u;
  }

  /** An int32 read inside a concatenation reads the part it lies in. */
  lemma I32InConcat(a: seq<byte>, b: seq<byte>, c: seq<byte>, q: nat)
    requires q + 4 <= |b|
    ensures I32(a + b + c, |a| + q) == I32(b, q)
  {
    var s := a + b + c;
    assert s[|a| + q] == b[q] && s[|a| + q + 1] == b[q + 1];
    assert s[|a| + q + 2] == b[q + 2] && s[|a| + q + 3] == b[q + 3];
  }

  predicate IsInt32(x: int)
  {
    -TWO_POW_31 <= x < TWO_POW_31
  }

  predicate IsInt32Lump(l: BspLump)
  {
    IsInt32(l.offset) && IsInt32(l.length)
  }

  function EncodeLumps(lumps: seq<BspLump>): (r: seq<byte>)
    requires forall i :: 0 <= i < |lumps| ==> IsInt32Lump(lumps[i])
    ensures |r| == 8 * |lumps|
  {
    if lumps == [] then []
    else
      assert IsInt32Lump(lumps[0]);
      EncodeI32(lumps[0].offset) + EncodeI32(lumps[0].length) + EncodeLumps(lumps[1..])
  }

  /** A header as the file stores it. */
  function EncodeHeader(h: BspHeader): (r: seq<byte>)
    requires IsInt32(h.version) && |h.lumps| == HEADER_LUMPS
    requires forall i :: 0 <= i < |h.lumps| ==> IsInt32Lump(h.lumps[i])
    ensures |r| == HEADER_SIZE
  {
    EncodeI32(h.version) + EncodeLumps(h.lumps)
  }

  lemma {:induction false} EncodeLumpsReadsBack(lumps: seq<BspLump>, i: nat)
    requires forall k :: 0 <= k < |lumps| ==> IsInt32Lump(lumps[k])
    requires i < |lumps|
    ensures I32(EncodeLumps(lumps), 8 * i) == lumps[i].offset
    ensures I32(EncodeLumps(lumps), 8 * i + 4) == lumps[i].length
  {
    var e0 := EncodeI32(lumps[0].offset);
    var e1 := EncodeI32(lumps[0].length);
    var rest := EncodeLumps(lumps[1..]);
    assert EncodeLumps(lumps) == e0 + e1 + rest;
    if i == 0 {
      I32InConcat([], e0, e1 + rest, 0);
      assert [] + e0 + (e1 + rest) == e0 + e1 + rest;
      EncodeI32RoundTrip(lumps[0].offset);
      I32InConcat(e0, e1, rest, 0);
      EncodeI32RoundTrip(lumps[0].length);
    } else {
      EncodeLumpsReadsBack(lumps[1..], i - 1);
      I32InConcat(e0 + e1, rest, [], 8 * (i - 1));
      I32InConcat(e0 + e1, rest, [], 8 * (i - 1) + 4);
      assert e0 + e1 + rest + [] == e0 + e1 + rest;
    }
  }

  /** The header is exactly its 124 bytes and nothing is validated: any
      version and any 15 int32 pairs written out read back unchanged. */
  lemma HeaderRoundTrip(h: BspHeader)
    requires IsInt32(h.version) && |h.lumps| == HEADER_LUMPS
    requires forall i :: 0 <= i < |h.lumps| ==> IsInt32Lump(h.lumps[i])
    ensures HeaderAt(EncodeHeader(h), 0) == h
  {
    var e := EncodeHeader(h);
    var v := EncodeI32(h.version);
    var ls := EncodeLumps(h.lumps);
    I32InConcat([], v, ls, 0);
    assert [] + v + ls == e;
    EncodeI32RoundTrip(h.version);
    forall i | 0 <= i < HEADER_LUMPS
      ensures HeaderAt(e, 0).lumps[i] == h.lumps[i]
    {
      EncodeLumpsReadsBack(h.lumps, i);
      I32InConcat(v, ls, [], 8 * i);
      I32InConcat(v, ls, [], 8 * i + 4);
      assert v + ls + [] == e;
    }
  }
}
