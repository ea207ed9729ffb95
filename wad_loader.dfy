/** WadLoader: checks the header of each WAD archive, then builds the
    texture lookup from the level file.  A mip texture whose first mip
    offset is zero lives outside the level; the WAD search is a stub, so
    every such texture gets the blank placeholder and is recorded as
    missing.  Any other texture is decoded where it lies in the textures
    lump: palette indexes become RGBA floats, and a texture whose name
    starts with '{' has its key-coloured pixels made transparent. */
module WadLoading {
  import opened Wrappers
  import opened Bytes
  import opened BinaryReading
  import opened BspDefs
  import opened BspLumps
  import opened BspDecode
  import opened BspLoading
  import opened DesktopRendering
  import opened WadAlpha

  /** WadHeader.SizeInBytes: a 4-character magic and two int32s. */
  const WAD_HEADER_SIZE: nat := 12
  /** WadDefs.MIPLEVELS: the mip offsets of a texture header. */
  const MIPLEVELS: nat := 4
  /** 256 palette entries of three bytes. */
  const PALETTE_SIZE: nat := 768
  /** The palette entry whose colour marks transparent pixels. */
  const KEY_ENTRY: nat := 255

  datatype WadHeader = WadHeader(magic: string, dirs: int, dirOffset: int)

  /** BspTextureData: the default value, which carries no image (the
      placeholder bound to missing textures), or a decoded RGBA image. */
  datatype TextureSlot = Blank | Texture(pixels: seq<real>, width: int, height: int, name: string)

  /** A texture left for a later search: its name and its lookup index. */
  datatype MissingTexture = MissingTexture(name: string, index: int)

  /** What LoadTextures leaves in the loader's two fields. */
  datatype TextureTable = TextureTable(lookup: seq<TextureSlot>, missing: seq<MissingTexture>)

  /** The loader's fields after a pass. */
  datatype LoaderState = LoaderState(header: Option<WadHeader>, lookup: Option<seq<TextureSlot>>,
                                     missing: seq<MissingTexture>)

  // ---------------------------------------------------------------------
  // The WAD header

  /** ReadHeader at byte p: the magic is four bytes with control characters
      removed, and only "WAD2" and "WAD3" are accepted. */
  function WadHeaderAt(d: seq<byte>, p: nat): (r: Result<WadHeader>)
    ensures r.Ok? ==> r.value.magic == "WAD2" || r.value.magic == "WAD3"
    ensures r.Err? ==> r.error == EndOfStream || r.error == InvalidData
  {
    if p + WAD_HEADER_SIZE > |d| then Err(EndOfStream)
    else
      var magic := CleanString(d[p..p + 4]);
      if magic != "WAD2" && magic != "WAD3" then Err(InvalidData)
      else Ok(WadHeader(magic, I32(d, p + 4), I32(d, p + 8)))
  }

  /** The bytes of a magic string. */
  function MagicBytes(version: char): (r: seq<byte>)
    requires version == '2' || version == '3'
    ensures |r| == 4
  {
    [0x57, 0x41, 0x44, if version == '2' then 0x32 else 0x33]
  }

  /** The magic bytes read back as the magic string. */
  lemma MagicReadsBack(version: char)
    requires version == '2' || version == '3'
    ensures CleanString(MagicBytes(version)) == ['W', 'A', 'D', version]
  {
    var m := MagicBytes(version);
    assert CleanString(m[3..]) == [version];
    assert CleanString(m[2..]) == ['D', version];
    assert CleanString(m[1..]) == ['A', 'D', version];
  }

  /** A header written out reads back unchanged, whatever follows it. */
  lemma WadHeaderRoundTrip(version: char, dirs: int, dirOffset: int, rest: seq<byte>)
    requires version == '2' || version == '3'
    requires IsInt32(dirs) && IsInt32(dirOffset)
    ensures WadHeaderAt(MagicBytes(version) + EncodeI32(dirs) + EncodeI32(dirOffset) + rest, 0)
         == Ok(WadHeader(['W', 'A', 'D', version], dirs, dirOffset))
  {
    var m, a, b := MagicBytes(version), EncodeI32(dirs), EncodeI32(dirOffset);
    var d := m + a + b + rest;
    assert d[0..4] == m;
    MagicReadsBack(version);
    I32InConcat(m, a, b + rest, 0);
    assert m + a + (b + rest) == d;
    EncodeI32RoundTrip(dirs);
    I32InConcat(m + a, b, rest, 0);
    EncodeI32RoundTrip(dirOffset);
  }

  /** Only the exact magic bytes pass: no control byte can be hidden among
      them, since four characters survive from four bytes. */
  lemma {:induction false} AcceptedMagicIsExact(d: seq<byte>, p: nat)
    requires WadHeaderAt(d, p).Ok?
    ensures d[p..p + 4] == MagicBytes('2') || d[p..p + 4] == MagicBytes('3')
  {
    var s := d[p..p + 4];
    var magic := CleanString(s);
    assert |CleanString(s[1..])| <= 3 && |CleanString(s[2..])| <= 2 && |CleanString(s[3..])| <= 1;
    assert CleanString(s) == (if IsControl(Utf8Char(s[0])) then [] else [Utf8Char(s[0])]) + CleanString(s[1..]);
    assert CleanString(s[1..]) == (if IsControl(Utf8Char(s[1])) then [] else [Utf8Char(s[1])]) + CleanString(s[2..]);
    assert s[2..][1..] == s[3..];
    assert CleanString(s[2..]) == (if IsControl(Utf8Char(s[2])) then [] else [Utf8Char(s[2])]) + CleanString(s[3..]);
    assert s[3..][1..] == [];
    assert CleanString(s[3..]) == (if IsControl(Utf8Char(s[3])) then [] else [Utf8Char(s[3])]);
    assert magic[0] == Utf8Char(s[0]) && magic[1] == Utf8Char(s[1]);
    assert magic[2] == Utf8Char(s[2]) && magic[3] == Utf8Char(s[3]);
  }

  // ---------------------------------------------------------------------
  // Decoding one internal texture

  /** The uint arithmetic that places the palette after the last mip
      level: Offsets[3] + (Width / 8) * (Height / 8) + 2, modulo 2^32. */
  function PaletteOffset(t: BspMipTexture): (r: nat)
    ensures r < TWO_POW_32
  {
    ToUInt32(t.offsets[MIPLEVELS - 1] + ToUInt32((t.width / 8) * (t.height / 8)) + 2)
  }

  /** Every one of the first n pixels has an index byte, and its palette
      entry lies inside the palette that was read. */
  predicate Translatable(indexes: seq<byte>, palette: seq<byte>, n: int)
  {
    n <= |indexes| && forall j :: 0 <= j < n ==> 3 * indexes[j] as int + 2 < |palette|
  }

  /** Float i of the RGBA image: a palette channel, or the opaque alpha. */
  function RgbaFloat(indexes: seq<byte>, palette: seq<byte>, i: int): real
    requires 0 <= i && i / 4 < |indexes| && 3 * indexes[i / 4] as int + 2 < |palette|
  {
    if i % 4 == 3 then 255.0 else palette[3 * indexes[i / 4] as int + i % 4] as real
  }

  /** The RGBA image of n palette-indexed pixels. */
  function PaletteToRgba(indexes: seq<byte>, palette: seq<byte>, n: nat): (r: seq<real>)
    requires Translatable(indexes, palette, n)
    ensures |r| == 4 * n
  {
    seq(4 * n, i requires 0 <= i < 4 * n => RgbaFloat(indexes, palette, i))
  }

  /** The colour of palette entry 255, compared with every pixel of an
      alpha texture: exactly the colour the RGBA translation gives a pixel
      whose index byte is 255, and so the colour of every such pixel. */
  function KeyColour(palette: seq<byte>): (key: Rgb)
    requires |palette| >= PALETTE_SIZE
    ensures PaletteToRgba([KEY_ENTRY as byte], palette, 1) == [key.r, key.g, key.b, 255.0]
    ensures forall indexes: seq<byte>, j ::
      0 <= j < |indexes| && indexes[j] == KEY_ENTRY as byte && Translatable(indexes, palette, |indexes|) ==>
        PaletteToRgba(indexes, palette, |indexes|)[4 * j..4 * j + 3] == [key.r, key.g, key.b]
  {
    KeyEntryPixels(palette);
    Rgb(palette[765] as real, palette[766] as real, palette[767] as real)
  }

  /** Any pixel whose index byte is 255 translates to palette entry 255's
      colour, opaque. */
  lemma KeyEntryPixels(palette: seq<byte>)
    requires |palette| >= PALETTE_SIZE
    ensures forall indexes: seq<byte>, j ::
      0 <= j < |indexes| && indexes[j] == KEY_ENTRY as byte && Translatable(indexes, palette, |indexes|) ==>
        PaletteToRgba(indexes, palette, |indexes|)[4 * j..4 * j + 4]
        == [palette[765] as real, palette[766] as real, palette[767] as real, 255.0]
  {
    forall indexes: seq<byte>, j |
      0 <= j < |indexes| && indexes[j] == KEY_ENTRY as byte && Translatable(indexes, palette, |indexes|)
      ensures PaletteToRgba(indexes, palette, |indexes|)[4 * j..4 * j + 4]
              == [palette[765] as real, palette[766] as real, palette[767] as real, 255.0]
    {
      AlphaPixelFloats(indexes, palette, |indexes|, j);
    }
  }

  /** The number of index bytes read: width * height in unchecked int
      arithmetic, each side being the header's uint cast to int. */
  function PixelCount(mipTex: BspMipTexture): int
  {
    ToInt32(ToInt32(mipTex.width) * ToInt32(mipTex.height))
  }

  /** FetchTextureAtOffset: the header at `offset`, the 768-byte palette
      after the last mip level, the index bytes of mip level 0, then the
      decoding of those bytes. */
  function FetchTextureAt(d: seq<byte>, offset: int): (r: Result<TextureSlot>)
    ensures r.Ok? ==> r.value.Texture?
  {
    if offset < 0 then Err(NegativeSeek)
    else if offset + MIPTEX_HEADER_SIZE > |d| then Err(EndOfStream)
    else
      var mipTex := MipTextureAt(d, offset);
      // the palette position is never negative, so this read cannot fail
      var palette := Available(d, offset + PaletteOffset(mipTex), PALETTE_SIZE);
      var indexes :- LumpBytes(d, offset + mipTex.offsets[0], PixelCount(mipTex));
      TextureFrom(mipTex, palette, indexes)
  }

  /** The decoding half of FetchTextureAtOffset: the RGBA translation into
      an array of count * 4 floats (unchecked int arithmetic again), then
      the alpha pass for a name starting with '{'. */
  function TextureFrom(mipTex: BspMipTexture, palette: seq<byte>, indexes: seq<byte>): (r: Result<TextureSlot>)
    ensures r.Ok? ==> r.value.Texture? && r.value.name == mipTex.name && |mipTex.name| > 0
    ensures r.Ok? ==> r.value.width == ToInt32(mipTex.width) && r.value.height == ToInt32(mipTex.height)
    ensures r.Ok? ==> |r.value.pixels| == 4 * PixelCount(mipTex) && PixelCount(mipTex) <= |indexes|
  {
    var width, height := ToInt32(mipTex.width), ToInt32(mipTex.height);
    var count := PixelCount(mipTex);
    var size := ToInt32(count * 4);
    if count < 0 then Err(ArgumentOutOfRange)
    else if size < 0 then Err(Overflow)
    else if size != 4 * count || !Translatable(indexes, palette, count) then Err(IndexOutOfRange)
    else if |mipTex.name| == 0 then Err(ArgumentOutOfRange)
    else
      var rgba := PaletteToRgba(indexes, palette, count);
      if mipTex.name[0] != '{' then Ok(Texture(rgba, width, height, mipTex.name))
      else if |palette| < PALETTE_SIZE then Err(IndexOutOfRange)
      else
        var pixels :- AlphaStep(rgba, width, height, KeyColour(palette));
        Ok(Texture(pixels, width, height, mipTex.name))
  }

  /** When count * 4 wraps to a non-negative int shorter than the image,
      the translation loop reaches pixel size / 4 (if nothing failed
      before), whose first float lies exactly one past the array. */
  lemma WrappedSizeFailsLoop(count: int)
    requires 0 <= count < TWO_POW_31
    requires 0 <= ToInt32(count * 4) && ToInt32(count * 4) != 4 * count
    ensures var size := ToInt32(count * 4);
      size / 4 < count && 4 * (size / 4) == size && ToInt32((size / 4) * 4) == size
  {
  }

  /** A texture whose name does not start with '{' is fully opaque, and
      pixel j shows palette entry indexes[j]. */
  lemma OpaqueTexture(mipTex: BspMipTexture, palette: seq<byte>, indexes: seq<byte>, j: int)
    requires TextureFrom(mipTex, palette, indexes).Ok? && mipTex.name[0] != '{'
    requires 0 <= j < PixelCount(mipTex)
    ensures var p := TextureFrom(mipTex, palette, indexes).value.pixels;
      && j < |indexes| && 3 * indexes[j] as int + 2 < |palette|
      && p[4 * j + 3] == 255.0
      && p[4 * j] == palette[3 * indexes[j] as int] as real
      && p[4 * j + 1] == palette[3 * indexes[j] as int + 1] as real
      && p[4 * j + 2] == palette[3 * indexes[j] as int + 2] as real
  {
    assert (4 * j) / 4 == j && (4 * j + 1) / 4 == j && (4 * j + 2) / 4 == j && (4 * j + 3) / 4 == j;
  }

  /** In a texture whose name starts with '{', pixel (x, y) is transparent
      exactly when its palette colour is the colour of entry 255; every
      other pixel keeps its palette colour and stays opaque. */
  lemma AlphaTextureTransparency(mipTex: BspMipTexture, palette: seq<byte>, indexes: seq<byte>, x: int, y: int)
    requires TextureFrom(mipTex, palette, indexes).Ok? && mipTex.name[0] == '{'
    requires 0 <= x < ToInt32(mipTex.width) && 0 <= y < ToInt32(mipTex.height)
    ensures var t := TextureFrom(mipTex, palette, indexes).value;
      var k := PixelIndex(t.width, x, y);
      && |palette| >= PALETTE_SIZE && 0 <= k < |indexes| && 3 * indexes[k] as int + 2 < |palette|
      && 4 * k + 3 < |t.pixels|
      && var isKey := palette[3 * indexes[k] as int] == palette[3 * KEY_ENTRY]
                      && palette[3 * indexes[k] as int + 1] == palette[3 * KEY_ENTRY + 1]
                      && palette[3 * indexes[k] as int + 2] == palette[3 * KEY_ENTRY + 2];
         (t.pixels[4 * k + 3] == 0.0 <==> isKey)
         && (!isKey ==> t.pixels[4 * k..4 * k + 4] == [palette[3 * indexes[k] as int] as real,
                                                     palette[3 * indexes[k] as int + 1] as real,
                                                     palette[3 * indexes[k] as int + 2] as real, 255.0])
  {
    var w, h := ToInt32(mipTex.width), ToInt32(mipTex.height);
    var count := PixelCount(mipTex);
    AlphaTextureIsAlphaSections(mipTex, palette, indexes);
    var rgba := PaletteToRgba(indexes, palette, count);
    var key := KeyColour(palette);
    PixelInRange(x, y, w, h);
    var k := PixelIndex(w, x, y);
    AlphaPixelFloats(indexes, palette, count, k);
    var p := TextureFrom(mipTex, palette, indexes).value.pixels;
    var e := 3 * indexes[k] as int;
    assert IsKeyPixel(rgba, k, key) <==> palette[e] == palette[765] && palette[e + 1] == palette[766] && palette[e + 2] == palette[767];
    if IsKeyPixel(rgba, k, key) {
      AlphaClearsKeyPixels(rgba, w, h, key, x, y);
    } else {
      AlphaKeepsOtherPixels(rgba, w, h, key, x, y);
      assert p[4 * k + 3] == p[4 * k..4 * k + 4][3] == rgba[4 * k..4 * k + 4][3] == 255.0;
    }
  }

  /** An alpha texture that decodes is the alpha pass over the RGBA image,
      keyed on palette entry 255. */
  lemma AlphaTextureIsAlphaSections(mipTex: BspMipTexture, palette: seq<byte>, indexes: seq<byte>)
    requires TextureFrom(mipTex, palette, indexes).Ok? && mipTex.name[0] == '{'
    requires 0 < ToInt32(mipTex.width) && 0 < ToInt32(mipTex.height)
    ensures var w, h, count := ToInt32(mipTex.width), ToInt32(mipTex.height), PixelCount(mipTex);
      && |palette| >= PALETTE_SIZE && count == w * h == Area(w, h) && Translatable(indexes, palette, count)
      && TextureFrom(mipTex, palette, indexes).value.pixels
         == AlphaSections(PaletteToRgba(indexes, palette, count), w, h, KeyColour(palette))
  {
    var w, h := ToInt32(mipTex.width), ToInt32(mipTex.height);
    AreaIsProduct(w, h);
  }

  /** The four floats of pixel k of the RGBA image. */
  lemma AlphaPixelFloats(indexes: seq<byte>, palette: seq<byte>, count: nat, k: int)
    requires Translatable(indexes, palette, count) && 0 <= k < count
    ensures var rgba, e := PaletteToRgba(indexes, palette, count), 3 * indexes[k] as int;
      && rgba[4 * k] == palette[e] as real && rgba[4 * k + 1] == palette[e + 1] as real
      && rgba[4 * k + 2] == palette[e + 2] as real && rgba[4 * k + 3] == 255.0
      && rgba[4 * k..4 * k + 4] == [palette[e] as real, palette[e + 1] as real, palette[e + 2] as real, 255.0]
  {
    assert (4 * k) / 4 == k && (4 * k + 1) / 4 == k && (4 * k + 2) / 4 == k && (4 * k + 3) / 4 == k;
  }

  /** ReadUInt8Array(offset, count): a seek to `offset`, then ReadBytes. */
  method ReadUInt8Array(reader: Reader, offset: int, count: int) returns (r: Result<seq<byte>>)
    modifies reader
    ensures r == LumpBytes(reader.data, offset, count)
  {
    var seek := reader.Seek(offset);
    if seek.Fail? {
      return Err(seek.error);
    }
    r := reader.ReadBytes(count);
  }

  /** FetchTextureAtOffset, with the translation loop and the in-place
      alpha pass. */
  method FetchTextureAtOffset(mapReader: Reader, offset: int) returns (r: Result<TextureSlot>)
    modifies mapReader
    ensures r == FetchTextureAt(mapReader.data, offset)
  {
    var seek := mapReader.Seek(offset);
    if seek.Fail? {
      return Err(seek.error);
    }
    var mipTex :- BspLoader.ReadMipTexture(mapReader);
    var paletteOffset := PaletteOffset(mipTex);
    var paletteRead := ReadUInt8Array(mapReader, offset + paletteOffset, PALETTE_SIZE);
    var palette := paletteRead.value;
    var width := ToInt32(mipTex.width);
    var height := ToInt32(mipTex.height);
    var count := ToInt32(width * height);
    var textureIndexes :- ReadUInt8Array(mapReader, offset + mipTex.offsets[0], count);
    r := DecodeTexture(mipTex, palette, textureIndexes);
  }

  /** The translation loop of FetchTextureAtOffset: pixel j becomes the
      three channels of palette entry indexes[j] and an opaque alpha. */
  method TranslateIndexes(textureIndexes: seq<byte>, palette: seq<byte>, count: nat) returns (r: Result<array<real>>)
    ensures r.Ok? <==> Translatable(textureIndexes, palette, count)
    ensures r.Err? ==> r.error == IndexOutOfRange
    ensures r.Ok? ==> fresh(r.value) && r.value[..] == PaletteToRgba(textureIndexes, palette, count)
  {
    var textureData := new real[4 * count];
    for j := 0 to count
      invariant forall i :: 0 <= i < 4 * j ==>
        i / 4 < |textureIndexes| && 3 * textureIndexes[i / 4] as int + 2 < |palette| &&
        textureData[i] == RgbaFloat(textureIndexes, palette, i)
      invariant j <= |textureIndexes|
      invariant forall k :: 0 <= k < j ==> 3 * textureIndexes[k] as int + 2 < |palette|
    {
      if j >= |textureIndexes| {
        return Err(IndexOutOfRange);
      }
      var paletteIndex := textureIndexes[j] as int * 3;
      if paletteIndex + 2 >= |palette| {
        return Err(IndexOutOfRange);
      }
      textureData[j * 4] := palette[paletteIndex] as real;
      textureData[j * 4 + 1] := palette[paletteIndex + 1] as real;
      textureData[j * 4 + 2] := palette[paletteIndex + 2] as real;
      textureData[j * 4 + 3] := 255.0;
      assert (j * 4) / 4 == j && (j * 4 + 1) / 4 == j && (j * 4 + 2) / 4 == j && (j * 4 + 3) / 4 == j;
    }
    assert textureData[..] == PaletteToRgba(textureIndexes, palette, count);
    return Ok(textureData);
  }

  /** The rest of FetchTextureAtOffset: the translation loop and the
      in-place alpha pass. */
  method DecodeTexture(mipTex: BspMipTexture, palette: seq<byte>, textureIndexes: seq<byte>) returns (r: Result<TextureSlot>)
    ensures r == TextureFrom(mipTex, palette, textureIndexes)
  {
    var width := ToInt32(mipTex.width);
    var height := ToInt32(mipTex.height);
    var count := ToInt32(width * height);
    if count < 0 {
      // ReadUInt8Array has already refused a negative count
      return Err(ArgumentOutOfRange);
    }
    var size := ToInt32(count * 4);
    if size < 0 {
      return Err(Overflow);
    }
    if size != 4 * count {
      WrappedSizeFailsLoop(count);
      return Err(IndexOutOfRange);
    }
    var translated := TranslateIndexes(textureIndexes, palette, count);
    if translated.Err? {
      return Err(translated.error);
    }
    var textureData := translated.value;
    if |mipTex.name| == 0 {
      return Err(ArgumentOutOfRange);
    }
    if mipTex.name[0] == '{' {
      if |palette| < PALETTE_SIZE {
        return Err(IndexOutOfRange);
      }
      var alpha := ApplyAlphaSections(textureData, width, height, KeyColour(palette));
      if alpha.Fail? {
        return Err(alpha.error);
      }
    }
    r := Ok(Texture(textureData[..], width, height, mipTex.name));
  }

  // ---------------------------------------------------------------------
  // The texture lookup of one pass

  /** The lookups the texture-coordinate loop makes for one face: its
      texture info, then per edge the surf edge, the edge, the vertex and
      the mip texture of the texture info.  The coordinates themselves are
      discarded, so only whether a lookup fails matters. */
  predicate FaceCoordsIndexable(m: BspMap, face: BspFace)
  {
    && 0 <= face.textureInfo < |m.textureInfos|
    && FaceWalk(m, face, EdgeCount(face)).Ok?
    && (EdgeCount(face) > 0 ==> m.textureInfos[face.textureInfo].mipTex < |m.mipTextures|)
  }

  predicate CoordinatesIndexable(m: BspMap)
  {
    forall i :: 0 <= i < |m.faces| ==> FaceCoordsIndexable(m, m.faces[i])
  }

  /** A texture stored outside the level: its first mip offset is zero. */
  predicate IsExternal(t: BspMipTexture)
  {
    t.offsets[0] == 0
  }

  /** LoadTextureFromWad: the search of the loaded WADs is a stub that
      never finds an image. */
  function LoadTextureFromWad(name: string): (t: TextureSlot)
    ensures !t.Texture?
  {
    Blank
  }

  /** Where internal texture i starts: the textures lump offset plus the
      relative offset i, added as int32s. */
  function TextureOffset(m: BspMap, i: nat): int
    requires |m.header.lumps| == HEADER_LUMPS && i < |m.textureOffsets|
  {
    AbsoluteOffsets(m.header.lumps[LUMP_TEXTURES].offset, m.textureOffsets)[i]
  }

  /** What fetching mip texture i from the level data gives, for an index
      that has a relative offset. */
  function Fetched(m: BspMap, d: seq<byte>, i: nat): Result<TextureSlot>
    requires |m.header.lumps| == HEADER_LUMPS
  {
    if i < |m.textureOffsets| then FetchTextureAt(d, TextureOffset(m, i)) else Err(IndexOutOfRange)
  }

  /** The fetch results of the first n mip textures. */
  function FetchedUpTo(m: BspMap, d: seq<byte>, n: nat): (r: seq<Result<TextureSlot>>)
    requires |m.header.lumps| == HEADER_LUMPS
    ensures |r| == n
  {
    if n == 0 then [] else FetchedUpTo(m, d, n - 1) + [Fetched(m, d, n - 1)]
  }

  lemma {:induction false} FetchedUpToAt(m: BspMap, d: seq<byte>, n: nat, i: nat)
    requires |m.header.lumps| == HEADER_LUMPS && i < n
    ensures FetchedUpTo(m, d, n)[i] == Fetched(m, d, i)
  {
    if i < n - 1 {
      FetchedUpToAt(m, d, n - 1, i);
    }
  }

  /** One turn of the texture loop, for mip texture i whose fetch gives
      `fetched`: an external texture is looked up in the WADs and, when not
      found, gets the blank slot and a missing-list entry; an internal one
      needs a relative offset, is fetched, and only then is its slot
      bounds-checked. */
  function TextureStep(m: BspMap, t: TextureTable, i: nat, fetched: Result<TextureSlot>): (r: Result<TextureTable>)
    requires i < |m.mipTextures|
    ensures r.Ok? ==> |r.value.lookup| == |t.lookup|
  {
    var mipTex := m.mipTextures[i];
    if IsExternal(mipTex) then
      var found := LoadTextureFromWad(mipTex.name);
      if i >= |t.lookup| then Err(IndexOutOfRange)
      else Ok(TextureTable(t.lookup[i := if found.Texture? then found else Blank],
                           if found.Texture? then t.missing else t.missing + [MissingTexture(mipTex.name, i)]))
    else if i >= |m.textureOffsets| then Err(IndexOutOfRange)
    else
      var texture :- fetched;
      if i >= |t.lookup| then Err(IndexOutOfRange)
      else Ok(TextureTable(t.lookup[i := texture], t.missing))
  }

  /** A successful turn writes slot i only (blank for an external texture,
      the fetched image for an internal one) and appends to the missing
      list exactly for an external texture. */
  lemma TextureStepWrites(m: BspMap, t: TextureTable, i: nat, fetched: Result<TextureSlot>)
    requires i < |m.mipTextures| && TextureStep(m, t, i, fetched).Ok?
    ensures var u := TextureStep(m, t, i, fetched).value;
      && i < |t.lookup|
      && (IsExternal(m.mipTextures[i]) ==>
            u.lookup == t.lookup[i := Blank] && u.missing == t.missing + [MissingTexture(m.mipTextures[i].name, i)])
      && (!IsExternal(m.mipTextures[i]) ==>
            i < |m.textureOffsets| && fetched.Ok? && u.lookup == t.lookup[i := fetched.value] && u.missing == t.missing)
  {
  }

  /** A turn succeeds exactly when the slot exists and, for an internal
      texture, its relative offset exists and its fetch succeeds. */
  lemma TextureStepSucceeds(m: BspMap, t: TextureTable, i: nat, fetched: Result<TextureSlot>)
    requires i < |m.mipTextures|
    ensures TextureStep(m, t, i, fetched).Ok? <==>
      i < |t.lookup| && (!IsExternal(m.mipTextures[i]) ==> i < |m.textureOffsets| && fetched.Ok?)
  {
  }

  /** The texture loop over the first n mip textures, given their fetch
      results, starting from one default slot per face and an empty
      missing list.  The lookup has one slot per face but is indexed by
      mip texture. */
  function TexturesUpTo(m: BspMap, fetched: seq<Result<TextureSlot>>, n: nat): (r: Result<TextureTable>)
    requires n <= |m.mipTextures| && n <= |fetched|
    ensures r.Ok? ==> |r.value.lookup| == |m.faces|
  {
    if n == 0 then Ok(TextureTable(seq(|m.faces|, i => Blank), []))
    else
      var t :- TexturesUpTo(m, fetched, n - 1);
      TextureStep(m, t, n - 1, fetched[n - 1])
  }

  /** The loop stops at its first failure: that error is the result. */
  lemma {:induction false} TexturesUpToFailureStays(m: BspMap, fetched: seq<Result<TextureSlot>>, k: nat, n: nat)
    requires k <= n <= |m.mipTextures| && n <= |fetched|
    requires TexturesUpTo(m, fetched, k).Err?
    ensures TexturesUpTo(m, fetched, n) == Err(TexturesUpTo(m, fetched, k).error)
  {
    if n > k {
      TexturesUpToFailureStays(m, fetched, k, n - 1);
    }
  }

  /** LoadTextures: the texture-coordinate lookups, then the texture loop
      over every mip texture. */
  function TextureTableOf(m: BspMap, d: seq<byte>): (r: Result<TextureTable>)
    requires |m.header.lumps| == HEADER_LUMPS
    ensures r.Ok? ==> CoordinatesIndexable(m) && |r.value.lookup| == |m.faces|
  {
    if !CoordinatesIndexable(m) then Err(IndexOutOfRange)
    else TexturesUpTo(m, FetchedUpTo(m, d, |m.mipTextures|), |m.mipTextures|)
  }

  /** The texture loop succeeds exactly when every mip texture has a slot
      and every internal one has a relative offset and a fetch that
      succeeds. */
  lemma {:induction false} TexturesUpToSucceeds(m: BspMap, fetched: seq<Result<TextureSlot>>, n: nat)
    requires n <= |m.mipTextures| && n <= |fetched|
    ensures TexturesUpTo(m, fetched, n).Ok? <==>
      && n <= |m.faces|
      && forall i :: 0 <= i < n && !IsExternal(m.mipTextures[i]) ==> i < |m.textureOffsets| && fetched[i].Ok?
  {
    if n > 0 {
      TexturesUpToSucceeds(m, fetched, n - 1);
      if TexturesUpTo(m, fetched, n - 1).Ok? {
        TextureStepSucceeds(m, TexturesUpTo(m, fetched, n - 1).value, n - 1, fetched[n - 1]);
      }
    }
  }

  /** After the loop, slot i holds the fetched texture i when it is
      internal, and the blank placeholder otherwise; the slots past the
      last mip texture keep the default value. */
  lemma {:induction false} TexturesUpToSlots(m: BspMap, fetched: seq<Result<TextureSlot>>, n: nat, i: int)
    requires n <= |m.mipTextures| && n <= |fetched|
    requires TexturesUpTo(m, fetched, n).Ok? && 0 <= i < |m.faces|
    ensures var slot := TexturesUpTo(m, fetched, n).value.lookup[i];
      if i < n && !IsExternal(m.mipTextures[i]) then
        i < |m.textureOffsets| && fetched[i].Ok? && slot == fetched[i].value
      else slot == Blank
  {
    if n > 0 {
      TexturesUpToSlots(m, fetched, n - 1, i);
      TextureStepWrites(m, TexturesUpTo(m, fetched, n - 1).value, n - 1, fetched[n - 1]);
    }
  }

  /** Each entry of the missing list is an external texture, with its own
      index and name. */
  lemma {:induction false} MissingTexturesAreExternal(m: BspMap, fetched: seq<Result<TextureSlot>>, n: nat)
    requires n <= |m.mipTextures| && n <= |fetched|
    requires TexturesUpTo(m, fetched, n).Ok?
    ensures var missing := TexturesUpTo(m, fetched, n).value.missing;
      forall k :: 0 <= k < |missing| ==>
        0 <= missing[k].index < n && IsExternal(m.mipTextures[missing[k].index])
        && missing[k].name == m.mipTextures[missing[k].index].name
  {
    if n > 0 {
      MissingTexturesAreExternal(m, fetched, n - 1);
      TextureStepWrites(m, TexturesUpTo(m, fetched, n - 1).value, n - 1, fetched[n - 1]);
    }
  }

  /** The missing list is in index order. */
  lemma {:induction false} MissingTexturesInOrder(m: BspMap, fetched: seq<Result<TextureSlot>>, n: nat)
    requires n <= |m.mipTextures| && n <= |fetched|
    requires TexturesUpTo(m, fetched, n).Ok?
    ensures var missing := TexturesUpTo(m, fetched, n).value.missing;
      forall k, l :: 0 <= k < l < |missing| ==> missing[k].index < missing[l].index
  {
    if n > 0 {
      MissingTexturesInOrder(m, fetched, n - 1);
      MissingTexturesAreExternal(m, fetched, n - 1);
      TextureStepWrites(m, TexturesUpTo(m, fetched, n - 1).value, n - 1, fetched[n - 1]);
    }
  }

  /** Every external texture has an entry in the missing list. */
  lemma {:induction false} MissingTexturesComplete(m: BspMap, fetched: seq<Result<TextureSlot>>, n: nat)
    requires n <= |m.mipTextures| && n <= |fetched|
    requires TexturesUpTo(m, fetched, n).Ok?
    ensures var missing := TexturesUpTo(m, fetched, n).value.missing;
      forall i :: 0 <= i < n && IsExternal(m.mipTextures[i]) ==> exists k :: 0 <= k < |missing| && missing[k].index == i
  {
    if n > 0 {
      MissingTexturesComplete(m, fetched, n - 1);
      TextureStepWrites(m, TexturesUpTo(m, fetched, n - 1).value, n - 1, fetched[n - 1]);
      var before := TexturesUpTo(m, fetched, n - 1).value.missing;
      var missing := TexturesUpTo(m, fetched, n).value.missing;
      if IsExternal(m.mipTextures[n - 1]) {
        assert missing[|before|].index == n - 1;
        forall i | 0 <= i < n - 1 && IsExternal(m.mipTextures[i])
          ensures exists k :: 0 <= k < |missing| && missing[k].index == i
        {
          var k :| 0 <= k < |before| && before[k].index == i;
          assert missing[k] == before[k];
        }
      }
    }
  }

  /** LoadTextures on the level data: it succeeds exactly when every
      coordinate lookup succeeds, every mip texture has a slot and every
      internal one has a relative offset and decodes; slot i then holds
      the decoded internal texture i, every other slot is blank. */
  lemma TextureTableSlots(m: BspMap, d: seq<byte>, i: nat)
    requires |m.header.lumps| == HEADER_LUMPS
    ensures TextureTableOf(m, d).Ok? <==>
      && CoordinatesIndexable(m) && |m.mipTextures| <= |m.faces|
      && forall j :: 0 <= j < |m.mipTextures| && !IsExternal(m.mipTextures[j]) ==>
           j < |m.textureOffsets| && FetchTextureAt(d, TextureOffset(m, j)).Ok?
    ensures TextureTableOf(m, d).Ok? && i < |m.faces| ==>
      var slot := TextureTableOf(m, d).value.lookup[i];
      if i < |m.mipTextures| && !IsExternal(m.mipTextures[i]) then slot == FetchTextureAt(d, TextureOffset(m, i)).value
      else slot == Blank
  {
    var n := |m.mipTextures|;
    var fetched := FetchedUpTo(m, d, n);
    TexturesUpToSucceeds(m, fetched, n);
    forall j | 0 <= j < n
      ensures fetched[j] == Fetched(m, d, j)
    {
      FetchedUpToAt(m, d, n, j);
    }
    if TextureTableOf(m, d).Ok? && i < |m.faces| {
      TexturesUpToSlots(m, fetched, n, i);
    }
  }

  // ---------------------------------------------------------------------
  // Loading every WAD

  /** Opening the WAD named fileName and reading its header: the file must
      exist and its header must be valid. */
  function WadFileHeader(files: map<string, seq<byte>>, fileName: string): (r: Result<WadHeader>)
    ensures r.Err? ==> r.error in {FileNotFound, EndOfStream, InvalidData}
  {
    if fileName !in files then Err(FileNotFound) else WadHeaderAt(files[fileName], 0)
  }

  /** The headers of the first n WADs, in order. */
  function HeadersUpTo(files: map<string, seq<byte>>, wadFileNames: seq<string>, n: nat): (r: seq<Result<WadHeader>>)
    requires n <= |wadFileNames|
    ensures |r| == n
  {
    if n == 0 then [] else HeadersUpTo(files, wadFileNames, n - 1) + [WadFileHeader(files, wadFileNames[n - 1])]
  }

  lemma {:induction false} HeadersUpToAt(files: map<string, seq<byte>>, wadFileNames: seq<string>, n: nat, j: nat)
    requires j < n <= |wadFileNames|
    ensures HeadersUpTo(files, wadFileNames, n)[j] == WadFileHeader(files, wadFileNames[j])
  {
    if j < n - 1 {
      HeadersUpToAt(files, wadFileNames, n - 1, j);
    }
  }

  /** Load from the loader's state s0: the level file must exist; then for
      each WAD in turn its header is read and the texture pass runs again
      on the level data, replacing the lookup. */
  function LoadOutcome(m: BspMap, files: map<string, seq<byte>>, mapFileName: string, wadFileNames: seq<string>,
                       s0: LoaderState): (r: Result<LoaderState>)
    requires |m.header.lumps| == HEADER_LUMPS
    ensures mapFileName !in files ==> r == Err(FileNotFound)
    ensures mapFileName in files && wadFileNames == [] ==> r == Ok(s0)
    ensures r.Ok? && wadFileNames != [] ==>
      && mapFileName in files
      && WadFileHeader(files, wadFileNames[|wadFileNames| - 1]).Ok?
      && TextureTableOf(m, files[mapFileName]).Ok?
      && r.value.header == Some(WadFileHeader(files, wadFileNames[|wadFileNames| - 1]).value)
      && r.value.lookup == Some(TextureTableOf(m, files[mapFileName]).value.lookup)
  {
    if mapFileName !in files then Err(FileNotFound)
    else
      var headers := HeadersUpTo(files, wadFileNames, |wadFileNames|);
      if wadFileNames == [] then WadPasses(headers, TextureTableOf(m, files[mapFileName]), 0, s0)
      else
        HeadersUpToAt(files, wadFileNames, |wadFileNames|, |wadFileNames| - 1);
        WadPasses(headers, TextureTableOf(m, files[mapFileName]), |wadFileNames|, s0)
  }

  /** One pass, given the WAD's header and the texture pass's outcome:
      the header is kept, then the lookup and missing list are replaced. */
  function WadStep(header: Result<WadHeader>, table: Result<TextureTable>): (r: Result<LoaderState>)
    ensures r.Ok? <==> header.Ok? && table.Ok?
    ensures r.Ok? ==> r.value == LoaderState(Some(header.value), Some(table.value.lookup), table.value.missing)
    ensures r.Err? ==> r.error == (if header.Err? then header.error else table.error)
  {
    var h :- header;
    var t :- table;
    Ok(LoaderState(Some(h), Some(t.lookup), t.missing))
  }

  /** The passes over the first k WADs, from the state s0; every pass runs
      the same texture pass over the same level data. */
  function WadPasses(headers: seq<Result<WadHeader>>, table: Result<TextureTable>, k: nat, s0: LoaderState): (r: Result<LoaderState>)
    requires k <= |headers|
    ensures k == 0 ==> r == Ok(s0)
    ensures r.Ok? && k > 0 ==>
      headers[k - 1].Ok? && table.Ok?
      && r.value == LoaderState(Some(headers[k - 1].value), Some(table.value.lookup), table.value.missing)
  {
    if k == 0 then Ok(s0)
    else
      var s :- WadPasses(headers, table, k - 1, s0);
      WadStep(headers[k - 1], table)
  }

  /** The first WAD that fails decides Load's error. */
  lemma {:induction false} WadPassesFailureStays(headers: seq<Result<WadHeader>>, table: Result<TextureTable>,
                                                 k: nat, n: nat, s0: LoaderState)
    requires k <= n <= |headers|
    requires WadPasses(headers, table, k, s0).Err?
    ensures WadPasses(headers, table, n, s0) == Err(WadPasses(headers, table, k, s0).error)
  {
    if n > k {
      WadPassesFailureStays(headers, table, k, n - 1, s0);
    }
  }

  /** The passes succeed exactly when every header is valid and (with at
      least one WAD) the texture pass succeeds; the first invalid header,
      else the texture pass, gives the error. */
  lemma {:induction false} WadPassesSucceed(headers: seq<Result<WadHeader>>, table: Result<TextureTable>, k: nat, s0: LoaderState)
    requires k <= |headers|
    ensures WadPasses(headers, table, k, s0).Ok? <==>
      && (forall j :: 0 <= j < k ==> headers[j].Ok?)
      && (k > 0 ==> table.Ok?)
  {
    if k > 0 {
      WadPassesSucceed(headers, table, k - 1, s0);
    }
  }

  /** Load succeeds exactly when the level and every WAD exist, every WAD
      header is valid, and (with at least one WAD) the texture pass
      succeeds.  Every pass builds the same table, so Load ends with the
      last WAD's header and that table; with no WAD it keeps the state it
      had (no lookup for a fresh loader). */
  lemma LoadReturnsLastPass(m: BspMap, files: map<string, seq<byte>>, mapFileName: string,
                            wadFileNames: seq<string>, s0: LoaderState)
    requires |m.header.lumps| == HEADER_LUMPS
    ensures LoadOutcome(m, files, mapFileName, wadFileNames, s0).Ok? <==>
      && mapFileName in files
      && (forall j :: 0 <= j < |wadFileNames| ==>
            wadFileNames[j] in files && WadHeaderAt(files[wadFileNames[j]], 0).Ok?)
      && (|wadFileNames| > 0 ==> TextureTableOf(m, files[mapFileName]).Ok?)
    ensures LoadOutcome(m, files, mapFileName, wadFileNames, s0).Ok? ==>
      var s, n := LoadOutcome(m, files, mapFileName, wadFileNames, s0).value, |wadFileNames|;
      if n == 0 then s == s0
      else
        var table := TextureTableOf(m, files[mapFileName]).value;
        s == LoaderState(Some(WadHeaderAt(files[wadFileNames[n - 1]], 0).value), Some(table.lookup), table.missing)
  {
    var n := |wadFileNames|;
    var headers := HeadersUpTo(files, wadFileNames, n);
    forall j | 0 <= j < n
      ensures headers[j] == WadFileHeader(files, wadFileNames[j])
    {
      HeadersUpToAt(files, wadFileNames, n, j);
    }
    if mapFileName in files {
      WadPassesSucceed(headers, TextureTableOf(m, files[mapFileName]), n, s0);
    }
  }

  /** A WadLoader: the level, its file name and the WAD names, and the
      fields each pass overwrites. */
  class WadLoader {
    const level: BspMap
    const mapFileName: string
    const wadFileNames: seq<string>
    var header: Option<WadHeader>
    var textureLookup: Option<seq<TextureSlot>>
    var missingTextures: seq<MissingTexture>

    constructor (level: BspMap, mapFileName: string, wadFileNames: seq<string>)
      ensures this.level == level && this.mapFileName == mapFileName && this.wadFileNames == wadFileNames
      ensures header == None && textureLookup == None && missingTextures == []
    {
      this.level := level;
      this.mapFileName := mapFileName;
      this.wadFileNames := wadFileNames;
      header := None;
      textureLookup := None;
      missingTextures := [];
    }

    function State(): LoaderState
      reads this
    {
      LoaderState(header, textureLookup, missingTextures)
    }

    /** Load: `files` stands for the file system, by name. */
    method Load(files: map<string, seq<byte>>) returns (r: Result<Option<seq<TextureSlot>>>)
      requires |level.header.lumps| == HEADER_LUMPS
      modifies this
      ensures var s := LoadOutcome(level, files, mapFileName, wadFileNames, old(State()));
        && (r.Ok? <==> s.Ok?)
        && (r.Ok? ==> r.value == s.value.lookup && State() == s.value)
        && (r.Err? ==> r.error == s.error)
    {
      if mapFileName !in files {
        return Err(FileNotFound);
      }
      var mapReader := new Reader(files[mapFileName]);
      ghost var s0 := State();
      ghost var headers := HeadersUpTo(files, wadFileNames, |wadFileNames|);
      ghost var table := TextureTableOf(level, files[mapFileName]);
      for k := 0 to |wadFileNames|
        invariant mapReader.data == files[mapFileName]
        invariant WadPasses(headers, table, k, s0) == Ok(State())
      {
        var pass := LoadWad(files, k, mapReader);
        if pass.Fail? {
          WadPassesFailureStays(headers, table, k + 1, |wadFileNames|, s0);
          return Err(pass.error);
        }
      }
      return Ok(textureLookup);
    }

    /** One turn of Load's loop, for WAD k: open it, read its header, run
        the texture pass. */
    method LoadWad(files: map<string, seq<byte>>, k: nat, mapReader: Reader) returns (r: Outcome)
      requires |level.header.lumps| == HEADER_LUMPS && k < |wadFileNames|
      modifies this, mapReader
      ensures var s := WadStep(HeadersUpTo(files, wadFileNames, |wadFileNames|)[k], TextureTableOf(level, mapReader.data));
        && (r.Pass? <==> s.Ok?)
        && (r.Fail? ==> r.error == s.error)
        && (r.Pass? ==> State() == s.value)
    {
      HeadersUpToAt(files, wadFileNames, |wadFileNames|, k);
      var fileName := wadFileNames[k];
      if fileName !in files {
        return Fail(FileNotFound);
      }
      var reader := new Reader(files[fileName]);
      var wadHeader := ReadHeader(reader);
      if wadHeader.Err? {
        return Fail(wadHeader.error);
      }
      header := Some(wadHeader.value);
      r := LoadTextures(mapReader);
    }

    /** ReadHeader: the magic, then the directory count and offset. */
    static method ReadHeader(reader: Reader) returns (r: Result<WadHeader>)
      modifies reader
      ensures r == WadHeaderAt(reader.data, old(reader.pos))
    {
      var magicRead := reader.ReadString(4);
      var magic := magicRead.value;
      var dirs :- reader.ReadInt32();
      var dirOffset :- reader.ReadInt32();
      if magic != "WAD2" && magic != "WAD3" {
        return Err(InvalidData);
      }
      return Ok(WadHeader(magic, dirs, dirOffset));
    }

    /** LoadTextures: a fresh lookup of one default slot per face and an
        empty missing list, then one slot per mip texture. */
    method LoadTextures(mapReader: Reader) returns (r: Outcome)
      requires |level.header.lumps| == HEADER_LUMPS
      modifies this, mapReader
      ensures var t := TextureTableOf(level, mapReader.data);
        && (r.Pass? <==> t.Ok?)
        && (r.Fail? ==> r.error == t.error)
        && (r.Pass? ==> textureLookup == Some(t.value.lookup) && missingTextures == t.value.missing)
      ensures header == old(header)
    {
      var coordinates := CheckTextureCoordinates();
      if coordinates.Fail? {
        return coordinates;
      }
      r := FillLookup(mapReader);
    }

    /** The texture loop of LoadTextures: a fresh lookup and missing list,
        then one turn per mip texture. */
    method FillLookup(mapReader: Reader) returns (r: Outcome)
      requires |level.header.lumps| == HEADER_LUMPS
      modifies this, mapReader
      ensures var t := TexturesUpTo(level, FetchedUpTo(level, mapReader.data, |level.mipTextures|), |level.mipTextures|);
        && (r.Pass? <==> t.Ok?)
        && (r.Fail? ==> r.error == t.error)
        && (r.Pass? ==> textureLookup == Some(t.value.lookup) && missingTextures == t.value.missing)
      ensures header == old(header)
    {
      textureLookup := Some(seq(|level.faces|, i => Blank));
      missingTextures := [];
      ghost var fetched := FetchedUpTo(level, mapReader.data, |level.mipTextures|);
      for i := 0 to |level.mipTextures|
        invariant header == old(header)
        invariant textureLookup.Some?
        invariant TexturesUpTo(level, fetched, i) == Ok(TextureTable(textureLookup.value, missingTextures))
      {
        var step := LoadTexture(mapReader, i);
        if step.Fail? {
          TexturesUpToFailureStays(level, fetched, i + 1, |level.mipTextures|);
          return step;
        }
      }
      r := Pass;
    }

    /** One turn of the texture loop: slot i of the lookup, and the missing
        list, updated for mip texture i. */
    method LoadTexture(mapReader: Reader, i: nat) returns (r: Outcome)
      requires |level.header.lumps| == HEADER_LUMPS && i < |level.mipTextures| && textureLookup.Some?
      modifies this, mapReader
      ensures var t := TextureStep(level, TextureTable(old(textureLookup.value), old(missingTextures)), i,
                                   FetchedUpTo(level, mapReader.data, |level.mipTextures|)[i]);
        && (r.Pass? <==> t.Ok?)
        && (r.Fail? ==> r.error == t.error)
        && (r.Pass? ==> textureLookup == Some(t.value.lookup) && missingTextures == t.value.missing)
      ensures header == old(header)
    {
      FetchedUpToAt(level, mapReader.data, |level.mipTextures|, i);
      var mipTex := level.mipTextures[i];
      var lookup := textureLookup.value;
      if mipTex.offsets[0] == 0 {
        var texture := LoadTextureFromWad(mipTex.name);
        if i >= |lookup| {
          return Fail(IndexOutOfRange);
        }
        textureLookup := Some(lookup[i := if texture.Texture? then texture else Blank]);
        if !texture.Texture? {
          missingTextures := missingTextures + [MissingTexture(mipTex.name, i)];
        }
      } else {
        if i >= |level.textureOffsets| {
          return Fail(IndexOutOfRange);
        }
        var offset := ToInt32(level.header.lumps[LUMP_TEXTURES].offset + level.textureOffsets[i]);
        assert offset == TextureOffset(level, i);
        var texture := FetchTextureAtOffset(mapReader, offset);
        assert texture == FetchedUpTo(level, mapReader.data, |level.mipTextures|)[i];
        if texture.Err? {
          return Fail(texture.error);
        }
        if i >= |lookup| {
          return Fail(IndexOutOfRange);
        }
        textureLookup := Some(lookup[i := texture.value]);
      }
      r := Pass;
    }

    /** The texture-coordinate loop, reduced to its array lookups. */
    method CheckTextureCoordinates() returns (r: Outcome)
      ensures r.Pass? <==> CoordinatesIndexable(level)
      ensures r.Fail? ==> r.error == IndexOutOfRange
    {
      for i := 0 to |level.faces|
        invariant forall k :: 0 <= k < i ==> FaceCoordsIndexable(level, level.faces[k])
      {
        var face := level.faces[i];
        if face.textureInfo < 0 || face.textureInfo >= |level.textureInfos| {
          return Fail(IndexOutOfRange);
        }
        var texInfo := level.textureInfos[face.textureInfo];
        for j := 0 to EdgeCount(face)
          invariant FaceWalk(level, face, j).Ok?
          invariant j > 0 ==> texInfo.mipTex < |level.mipTextures|
        {
          var vertex := WalkVertex(level, face, j);
          if vertex.Err? {
            return Fail(IndexOutOfRange);
          }
          if texInfo.mipTex >= |level.mipTextures| {
            return Fail(IndexOutOfRange);
          }
        }
      }
      r := Pass;
    }
  }
}
