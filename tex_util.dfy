/** The viewer's texture helpers: the two bit tricks on C#'s 32-bit `int`
    (written here as its two's-complement bit pattern, a `bv32`, so that
    `x - 1` wraps and `>>` is spelled out as the arithmetic shift it is),
    and the copy that turns a decoded texture's channel values into the
    bytes of a 32-bit ARGB bitmap. */
module TexUtil {
  import opened Wrappers
  import opened Bytes

  /** int.MinValue: only the sign bit set. */
  const MIN_VALUE: bv32 := 0x8000_0000
  /** 2^30, the largest power of two an int holds. */
  const MAX_POWER: bv32 := 0x4000_0000

  /** 2^k as a bit pattern; k == 31 is int.MinValue. */
  function Bit(k: bv32): bv32
    requires k < 32
  {
    1 << k
  }

  // ---------------------------------------------------------------------
  // IsPowerOfTwo

  /** IsPowerOfTwo(x): x & (x - 1) == 0, the subtraction wrapping.  It
      holds exactly for 0 and the 32 single-bit patterns. */
  predicate IsPowerOfTwo(x: bv32): (b: bool)
    ensures b <==> x == 0 || exists k: bv32 :: k < 32 && x == Bit(k)
  {
    IsPowerOfTwoIff(x);
    x & (x - 1) == 0
  }

  /** Every single-bit pattern passes the test. */
  lemma BitIsPowerOfTwo(k: bv32)
    requires k < 32
    ensures Bit(k) & (Bit(k) - 1) == 0 && Bit(k) != 0
  {
  }

  /** A non-zero x that passes the test and has no bit above bit k is one
      of 2^0 .. 2^k. */
  lemma {:induction false} SingleBit(x: bv32, k: bv32)
    requires k < 32 && x != 0 && x & (x - 1) == 0 && x >> (k + 1) == 0
    ensures exists j: bv32 :: j <= k && x == Bit(j)
    decreases k
  {
    if x != Bit(k) {
      assert k > 0 && x >> k == 0;
      SingleBit(x, k - 1);
    }
  }

  /** The test holds exactly for 0 and the 32 single-bit patterns: the
      powers of two 1 .. 2^30, and int.MinValue, which is negative. */
  lemma IsPowerOfTwoIff(x: bv32)
    ensures x & (x - 1) == 0 <==> x == 0 || exists k: bv32 :: k < 32 && x == Bit(k)
  {
    if exists k: bv32 :: k < 32 && x == Bit(k) {
      var k :| k < 32 && x == Bit(k);
      BitIsPowerOfTwo(k);
    }
    if x & (x - 1) == 0 && x != 0 {
      SingleBit(x, 31);
    }
  }

  // ---------------------------------------------------------------------
  // NextHighestPowerOfTwo

  /** C#'s >> on int: an arithmetic shift, which copies the sign bit in. */
  function ShiftRight(x: bv32, i: bv32): bv32
    requires i < 32
  {
    if x & MIN_VALUE == 0 then x >> i else !(!x >> i)
  }

  /** i after n rounds of the loop: 1, doubled each round by i <<= 1. */
  function ShiftOf(n: nat): bv32
  {
    if n == 0 then 1 else ShiftOf(n - 1) << 1
  }

  /** i runs 1, 2, 4, 8, 16, so the loop stops after five rounds. */
  lemma ShiftStep(n: nat)
    requires n < 5
    ensures ShiftOf(n) < 32 && (n + 1 < 5 <==> ShiftOf(n + 1) < 32)
  {
    ShiftValues();
  }

  lemma ShiftValues()
    ensures ShiftOf(0) == 1 && ShiftOf(1) == 2 && ShiftOf(2) == 4
    ensures ShiftOf(3) == 8 && ShiftOf(4) == 16 && ShiftOf(5) == 32
  {
  }

  /** One round of the loop: x = x | x >> i. */
  function Round(z: bv32, i: bv32): bv32
    requires i < 32
  {
    z | ShiftRight(z, i)
  }

  /** x after the first n rounds. */
  function Smeared(y: bv32, n: nat): bv32
    requires n <= 5
  {
    if n == 0 then y
    else
      ShiftStep(n - 1);
      Round(Smeared(y, n - 1), ShiftOf(n - 1))
  }

  /** p is the smallest power of two an int holds that is at least x. */
  ghost predicate SmallestPowerAtLeast(x: bv32, p: bv32)
  {
    (exists k: bv32 :: k < 31 && p == Bit(k)) && x <= p
    && forall k: bv32 :: k < 31 && x <= Bit(k) ==> p <= Bit(k)
  }

  /** What NextHighestPowerOfTwo returns: 0 for 0 and for every negative
      x but int.MinValue; int.MinValue, wrapped around, for x above 2^30
      and for int.MinValue; otherwise the smallest power of two at least x. */
  ghost predicate NextPowerOutcome(x: bv32, r: bv32)
  {
    if x == 0 || x > MIN_VALUE then r == 0
    else if x > MAX_POWER then r == MIN_VALUE
    else SmallestPowerAtLeast(x, r)
  }

  /** The bit facts about the five rounds on x - 1, incremented: where
      the value lands for each kind of input. */
  lemma RoundsResult(x: bv32, y1: bv32, y2: bv32, y3: bv32, y4: bv32, r: bv32)
    requires y1 == Round(x - 1, 1) && y2 == Round(y1, 2) && y3 == Round(y2, 4)
    requires y4 == Round(y3, 8) && r == Round(y4, 16) + 1
    ensures x == 0 || x > MIN_VALUE ==> r == 0
    ensures MAX_POWER < x <= MIN_VALUE ==> r == MIN_VALUE
    ensures 1 <= x <= MAX_POWER ==> IsPowerOfTwo(r) && x <= r <= MAX_POWER && r >> 1 < x
  {
  }

  /** The five rounds one by one. */
  lemma SmearedRounds(y: bv32)
    ensures Smeared(y, 1) == Round(y, 1) && Smeared(y, 2) == Round(Smeared(y, 1), 2)
    ensures Smeared(y, 3) == Round(Smeared(y, 2), 4) && Smeared(y, 4) == Round(Smeared(y, 3), 8)
    ensures Smeared(y, 5) == Round(Smeared(y, 4), 16)
  {
    ShiftValues();
    assert Smeared(y, 0) == y;
  }

  /** The five rounds on x - 1, incremented, give the outcome. */
  lemma RoundsOutcome(x: bv32, y1: bv32, y2: bv32, y3: bv32, y4: bv32, r: bv32)
    requires y1 == Round(x - 1, 1) && y2 == Round(y1, 2) && y3 == Round(y2, 4)
    requires y4 == Round(y3, 8) && r == Round(y4, 16) + 1
    ensures NextPowerOutcome(x, r)
  {
    RoundsResult(x, y1, y2, y3, y4, r);
    if 1 <= x <= MAX_POWER {
      HalfBelowIsSmallest(x, r);
    }
  }

  /** Decrementing, smearing and incrementing give the outcome. */
  lemma SmearedOutcome(x: bv32, r: bv32)
    requires r == Smeared(x - 1, 5) + 1
    ensures NextPowerOutcome(x, r)
  {
    SmearedRounds(x - 1);
    RoundsOutcome(x, Smeared(x - 1, 1), Smeared(x - 1, 2), Smeared(x - 1, 3), Smeared(x - 1, 4), r);
  }

  /** A power of two p at least x whose half is below x is the smallest. */
  lemma HalfBelowIsSmallest(x: bv32, p: bv32)
    requires 1 <= x <= p <= MAX_POWER && IsPowerOfTwo(p) && p >> 1 < x
    ensures SmallestPowerAtLeast(x, p)
  {
    var k :| k < 32 && p == Bit(k);
    forall j: bv32 | j < 31 && x <= Bit(j)
      ensures p <= Bit(j)
    {
      assert Bit(k) >> 1 < Bit(j);
    }
  }

  /** There is one smallest power of two at least x. */
  lemma SmallestPowerUnique(x: bv32, p: bv32, q: bv32)
    requires SmallestPowerAtLeast(x, p) && SmallestPowerAtLeast(x, q)
    ensures p == q
  {
    var k :| k < 31 && p == Bit(k);
    var j :| j < 31 && q == Bit(j);
    assert p <= Bit(j);
    assert q <= Bit(k);
  }

  /** The outcome is a function of x: two results that both fit are equal. */
  lemma NextPowerOutcomeUnique(x: bv32, r: bv32, s: bv32)
    requires NextPowerOutcome(x, r) && NextPowerOutcome(x, s)
    ensures r == s
  {
    if 1 <= x <= MAX_POWER {
      SmallestPowerUnique(x, r, s);
    }
  }

  /** For 1 <= x <= 2^30 the result is a power of two, and it is x itself
      exactly when x is a power of two. */
  lemma NextPowerFixesPowers(x: bv32, r: bv32)
    requires 1 <= x <= MAX_POWER && NextPowerOutcome(x, r)
    ensures IsPowerOfTwo(r)
    ensures r == x <==> IsPowerOfTwo(x)
  {
    var k :| k < 31 && r == Bit(k);
    BitIsPowerOfTwo(k);
    if IsPowerOfTwo(x) {
      var j :| j < 32 && x == Bit(j);
      assert j < 31;
    }
  }

  /** NextHighestPowerOfTwo(x): decrement, copy the highest set bit into
      every bit below it with shifts 1, 2, 4, 8 and 16, increment. */
  method NextHighestPowerOfTwo(x: bv32) returns (r: bv32)
    ensures NextPowerOutcome(x, r)
  {
    var y := x - 1;
    var i: bv32 := 1;
    ghost var n := 0;
    while i < 32
      invariant n <= 5 && i == ShiftOf(n) && (n < 5 <==> i < 32)
      invariant y == Smeared(x - 1, n)
    {
      ShiftStep(n);
      y := SmearRound(x - 1, n, y, i);
      i := i << 1;
      n := n + 1;
    }
    r := y + 1;
    SmearedOutcome(x, r);
  }

  /** The loop body, x = x | x >> i, as round n + 1 of the smearing. */
  method SmearRound(ghost y0: bv32, ghost n: nat, y: bv32, i: bv32) returns (r: bv32)
    requires n < 5 && i == ShiftOf(n) && y == Smeared(y0, n)
    ensures r == Smeared(y0, n + 1)
  {
    ShiftStep(n);
    assert Smeared(y0, n + 1) == Round(Smeared(y0, n), ShiftOf(n));
    assert Round(y, i) == y | ShiftRight(y, i);
    r := y | ShiftRight(y, i);
  }

  // ---------------------------------------------------------------------
  // PixelsToTexture

  /** A C# uint, one decoded channel value. */
  type uint = x: int | 0 <= x < TWO_POW_32

  /** (byte) of a uint: its low eight bits. */
  function LowByte(v: uint): byte
  {
    v % 0x100
  }

  /** Pixel (x, y) counted row by row: x + y * width. */
  function PixelIndex(width: int, x: int, y: int): int
  {
    x + y * width
  }

  /** How many channel values a pixel reads: the alpha too when there are
      four channels. */
  function ChannelsRead(channels: int): nat
  {
    if channels == 4 then 4 else 3
  }

  /** Pixel p's channel values, pixelIndex = p * channels on, are all in
      pixelData. */
  predicate Readable(pixelData: seq<uint>, p: int, channels: int)
  {
    0 <= p * channels && p * channels + ChannelsRead(channels) <= |pixelData|
  }

  /** Every pixel of a width by height image can be read. */
  predicate AllReadable(pixelData: seq<uint>, width: int, height: int, channels: int)
  {
    forall x, y :: 0 <= x < width && 0 <= y < height ==> Readable(pixelData, PixelIndex(width, x, y), channels)
  }

  /** Byte c of pixel p in the bitmap: channels 0, 1, 2 truncated to a
      byte, then channel 3 truncated when there are four channels, else
      255 (opaque). */
  function TexelByte(pixelData: seq<uint>, p: int, channels: int, c: int): byte
    requires Readable(pixelData, p, channels) && 0 <= c < 4
  {
    if c < 3 then LowByte(pixelData[p * channels + c])
    else if channels == 4 then LowByte(pixelData[p * channels + 3])
    else 255
  }

  /** A pixel of the image lies inside it. */
  lemma PixelInImage(width: int, height: int, x: int, y: int)
    requires 0 <= x < width && 0 <= y < height
    ensures 0 <= PixelIndex(width, x, y) < width * height
  {
    assert (height - 1 - y) * width >= 0;
  }

  /** Where byte c of pixel (x, y) goes: dataIndex + c, inside the
      4 * width * height bytes of a 32-bit ARGB bitmap. */
  function DataIndex(width: int, height: int, x: int, y: int, c: int): (k: nat)
    requires 0 <= x < width && 0 <= y < height && 0 <= c < 4
    ensures k < 4 * (width * height)
  {
    PixelInImage(width, height, x, y);
    4 * PixelIndex(width, x, y) + c
  }

  /** Two pixels of one row width are at the same index only if they are
      the same pixel. */
  lemma PixelIndexInjective(width: int, x1: int, y1: int, x2: int, y2: int)
    requires 0 <= x1 < width && 0 <= x2 < width && 0 <= y1 && 0 <= y2
    requires PixelIndex(width, x1, y1) == PixelIndex(width, x2, y2)
    ensures x1 == x2 && y1 == y2
  {
    if y1 < y2 {
      NoRowBetween(width, x1, y1, x2, y2);
    } else if y2 < y1 {
      NoRowBetween(width, x2, y2, x1, y1);
    }
  }

  /** A pixel on a lower row comes before every pixel of a higher one. */
  lemma NoRowBetween(width: int, x1: int, y1: int, x2: int, y2: int)
    requires 0 <= x1 < width && 0 <= x2 && 0 <= y1 < y2
    ensures PixelIndex(width, x1, y1) < PixelIndex(width, x2, y2)
  {
    var gap := y2 - y1 - 1;
    assert y2 * width == y1 * width + width + gap * width;
    assert gap * width >= 0;
  }

  /** Distinct pixels never share a byte. */
  lemma DataIndexInjective(width: int, height: int, x1: int, y1: int, c1: int, x2: int, y2: int, c2: int)
    requires 0 <= x1 < width && 0 <= y1 < height && 0 <= c1 < 4
    requires 0 <= x2 < width && 0 <= y2 < height && 0 <= c2 < 4
    requires DataIndex(width, height, x1, y1, c1) == DataIndex(width, height, x2, y2, c2)
    ensures x1 == x2 && y1 == y2 && c1 == c2
  {
    PixelIndexInjective(width, x1, y1, x2, y2);
  }

  /** A product with a positive factor is positive only if the other is. */
  lemma PositiveFactor(a: int, w: int)
    requires 0 < w && 0 < a * w
    ensures 0 < a
  {
  }

  /** Every byte of the bitmap belongs to some channel of some pixel, so
      the copy leaves no byte of the 4 * width * height unwritten. */
  lemma DataIndexCovers(width: int, height: int, k: int)
    requires 0 < width && 0 < height && 0 <= k < 4 * (width * height)
    ensures exists x, y, c :: 0 <= x < width && 0 <= y < height && 0 <= c < 4 && DataIndex(width, height, x, y, c) == k
  {
    var p, c := k / 4, k % 4;
    var x, y := p % width, p / width;
    assert p == y * width + x;
    assert (height - y) * width == width * height - y * width;
    PositiveFactor(height - y, width);
    assert DataIndex(width, height, x, y, c) == k;
  }

  /** PixelsToTexture(pixelData, width, height, channels): the bytes copied
      into the bitmap, column by column.  A side that is not positive is
      refused by the Bitmap; a pixel whose channel values run outside
      pixelData throws. */
  method PixelsToTexture(pixelData: seq<uint>, width: int, height: int, channels: int) returns (r: Result<seq<byte>>)
    ensures r.Err? <==> width <= 0 || height <= 0 || !AllReadable(pixelData, width, height, channels)
    ensures r.Err? ==> r.error == if width <= 0 || height <= 0 then InvalidParameter else IndexOutOfRange
    ensures r.Ok? ==> |r.value| == 4 * (width * height)
    ensures r.Ok? ==> forall x, y, c :: 0 <= x < width && 0 <= y < height && 0 <= c < 4 ==>
      r.value[DataIndex(width, height, x, y, c)] == TexelByte(pixelData, PixelIndex(width, x, y), channels, c)
  {
    if width <= 0 || height <= 0 {
      return Err(InvalidParameter);
    }
    var imgData := new byte[4 * (width * height)];
    for x := 0 to width
      invariant forall x', y' :: 0 <= x' < x && 0 <= y' < height ==> Readable(pixelData, PixelIndex(width, x', y'), channels)
      invariant forall x', y', c :: 0 <= x' < x && 0 <= y' < height && 0 <= c < 4 ==>
        imgData[DataIndex(width, height, x', y', c)] == TexelByte(pixelData, PixelIndex(width, x', y'), channels, c)
    {
      for y := 0 to height
        invariant forall x', y' :: (0 <= x' < x && 0 <= y' < height) || (x' == x && 0 <= y' < y) ==>
          Readable(pixelData, PixelIndex(width, x', y'), channels)
        invariant forall x', y', c :: ((0 <= x' < x && 0 <= y' < height) || (x' == x && 0 <= y' < y)) && 0 <= c < 4 ==>
          imgData[DataIndex(width, height, x', y', c)] == TexelByte(pixelData, PixelIndex(width, x', y'), channels, c)
      {
        var dataIndex := (x + y * width) * 4;
        var pixelIndex := (x + y * width) * channels;
        if pixelIndex < 0 || pixelIndex + 2 >= |pixelData| || (channels == 4 && pixelIndex + 3 >= |pixelData|) {
          assert !Readable(pixelData, PixelIndex(width, x, y), channels);
          return Err(IndexOutOfRange);
        }
        assert dataIndex == DataIndex(width, height, x, y, 0);
        imgData[dataIndex + 0] := LowByte(pixelData[pixelIndex + 0]);
        imgData[dataIndex + 1] := LowByte(pixelData[pixelIndex + 1]);
        imgData[dataIndex + 2] := LowByte(pixelData[pixelIndex + 2]);
        if channels == 4 {
          imgData[dataIndex + 3] := LowByte(pixelData[pixelIndex + 3]);
        } else {
          imgData[dataIndex + 3] := 255;
        }
        forall x', y', c | 0 <= x' < width && 0 <= y' < height && 0 <= c < 4 && (x' != x || y' != y)
          ensures DataIndex(width, height, x', y', c) < dataIndex || dataIndex + 4 <= DataIndex(width, height, x', y', c)
        {
          if dataIndex <= DataIndex(width, height, x', y', c) < dataIndex + 4 {
            DataIndexInjective(width, height, x', y', c, x, y, DataIndex(width, height, x', y', c) - dataIndex);
          }
        }
      }
    }
    return Ok(imgData[..]);
  }
}
