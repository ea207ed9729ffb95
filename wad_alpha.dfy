/** ApplyAlphaSections: in a texture whose name starts with '{', every
    pixel of the key colour (palette entry 255) becomes transparent, and
    its colour is replaced by the rounded average of its non-key
    neighbours, the diagonal ones weighted by the square root of two.
    Pixels are four floats each (red, green, blue, alpha), row by row. */
module WadAlpha {
  import opened Wrappers
  import opened Bytes

  /** A colour, compared channel by channel with a pixel's first three
      floats. */
  datatype Rgb = Rgb(r: real, g: real, b: real) {
    function Channel(c: int): real
      requires 0 <= c < 3
    {
      if c == 0 then r else if c == 1 then g else b
    }
  }

  /** MathLib.SQRT2, the weight of a diagonal neighbour. */
  const SQRT2: real := 1.41421356237

  /** Math.Round: to the nearest integer, halves to the even one. */
  function RoundHalfEven(v: real): (n: int)
    ensures v - 0.5 <= n as real <= v + 0.5
    ensures n as real - v == 0.5 || v - n as real == 0.5 ==> n % 2 == 0
  {
    var f := v.Floor;
    var fraction := v - f as real;
    if fraction < 0.5 then f
    else if fraction > 0.5 then f + 1
    else if f % 2 == 0 then f
    else f + 1
  }

  /** The number of pixels in h rows of w: w * h, counted row by row. */
  function Area(w: int, h: int): int
  {
    if h <= 0 then 0 else Area(w, h - 1) + w
  }

  /** The pixel at column x of row y is pixel y * w + x of the buffer. */
  function PixelIndex(w: int, x: int, y: int): int
  {
    if y <= 0 then x else PixelIndex(w, x, y - 1) + w
  }

  /** The row and the column of pixel k. */
  function Row(k: int, w: int): int
    requires w > 0
    decreases k
  {
    if k < w then 0 else Row(k - w, w) + 1
  }

  function Column(k: int, w: int): int
    requires w > 0
    decreases k
  {
    if k < w then k else Column(k - w, w)
  }

  lemma {:induction false} AreaIsProduct(w: int, h: int)
    requires h >= 0
    ensures Area(w, h) == w * h
    decreases h
  {
    if h > 0 {
      AreaIsProduct(w, h - 1);
      assert w * h == w * (h - 1) + w;
    }
  }

  lemma {:induction false} PixelIndexIsProduct(w: int, x: int, y: int)
    requires y >= 0
    ensures PixelIndex(w, x, y) == y * w + x
    decreases y
  {
    if y > 0 {
      PixelIndexIsProduct(w, x, y - 1);
      assert y * w == (y - 1) * w + w;
    }
  }

  lemma {:induction false} PixelInRange(x: int, y: int, w: int, h: int)
    requires 0 <= x < w && 0 <= y < h
    ensures 0 <= PixelIndex(w, x, y) < Area(w, h)
    decreases y
  {
    if y == 0 {
      AreaAtLeastRow(w, h);
    } else {
      PixelInRange(x, y - 1, w, h - 1);
    }
  }

  lemma {:induction false} AreaAtLeastRow(w: int, h: int)
    requires w > 0 && h >= 1
    ensures Area(w, h) >= w
    decreases h
  {
    if h > 1 {
      AreaAtLeastRow(w, h - 1);
    }
  }

  /** Row and column come back from a pixel number, so distinct positions
      have distinct pixel numbers. */
  lemma {:induction false} PixelCoordinates(x: int, y: int, w: int)
    requires 0 <= x < w && 0 <= y
    ensures PixelIndex(w, x, y) >= x
    ensures Row(PixelIndex(w, x, y), w) == y && Column(PixelIndex(w, x, y), w) == x
    decreases y
  {
    if y > 0 {
      PixelCoordinates(x, y - 1, w);
    }
  }

  /** Every pixel number below the area is some position's. */
  lemma {:induction false} Decompose(k: int, w: int, h: int)
    requires w > 0 && 0 <= k < Area(w, h)
    ensures 0 <= Column(k, w) < w && 0 <= Row(k, w) < h && k == PixelIndex(w, Column(k, w), Row(k, w))
    decreases k
  {
    if k >= w {
      Decompose(k - w, w, h - 1);
    }
  }

  /** Writing one position leaves every other position's pixel alone. */
  lemma PixelsDistinct(w: int, h: int, x: int, y: int)
    requires 0 <= x < w && 0 <= y < h
    ensures forall xx, yy :: 0 <= xx < w && 0 <= yy < h && (xx != x || yy != y) ==>
      PixelIndex(w, xx, yy) != PixelIndex(w, x, y)
  {
    forall xx, yy | 0 <= xx < w && 0 <= yy < h && (xx != x || yy != y)
      ensures PixelIndex(w, xx, yy) != PixelIndex(w, x, y)
    {
      PixelCoordinates(xx, yy, w);
      PixelCoordinates(x, y, w);
    }
  }

  /** Whether pixel k has exactly the key colour (alpha is not compared). */
  predicate IsKeyPixel(p: seq<real>, k: int, key: Rgb)
  {
    0 <= k && 4 * k + 2 < |p| &&
    p[4 * k] == key.r && p[4 * k + 1] == key.g && p[4 * k + 2] == key.b
  }

  /** The running count and weighted colour sum of the neighbours used. */
  datatype NeighbourSum = NeighbourSum(count: nat, r: real, g: real, b: real)

  /** One neighbour: added, with its weight, when it lies inside the
      texture and is not of the key colour. */
  function Neighbour(p: seq<real>, w: int, h: int, key: Rgb, nx: int, ny: int, weight: real,
                     acc: NeighbourSum): (a: NeighbourSum)
    requires w > 0 && h > 0 && |p| == 4 * Area(w, h)
    ensures a.count == acc.count || a.count == acc.count + 1
  {
    if 0 <= nx < w && 0 <= ny < h then
      PixelInRange(nx, ny, w, h);
      var j := PixelIndex(w, nx, ny);
      if IsKeyPixel(p, j, key) then acc
      else NeighbourSum(acc.count + 1, acc.r + p[4 * j] * weight,
                        acc.g + p[4 * j + 1] * weight, acc.b + p[4 * j + 2] * weight)
    else acc
  }

  /** The eight neighbours as column offset, row offset and weight, in the
      order the scan visits them: the row above from left to right, left,
      right, the row below from left to right. */
  const NEIGHBOURS: seq<(int, int, real)> :=
    [(-1, -1, SQRT2), (0, -1, 1.0), (1, -1, SQRT2),
     (-1, 0, 1.0), (1, 0, 1.0),
     (-1, 1, SQRT2), (0, 1, 1.0), (1, 1, SQRT2)]

  /** The sums over the first n of the given neighbours of (x, y), added
      in order. */
  function NeighboursUpTo(p: seq<real>, w: int, h: int, key: Rgb, x: int, y: int,
                          offsets: seq<(int, int, real)>, n: nat): (a: NeighbourSum)
    requires w > 0 && h > 0 && |p| == 4 * Area(w, h) && n <= |offsets|
    ensures a.count <= n
  {
    if n == 0 then NeighbourSum(0, 0.0, 0.0, 0.0)
    else
      var d := offsets[n - 1];
      Neighbour(p, w, h, key, x + d.0, y + d.1, d.2, NeighboursUpTo(p, w, h, key, x, y, offsets, n - 1))
  }

  /** The sums over all eight neighbours of (x, y): at most eight are
      used, and a single-pixel texture has none to use. */
  function Neighbours(p: seq<real>, w: int, h: int, key: Rgb, x: int, y: int): (a: NeighbourSum)
    requires w > 0 && h > 0 && |p| == 4 * Area(w, h)
    ensures a.count <= 8
    ensures w == 1 && h == 1 && x == 0 && y == 0 ==> a.count == 0
  {
    NoNeighbourInSinglePixel(p, w, h, key, x, y, |NEIGHBOURS|);
    NeighboursUpTo(p, w, h, key, x, y, NEIGHBOURS, |NEIGHBOURS|)
  }

  lemma {:induction false} NoNeighbourInSinglePixel(p: seq<real>, w: int, h: int, key: Rgb, x: int, y: int, n: nat)
    requires w > 0 && h > 0 && |p| == 4 * Area(w, h) && n <= |NEIGHBOURS|
    ensures w == 1 && h == 1 && x == 0 && y == 0 ==> NeighboursUpTo(p, w, h, key, x, y, NEIGHBOURS, n).count == 0
  {
    if n > 0 {
      NoNeighbourInSinglePixel(p, w, h, key, x, y, n - 1);
      var d := NEIGHBOURS[n - 1];
      assert d.0 != 0 || d.1 != 0;
    }
  }

  /** The colour a key pixel takes: each weighted sum divided by the number
      of neighbours used (not by the weights) and rounded; with no usable
      neighbour, the key colour itself. */
  function Interpolated(p: seq<real>, w: int, h: int, key: Rgb, x: int, y: int): (v: Rgb)
    requires w > 0 && h > 0 && |p| == 4 * Area(w, h)
    ensures Neighbours(p, w, h, key, x, y).count == 0 ==> v == key
  {
    var a := Neighbours(p, w, h, key, x, y);
    if a.count > 0 then
      Rgb(RoundHalfEven(Mean(a.r, a.count)) as real, RoundHalfEven(Mean(a.g, a.count)) as real,
          RoundHalfEven(Mean(a.b, a.count)) as real)
    else key
  }

  /** A colour sum divided by the number of neighbours used, one to eight,
      written as a division by each possible count. */
  function Mean(sum: real, count: nat): real
    requires 1 <= count <= 8
  {
    match count
    case 1 => sum
    case 2 => sum / 2.0
    case 3 => sum / 3.0
    case 4 => sum / 4.0
    case 5 => sum / 5.0
    case 6 => sum / 6.0
    case 7 => sum / 7.0
    case 8 => sum / 8.0
  }

  lemma MeanIsQuotient(sum: real, count: nat)
    requires 1 <= count <= 8
    ensures Mean(sum, count) == sum / count as real
    ensures Mean(sum, count) * count as real == sum
  {
  }

  /** Float i of the texture after ApplyAlphaSections: unchanged outside
      key pixels, zero alpha on them, and a colour channel of a key pixel
      either keeps its value or takes the interpolated one. */
  function AlphaChannel(p: seq<real>, w: int, h: int, key: Rgb, i: int): (r: real)
    requires w > 0 && h > 0 && |p| == 4 * Area(w, h) && 0 <= i < |p|
    ensures !IsKeyPixel(p, i / 4, key) ==> r == p[i]
    ensures IsKeyPixel(p, i / 4, key) && i % 4 == 3 ==> r == 0.0
    ensures IsKeyPixel(p, i / 4, key) && i % 4 < 3 ==>
      r == p[i] || r == Interpolated(p, w, h, key, Column(i / 4, w), Row(i / 4, w)).Channel(i % 4)
  {
    var k, c := i / 4, i % 4;
    if !IsKeyPixel(p, k, key) then p[i]
    else if c == 3 then 0.0
    else
      var v := Interpolated(p, w, h, key, Column(k, w), Row(k, w));
      if v != key then v.Channel(c) else p[i]
  }

  /** The whole texture after ApplyAlphaSections. */
  function AlphaSections(p: seq<real>, w: int, h: int, key: Rgb): (r: seq<real>)
    requires w > 0 && h > 0 && |p| == 4 * Area(w, h)
    ensures |r| == |p|
    ensures forall i {:trigger r[i]} :: 0 <= i < |p| && !IsKeyPixel(p, i / 4, key) ==> r[i] == p[i]
    ensures forall i {:trigger r[i]} :: 0 <= i < |p| && IsKeyPixel(p, i / 4, key) && i % 4 == 3 ==> r[i] == 0.0
  {
    seq(|p|, i requires 0 <= i < |p| => AlphaChannel(p, w, h, key, i))
  }

  /** ApplyAlphaSections as called: with a non-positive side no loop runs;
      when width * height overflows int32 the buffers hold ToInt32 of it
      and the first loop runs past the colour buffer. */
  function AlphaStep(p: seq<real>, w: int, h: int, key: Rgb): (r: Result<seq<real>>)
    requires 0 <= ToInt32(w * h) && |p| == 4 * ToInt32(w * h)
    ensures r.Ok? ==> |r.value| == |p|
  {
    if w <= 0 || h <= 0 then Ok(p)
    else if w * h != ToInt32(w * h) then Err(IndexOutOfRange)
    else
      AreaIsProduct(w, h);
      Ok(AlphaSections(p, w, h, key))
  }

  // ---------------------------------------------------------------------
  // What the pass guarantees

  /** A pixel that is not of the key colour keeps all four floats. */
  lemma AlphaKeepsOtherPixels(p: seq<real>, w: int, h: int, key: Rgb, x: int, y: int)
    requires w > 0 && h > 0 && |p| == 4 * Area(w, h) && 0 <= x < w && 0 <= y < h
    requires !IsKeyPixel(p, PixelIndex(w, x, y), key)
    ensures var k := PixelIndex(w, x, y);
      0 <= k && 4 * k + 4 <= |p| && AlphaSections(p, w, h, key)[4 * k..4 * k + 4] == p[4 * k..4 * k + 4]
  {
    PixelInRange(x, y, w, h);
    var k := PixelIndex(w, x, y);
    assert (4 * k) / 4 == k && (4 * k + 1) / 4 == k && (4 * k + 2) / 4 == k && (4 * k + 3) / 4 == k;
  }

  /** A key pixel becomes fully transparent and takes the interpolated
      colour of its neighbours (the key colour when none is usable). */
  lemma AlphaClearsKeyPixels(p: seq<real>, w: int, h: int, key: Rgb, x: int, y: int)
    requires w > 0 && h > 0 && |p| == 4 * Area(w, h) && 0 <= x < w && 0 <= y < h
    requires IsKeyPixel(p, PixelIndex(w, x, y), key)
    ensures var k, v := PixelIndex(w, x, y), Interpolated(p, w, h, key, x, y);
      0 <= k && 4 * k + 4 <= |p|
      && AlphaSections(p, w, h, key)[4 * k + 3] == 0.0
      && AlphaSections(p, w, h, key)[4 * k] == v.r
      && AlphaSections(p, w, h, key)[4 * k + 1] == v.g
      && AlphaSections(p, w, h, key)[4 * k + 2] == v.b
  {
    PixelInRange(x, y, w, h);
    PixelCoordinates(x, y, w);
    var k := PixelIndex(w, x, y);
    assert (4 * k + 3) / 4 == k && (4 * k + 3) % 4 == 3;
    KeyPixelChannel(p, w, h, key, x, y, 0);
    KeyPixelChannel(p, w, h, key, x, y, 1);
    KeyPixelChannel(p, w, h, key, x, y, 2);
  }

  /** One colour channel of a key pixel after the pass. */
  lemma KeyPixelChannel(p: seq<real>, w: int, h: int, key: Rgb, x: int, y: int, c: int)
    requires w > 0 && h > 0 && |p| == 4 * Area(w, h) && 0 <= x < w && 0 <= y < h && 0 <= c < 3
    requires IsKeyPixel(p, PixelIndex(w, x, y), key)
    ensures 0 <= PixelIndex(w, x, y) < Area(w, h)
    ensures AlphaSections(p, w, h, key)[4 * PixelIndex(w, x, y) + c] == Interpolated(p, w, h, key, x, y).Channel(c)
  {
    PixelInRange(x, y, w, h);
    PixelCoordinates(x, y, w);
    var k := PixelIndex(w, x, y);
    assert (4 * k + c) / 4 == k && (4 * k + c) % 4 == c;
  }

  /** One neighbour reads only colours, never alpha. */
  lemma NeighbourReadsColoursOnly(p: seq<real>, q: seq<real>, w: int, h: int, key: Rgb,
                                  nx: int, ny: int, weight: real, acc: NeighbourSum)
    requires w > 0 && h > 0 && |p| == |q| == 4 * Area(w, h)
    requires forall i :: 0 <= i < |p| && i % 4 != 3 ==> p[i] == q[i]
    ensures Neighbour(p, w, h, key, nx, ny, weight, acc) == Neighbour(q, w, h, key, nx, ny, weight, acc)
  {
    if 0 <= nx < w && 0 <= ny < h {
      PixelInRange(nx, ny, w, h);
      var j := PixelIndex(w, nx, ny);
      assert (4 * j) % 4 == 0 && (4 * j + 1) % 4 == 1 && (4 * j + 2) % 4 == 2;
    }
  }

  /** The neighbour sums read only the colours, never the alpha, so the
      alpha values written during the scan cannot change them. */
  lemma {:induction false} NeighboursUpToReadColoursOnly(p: seq<real>, q: seq<real>, w: int, h: int, key: Rgb,
                                                         x: int, y: int, offsets: seq<(int, int, real)>, n: nat)
    requires w > 0 && h > 0 && |p| == |q| == 4 * Area(w, h) && n <= |offsets|
    requires forall i :: 0 <= i < |p| && i % 4 != 3 ==> p[i] == q[i]
    ensures NeighboursUpTo(p, w, h, key, x, y, offsets, n) == NeighboursUpTo(q, w, h, key, x, y, offsets, n)
  {
    if n > 0 {
      NeighboursUpToReadColoursOnly(p, q, w, h, key, x, y, offsets, n - 1);
      var d := offsets[n - 1];
      NeighbourReadsColoursOnly(p, q, w, h, key, x + d.0, y + d.1, d.2, NeighboursUpTo(p, w, h, key, x, y, offsets, n - 1));
    }
  }

  lemma NeighboursReadColoursOnly(p: seq<real>, q: seq<real>, w: int, h: int, key: Rgb, x: int, y: int)
    requires w > 0 && h > 0 && |p| == |q| == 4 * Area(w, h)
    requires forall i :: 0 <= i < |p| && i % 4 != 3 ==> p[i] == q[i]
    ensures Neighbours(p, w, h, key, x, y) == Neighbours(q, w, h, key, x, y)
    ensures Interpolated(p, w, h, key, x, y) == Interpolated(q, w, h, key, x, y)
  {
    NeighboursUpToReadColoursOnly(p, q, w, h, key, x, y, NEIGHBOURS, |NEIGHBOURS|);
  }

  /** The diagonal weight is not normalised: a key pixel whose only usable
      neighbour is a diagonal one of grey 100 becomes grey 141, not 100. */
  lemma DiagonalWeightNotNormalised()
    ensures var key := Rgb(255.0, 0.0, 255.0);
      var p := [255.0, 0.0, 255.0, 255.0,  255.0, 0.0, 255.0, 255.0,
                255.0, 0.0, 255.0, 255.0,  100.0, 100.0, 100.0, 255.0];
      Interpolated(p, 2, 2, key, 0, 0) == Rgb(141.0, 141.0, 141.0)
  {
    var key := Rgb(255.0, 0.0, 255.0);
    var p := [255.0, 0.0, 255.0, 255.0,  255.0, 0.0, 255.0, 255.0,
              255.0, 0.0, 255.0, 255.0,  100.0, 100.0, 100.0, 255.0];
    assert Area(2, 2) == 4;
    assert IsKeyPixel(p, 1, key) && IsKeyPixel(p, 2, key) && !IsKeyPixel(p, 3, key);
    var none := NeighbourSum(0, 0.0, 0.0, 0.0);
    assert NeighboursUpTo(p, 2, 2, key, 0, 0, NEIGHBOURS, 1) == none;
    assert NeighboursUpTo(p, 2, 2, key, 0, 0, NEIGHBOURS, 2) == none;
    assert NeighboursUpTo(p, 2, 2, key, 0, 0, NEIGHBOURS, 3) == none;
    assert NeighboursUpTo(p, 2, 2, key, 0, 0, NEIGHBOURS, 4) == none;
    assert NeighboursUpTo(p, 2, 2, key, 0, 0, NEIGHBOURS, 5) == none;
    assert NeighboursUpTo(p, 2, 2, key, 0, 0, NEIGHBOURS, 6) == none;
    assert NeighboursUpTo(p, 2, 2, key, 0, 0, NEIGHBOURS, 7) == none;
    assert Neighbours(p, 2, 2, key, 0, 0) == NeighbourSum(1, 100.0 * SQRT2, 100.0 * SQRT2, 100.0 * SQRT2);
    assert RoundHalfEven(100.0 * SQRT2) == 141;
  }

  // ---------------------------------------------------------------------
  // The method

  /** Whether (xx, yy) comes before (x, y) in the row-by-row scan. */
  predicate Before(xx: int, yy: int, x: int, y: int)
  {
    yy < y || (yy == y && xx < x)
  }

  /** Whether the colour buffer b holds v for pixel (x, y). */
  predicate BufferHolds(b: seq<real>, w: int, h: int, x: int, y: int, v: Rgb)
    requires 0 <= x < w && 0 <= y < h && |b| == 3 * Area(w, h)
  {
    PixelInRange(x, y, w, h);
    var j := 3 * PixelIndex(w, x, y);
    b[j] == v.r && b[j + 1] == v.g && b[j + 2] == v.b
  }

  /** Alpha of pixel (xx, yy) once the scan has reached (x, y): cleared
      for a key pixel already visited, as in the original otherwise. */
  predicate AlphaScanned(p: seq<real>, original: seq<real>, w: int, h: int, key: Rgb,
                         x: int, y: int, xx: int, yy: int)
    requires 0 <= xx < w && 0 <= yy < h && |p| == |original| == 4 * Area(w, h)
  {
    PixelInRange(xx, yy, w, h);
    var k := PixelIndex(w, xx, yy);
    p[4 * k + 3] == if Before(xx, yy, x, y) && IsKeyPixel(original, k, key) then 0.0 else original[4 * k + 3]
  }

  /** Buffer colour of pixel (xx, yy) once the scan has reached (x, y):
      the interpolated colour for a key pixel already visited, the key
      colour otherwise. */
  predicate BufferScanned(b: seq<real>, original: seq<real>, targets: seq<Rgb>, w: int, h: int, key: Rgb,
                          x: int, y: int, xx: int, yy: int)
    requires 0 <= xx < w && 0 <= yy < h && |b| == 3 * Area(w, h) && |original| == 4 * Area(w, h)
    requires |targets| == Area(w, h)
  {
    PixelInRange(xx, yy, w, h);
    var k := PixelIndex(w, xx, yy);
    BufferHolds(b, w, h, xx, yy, if Before(xx, yy, x, y) && IsKeyPixel(original, k, key) then targets[k] else key)
  }

  /** The interpolated colour of every pixel, by pixel number. */
  function Targets(original: seq<real>, w: int, h: int, key: Rgb): (t: seq<Rgb>)
    requires w > 0 && h > 0 && |original| == 4 * Area(w, h)
    ensures |t| == Area(w, h)
  {
    seq(Area(w, h), k requires 0 <= k < Area(w, h) => Interpolated(original, w, h, key, Column(k, w), Row(k, w)))
  }

  lemma TargetAt(original: seq<real>, w: int, h: int, key: Rgb, x: int, y: int)
    requires w > 0 && h > 0 && |original| == 4 * Area(w, h) && 0 <= x < w && 0 <= y < h
    ensures 0 <= PixelIndex(w, x, y) < Area(w, h)
    ensures Targets(original, w, h, key)[PixelIndex(w, x, y)] == Interpolated(original, w, h, key, x, y)
  {
    PixelInRange(x, y, w, h);
    PixelCoordinates(x, y, w);
  }

  /** Pixel (xx, yy) once the transfer has reached (x, y): alpha as after
      the scan; the buffer colour when visited and different from the key,
      the colour after the scan otherwise. */
  predicate Transferred(p: seq<real>, scanned: seq<real>, b: seq<real>, w: int, h: int, key: Rgb,
                        x: int, y: int, xx: int, yy: int)
    requires 0 <= xx < w && 0 <= yy < h && |p| == |scanned| == 4 * Area(w, h) && |b| == 3 * Area(w, h)
  {
    PixelInRange(xx, yy, w, h);
    var i, j := 4 * PixelIndex(w, xx, yy), 3 * PixelIndex(w, xx, yy);
    p[i + 3] == scanned[i + 3]
    && if Before(xx, yy, x, y) && !BufferHolds(b, w, h, xx, yy, key)
       then p[i] == b[j] && p[i + 1] == b[j + 1] && p[i + 2] == b[j + 2]
       else p[i] == scanned[i] && p[i + 1] == scanned[i + 1] && p[i + 2] == scanned[i + 2]
  }

  /** AlphaScanned, BufferScanned and Transferred for every pixel. */
  predicate AllAlphaScanned(p: seq<real>, original: seq<real>, w: int, h: int, key: Rgb, x: int, y: int)
    requires w > 0 && h > 0 && |p| == |original| == 4 * Area(w, h)
  {
    forall xx, yy :: 0 <= xx < w && 0 <= yy < h ==> AlphaScanned(p, original, w, h, key, x, y, xx, yy)
  }

  predicate AllBufferScanned(b: seq<real>, original: seq<real>, targets: seq<Rgb>, w: int, h: int, key: Rgb, x: int, y: int)
    requires w > 0 && h > 0 && |b| == 3 * Area(w, h) && |original| == 4 * Area(w, h) && |targets| == Area(w, h)
  {
    forall xx, yy :: 0 <= xx < w && 0 <= yy < h ==> BufferScanned(b, original, targets, w, h, key, x, y, xx, yy)
  }

  predicate AllTransferred(p: seq<real>, scanned: seq<real>, b: seq<real>, w: int, h: int, key: Rgb, x: int, y: int)
    requires w > 0 && h > 0 && |p| == |scanned| == 4 * Area(w, h) && |b| == 3 * Area(w, h)
  {
    forall xx, yy :: 0 <= xx < w && 0 <= yy < h ==> Transferred(p, scanned, b, w, h, key, x, y, xx, yy)
  }

  /** The colours are written only by the transfer. */
  predicate SameColours(p: seq<real>, q: seq<real>)
  {
    |p| == |q| && forall i :: 0 <= i < |p| && i % 4 != 3 ==> p[i] == q[i]
  }

  /** One float of pixel (xx, yy) after the three loop nests is the one
      AlphaSections gives. */
  lemma ChannelComposes(original: seq<real>, scanned: seq<real>, b: seq<real>, final: seq<real>,
                        w: int, h: int, key: Rgb, xx: int, yy: int, i: int)
    requires w > 0 && h > 0 && |original| == |scanned| == |final| == 4 * Area(w, h) && |b| == 3 * Area(w, h)
    requires 0 <= xx < w && 0 <= yy < h && 0 <= i < |final| && i / 4 == PixelIndex(w, xx, yy)
    requires SameColours(scanned, original)
    requires AlphaScanned(scanned, original, w, h, key, 0, h, xx, yy)
    requires BufferScanned(b, original, Targets(original, w, h, key), w, h, key, 0, h, xx, yy)
    requires Transferred(final, scanned, b, w, h, key, 0, h, xx, yy)
    ensures final[i] == AlphaChannel(original, w, h, key, i)
  {
    PixelCoordinates(xx, yy, w);
    assert i == 4 * (i / 4) + i % 4;
  }

  /** The three loop nests together compute AlphaSections. */
  lemma PassesCompose(original: seq<real>, scanned: seq<real>, b: seq<real>, final: seq<real>,
                      w: int, h: int, key: Rgb)
    requires w > 0 && h > 0 && |original| == |scanned| == |final| == 4 * Area(w, h) && |b| == 3 * Area(w, h)
    requires SameColours(scanned, original)
    requires AllAlphaScanned(scanned, original, w, h, key, 0, h)
    requires AllBufferScanned(b, original, Targets(original, w, h, key), w, h, key, 0, h)
    requires AllTransferred(final, scanned, b, w, h, key, 0, h)
    ensures final == AlphaSections(original, w, h, key)
  {
    forall i | 0 <= i < |final|
      ensures final[i] == AlphaChannel(original, w, h, key, i)
    {
      var k := i / 4;
      Decompose(k, w, h);
      ChannelComposes(original, scanned, b, final, w, h, key, Column(k, w), Row(k, w), i);
    }
  }

  /** ApplyAlphaSections(ref pixels, width, height, keyR, keyG, keyB). */
  method ApplyAlphaSections(pixels: array<real>, width: int, height: int, key: Rgb) returns (r: Outcome)
    modifies pixels
    requires 0 <= ToInt32(width * height) && 4 * ToInt32(width * height) < TWO_POW_31
    requires pixels.Length == 4 * ToInt32(width * height)
    ensures AlphaStep(old(pixels[..]), width, height, key).Ok? <==> r.Pass?
    ensures r.Pass? ==> pixels[..] == AlphaStep(old(pixels[..]), width, height, key).value
    ensures r.Fail? ==> r.error == AlphaStep(old(pixels[..]), width, height, key).error
  {
    var n := ToInt32(width * height);
    var rgbBuffer := new real[3 * n];
    if width > 0 && height > 0 && width * height != n {
      // the fill loop reaches pixel n, one past the buffer
      return Fail(IndexOutOfRange);
    }
    if width <= 0 || height <= 0 {
      // no loop runs
      return Pass;
    }
    ghost var original := pixels[..];
    AreaIsProduct(width, height);
    FillKey(rgbBuffer, width, height, key);
    ScanKeyPixels(pixels, rgbBuffer, width, height, key);
    ghost var scanned := pixels[..];
    TransferColours(pixels, rgbBuffer, width, height, key);
    PassesCompose(original, scanned, rgbBuffer[..], pixels[..], width, height, key);
    return Pass;
  }

  /** The first loop nest: the colour buffer, three floats per pixel, all
      set to the key colour. */
  method FillKey(buffer: array<real>, w: int, h: int, key: Rgb)
    modifies buffer
    requires w > 0 && h > 0 && buffer.Length == 3 * Area(w, h)
    ensures forall xx, yy :: 0 <= xx < w && 0 <= yy < h ==> BufferHolds(buffer[..], w, h, xx, yy, key)
  {
    var y := 0;
    while y < h
      invariant 0 <= y <= h
      invariant forall xx, yy :: 0 <= xx < w && 0 <= yy < h && Before(xx, yy, 0, y) ==> BufferHolds(buffer[..], w, h, xx, yy, key)
    {
      var x := 0;
      while x < w
        invariant 0 <= x <= w
        invariant forall xx, yy :: 0 <= xx < w && 0 <= yy < h && Before(xx, yy, x, y) ==> BufferHolds(buffer[..], w, h, xx, yy, key)
      {
        ghost var b0 := buffer[..];
        PixelInRange(x, y, w, h);
        var bufIndex := PixelIndex(w, x, y) * 3;
        buffer[bufIndex + 0] := key.r;
        buffer[bufIndex + 1] := key.g;
        buffer[bufIndex + 2] := key.b;
        PixelsDistinct(w, h, x, y);
        forall xx, yy | 0 <= xx < w && 0 <= yy < h && Before(xx, yy, x + 1, y)
          ensures BufferHolds(buffer[..], w, h, xx, yy, key)
        {
          PixelInRange(xx, yy, w, h);
          if xx != x || yy != y {
            assert BufferHolds(b0, w, h, xx, yy, key);
          }
        }
        x := x + 1;
      }
      y := y + 1;
    }
  }

  /** The second loop nest: each key pixel gets alpha 0 and, when it has a
      usable neighbour, its interpolated colour in the buffer.  Colours are
      never written here, so every pixel sees the original colours. */
  method ScanKeyPixels(pixels: array<real>, buffer: array<real>, w: int, h: int, key: Rgb)
    modifies pixels, buffer
    requires pixels != buffer
    requires w > 0 && h > 0 && pixels.Length == 4 * Area(w, h) && buffer.Length == 3 * Area(w, h)
    requires forall xx, yy :: 0 <= xx < w && 0 <= yy < h ==> BufferHolds(buffer[..], w, h, xx, yy, key)
    ensures SameColours(pixels[..], old(pixels[..]))
    ensures AllAlphaScanned(pixels[..], old(pixels[..]), w, h, key, 0, h)
    ensures AllBufferScanned(buffer[..], old(pixels[..]), Targets(old(pixels[..]), w, h, key), w, h, key, 0, h)
  {
    ghost var original := pixels[..];
    ghost var targets := Targets(original, w, h, key);
    ScanStart(buffer[..], original, targets, w, h, key);
    var y := 0;
    while y < h
      invariant 0 <= y <= h
      invariant SameColours(pixels[..], original)
      invariant AllAlphaScanned(pixels[..], original, w, h, key, 0, y)
      invariant AllBufferScanned(buffer[..], original, targets, w, h, key, 0, y)
    {
      var x := 0;
      while x < w
        invariant 0 <= x <= w
        invariant SameColours(pixels[..], original)
        invariant AllAlphaScanned(pixels[..], original, w, h, key, x, y)
        invariant AllBufferScanned(buffer[..], original, targets, w, h, key, x, y)
      {
        TargetAt(original, w, h, key, x, y);
        ScanPixel(pixels, buffer, w, h, key, x, y, original, targets);
        x := x + 1;
      }
      ScanRowDone(pixels[..], buffer[..], original, targets, w, h, key, y);
      y := y + 1;
    }
  }

  /** Before the scan every buffer entry holds the key colour. */
  lemma ScanStart(b: seq<real>, original: seq<real>, targets: seq<Rgb>, w: int, h: int, key: Rgb)
    requires w > 0 && h > 0 && |original| == 4 * Area(w, h) && |b| == 3 * Area(w, h) && |targets| == Area(w, h)
    requires forall xx, yy :: 0 <= xx < w && 0 <= yy < h ==> BufferHolds(b, w, h, xx, yy, key)
    ensures AllBufferScanned(b, original, targets, w, h, key, 0, 0)
  {
    forall xx, yy | 0 <= xx < w && 0 <= yy < h
      ensures BufferScanned(b, original, targets, w, h, key, 0, 0, xx, yy)
    {
      assert BufferHolds(b, w, h, xx, yy, key);
    }
  }

  /** Reaching the end of row y is reaching the start of row y + 1. */
  lemma ScanRowDone(p: seq<real>, b: seq<real>, original: seq<real>, targets: seq<Rgb>,
                    w: int, h: int, key: Rgb, y: int)
    requires w > 0 && h > 0 && |p| == |original| == 4 * Area(w, h) && |b| == 3 * Area(w, h) && |targets| == Area(w, h)
    requires AllAlphaScanned(p, original, w, h, key, w, y)
    requires AllBufferScanned(b, original, targets, w, h, key, w, y)
    ensures AllAlphaScanned(p, original, w, h, key, 0, y + 1)
    ensures AllBufferScanned(b, original, targets, w, h, key, 0, y + 1)
  {
    ghost var next := y + 1;
    forall xx, yy | 0 <= xx < w && 0 <= yy < h
      ensures AlphaScanned(p, original, w, h, key, 0, next, xx, yy)
      ensures BufferScanned(b, original, targets, w, h, key, 0, next, xx, yy)
    {
      assert AlphaScanned(p, original, w, h, key, w, y, xx, yy);
      assert BufferScanned(b, original, targets, w, h, key, w, y, xx, yy);
    }
  }

  /** One step of the scan, at column x of row y. */
  method ScanPixel(pixels: array<real>, buffer: array<real>, w: int, h: int, key: Rgb, x: int, y: int,
                   ghost original: seq<real>, ghost targets: seq<Rgb>)
    modifies pixels, buffer
    requires pixels != buffer
    requires w > 0 && h > 0 && pixels.Length == 4 * Area(w, h) && buffer.Length == 3 * Area(w, h)
    requires 0 <= x < w && 0 <= y < h && |original| == pixels.Length && |targets| == Area(w, h)
    requires 0 <= PixelIndex(w, x, y) < Area(w, h) && targets[PixelIndex(w, x, y)] == Interpolated(original, w, h, key, x, y)
    requires SameColours(pixels[..], original)
    requires AllAlphaScanned(pixels[..], original, w, h, key, x, y)
    requires AllBufferScanned(buffer[..], original, targets, w, h, key, x, y)
    ensures SameColours(pixels[..], original)
    ensures AllAlphaScanned(pixels[..], original, w, h, key, x + 1, y)
    ensures AllBufferScanned(buffer[..], original, targets, w, h, key, x + 1, y)
  {
    ghost var p0, b0 := pixels[..], buffer[..];
    PixelInRange(x, y, w, h);
    var index := PixelIndex(w, x, y) * 4;
    KeyPixelSeen(p0, original, key, PixelIndex(w, x, y));
    assert BufferScanned(b0, original, targets, w, h, key, x, y, x, y);
    if pixels[index + 0] == key.r && pixels[index + 1] == key.g && pixels[index + 2] == key.b {
      ClearKeyPixel(pixels, buffer, w, h, key, x, y, original);
    }
    ScanAlphaStep(p0, pixels[..], original, w, h, key, x, y);
    ScanBufferStep(b0, buffer[..], original, targets, w, h, key, x, y);
  }

  /** While the colours are untouched, the key test on the working pixels
      is the key test on the original ones. */
  lemma KeyPixelSeen(p: seq<real>, original: seq<real>, key: Rgb, k: int)
    requires SameColours(p, original) && 0 <= k && 4 * k + 2 < |p|
    ensures IsKeyPixel(original, k, key) <==> p[4 * k] == key.r && p[4 * k + 1] == key.g && p[4 * k + 2] == key.b
  {
    assert (4 * k) % 4 == 0 && (4 * k + 1) % 4 == 1 && (4 * k + 2) % 4 == 2;
  }

  /** The scan at a key pixel (x, y): alpha 0, and the interpolated colour
      into the buffer when some neighbour is usable. */
  method ClearKeyPixel(pixels: array<real>, buffer: array<real>, w: int, h: int, key: Rgb, x: int, y: int,
                       ghost original: seq<real>)
    modifies pixels, buffer
    requires pixels != buffer
    requires w > 0 && h > 0 && pixels.Length == 4 * Area(w, h) && buffer.Length == 3 * Area(w, h)
    requires 0 <= x < w && 0 <= y < h && |original| == pixels.Length && 0 <= PixelIndex(w, x, y) < Area(w, h)
    requires SameColours(pixels[..], original)
    requires BufferHolds(buffer[..], w, h, x, y, key)
    ensures pixels[..] == old(pixels[..])[4 * PixelIndex(w, x, y) + 3 := 0.0]
    ensures forall j :: 0 <= j < buffer.Length && (j < 3 * PixelIndex(w, x, y) || 3 * PixelIndex(w, x, y) + 3 <= j) ==>
      buffer[j] == old(buffer[j])
    ensures BufferHolds(buffer[..], w, h, x, y, Interpolated(original, w, h, key, x, y))
  {
    var index := PixelIndex(w, x, y) * 4;
    pixels[index + 3] := 0.0;
    assert (index + 3) % 4 == 3;
    NeighboursReadColoursOnly(pixels[..], original, w, h, key, x, y);
    var sum := Neighbours(pixels[..], w, h, key, x, y);
    if sum.count > 0 {
      var bufIndex := PixelIndex(w, x, y) * 3;
      var n := sum.count as real;
      MeanIsQuotient(sum.r, sum.count);
      MeanIsQuotient(sum.g, sum.count);
      MeanIsQuotient(sum.b, sum.count);
      buffer[bufIndex + 0] := RoundHalfEven(sum.r / n) as real;
      buffer[bufIndex + 1] := RoundHalfEven(sum.g / n) as real;
      buffer[bufIndex + 2] := RoundHalfEven(sum.b / n) as real;
    }
  }

  /** What one step of the scan does to the alpha invariant: only the alpha
      of pixel (x, y) may change, and only when it is a key pixel. */
  lemma ScanAlphaStep(p0: seq<real>, p1: seq<real>, original: seq<real>, w: int, h: int, key: Rgb, x: int, y: int)
    requires w > 0 && h > 0 && |p0| == |p1| == |original| == 4 * Area(w, h)
    requires 0 <= x < w && 0 <= y < h && 0 <= PixelIndex(w, x, y) < Area(w, h)
    requires SameColours(p0, original)
    requires AllAlphaScanned(p0, original, w, h, key, x, y)
    requires p1 == if IsKeyPixel(original, PixelIndex(w, x, y), key) then p0[4 * PixelIndex(w, x, y) + 3 := 0.0] else p0
    ensures SameColours(p1, original)
    ensures AllAlphaScanned(p1, original, w, h, key, x + 1, y)
  {
    PixelsDistinct(w, h, x, y);
    var k := PixelIndex(w, x, y);
    assert (4 * k + 3) % 4 == 3;
    ghost var next := x + 1;
    forall xx, yy | 0 <= xx < w && 0 <= yy < h
      ensures AlphaScanned(p1, original, w, h, key, next, y, xx, yy)
    {
      PixelInRange(xx, yy, w, h);
      if xx != x || yy != y {
        assert PixelIndex(w, xx, yy) != k;
        assert AlphaScanned(p0, original, w, h, key, x, y, xx, yy);
      } else {
        assert AlphaScanned(p0, original, w, h, key, x, y, x, y);
      }
    }
  }

  /** What one step of the scan does to the buffer invariant: only the
      buffer colour of pixel (x, y) may change, to its target colour when it
      is a key pixel. */
  lemma ScanBufferStep(b0: seq<real>, b1: seq<real>, original: seq<real>, targets: seq<Rgb>,
                       w: int, h: int, key: Rgb, x: int, y: int)
    requires w > 0 && h > 0 && |original| == 4 * Area(w, h) && |b0| == |b1| == 3 * Area(w, h)
    requires |targets| == Area(w, h)
    requires 0 <= x < w && 0 <= y < h && 0 <= PixelIndex(w, x, y) < Area(w, h)
    requires AllBufferScanned(b0, original, targets, w, h, key, x, y)
    requires forall j :: 0 <= j < |b0| && (j < 3 * PixelIndex(w, x, y) || 3 * PixelIndex(w, x, y) + 3 <= j) ==>
      b1[j] == b0[j]
    requires BufferHolds(b1, w, h, x, y,
      if IsKeyPixel(original, PixelIndex(w, x, y), key) then targets[PixelIndex(w, x, y)] else key)
    ensures AllBufferScanned(b1, original, targets, w, h, key, x + 1, y)
  {
    PixelsDistinct(w, h, x, y);
    var k := PixelIndex(w, x, y);
    ghost var next := x + 1;
    forall xx, yy | 0 <= xx < w && 0 <= yy < h
      ensures BufferScanned(b1, original, targets, w, h, key, next, y, xx, yy)
    {
      PixelInRange(xx, yy, w, h);
      if xx != x || yy != y {
        assert PixelIndex(w, xx, yy) != k;
        assert BufferScanned(b0, original, targets, w, h, key, x, y, xx, yy);
      }
    }
  }

  /** The third loop nest: a pixel whose buffer colour differs from the key
      colour takes it; alpha is left alone. */
  method TransferColours(pixels: array<real>, buffer: array<real>, w: int, h: int, key: Rgb)
    modifies pixels
    requires pixels != buffer
    requires w > 0 && h > 0 && pixels.Length == 4 * Area(w, h) && buffer.Length == 3 * Area(w, h)
    ensures AllTransferred(pixels[..], old(pixels[..]), buffer[..], w, h, key, 0, h)
  {
    ghost var scanned := pixels[..];
    var y := 0;
    while y < h
      invariant 0 <= y <= h
      invariant AllTransferred(pixels[..], scanned, buffer[..], w, h, key, 0, y)
    {
      var x := 0;
      while x < w
        invariant 0 <= x <= w
        invariant AllTransferred(pixels[..], scanned, buffer[..], w, h, key, x, y)
      {
        ghost var p0 := pixels[..];
        PixelInRange(x, y, w, h);
        var index := PixelIndex(w, x, y) * 4;
        var bufIndex := PixelIndex(w, x, y) * 3;
        if buffer[bufIndex + 0] != key.r || buffer[bufIndex + 1] != key.g || buffer[bufIndex + 2] != key.b {
          pixels[index + 0] := buffer[bufIndex + 0];
          pixels[index + 1] := buffer[bufIndex + 1];
          pixels[index + 2] := buffer[bufIndex + 2];
        }
        TransferStep(p0, pixels[..], scanned, buffer[..], w, h, key, x, y);
        x := x + 1;
      }
      ghost var next := y + 1;
      forall xx, yy | 0 <= xx < w && 0 <= yy < h
        ensures Transferred(pixels[..], scanned, buffer[..], w, h, key, 0, next, xx, yy)
      {
        assert Transferred(pixels[..], scanned, buffer[..], w, h, key, w, y, xx, yy);
      }
      y := y + 1;
    }
  }

  /** What one step of the transfer does to the invariant: pixel (x, y)
      is the only one whose colour may change. */
  lemma TransferStep(p0: seq<real>, p1: seq<real>, scanned: seq<real>, b: seq<real>,
                     w: int, h: int, key: Rgb, x: int, y: int)
    requires w > 0 && h > 0 && |p0| == |p1| == |scanned| == 4 * Area(w, h) && |b| == 3 * Area(w, h)
    requires 0 <= x < w && 0 <= y < h && 0 <= PixelIndex(w, x, y) < Area(w, h)
    requires AllTransferred(p0, scanned, b, w, h, key, x, y)
    requires forall i :: 0 <= i < |p0| && (i < 4 * PixelIndex(w, x, y) || 4 * PixelIndex(w, x, y) + 3 <= i) ==> p1[i] == p0[i]
    requires var i, j := 4 * PixelIndex(w, x, y), 3 * PixelIndex(w, x, y);
      if !BufferHolds(b, w, h, x, y, key)
      then p1[i] == b[j] && p1[i + 1] == b[j + 1] && p1[i + 2] == b[j + 2]
      else p1[i] == p0[i] && p1[i + 1] == p0[i + 1] && p1[i + 2] == p0[i + 2]
    ensures AllTransferred(p1, scanned, b, w, h, key, x + 1, y)
  {
    PixelsDistinct(w, h, x, y);
    ghost var next := x + 1;
    forall xx, yy | 0 <= xx < w && 0 <= yy < h
      ensures Transferred(p1, scanned, b, w, h, key, next, y, xx, yy)
    {
      PixelInRange(xx, yy, w, h);
      assert Transferred(p0, scanned, b, w, h, key, x, y, xx, yy);
    }
  }
}
