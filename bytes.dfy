/** Little-endian decoding of the scalar types that System.IO.BinaryReader
    reads, C#'s unchecked 32-bit integer arithmetic, and the UTF-8 /
    char.IsControl pair used by the string reader. */
module Bytes {

  type byte = x: int | 0 <= x < 0x100

  const TWO_POW_31: int := 0x8000_0000
  const TWO_POW_32: int := 0x1_0000_0000

  /** ushort, as BinaryReader.ReadUInt16 decodes bytes p and p+1. */
  function U16(d: seq<byte>, p: nat): (r: nat)
    requires p + 2 <= |d|
    ensures r < 0x1_0000
  {
    d[p] as int + 0x100 * d[p + 1] as int
  }

  /** short: two's complement of U16. */
  function I16(d: seq<byte>, p: nat): (r: int)
    requires p + 2 <= |d|
    ensures -0x8000 <= r < 0x8000
    ensures r % 0x1_0000 == U16(d, p)
  {
    var u := U16(d, p);
    if u >= 0x8000 then u - 0x1_0000 else u
  }

  /** uint, as BinaryReader.ReadUInt32 decodes bytes p..p+3. */
  function U32(d: seq<byte>, p: nat): (r: nat)
    requires p + 4 <= |d|
    ensures r < TWO_POW_32
  {
    d[p] as int + 0x100 * d[p + 1] as int + 0x1_0000 * d[p + 2] as int + 0x100_0000 * d[p + 3] as int
  }

  /** int: two's complement of U32. */
  function I32(d: seq<byte>, p: nat): (r: int)
    requires p + 4 <= |d|
    ensures -TWO_POW_31 <= r < TWO_POW_31
    ensures r % TWO_POW_32 == U32(d, p)
  {
    ToInt32(U32(d, p))
  }

  /** The int32 value of an unchecked C# int expression whose mathematical
      value is x: wrap-around modulo 2^32 into [-2^31, 2^31). */
  function ToInt32(x: int): (r: int)
    ensures -TWO_POW_31 <= r < TWO_POW_31
    ensures r % TWO_POW_32 == x % TWO_POW_32
    ensures -TWO_POW_31 <= x < TWO_POW_31 ==> r == x
  {
    var m := x % TWO_POW_32;
    if m >= TWO_POW_31 then m - TWO_POW_32 else m
  }

  /** ToInt32 only sees its argument modulo 2^32. */
  lemma ToInt32Periodic(z: int, k: int)
    ensures ToInt32(z + TWO_POW_32 * k) == ToInt32(z)
  {
    var q := z / TWO_POW_32;
    assert z + TWO_POW_32 * k == TWO_POW_32 * (q + k) + z % TWO_POW_32;
  }

  /** Unchecked int32 additions compose: wrapping after every step gives
      what wrapping once at the end gives. */
  lemma ToInt32Add(x: int, y: int)
    ensures ToInt32(ToInt32(x) + y) == ToInt32(x + y)
  {
    var k := x / TWO_POW_32;
    if x % TWO_POW_32 >= TWO_POW_31 {
      ToInt32Periodic(x + y, -(k + 1));
    } else {
      ToInt32Periodic(x + y, -k);
    }
  }

  /** The uint32 value of an unchecked C# uint expression. */
  function ToUInt32(x: int): (r: nat)
    ensures r < TWO_POW_32
    ensures 0 <= x < TWO_POW_32 ==> r == x
  {
    x % TWO_POW_32
  }

  function Pow2(n: nat): (r: nat)
    ensures r >= 1
  {
    if n == 0 then 1 else 2 * Pow2(n - 1)
  }

  /** The value of an IEEE 754 binary32 bit pattern, as BinaryReader.ReadSingle
      produces it.  Infinities and NaNs have no real value; they read as 0.0. */
  function SingleFromBits(bits: nat): (r: real)
    requires bits < TWO_POW_32
    ensures bits < TWO_POW_31 ==> r >= 0.0
    ensures bits >= TWO_POW_31 ==> r <= 0.0
    ensures bits % TWO_POW_31 == 0 ==> r == 0.0
    ensures (bits / 0x80_0000) % 0x100 == 0xFF ==> r == 0.0
  {
    var negative := bits >= TWO_POW_31;
    var exponent := (bits / 0x80_0000) % 0x100;
    var fraction := bits % 0x80_0000;
    assert bits % TWO_POW_31 == 0 ==> exponent == 0 && fraction == 0 by {
      if bits % TWO_POW_31 == 0 {
        assert bits == 0 || bits == TWO_POW_31;
      }
    }
    var magnitude := Magnitude(exponent, fraction);
    if negative then -magnitude else magnitude
  }

  /** The absolute value of a finite binary32 with the given biased
      exponent and fraction: subnormal below exponent 1, and 0.0 for the
      infinities and NaNs of exponent 0xFF. */
  function Magnitude(exponent: nat, fraction: nat): (m: real)
    requires exponent < 0x100 && fraction < 0x80_0000
    ensures m >= 0.0
    ensures exponent == 0xFF || (exponent == 0 && fraction == 0) ==> m == 0.0
  {
    if exponent == 0xFF then 0.0
    else if exponent == 0 then Quotient(fraction, Pow2(149))
    else if exponent >= 150 then ((0x80_0000 + fraction) * Pow2(exponent - 150)) as real
    else Quotient(0x80_0000 + fraction, Pow2(150 - exponent))
  }

  /** a / b over the reals, for a positive b. */
  function Quotient(a: nat, b: nat): (q: real)
    requires b > 0
    ensures q >= 0.0 && (a == 0 ==> q == 0.0)
  {
    a as real / b as real
  }

  /** float, as BinaryReader.ReadSingle decodes bytes p..p+3. */
  function F32(d: seq<byte>, p: nat): (r: real)
    requires p + 4 <= |d|
    ensures d[p + 3] < 0x80 ==> r >= 0.0
    ensures d[p + 3] >= 0x80 ==> r <= 0.0
  {
    SingleFromBits(U32(d, p))
  }

  /** Encoding.UTF8.GetChars, one byte at a time: ASCII bytes are their own
      character; any other byte is not valid UTF-8 on its own and becomes
      the replacement character U+FFFD. */
  function Utf8Char(b: byte): (c: char)
    ensures c as int == b as int <==> b < 0x80
    ensures IsControl(c) <==> b < 0x20 || b == 0x7F
  {
    if b < 0x80 then b as char else '\U{FFFD}'
  }

  /** char.IsControl: the C0 range, DEL and the C1 range. */
  predicate IsControl(c: char)
  {
    c < ' ' || ('\U{7F}' <= c <= '\U{9F}')
  }

  /** The characters that ReadString keeps: the decoded bytes, minus every
      control character, in their original order. */
  function CleanString(bytes: seq<byte>): (r: string)
    ensures |r| <= |bytes|
    ensures forall i :: 0 <= i < |r| ==> !IsControl(r[i])
  {
    if bytes == [] then []
    else
      var c := Utf8Char(bytes[0]);
      (if IsControl(c) then [] else [c]) + CleanString(bytes[1..])
  }

  /** Printable ASCII: the bytes 0x20..0x7E. */
  predicate IsPrintableAscii(s: seq<byte>)
  {
    forall i :: 0 <= i < |s| ==> 0x20 <= s[i] < 0x7F
  }

  /** Each byte as the character with that code. */
  function AsChars(s: seq<byte>): (r: string)
    ensures |r| == |s|
    ensures forall i :: 0 <= i < |s| ==> r[i] == s[i] as char
  {
    if s == [] then [] else [s[0] as char] + AsChars(s[1..])
  }

  /** A printable ASCII name followed by any run of control bytes (NUL
      padding in a fixed-width name field) reads back as exactly the name. */
  lemma {:induction false} CleanStringStripsPadding(name: seq<byte>, padding: seq<byte>)
    requires IsPrintableAscii(name)
    requires forall i :: 0 <= i < |padding| ==> padding[i] < 0x20
    ensures CleanString(name + padding) == AsChars(name)
  {
    if name == [] {
      assert name + padding == padding;
      CleanStringOfControls(padding);
    } else {
      assert (name + padding)[0] == name[0];
      assert (name + padding)[1..] == name[1..] + padding;
      CleanStringStripsPadding(name[1..], padding);
    }
  }

  lemma {:induction false} CleanStringOfControls(padding: seq<byte>)
    requires forall i :: 0 <= i < |padding| ==> padding[i] < 0x20
    ensures CleanString(padding) == []
  {
    if padding != [] {
      CleanStringOfControls(padding[1..]);
    }
  }

  /** CleanString is a filter: it distributes over concatenation. */
  lemma {:induction false} CleanStringAppend(a: seq<byte>, b: seq<byte>)
    ensures CleanString(a + b) == CleanString(a) + CleanString(b)
  {
    if a == [] {
      assert a + b == b;
    } else {
      assert (a + b)[0] == a[0];
      assert (a + b)[1..] == a[1..] + b;
      CleanStringAppend(a[1..], b);
    }
  }
}
