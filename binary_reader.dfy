/** A positioned reader over the bytes of one file, standing for
    System.IO.BinaryReader over a FileStream, together with the extension
    methods of BinaryReaderExtensions (fixed-count array readers and the
    control-character-stripping string reader). */
module BinaryReading {
  import opened Wrappers
  import opened Bytes

  /** What Stream.Read delivers for `count` bytes at `pos`: as many as
      remain, possibly none (a position past the end reads nothing). */
  function Available(data: seq<byte>, pos: nat, count: nat): (r: seq<byte>)
    ensures |r| <= count
    ensures pos + count <= |data| ==> r == data[pos..pos + count]
    ensures pos + |r| <= |data| || r == []
    ensures pos < |data| ==> r == data[pos..if pos + count <= |data| then pos + count else |data|]
  {
    if pos >= |data| then []
    else if pos + count <= |data| then data[pos..pos + count]
    else data[pos..]
  }

  /** `n` consecutive floats starting at byte p: element i comes from bytes
      p + 4i .. p + 4i + 3. */
  function SinglesAt(d: seq<byte>, p: nat, n: nat): (r: seq<real>)
    requires p + 4 * n <= |d|
    ensures |r| == n
  {
    seq(n, i requires 0 <= i < n => F32(d, p + 4 * i))
  }

  function Int32sAt(d: seq<byte>, p: nat, n: nat): (r: seq<int>)
    requires p + 4 * n <= |d|
    ensures |r| == n
  {
    seq(n, i requires 0 <= i < n => I32(d, p + 4 * i))
  }

  function UInt32sAt(d: seq<byte>, p: nat, n: nat): (r: seq<nat>)
    requires p + 4 * n <= |d|
    ensures |r| == n
  {
    seq(n, i requires 0 <= i < n => U32(d, p + 4 * i))
  }

  function Int16sAt(d: seq<byte>, p: nat, n: nat): (r: seq<int>)
    requires p + 2 * n <= |d|
    ensures |r| == n
  {
    seq(n, i requires 0 <= i < n => I16(d, p + 2 * i))
  }

  function UInt16sAt(d: seq<byte>, p: nat, n: nat): (r: seq<nat>)
    requires p + 2 * n <= |d|
    ensures |r| == n
  {
    seq(n, i requires 0 <= i < n => U16(d, p + 2 * i))
  }

  /** Element i of an int32 array read depends on bytes p+4i .. p+4i+3 and
      on nothing else: it is the int32 those four bytes encode on their own. */
  lemma Int32sAtIsLocal(d: seq<byte>, p: nat, n: nat, i: nat)
    requires p + 4 * n <= |d| && i < n
    ensures Int32sAt(d, p, n)[i] == I32(d[p + 4 * i..p + 4 * i + 4], 0)
  {
    var w := d[p + 4 * i..p + 4 * i + 4];
    assert w[0] == d[p + 4 * i] && w[1] == d[p + 4 * i + 1];
    assert w[2] == d[p + 4 * i + 2] && w[3] == d[p + 4 * i + 3];
  }

  /** The same for int16 arrays: element i is bytes p+2i and p+2i+1. */
  lemma Int16sAtIsLocal(d: seq<byte>, p: nat, n: nat, i: nat)
    requires p + 2 * n <= |d| && i < n
    ensures Int16sAt(d, p, n)[i] == I16(d[p + 2 * i..p + 2 * i + 2], 0)
  {
    var w := d[p + 2 * i..p + 2 * i + 2];
    assert w[0] == d[p + 2 * i] && w[1] == d[p + 2 * i + 1];
  }

  /** Reading a run of int32s in two pieces gives the run read at once. */
  lemma {:induction false} Int32sAtSplit(d: seq<byte>, p: nat, m: nat, n: nat)
    requires p + 4 * (m + n) <= |d|
    ensures Int32sAt(d, p, m + n) == Int32sAt(d, p, m) + Int32sAt(d, p + 4 * m, n)
  {
    var whole := Int32sAt(d, p, m + n);
    var parts := Int32sAt(d, p, m) + Int32sAt(d, p + 4 * m, n);
    assert |whole| == |parts|;
    forall i | 0 <= i < m + n
      ensures whole[i] == parts[i]
    {
      if i >= m {
        assert parts[i] == Int32sAt(d, p + 4 * m, n)[i - m];
        assert p + 4 * m + 4 * (i - m) == p + 4 * i;
      }
    }
  }

  class Reader {
    /** The whole file. */
    const data: seq<byte>
    /** The stream position; it may lie past the end after a Seek. */
    var pos: nat

    constructor (data: seq<byte>)
      ensures this.data == data && pos == 0
    {
      this.data := data;
      pos := 0;
    }

    /** BaseStream.Seek(offset, SeekOrigin.Begin). */
    method Seek(offset: int) returns (r: Outcome)
      modifies this
      ensures r.Pass? <==> offset >= 0
      ensures r.Fail? ==> r.error == NegativeSeek && pos == old(pos)
      ensures r.Pass? ==> pos == offset
    {
      if offset < 0 {
        return Fail(NegativeSeek);
      }
      pos := offset;
      r := Pass;
    }

    /** ReadBytes(count): up to `count` bytes, fewer at the end of the file. */
    method ReadBytes(count: int) returns (r: Result<seq<byte>>)
      modifies this
      ensures count < 0 ==> r == Err(ArgumentOutOfRange) && pos == old(pos)
      ensures count >= 0 ==> r == Ok(Available(data, old(pos), count)) && pos == old(pos) + |r.value|
    {
      if count < 0 {
        return Err(ArgumentOutOfRange);
      }
      var bytes := Available(data, pos, count);
      pos := pos + |bytes|;
      r := Ok(bytes);
    }

    method ReadUInt16() returns (r: Result<nat>)
      modifies this
      ensures old(pos) + 2 <= |data| ==> r == Ok(U16(data, old(pos))) && pos == old(pos) + 2
      ensures old(pos) + 2 > |data| ==> r == Err(EndOfStream)
    {
      if pos + 2 > |data| {
        return Err(EndOfStream);
      }
      r := Ok(U16(data, pos));
      pos := pos + 2;
    }

    method ReadInt16() returns (r: Result<int>)
      modifies this
      ensures old(pos) + 2 <= |data| ==> r == Ok(I16(data, old(pos))) && pos == old(pos) + 2
      ensures old(pos) + 2 > |data| ==> r == Err(EndOfStream)
    {
      if pos + 2 > |data| {
        return Err(EndOfStream);
      }
      r := Ok(I16(data, pos));
      pos := pos + 2;
    }

    method ReadUInt32() returns (r: Result<nat>)
      modifies this
      ensures old(pos) + 4 <= |data| ==> r == Ok(U32(data, old(pos))) && pos == old(pos) + 4
      ensures old(pos) + 4 > |data| ==> r == Err(EndOfStream)
    {
      if pos + 4 > |data| {
        return Err(EndOfStream);
      }
      r := Ok(U32(data, pos));
      pos := pos + 4;
    }

    method ReadInt32() returns (r: Result<int>)
      modifies this
      ensures old(pos) + 4 <= |data| ==> r == Ok(I32(data, old(pos))) && pos == old(pos) + 4
      ensures old(pos) + 4 > |data| ==> r == Err(EndOfStream)
    {
      if pos + 4 > |data| {
        return Err(EndOfStream);
      }
      r := Ok(I32(data, pos));
      pos := pos + 4;
    }

    method ReadSingle() returns (r: Result<real>)
      modifies this
      ensures old(pos) + 4 <= |data| ==> r == Ok(F32(data, old(pos))) && pos == old(pos) + 4
      ensures old(pos) + 4 > |data| ==> r == Err(EndOfStream)
    {
      if pos + 4 > |data| {
        return Err(EndOfStream);
      }
      r := Ok(F32(data, pos));
      pos := pos + 4;
    }

    /** ReadSingleArray: `count` floats (3 by default), 4 bytes each. */
    method ReadSingleArray(count: nat := 3) returns (r: Result<seq<real>>)
      modifies this
      ensures old(pos) + 4 * count <= |data| ==> r == Ok(SinglesAt(data, old(pos), count)) && pos == old(pos) + 4 * count
      ensures count > 0 && old(pos) + 4 * count > |data| ==> r == Err(EndOfStream)
      ensures count == 0 ==> r == Ok([]) && pos == old(pos)
    {
      var floats := new real[count];
      for i := 0 to count
        invariant pos == old(pos) + 4 * i
        invariant i > 0 ==> pos <= |data|
        invariant forall k :: 0 <= k < i ==> floats[k] == F32(data, old(pos) + 4 * k)
      {
        var x :- ReadSingle();
        floats[i] := x;
      }
      assert count == 0 ==> floats[..] == [];
      assert old(pos) + 4 * count <= |data| ==> floats[..] == SinglesAt(data, old(pos), count);
      r := Ok(floats[..]);
    }

    /** ReadInt32Array: `count` ints (3 by default), 4 bytes each. */
    method ReadInt32Array(count: nat := 3) returns (r: Result<seq<int>>)
      modifies this
      ensures old(pos) + 4 * count <= |data| ==> r == Ok(Int32sAt(data, old(pos), count)) && pos == old(pos) + 4 * count
      ensures count > 0 && old(pos) + 4 * count > |data| ==> r == Err(EndOfStream)
      ensures count == 0 ==> r == Ok([]) && pos == old(pos)
    {
      var integers := new int[count];
      for i := 0 to count
        invariant pos == old(pos) + 4 * i
        invariant i > 0 ==> pos <= |data|
        invariant forall k :: 0 <= k < i ==> integers[k] == I32(data, old(pos) + 4 * k)
      {
        var x :- ReadInt32();
        integers[i] := x;
      }
      assert count == 0 ==> integers[..] == [];
      assert old(pos) + 4 * count <= |data| ==> integers[..] == Int32sAt(data, old(pos), count);
      r := Ok(integers[..]);
    }

    /** ReadInt16Array: `count` shorts (3 by default), 2 bytes each. */
    method ReadInt16Array(count: nat := 3) returns (r: Result<seq<int>>)
      modifies this
      ensures old(pos) + 2 * count <= |data| ==> r == Ok(Int16sAt(data, old(pos), count)) && pos == old(pos) + 2 * count
      ensures count > 0 && old(pos) + 2 * count > |data| ==> r == Err(EndOfStream)
      ensures count == 0 ==> r == Ok([]) && pos == old(pos)
    {
      var shorts := new int[count];
      for i := 0 to count
        invariant pos == old(pos) + 2 * i
        invariant i > 0 ==> pos <= |data|
        invariant forall k :: 0 <= k < i ==> shorts[k] == I16(data, old(pos) + 2 * k)
      {
        var x :- ReadInt16();
        shorts[i] := x;
      }
      assert count == 0 ==> shorts[..] == [];
      assert old(pos) + 2 * count <= |data| ==> shorts[..] == Int16sAt(data, old(pos), count);
      r := Ok(shorts[..]);
    }

    /** ReadUInt32Array: `count` uints (3 by default), 4 bytes each. */
    method ReadUInt32Array(count: nat := 3) returns (r: Result<seq<nat>>)
      modifies this
      ensures old(pos) + 4 * count <= |data| ==> r == Ok(UInt32sAt(data, old(pos), count)) && pos == old(pos) + 4 * count
      ensures count > 0 && old(pos) + 4 * count > |data| ==> r == Err(EndOfStream)
      ensures count == 0 ==> r == Ok([]) && pos == old(pos)
    {
      var integers := new nat[count];
      for i := 0 to count
        invariant pos == old(pos) + 4 * i
        invariant i > 0 ==> pos <= |data|
        invariant forall k :: 0 <= k < i ==> integers[k] == U32(data, old(pos) + 4 * k)
      {
        var x :- ReadUInt32();
        integers[i] := x;
      }
      assert count == 0 ==> integers[..] == [];
      assert old(pos) + 4 * count <= |data| ==> integers[..] == UInt32sAt(data, old(pos), count);
      r := Ok(integers[..]);
    }

    /** ReadUInt16Array: `count` ushorts (2 by default), 2 bytes each. */
    method ReadUInt16Array(count: nat := 2) returns (r: Result<seq<nat>>)
      modifies this
      ensures old(pos) + 2 * count <= |data| ==> r == Ok(UInt16sAt(data, old(pos), count)) && pos == old(pos) + 2 * count
      ensures count > 0 && old(pos) + 2 * count > |data| ==> r == Err(EndOfStream)
      ensures count == 0 ==> r == Ok([]) && pos == old(pos)
    {
      var shorts := new nat[count];
      for i := 0 to count
        invariant pos == old(pos) + 2 * i
        invariant i > 0 ==> pos <= |data|
        invariant forall k :: 0 <= k < i ==> shorts[k] == U16(data, old(pos) + 2 * k)
      {
        var x :- ReadUInt16();
        shorts[i] := x;
      }
      assert count == 0 ==> shorts[..] == [];
      assert old(pos) + 2 * count <= |data| ==> shorts[..] == UInt16sAt(data, old(pos), count);
      r := Ok(shorts[..]);
    }

    /** ReadString: consumes `count` bytes (16 by default, fewer only at the
        end of the file) and keeps the non-control characters. */
    method ReadString(count: int := 16) returns (r: Result<string>)
      modifies this
      ensures count < 0 ==> r == Err(ArgumentOutOfRange)
      ensures count >= 0 ==> r == Ok(CleanString(Available(data, old(pos), count)))
      ensures count >= 0 ==> pos == old(pos) + |Available(data, old(pos), count)|
      ensures count >= 0 && old(pos) + count <= |data| ==> pos == old(pos) + count
      ensures r.Ok? ==> |r.value| <= count
    {
      var bytes :- ReadBytes(count);
      r := Ok(CleanString(bytes));
    }
  }
}
