/** The desktop front end's texture helpers.  Its IsPowerOfTwo and
    NextHighestPowerOfTwo are the same two bit tricks as the viewer's own,
    so they are stated here by what they return and computed by the
    viewer's versions; its PixelsToTexture only asks OpenGL for a texture
    name and is not modelled. */
module DesktopTexUtil {
  import TexUtil

  /** IsPowerOfTwo(x): true for 0 and for the 32 single-bit patterns (the
      powers of two 1 .. 2^30 and int.MinValue), false for every other int. */
  predicate IsPowerOfTwo(x: bv32): (b: bool)
    ensures b <==> x == 0 || exists k: bv32 :: k < 32 && x == TexUtil.Bit(k)
  {
    TexUtil.IsPowerOfTwo(x)
  }

  /** NextHighestPowerOfTwo(x): the smallest power of two at least x for
      1 <= x <= 2^30, int.MinValue above that and for int.MinValue itself,
      0 for 0 and for negative x other than int.MinValue. */
  method NextHighestPowerOfTwo(x: bv32) returns (r: bv32)
    ensures TexUtil.NextPowerOutcome(x, r)
    ensures 1 <= x <= TexUtil.MAX_POWER ==> IsPowerOfTwo(r) && (r == x <==> IsPowerOfTwo(x))
  {
    r := TexUtil.NextHighestPowerOfTwo(x);
    if 1 <= x <= TexUtil.MAX_POWER {
      TexUtil.NextPowerFixesPowers(x, r);
    }
  }
}
