/** GetBatchNum (utils.cpp:84-94): the largest power of two not above the
    worker count, by smearing the highest set bit downwards on uint32. */
module BatchNum {
  import opened Levels

  /** Exactly one bit of x is set. */
  predicate IsPow2Bv(x: bv32)
  {
    x != 0 && x & (x - 1) == 0
  }

  /** The C++ conversion of an `int` to `uint32_t` (modulo 2^32). */
  function ToUint32(n: int): (r: bv32)
    requires -0x8000_0000 <= n < 0x8000_0000
  {
    (if n < 0 then n + 0x1_0000_0000 else n) as bv32
  }

  /** The top bit of a non-empty mask 0..01..1 is a single bit. */
  lemma MaskTopBit(m: bv32)
    requires m != 0 && m & (m + 1) == 0
    ensures IsPow2Bv(m - (m >> 1))
  {
  }

  method GetBatchNum(numOfCores: int) returns (r: bv32)
    requires -0x8000_0000 <= numOfCores < 0x8000_0000
    ensures var x := ToUint32(numOfCores);
      (x == 0 ==> r == 0) &&
      (x != 0 ==> IsPow2Bv(r) && r <= x && x >> 1 < r) &&
      (IsPow2Bv(x) ==> r == x)
  {
    var res: bv32 := ToUint32(numOfCores);
    res := res | (res >> 1);
    res := res | (res >> 2);
    res := res | (res >> 4);
    res := res | (res >> 8);
    res := res | (res >> 16);
    // every bit below the highest set bit of the input is now set
    assert res & (res + 1) == 0;
    if res != 0 {
      MaskTopBit(res);
    }
    r := res - (res >> 1);
  }

  /** A single-bit uint32 is a power of two as an integer. */
  lemma {:induction false} Pow2BvIsPow2(x: bv32)
    requires IsPow2Bv(x)
    ensures IsPow2(x as int)
    decreases x as int
  {
    if x != 1 {
      var h := x >> 1;
      assert IsPow2Bv(h);
      assert x == h << 1;
      assert x as int == 2 * (h as int);
      Pow2BvIsPow2(h);
    }
  }
}
