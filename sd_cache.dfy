/** The cache-maintenance arithmetic of `SD_read` and `SD_write`: the
    `SCB_InvalidateDCache_by_Addr` and `SCB_CleanDCache_by_Addr` calls need a
    32-byte aligned start, so the buffer address is rounded down with
    `& ~0x1F` and the length grows by the bytes skipped. Both are computed in
    `uint32_t`. The bitwise AND is defined on naturals, bit by bit. */
module SdCache {
  import opened Diskio

  /** The region handed to one cache-maintenance call. */
  datatype CacheRange = CacheRange(addr: uint32, len: uint32)

  /** `x & y` on unsigned integers. */
  function BitAnd(x: nat, y: nat): (r: nat)
    ensures r <= x && r <= y
  {
    if x == 0 || y == 0 then 0
    else 2 * BitAnd(x / 2, y / 2) + (if x % 2 == 1 && y % 2 == 1 then 1 else 0)
  }

  /** `~x` on a `uint32_t`. */
  function BitNot32(x: uint32): uint32
  {
    0xFFFF_FFFF - x
  }

  /** `(uint32_t)buff & ~0x1F`: the largest multiple of 32 not above `buff`. */
  function AlignDown32(buff: uint32): (a: uint32)
    ensures a % 32 == 0
    ensures a <= buff && buff - a < 32
  {
    AndClearsLow5(buff as nat);
    BitAnd(buff as nat, BitNot32(0x1F) as nat) as uint32
  }

  /** `count*BLOCKSIZE + ((uint32_t)buff - alignedAddr)` in `uint32_t` arithmetic,
      with the aligned address. */
  function MaintenanceRange(buff: uint32, count: uint32): CacheRange
  {
    var a := AlignDown32(buff);
    CacheRange(a, ((count as int * BLOCKSIZE as int + (buff - a) as int) % UINT32_MODULUS) as uint32)
  }

  /** When the caller's buffer of `count` blocks lies inside the 32-bit address
      space (its last byte at most 0xFFFF_FFFF) and its byte count fits a
      `uint32_t`, the maintained region starts on a 32-byte boundary at most 31
      bytes before the buffer and ends exactly where the buffer ends, so it covers
      every byte the DMA transfer touches. */
  lemma RangeCoversBuffer(buff: uint32, count: uint32)
    requires count as int * BLOCKSIZE as int < UINT32_MODULUS
    requires buff as int + count as int * BLOCKSIZE as int <= UINT32_MODULUS
    ensures var r := MaintenanceRange(buff, count);
      && r.addr % 32 == 0
      && r.addr <= buff && buff as int < r.addr as int + 32
      && r.addr as int + r.len as int == buff as int + count as int * BLOCKSIZE as int
  {
    var a := AlignDown32(buff);
    var bytes := count as int * BLOCKSIZE as int;
    var n := bytes + (buff - a) as int;
    if a == 0 {
      // The byte count is a multiple of 512 below 2^32, so it leaves room for
      // the at most 31 bytes between the aligned address and the buffer.
      assert count as int < 0x80_0000;
      assert bytes <= UINT32_MODULUS - 512;
    }
    assert n < UINT32_MODULUS;
    assert n % UINT32_MODULUS == n;
  }

  /** Clearing the low five bits of a 32-bit value subtracts its remainder by 32. */
  lemma AndClearsLow5(x: nat)
    requires x < UINT32_MODULUS
    ensures BitAnd(x, BitNot32(0x1F) as nat) == x - x % 32
  {
    AndEvenMask(x, 0xFFFF_FFE0);
    AndEvenMask(x / 2, 0x7FFF_FFF0);
    AndEvenMask(x / 4, 0x3FFF_FFF8);
    AndEvenMask(x / 8, 0x1FFF_FFFC);
    AndEvenMask(x / 16, 0x0FFF_FFFE);
    assert x / 2 / 2 == x / 4 && x / 4 / 2 == x / 8 && x / 8 / 2 == x / 16 && x / 16 / 2 == x / 32;
    Pow2Of27();
    AndWithOnes(x / 32, 27);
  }

  function Pow2(n: nat): (p: nat)
    ensures p >= 1
  {
    if n == 0 then 1 else 2 * Pow2(n - 1)
  }

  lemma {:induction false} Pow2Add(a: nat, b: nat)
    ensures Pow2(a + b) == Pow2(a) * Pow2(b)
  {
    if a > 0 {
      Pow2Add(a - 1, b);
    }
  }

  lemma Pow2Of27()
    ensures Pow2(27) == 0x800_0000
  {
    assert Pow2(3) == 8;
    Pow2Add(3, 3);
    Pow2Add(6, 3);
    Pow2Add(9, 9);
    Pow2Add(18, 9);
  }

  /** AND with a mask of `n` low one-bits leaves a value below 2^n unchanged. */
  lemma {:induction false} AndWithOnes(x: nat, n: nat)
    requires x < Pow2(n)
    ensures BitAnd(x, Pow2(n) - 1) == x
  {
    if n > 0 && x > 0 {
      AndWithOnes(x / 2, n - 1);
    }
  }

  lemma AndEvenMask(x: nat, y: nat)
    requires y % 2 == 0
    ensures BitAnd(x, y) == 2 * BitAnd(x / 2, y / 2)
  {
  }
}
