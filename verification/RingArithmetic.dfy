/** Arithmetic the ring buffers rest on: slots of wrapping 32-bit positions, the mask in place of
    a remainder, and the rounding of a capacity to a power of two. */
module RingArithmetic {

  /** Positions are unsigned 32-bit counters. */
  const U32: int := 0x1_0000_0000

  // ----- positions and slots -----

  lemma {:induction false} MulMono(a: int, b: int, c: nat)
    requires a <= b
    ensures a * c <= b * c
    decreases b - a
  {
    if a < b {
      MulMono(a, b - 1, c);
      assert b * c == (b - 1) * c + c;
    }
  }

  lemma Apart(cap: nat, a: int, b: int, d: int)
    requires 0 < d < cap
    ensures b * cap != a * cap + d
  {
    if b > a {
      assert (a + 1) * cap == a * cap + cap;
      MulMono(a + 1, b, cap);
    } else {
      MulMono(b, a, cap);
    }
  }

  /** Within one turn of the ring, different positions have different slots. */
  lemma SlotsDiffer(cap: nat, p: int, q: int)
    requires 0 < cap && 0 <= p < q < p + cap
    ensures p % cap != q % cap
  {
    var a, b := p / cap, q / cap;
    if p % cap == q % cap {
      Apart(cap, a, b, q - p);
    }
  }

  lemma ModUnique(cap: nat, a: nat, r: nat)
    requires r < cap
    ensures (a * cap + r) % cap == r
  {
    var n := a * cap + r;
    var b := n / cap;
    assert n == b * cap + n % cap;
    assert (a + 1) * cap == a * cap + cap && (b + 1) * cap == b * cap + cap;
    if b > a { MulMono(a + 1, b, cap); }
    if b < a { MulMono(b + 1, a, cap); }
  }

  lemma SameSlotNextTurn(cap: nat, p: nat)
    requires 0 < cap
    ensures (p + cap) % cap == p % cap
  {
    var a := p / cap;
    assert p + cap == (a + 1) * cap + p % cap by { assert (a + 1) * cap == a * cap + cap; }
    ModUnique(cap, a + 1, p % cap);
  }

  /** A capacity that divides 2^32 gives a wrapped position the slot of the true one. */
  lemma WrappedSlot(cap: nat, turns: nat, p: nat, i: nat)
    requires 0 < cap && U32 == turns * cap
    ensures (p % U32 + i) % cap == (p + i) % cap
  {
    var n := p % U32 + i;
    var a := n / cap;
    var k := p / U32;
    assert p + i == k * U32 + n;
    assert n == a * cap + n % cap;
    Regroup(k, turns, cap);
    assert (k * turns + a) * cap == (k * turns) * cap + a * cap;
    ModUnique(cap, k * turns + a, n % cap);
  }

  lemma Regroup(k: nat, turns: nat, cap: nat)
    ensures k * (turns * cap) == (k * turns) * cap
  {
  }

  // ----- the mask -----

  /** `x & mask`, for the mask of each power-of-two capacity, is the remainder by the capacity. */
  lemma MaskIsRemainder(x: bv32)
    ensures x & 0x0 == x % 0x1 && x & 0x1 == x % 0x2 && x & 0x3 == x % 0x4 && x & 0x7 == x % 0x8
    ensures x & 0xF == x % 0x10 && x & 0x1F == x % 0x20 && x & 0x3F == x % 0x40 && x & 0x7F == x % 0x80
    ensures x & 0xFF == x % 0x100 && x & 0x1FF == x % 0x200 && x & 0x3FF == x % 0x400 && x & 0x7FF == x % 0x800
    ensures x & 0xFFF == x % 0x1000 && x & 0x1FFF == x % 0x2000 && x & 0x3FFF == x % 0x4000 && x & 0x7FFF == x % 0x8000
    ensures x & 0xFFFF == x % 0x10000 && x & 0x1FFFF == x % 0x20000 && x & 0x3FFFF == x % 0x40000 &&
            x & 0x7FFFF == x % 0x80000
    ensures x & 0xFFFFF == x % 0x100000 && x & 0x1FFFFF == x % 0x200000 && x & 0x3FFFFF == x % 0x400000 &&
            x & 0x7FFFFF == x % 0x800000
    ensures x & 0xFFFFFF == x % 0x1000000 && x & 0x1FFFFFF == x % 0x2000000 && x & 0x3FFFFFF == x % 0x4000000 &&
            x & 0x7FFFFFF == x % 0x8000000
    ensures x & 0xFFFFFFF == x % 0x10000000 && x & 0x1FFFFFFF == x % 0x20000000 && x & 0x3FFFFFFF == x % 0x40000000 &&
            x & 0x7FFFFFFF == x % 0x80000000
  {
  }

  // ----- rounding up to a power of two -----

  /** roundup_pow_of_two, and mpscrb_roundup_pow_of_two, which is the same. */
  method RoundUpPowerOfTwo(v0: bv32) returns (v: bv32)
    ensures v0 == 0 || v0 > 0x8000_0000 ==> v == 0
    ensures 0 < v0 <= 0x8000_0000 ==> v & (v - 1) == 0 && v0 <= v && (v >> 1) < v0
  {
    v := v0 - 1;
    v := v | (v >> 1);
    v := v | (v >> 2);
    v := v | (v >> 4);
    v := v | (v >> 8);
    v := v | (v >> 16);
    v := v + 1;
  }
}
