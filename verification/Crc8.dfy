/** lib/algorithm/src/protocol/crc.c: CRC8 by table, against a register shifted one bit at a time. */
module Crc8 {
  import opened BitStream
  import opened ShiftRegister

  /** x^8 + x^5 + x^4 + 1, the lowest coefficient in the top bit. */
  const POLYNOMIAL: bv8 := 0x8c
  const INIT: bv8 := 0xff

  // ----- one bit at a time -----

  function Shift(c: bv8): bv8 {
    if c & 1 != 0 then (c >> 1) ^ POLYNOMIAL else c >> 1
  }

  function BitStep(c: bv8, b: bool): bv8 {
    Shift(if b then c ^ 1 else c)
  }

  function Cons(b: bool, w: bv8): bv8 {
    if b then (w << 1) | 1 else w << 1
  }

  /** The n highest bits. */
  function HighBits(n: int): bv8 {
    if n <= 0 then 0 else (HighBits(n - 1) >> 1) | 0x80
  }

  function Machine(): Machine<bv8> {
    ShiftRegister.Machine(8, 0, (c, b) => BitStep(c, b), c => Shift(c), (c: bv8, w: bv8) => c ^ w, (b, w) => Cons(b, w),
                          (w, n) => w & HighBits(8 - n) == 0)
  }

  /** The check sum of a message, by definition. */
  function Crc(m: seq<bv8>): bv8 {
    Feed(Machine(), INIT, Stream(m))
  }

  // ----- the laws of the register -----

  lemma StepAddsHere(c: bv8, b: bool, w: bv8)
    requires w & 0x80 == 0
    ensures BitStep(c, b) ^ w == Shift(c ^ Cons(b, w))
  {
  }

  lemma ShiftBack(a: bv8, b: bv8)
    requires Shift(a) == Shift(b)
    ensures a == b
  {
  }

  lemma StepBack(a: bv8, b: bv8, x: bool)
    requires BitStep(a, x) == BitStep(b, x)
    ensures a == b
  {
  }

  lemma AddBack(a: bv8, u: bv8, v: bv8)
    requires a ^ u == a ^ v
    ensures u == v
  {
  }

  lemma HighBitsEven(n: int)
    requires n < 8
    ensures HighBits(n) & 1 == 0
  {
    assert HighBits(1) == 0x80; assert HighBits(2) == 0xc0; assert HighBits(3) == 0xe0;
    assert HighBits(4) == 0xf0; assert HighBits(5) == 0xf8; assert HighBits(6) == 0xfc;
    assert HighBits(7) == 0xfe;
  }

  lemma EvenBelow(w: bv8, high: bv8)
    requires w & ((high >> 1) | 0x80) == 0 && high & 1 == 0
    ensures (w << 1) & high == 0 && w & 0x80 == 0
  {
  }

  lemma OddBelow(w: bv8, high: bv8)
    requires w & ((high >> 1) | 0x80) == 0 && high & 1 == 0
    ensures ((w << 1) | 1) & high == 0
  {
  }

  lemma ConsBelow(b: bool, w: bv8, high: bv8)
    requires w & ((high >> 1) | 0x80) == 0 && high & 1 == 0
    ensures Cons(b, w) & high == 0 && w & 0x80 == 0
  {
    assert Cons(b, w) == if b then (w << 1) | 1 else w << 1;
    EvenBelow(w, high);
    if b { OddBelow(w, high); }
  }

  lemma ConsFits(b: bool, w: bv8, n: int)
    requires 0 <= n < 8 && w & HighBits(8 - n) == 0
    ensures Cons(b, w) & HighBits(8 - n - 1) == 0 && w & 0x80 == 0
  {
    HighBitsEven(8 - n - 1);
    ConsBelow(b, w, HighBits(8 - n - 1));
  }

  lemma ConsParts(b: bool, w: bv8, z: bv8)
    requires w & 0x80 == 0 && Cons(b, w) == z
    ensures z >> 1 == w && (b <==> z & 1 == 1)
  {
    if b {
    } else {
    }
  }

  lemma ConsDiffers(x: bool, y: bool, u: bv8, v: bv8, z: bv8)
    requires u & 0x80 == 0 && v & 0x80 == 0 && Cons(x, u) == z && Cons(y, v) == z
    ensures x == y && u == v
  {
    ConsParts(x, u, z);
    ConsParts(y, v, z);
  }

  lemma ZeroHere(c: bv8)
    ensures BitStep(c, false) == Shift(c) && c ^ 0 == c
  {
  }

  lemma FitsTop(w: bv8)
    ensures Machine().fits(w, 8 - 1) <==> w & 0x80 == 0
  {
    assert HighBits(1) == 0x80;
  }

  lemma SumIs(m: Machine<bv8>, c: bv8, b: bool, w: bv8)
    requires m == Machine()
    ensures m.add(m.step(c, b), w) == BitStep(c, b) ^ w
  {
  }

  lemma RaisedIs(m: Machine<bv8>, c: bv8, b: bool, w: bv8)
    requires m == Machine()
    ensures m.shift(m.add(c, m.cons(b, w))) == Shift(c ^ Cons(b, w))
  {
    if b {
    } else {
    }
  }

  lemma SameSum(l: bv8, r: bv8, c: bv8, b: bool, w: bv8)
    requires w & 0x80 == 0 && l == BitStep(c, b) ^ w && r == Shift(c ^ Cons(b, w))
    ensures l == r
  {
    StepAddsHere(c, b, w);
  }

  lemma StepLawHere(m: Machine<bv8>, c: bv8, b: bool, w: bv8)
    requires m == Machine() && m.fits(w, m.width - 1)
    ensures m.add(m.step(c, b), w) == m.shift(m.add(c, m.cons(b, w)))
  {
    FitsTop(w);
    SumIs(m, c, b, w);
    RaisedIs(m, c, b, w);
    SameSum(m.add(m.step(c, b), w), m.shift(m.add(c, m.cons(b, w))), c, b, w);
  }

  lemma MachineSteps()
    ensures StepAdds(Machine()) && ZeroBit(Machine())
  {
    var m := Machine();
    forall c: bv8, b: bool, w: bv8 | m.fits(w, m.width - 1)
      ensures m.add(m.step(c, b), w) == m.shift(m.add(c, m.cons(b, w)))
    {
      StepLawHere(m, c, b, w);
    }
    forall c: bv8 ensures m.step(c, false) == m.shift(c) && m.add(c, m.zero) == c { ZeroHere(c); }
  }

  lemma MachineReversible()
    ensures Reversible(Machine())
  {
    var m := Machine();
    forall a: bv8, b: bv8 | m.shift(a) == m.shift(b) ensures a == b { ShiftBack(a, b); }
    forall a: bv8, b: bv8, x: bool | m.step(a, x) == m.step(b, x) ensures a == b { StepBack(a, b, x); }
    forall a: bv8, u: bv8, v: bv8 | m.add(a, u) == m.add(a, v) ensures u == v { AddBack(a, u, v); }
  }

  lemma FitLawHere(m: Machine<bv8>, b: bool, w: bv8, n: int)
    requires m == Machine() && 0 <= n < m.width && m.fits(w, n)
    ensures m.fits(m.cons(b, w), n + 1) && m.fits(w, m.width - 1)
  {
    ConsFits(b, w, n);
    FitsTop(w);
  }

  lemma DifferLawHere(m: Machine<bv8>, x: bool, y: bool, u: bv8, v: bv8)
    requires m == Machine() && m.fits(u, m.width - 1) && m.fits(v, m.width - 1) && m.cons(x, u) == m.cons(y, v)
    ensures x == y && u == v
  {
    FitsTop(u);
    FitsTop(v);
    ConsDiffers(x, y, u, v, m.cons(x, u));
  }

  lemma MachineWords()
    ensures WordsFit(Machine()) && WordsDiffer(Machine())
  {
    var m := Machine();
    assert m.fits(m.zero, 0) by { assert 0 & HighBits(8) == 0; }
    forall b: bool, w: bv8, n: int | 0 <= n < m.width && m.fits(w, n) ensures m.fits(m.cons(b, w), n + 1) {
      FitLawHere(m, b, w, n);
    }
    forall w: bv8, n: int | 0 <= n < m.width && m.fits(w, n) ensures m.fits(w, m.width - 1) {
      FitLawHere(m, false, w, n);
    }
    forall x: bool, y: bool, u: bv8, v: bv8
      | m.fits(u, m.width - 1) && m.fits(v, m.width - 1) && m.cons(x, u) == m.cons(y, v)
      ensures x == y && u == v
    {
      DifferLawHere(m, x, y, u, v);
    }
  }

  lemma MachineLawful()
    ensures Lawful(Machine())
  {
    MachineSteps();
    MachineReversible();
    MachineWords();
  }

  // ----- the table -----

  function ByteShift(c: bv8): bv8 {
    Shift(Shift(Shift(Shift(Shift(Shift(Shift(Shift(c))))))))
  }

  /** One of sixteen values. */
  function Pick(k: bv8, v0: bv8, v1: bv8, v2: bv8, v3: bv8, v4: bv8, v5: bv8, v6: bv8, v7: bv8,
                v8: bv8, v9: bv8, v10: bv8, v11: bv8, v12: bv8, v13: bv8, v14: bv8, v15: bv8): bv8 {
    if k == 0 then v0 else if k == 1 then v1 else if k == 2 then v2 else if k == 3 then v3 else if k == 4 then v4
    else if k == 5 then v5 else if k == 6 then v6 else if k == 7 then v7 else if k == 8 then v8 else if k == 9 then v9
    else if k == 10 then v10 else if k == 11 then v11 else if k == 12 then v12 else if k == 13 then v13
    else if k == 14 then v14 else v15
  }

  // crc8_tab, sixteen entries to a row
  function Row0(k: bv8): bv8 { Pick(k, 0x00, 0x5e, 0xbc, 0xe2, 0x61, 0x3f, 0xdd, 0x83, 0xc2, 0x9c, 0x7e, 0x20, 0xa3,
      0xfd, 0x1f, 0x41) }
  function Row1(k: bv8): bv8 { Pick(k, 0x9d, 0xc3, 0x21, 0x7f, 0xfc, 0xa2, 0x40, 0x1e, 0x5f, 0x01, 0xe3, 0xbd, 0x3e,
      0x60, 0x82, 0xdc) }
  function Row2(k: bv8): bv8 { Pick(k, 0x23, 0x7d, 0x9f, 0xc1, 0x42, 0x1c, 0xfe, 0xa0, 0xe1, 0xbf, 0x5d, 0x03, 0x80,
      0xde, 0x3c, 0x62) }
  function Row3(k: bv8): bv8 { Pick(k, 0xbe, 0xe0, 0x02, 0x5c, 0xdf, 0x81, 0x63, 0x3d, 0x7c, 0x22, 0xc0, 0x9e, 0x1d,
      0x43, 0xa1, 0xff) }
  function Row4(k: bv8): bv8 { Pick(k, 0x46, 0x18, 0xfa, 0xa4, 0x27, 0x79, 0x9b, 0xc5, 0x84, 0xda, 0x38, 0x66, 0xe5,
      0xbb, 0x59, 0x07) }
  function Row5(k: bv8): bv8 { Pick(k, 0xdb, 0x85, 0x67, 0x39, 0xba, 0xe4, 0x06, 0x58, 0x19, 0x47, 0xa5, 0xfb, 0x78,
      0x26, 0xc4, 0x9a) }
  function Row6(k: bv8): bv8 { Pick(k, 0x65, 0x3b, 0xd9, 0x87, 0x04, 0x5a, 0xb8, 0xe6, 0xa7, 0xf9, 0x1b, 0x45, 0xc6,
      0x98, 0x7a, 0x24) }
  function Row7(k: bv8): bv8 { Pick(k, 0xf8, 0xa6, 0x44, 0x1a, 0x99, 0xc7, 0x25, 0x7b, 0x3a, 0x64, 0x86, 0xd8, 0x5b,
      0x05, 0xe7, 0xb9) }
  function Row8(k: bv8): bv8 { Pick(k, 0x8c, 0xd2, 0x30, 0x6e, 0xed, 0xb3, 0x51, 0x0f, 0x4e, 0x10, 0xf2, 0xac, 0x2f,
      0x71, 0x93, 0xcd) }
  function Row9(k: bv8): bv8 { Pick(k, 0x11, 0x4f, 0xad, 0xf3, 0x70, 0x2e, 0xcc, 0x92, 0xd3, 0x8d, 0x6f, 0x31, 0xb2,
      0xec, 0x0e, 0x50) }
  function RowA(k: bv8): bv8 { Pick(k, 0xaf, 0xf1, 0x13, 0x4d, 0xce, 0x90, 0x72, 0x2c, 0x6d, 0x33, 0xd1, 0x8f, 0x0c,
      0x52, 0xb0, 0xee) }
  function RowB(k: bv8): bv8 { Pick(k, 0x32, 0x6c, 0x8e, 0xd0, 0x53, 0x0d, 0xef, 0xb1, 0xf0, 0xae, 0x4c, 0x12, 0x91,
      0xcf, 0x2d, 0x73) }
  function RowC(k: bv8): bv8 { Pick(k, 0xca, 0x94, 0x76, 0x28, 0xab, 0xf5, 0x17, 0x49, 0x08, 0x56, 0xb4, 0xea, 0x69,
      0x37, 0xd5, 0x8b) }
  function RowD(k: bv8): bv8 { Pick(k, 0x57, 0x09, 0xeb, 0xb5, 0x36, 0x68, 0x8a, 0xd4, 0x95, 0xcb, 0x29, 0x77, 0xf4,
      0xaa, 0x48, 0x16) }
  function RowE(k: bv8): bv8 { Pick(k, 0xe9, 0xb7, 0x55, 0x0b, 0x88, 0xd6, 0x34, 0x6a, 0x2b, 0x75, 0x97, 0xc9, 0x4a,
      0x14, 0xf6, 0xa8) }
  function RowF(k: bv8): bv8 { Pick(k, 0x74, 0x2a, 0xc8, 0x96, 0x15, 0x4b, 0xa9, 0xf7, 0xb6, 0xe8, 0x0a, 0x54, 0xd7,
      0x89, 0x6b, 0x35) }

  function Quarter0(h: bv8, k: bv8): bv8 {
    if h == 0 then Row0(k) else if h == 1 then Row1(k) else if h == 2 then Row2(k) else Row3(k)
  }

  function Quarter1(h: bv8, k: bv8): bv8 {
    if h == 4 then Row4(k) else if h == 5 then Row5(k) else if h == 6 then Row6(k) else Row7(k)
  }

  function Quarter2(h: bv8, k: bv8): bv8 {
    if h == 8 then Row8(k) else if h == 9 then Row9(k) else if h == 10 then RowA(k) else RowB(k)
  }

  function Quarter3(h: bv8, k: bv8): bv8 {
    if h == 12 then RowC(k) else if h == 13 then RowD(k) else if h == 14 then RowE(k) else RowF(k)
  }

  /** crc8_tab[i] */
  function Table(i: bv8): bv8 {
    var h, k := i >> 4, i & 0xf;
    if h < 4 then Quarter0(h, k) else if h < 8 then Quarter1(h, k)
    else if h < 12 then Quarter2(h, k) else Quarter3(h, k)
  }

  lemma Row0IsShift(k: bv8) requires k < 16 ensures Row0(k) == ByteShift(k) { }
  lemma Row1IsShift(k: bv8) requires k < 16 ensures Row1(k) == ByteShift(0x10 | k) { }
  lemma Row2IsShift(k: bv8) requires k < 16 ensures Row2(k) == ByteShift(0x20 | k) { }
  lemma Row3IsShift(k: bv8) requires k < 16 ensures Row3(k) == ByteShift(0x30 | k) { }
  lemma Row4IsShift(k: bv8) requires k < 16 ensures Row4(k) == ByteShift(0x40 | k) { }
  lemma Row5IsShift(k: bv8) requires k < 16 ensures Row5(k) == ByteShift(0x50 | k) { }
  lemma Row6IsShift(k: bv8) requires k < 16 ensures Row6(k) == ByteShift(0x60 | k) { }
  lemma Row7IsShift(k: bv8) requires k < 16 ensures Row7(k) == ByteShift(0x70 | k) { }
  lemma Row8IsShift(k: bv8) requires k < 16 ensures Row8(k) == ByteShift(0x80 | k) { }
  lemma Row9IsShift(k: bv8) requires k < 16 ensures Row9(k) == ByteShift(0x90 | k) { }
  lemma RowAIsShift(k: bv8) requires k < 16 ensures RowA(k) == ByteShift(0xa0 | k) { }
  lemma RowBIsShift(k: bv8) requires k < 16 ensures RowB(k) == ByteShift(0xb0 | k) { }
  lemma RowCIsShift(k: bv8) requires k < 16 ensures RowC(k) == ByteShift(0xc0 | k) { }
  lemma RowDIsShift(k: bv8) requires k < 16 ensures RowD(k) == ByteShift(0xd0 | k) { }
  lemma RowEIsShift(k: bv8) requires k < 16 ensures RowE(k) == ByteShift(0xe0 | k) { }
  lemma RowFIsShift(k: bv8) requires k < 16 ensures RowF(k) == ByteShift(0xf0 | k) { }

  lemma Quarter0IsShift(h: bv8, k: bv8)
    requires 0 <= h < 4 && k < 16
    ensures Quarter0(h, k) == ByteShift(((h << 4) | k))
  {
    if h == 0 { Row0IsShift(k); } else if h == 1 { Row1IsShift(k); } else if h == 2 { Row2IsShift(k); } else
      { Row3IsShift(k); }
  }

  lemma Quarter1IsShift(h: bv8, k: bv8)
    requires 4 <= h < 8 && k < 16
    ensures Quarter1(h, k) == ByteShift(((h << 4) | k))
  {
    if h == 4 { Row4IsShift(k); } else if h == 5 { Row5IsShift(k); } else if h == 6 { Row6IsShift(k); } else
      { Row7IsShift(k); }
  }

  lemma Quarter2IsShift(h: bv8, k: bv8)
    requires 8 <= h < 12 && k < 16
    ensures Quarter2(h, k) == ByteShift(((h << 4) | k))
  {
    if h == 8 { Row8IsShift(k); } else if h == 9 { Row9IsShift(k); } else if h == 10 { RowAIsShift(k); } else
      { RowBIsShift(k); }
  }

  lemma Quarter3IsShift(h: bv8, k: bv8)
    requires 12 <= h < 16 && k < 16
    ensures Quarter3(h, k) == ByteShift(((h << 4) | k))
  {
    if h == 12 { RowCIsShift(k); } else if h == 13 { RowDIsShift(k); } else if h == 14 { RowEIsShift(k); } else
      { RowFIsShift(k); }
  }

  /** Every table entry is its index shifted out bit by bit. */
  lemma TableIsShift(i: bv8)
    ensures Table(i) == ByteShift(i)
  {
    var h, k := i >> 4, i & 0xf;
    assert i == (h << 4) | k;
    if h < 4 { Quarter0IsShift(h, k); } else if h < 8 { Quarter1IsShift(h, k); }
    else if h < 12 { Quarter2IsShift(h, k); } else { Quarter3IsShift(h, k); }
  }

  // ----- one byte at a time -----

  /** One round of get_crc8_check_sum. */
  function ByteStep(c: bv8, b: bv8): bv8 {
    Table(c ^ b)
  }

  lemma ShiftOnce(c: bv8, n: nat)
    requires 0 < n
    ensures Shifts(Machine(), c, n) == Shifts(Machine(), Shift(c), n - 1)
  {
  }

  lemma EightShifts(c: bv8)
    ensures Shifts(Machine(), c, 8) == ByteShift(c)
  {
    var c1 := Shift(c);
    var c2 := Shift(c1);
    var c3 := Shift(c2);
    var c4 := Shift(c3);
    var c5 := Shift(c4);
    var c6 := Shift(c5);
    var c7 := Shift(c6);
    ShiftOnce(c, 8);
    ShiftOnce(c1, 7);
    ShiftOnce(c2, 6);
    ShiftOnce(c3, 5);
    ShiftOnce(c4, 4);
    ShiftOnce(c5, 3);
    ShiftOnce(c6, 2);
    ShiftOnce(c7, 1);
  }

  lemma WordNext(b: bool, rest: seq<bool>)
    ensures Word(Machine(), [b] + rest) == Cons(b, Word(Machine(), rest))
  {
    assert ([b] + rest)[1..] == rest;
  }

  function Assembled(b: bv8): bv8 {
    Cons(b & 0x01 != 0, Cons(b & 0x02 != 0, Cons(b & 0x04 != 0, Cons(b & 0x08 != 0,
      Cons(b & 0x10 != 0, Cons(b & 0x20 != 0, Cons(b & 0x40 != 0, Cons(b & 0x80 != 0, 0))))))))
  }

  lemma AssembledIs(b: bv8)
    ensures Assembled(b) == b
  {
  }

  lemma WordOfFour(p: bool, q: bool, r: bool, t: bool, rest: seq<bool>)
    ensures Word(Machine(), [p, q, r, t] + rest) == Cons(p, Cons(q, Cons(r, Cons(t, Word(Machine(), rest)))))
  {
    assert [p, q, r, t] + rest == [p] + ([q] + ([r] + ([t] + rest)));
    WordNext(t, rest);
    WordNext(r, [t] + rest);
    WordNext(q, [r] + ([t] + rest));
    WordNext(p, [q] + ([r] + ([t] + rest)));
  }

  lemma WordOfEight(p: bool, q: bool, r: bool, t: bool, u: bool, v: bool, w: bool, x: bool)
    ensures Word(Machine(), [p, q, r, t, u, v, w, x])
         == Cons(p, Cons(q, Cons(r, Cons(t, Cons(u, Cons(v, Cons(w, Cons(x, Word(Machine(), [])))))))))
  {
    WordOfFour(u, v, w, x, []);
    WordOfFour(p, q, r, t, [u, v, w, x]);
    assert [u, v, w, x] + [] == [u, v, w, x] && [p, q, r, t] + [u, v, w, x] == [p, q, r, t, u, v, w, x];
  }

  lemma WordOfByte(b: bv8)
    ensures Word(Machine(), Bits(b)) == b
  {
    WordOfEight(b & 0x01 != 0, b & 0x02 != 0, b & 0x04 != 0, b & 0x08 != 0,
                b & 0x10 != 0, b & 0x20 != 0, b & 0x40 != 0, b & 0x80 != 0);
    AssembledIs(b);
  }

  lemma FeedByte(c: bv8, b: bv8)
    ensures Feed(Machine(), c, Bits(b)) == Shifts(Machine(), c ^ (b), 8)
  {
    MachineLawful();
    FeedIsShifts(Machine(), c, Bits(b));
    WordOfByte(b);
    AddIs(c, b);
  }

  lemma AddIs(c: bv8, w: bv8)
    ensures Machine().add(c, w) == c ^ w
  {
  }

  /** Each table step shifts in the eight bits of the byte. */
  lemma ByteStepIsFeed(c: bv8, b: bv8)
    ensures ByteStep(c, b) == Feed(Machine(), c, Bits(b))
  {
    FeedByte(c, b);
    EightShifts(c ^ b);
    TableIsShift(c ^ b);
  }

  // ----- the start value -----

  lemma FlipsCons(b: bool, w: bv8, v: bv8)
    ensures Cons(!b, w ^ v) == Cons(b, w) ^ Cons(true, v)
  {
    if b {
    } else {
    }
  }

  function Ones(n: nat): bv8 {
    if n == 0 then 0 else Cons(true, Ones(n - 1))
  }

  lemma {:induction false} WordFlipped(bits: seq<bool>)
    ensures Word(Machine(), Flipped(bits)) == Word(Machine(), bits) ^ Ones(|bits|)
  {
    if bits != [] {
      var b, rest := bits[0], bits[1..];
      assert bits == [b] + rest && Flipped(bits) == [!b] + Flipped(rest);
      WordFlipped(rest);
      WordNext(b, rest);
      WordNext(!b, Flipped(rest));
      FlipsCons(b, Word(Machine(), rest), Ones(|rest|));
    }
  }

  lemma AllOnes()
    ensures Ones(8) == 0xff
  {
    assert Ones(4) == 0xf;
    assert Ones(8) == 0xff;
  }

  lemma StartIsFlip(w: bv8, v: bv8)
    requires v == w ^ 0xff
    ensures INIT ^ w == 0 ^ v
  {
  }

  lemma SameSums(w: bv8, v: bv8)
    requires v == w ^ 0xff
    ensures Machine().add(INIT, w) == Machine().add(0, v)
  {
    StartIsFlip(w, v);
    AddIs(INIT, w);
    AddIs(0, v);
  }

  lemma FirstBits(u: seq<bool>)
    requires |u| == 8
    ensures Machine().width == 8 &&
            Machine().add(INIT, Word(Machine(), u)) == Machine().add(0, Word(Machine(), Flipped(u)))
  {
    WordFlipped(u);
    AllOnes();
    SameSums(Word(Machine(), u), Word(Machine(), Flipped(u)));
  }

  /** The check sum of a message of at least 8 bits is what a register that starts at 0 makes of the message with its
      first 8 bits complemented. */
  lemma StartsComplemented(m: seq<bv8>)
    requires |m| >= 1
    ensures |Stream(m)| >= 8 && Crc(m) == Feed(Machine(), 0, Flipped(Stream(m)[..8]) + Stream(m)[8..])
  {
    StreamLength(m);
    var u, rest := Stream(m)[..8], Stream(m)[8..];
    assert Stream(m) == u + rest;
    MachineLawful();
    FirstBits(u);
    StartMoves(Machine(), INIT, 0, u, Flipped(u), rest);
  }

  /** A zero byte put in front of a message changes its check sum. */
  lemma LeadingZeroChanges(m: seq<bv8>)
    ensures Crc([0] + m) != Crc(m)
  {
    StreamAppend([0], m);
    StreamOne(0);
    FeedAppend(Machine(), INIT, Bits(0), Stream(m));
    ByteStepIsFeed(INIT, 0);
    AfterZero();
    if Crc([0] + m) == Crc(m) {
      MachineLawful();
      FeedInjective(Machine(), Feed(Machine(), INIT, Bits(0)), INIT, Stream(m));
    }
  }

  lemma AfterZero()
    ensures ByteStep(INIT, 0) != INIT
  {
  }
}
