/** lib/algorithm/src/protocol/crc.c: CRC16 by table, against a register shifted one bit at a time. */
module Crc16 {
  import opened BitStream
  import opened ShiftRegister

  /** x^16 + x^12 + x^5 + 1, the lowest coefficient in the top bit. */
  const POLYNOMIAL: bv16 := 0x8408
  const INIT: bv16 := 0xffff

  // ----- one bit at a time -----

  function Shift(c: bv16): bv16 {
    if c & 1 != 0 then (c >> 1) ^ POLYNOMIAL else c >> 1
  }

  function BitStep(c: bv16, b: bool): bv16 {
    Shift(if b then c ^ 1 else c)
  }

  function Cons(b: bool, w: bv16): bv16 {
    if b then (w << 1) | 1 else w << 1
  }

  /** The n highest bits. */
  function HighBits(n: int): bv16 {
    if n <= 0 then 0 else (HighBits(n - 1) >> 1) | 0x8000
  }

  function Machine(): Machine<bv16> {
    ShiftRegister.Machine(16, 0, (c, b) => BitStep(c, b), c => Shift(c), (c: bv16, w: bv16) => c ^ w,
      (b, w) => Cons(b, w),
                          (w, n) => w & HighBits(16 - n) == 0)
  }

  /** The check sum of a message, by definition. */
  function Crc(m: seq<bv8>): bv16 {
    Feed(Machine(), INIT, Stream(m))
  }

  // ----- the laws of the register -----

  lemma StepAddsHere(c: bv16, b: bool, w: bv16)
    requires w & 0x8000 == 0
    ensures BitStep(c, b) ^ w == Shift(c ^ Cons(b, w))
  {
  }

  lemma ShiftBack(a: bv16, b: bv16)
    requires Shift(a) == Shift(b)
    ensures a == b
  {
  }

  lemma StepBack(a: bv16, b: bv16, x: bool)
    requires BitStep(a, x) == BitStep(b, x)
    ensures a == b
  {
  }

  lemma AddBack(a: bv16, u: bv16, v: bv16)
    requires a ^ u == a ^ v
    ensures u == v
  {
  }

  lemma HighBitsEven(n: int)
    requires n < 16
    ensures HighBits(n) & 1 == 0
  {
    assert HighBits(1) == 0x8000; assert HighBits(2) == 0xc000; assert HighBits(3) == 0xe000;
    assert HighBits(4) == 0xf000; assert HighBits(5) == 0xf800; assert HighBits(6) == 0xfc00;
    assert HighBits(7) == 0xfe00; assert HighBits(8) == 0xff00; assert HighBits(9) == 0xff80;
    assert HighBits(10) == 0xffc0; assert HighBits(11) == 0xffe0; assert HighBits(12) == 0xfff0;
    assert HighBits(13) == 0xfff8; assert HighBits(14) == 0xfffc; assert HighBits(15) == 0xfffe;
  }

  lemma EvenBelow(w: bv16, high: bv16)
    requires w & ((high >> 1) | 0x8000) == 0 && high & 1 == 0
    ensures (w << 1) & high == 0 && w & 0x8000 == 0
  {
  }

  lemma OddBelow(w: bv16, high: bv16)
    requires w & ((high >> 1) | 0x8000) == 0 && high & 1 == 0
    ensures ((w << 1) | 1) & high == 0
  {
  }

  lemma ConsBelow(b: bool, w: bv16, high: bv16)
    requires w & ((high >> 1) | 0x8000) == 0 && high & 1 == 0
    ensures Cons(b, w) & high == 0 && w & 0x8000 == 0
  {
    assert Cons(b, w) == if b then (w << 1) | 1 else w << 1;
    EvenBelow(w, high);
    if b { OddBelow(w, high); }
  }

  lemma ConsFits(b: bool, w: bv16, n: int)
    requires 0 <= n < 16 && w & HighBits(16 - n) == 0
    ensures Cons(b, w) & HighBits(16 - n - 1) == 0 && w & 0x8000 == 0
  {
    HighBitsEven(16 - n - 1);
    ConsBelow(b, w, HighBits(16 - n - 1));
  }

  lemma ConsParts(b: bool, w: bv16, z: bv16)
    requires w & 0x8000 == 0 && Cons(b, w) == z
    ensures z >> 1 == w && (b <==> z & 1 == 1)
  {
    if b {
    } else {
    }
  }

  lemma ConsDiffers(x: bool, y: bool, u: bv16, v: bv16, z: bv16)
    requires u & 0x8000 == 0 && v & 0x8000 == 0 && Cons(x, u) == z && Cons(y, v) == z
    ensures x == y && u == v
  {
    ConsParts(x, u, z);
    ConsParts(y, v, z);
  }

  lemma ZeroHere(c: bv16)
    ensures BitStep(c, false) == Shift(c) && c ^ 0 == c
  {
  }

  lemma FitsTop(w: bv16)
    ensures Machine().fits(w, 16 - 1) <==> w & 0x8000 == 0
  {
    assert HighBits(1) == 0x8000;
  }

  lemma SumIs(m: Machine<bv16>, c: bv16, b: bool, w: bv16)
    requires m == Machine()
    ensures m.add(m.step(c, b), w) == BitStep(c, b) ^ w
  {
  }

  lemma RaisedIs(m: Machine<bv16>, c: bv16, b: bool, w: bv16)
    requires m == Machine()
    ensures m.shift(m.add(c, m.cons(b, w))) == Shift(c ^ Cons(b, w))
  {
    if b {
    } else {
    }
  }

  lemma SameSum(l: bv16, r: bv16, c: bv16, b: bool, w: bv16)
    requires w & 0x8000 == 0 && l == BitStep(c, b) ^ w && r == Shift(c ^ Cons(b, w))
    ensures l == r
  {
    StepAddsHere(c, b, w);
  }

  lemma StepLawHere(m: Machine<bv16>, c: bv16, b: bool, w: bv16)
    requires m == Machine() && m.fits(w, m.width - 1)
    ensures m.add(m.step(c, b), w) == m.shift(m.add(c, m.cons(b, w)))
  {
    FitsTop(w);
    SumIs(m, c, b, w);
    RaisedIs(m, c, b, w);
    SameSum(m.add(m.step(c, b), w), m.shift(m.add(c, m.cons(b, w))), c, b, w);
  }

  lemma MachineSteps()
    ensures StepAdds(Machine()) && ZeroBit(Machine())
  {
    var m := Machine();
    forall c: bv16, b: bool, w: bv16 | m.fits(w, m.width - 1)
      ensures m.add(m.step(c, b), w) == m.shift(m.add(c, m.cons(b, w)))
    {
      StepLawHere(m, c, b, w);
    }
    forall c: bv16 ensures m.step(c, false) == m.shift(c) && m.add(c, m.zero) == c { ZeroHere(c); }
  }

  lemma MachineReversible()
    ensures Reversible(Machine())
  {
    var m := Machine();
    forall a: bv16, b: bv16 | m.shift(a) == m.shift(b) ensures a == b { ShiftBack(a, b); }
    forall a: bv16, b: bv16, x: bool | m.step(a, x) == m.step(b, x) ensures a == b { StepBack(a, b, x); }
    forall a: bv16, u: bv16, v: bv16 | m.add(a, u) == m.add(a, v) ensures u == v { AddBack(a, u, v); }
  }

  lemma FitLawHere(m: Machine<bv16>, b: bool, w: bv16, n: int)
    requires m == Machine() && 0 <= n < m.width && m.fits(w, n)
    ensures m.fits(m.cons(b, w), n + 1) && m.fits(w, m.width - 1)
  {
    ConsFits(b, w, n);
    FitsTop(w);
  }

  lemma DifferLawHere(m: Machine<bv16>, x: bool, y: bool, u: bv16, v: bv16)
    requires m == Machine() && m.fits(u, m.width - 1) && m.fits(v, m.width - 1) && m.cons(x, u) == m.cons(y, v)
    ensures x == y && u == v
  {
    FitsTop(u);
    FitsTop(v);
    ConsDiffers(x, y, u, v, m.cons(x, u));
  }

  lemma MachineWords()
    ensures WordsFit(Machine()) && WordsDiffer(Machine())
  {
    var m := Machine();
    assert m.fits(m.zero, 0) by { assert 0 & HighBits(16) == 0; }
    forall b: bool, w: bv16, n: int | 0 <= n < m.width && m.fits(w, n) ensures m.fits(m.cons(b, w), n + 1) {
      FitLawHere(m, b, w, n);
    }
    forall w: bv16, n: int | 0 <= n < m.width && m.fits(w, n) ensures m.fits(w, m.width - 1) {
      FitLawHere(m, false, w, n);
    }
    forall x: bool, y: bool, u: bv16, v: bv16
      | m.fits(u, m.width - 1) && m.fits(v, m.width - 1) && m.cons(x, u) == m.cons(y, v)
      ensures x == y && u == v
    {
      DifferLawHere(m, x, y, u, v);
    }
  }

  lemma MachineLawful()
    ensures Lawful(Machine())
  {
    MachineSteps();
    MachineReversible();
    MachineWords();
  }

  // ----- the table -----

  function ByteShift(c: bv16): bv16 {
    Shift(Shift(Shift(Shift(Shift(Shift(Shift(Shift(c))))))))
  }

  /** One of sixteen values. */
  function Pick(k: bv8, v0: bv16, v1: bv16, v2: bv16, v3: bv16, v4: bv16, v5: bv16, v6: bv16, v7: bv16,
                v8: bv16, v9: bv16, v10: bv16, v11: bv16, v12: bv16, v13: bv16, v14: bv16, v15: bv16): bv16 {
    if k == 0 then v0 else if k == 1 then v1 else if k == 2 then v2 else if k == 3 then v3 else if k == 4 then v4
    else if k == 5 then v5 else if k == 6 then v6 else if k == 7 then v7 else if k == 8 then v8 else if k == 9 then v9
    else if k == 10 then v10 else if k == 11 then v11 else if k == 12 then v12 else if k == 13 then v13
    else if k == 14 then v14 else v15
  }

  // w_crc_table, sixteen entries to a row
  function Row0(k: bv8): bv16 { Pick(k, 0x0000, 0x1189, 0x2312, 0x329b, 0x4624, 0x57ad, 0x6536, 0x74bf, 0x8c48,
      0x9dc1, 0xaf5a, 0xbed3, 0xca6c, 0xdbe5, 0xe97e, 0xf8f7) }
  function Row1(k: bv8): bv16 { Pick(k, 0x1081, 0x0108, 0x3393, 0x221a, 0x56a5, 0x472c, 0x75b7, 0x643e, 0x9cc9,
      0x8d40, 0xbfdb, 0xae52, 0xdaed, 0xcb64, 0xf9ff, 0xe876) }
  function Row2(k: bv8): bv16 { Pick(k, 0x2102, 0x308b, 0x0210, 0x1399, 0x6726, 0x76af, 0x4434, 0x55bd, 0xad4a,
      0xbcc3, 0x8e58, 0x9fd1, 0xeb6e, 0xfae7, 0xc87c, 0xd9f5) }
  function Row3(k: bv8): bv16 { Pick(k, 0x3183, 0x200a, 0x1291, 0x0318, 0x77a7, 0x662e, 0x54b5, 0x453c, 0xbdcb,
      0xac42, 0x9ed9, 0x8f50, 0xfbef, 0xea66, 0xd8fd, 0xc974) }
  function Row4(k: bv8): bv16 { Pick(k, 0x4204, 0x538d, 0x6116, 0x709f, 0x0420, 0x15a9, 0x2732, 0x36bb, 0xce4c,
      0xdfc5, 0xed5e, 0xfcd7, 0x8868, 0x99e1, 0xab7a, 0xbaf3) }
  function Row5(k: bv8): bv16 { Pick(k, 0x5285, 0x430c, 0x7197, 0x601e, 0x14a1, 0x0528, 0x37b3, 0x263a, 0xdecd,
      0xcf44, 0xfddf, 0xec56, 0x98e9, 0x8960, 0xbbfb, 0xaa72) }
  function Row6(k: bv8): bv16 { Pick(k, 0x6306, 0x728f, 0x4014, 0x519d, 0x2522, 0x34ab, 0x0630, 0x17b9, 0xef4e,
      0xfec7, 0xcc5c, 0xddd5, 0xa96a, 0xb8e3, 0x8a78, 0x9bf1) }
  function Row7(k: bv8): bv16 { Pick(k, 0x7387, 0x620e, 0x5095, 0x411c, 0x35a3, 0x242a, 0x16b1, 0x0738, 0xffcf,
      0xee46, 0xdcdd, 0xcd54, 0xb9eb, 0xa862, 0x9af9, 0x8b70) }
  function Row8(k: bv8): bv16 { Pick(k, 0x8408, 0x9581, 0xa71a, 0xb693, 0xc22c, 0xd3a5, 0xe13e, 0xf0b7, 0x0840,
      0x19c9, 0x2b52, 0x3adb, 0x4e64, 0x5fed, 0x6d76, 0x7cff) }
  function Row9(k: bv8): bv16 { Pick(k, 0x9489, 0x8500, 0xb79b, 0xa612, 0xd2ad, 0xc324, 0xf1bf, 0xe036, 0x18c1,
      0x0948, 0x3bd3, 0x2a5a, 0x5ee5, 0x4f6c, 0x7df7, 0x6c7e) }
  function RowA(k: bv8): bv16 { Pick(k, 0xa50a, 0xb483, 0x8618, 0x9791, 0xe32e, 0xf2a7, 0xc03c, 0xd1b5, 0x2942,
      0x38cb, 0x0a50, 0x1bd9, 0x6f66, 0x7eef, 0x4c74, 0x5dfd) }
  function RowB(k: bv8): bv16 { Pick(k, 0xb58b, 0xa402, 0x9699, 0x8710, 0xf3af, 0xe226, 0xd0bd, 0xc134, 0x39c3,
      0x284a, 0x1ad1, 0x0b58, 0x7fe7, 0x6e6e, 0x5cf5, 0x4d7c) }
  function RowC(k: bv8): bv16 { Pick(k, 0xc60c, 0xd785, 0xe51e, 0xf497, 0x8028, 0x91a1, 0xa33a, 0xb2b3, 0x4a44,
      0x5bcd, 0x6956, 0x78df, 0x0c60, 0x1de9, 0x2f72, 0x3efb) }
  function RowD(k: bv8): bv16 { Pick(k, 0xd68d, 0xc704, 0xf59f, 0xe416, 0x90a9, 0x8120, 0xb3bb, 0xa232, 0x5ac5,
      0x4b4c, 0x79d7, 0x685e, 0x1ce1, 0x0d68, 0x3ff3, 0x2e7a) }
  function RowE(k: bv8): bv16 { Pick(k, 0xe70e, 0xf687, 0xc41c, 0xd595, 0xa12a, 0xb0a3, 0x8238, 0x93b1, 0x6b46,
      0x7acf, 0x4854, 0x59dd, 0x2d62, 0x3ceb, 0x0e70, 0x1ff9) }
  function RowF(k: bv8): bv16 { Pick(k, 0xf78f, 0xe606, 0xd49d, 0xc514, 0xb1ab, 0xa022, 0x92b9, 0x8330, 0x7bc7,
      0x6a4e, 0x58d5, 0x495c, 0x3de3, 0x2c6a, 0x1ef1, 0x0f78) }

  function Quarter0(h: bv8, k: bv8): bv16 {
    if h == 0 then Row0(k) else if h == 1 then Row1(k) else if h == 2 then Row2(k) else Row3(k)
  }

  function Quarter1(h: bv8, k: bv8): bv16 {
    if h == 4 then Row4(k) else if h == 5 then Row5(k) else if h == 6 then Row6(k) else Row7(k)
  }

  function Quarter2(h: bv8, k: bv8): bv16 {
    if h == 8 then Row8(k) else if h == 9 then Row9(k) else if h == 10 then RowA(k) else RowB(k)
  }

  function Quarter3(h: bv8, k: bv8): bv16 {
    if h == 12 then RowC(k) else if h == 13 then RowD(k) else if h == 14 then RowE(k) else RowF(k)
  }

  /** w_crc_table[i] */
  function Table(i: bv8): bv16 {
    var h, k := i >> 4, i & 0xf;
    if h < 4 then Quarter0(h, k) else if h < 8 then Quarter1(h, k)
    else if h < 12 then Quarter2(h, k) else Quarter3(h, k)
  }

  lemma Row0IsShift(k: bv8) requires k < 16 ensures Row0(k) == ByteShift(k as bv16) { }
  lemma Row1IsShift(k: bv8) requires k < 16 ensures Row1(k) == ByteShift((0x10 | k) as bv16) { }
  lemma Row2IsShift(k: bv8) requires k < 16 ensures Row2(k) == ByteShift((0x20 | k) as bv16) { }
  lemma Row3IsShift(k: bv8) requires k < 16 ensures Row3(k) == ByteShift((0x30 | k) as bv16) { }
  lemma Row4IsShift(k: bv8) requires k < 16 ensures Row4(k) == ByteShift((0x40 | k) as bv16) { }
  lemma Row5IsShift(k: bv8) requires k < 16 ensures Row5(k) == ByteShift((0x50 | k) as bv16) { }
  lemma Row6IsShift(k: bv8) requires k < 16 ensures Row6(k) == ByteShift((0x60 | k) as bv16) { }
  lemma Row7IsShift(k: bv8) requires k < 16 ensures Row7(k) == ByteShift((0x70 | k) as bv16) { }
  lemma Row8IsShift(k: bv8) requires k < 16 ensures Row8(k) == ByteShift((0x80 | k) as bv16) { }
  lemma Row9IsShift(k: bv8) requires k < 16 ensures Row9(k) == ByteShift((0x90 | k) as bv16) { }
  lemma RowAIsShift(k: bv8) requires k < 16 ensures RowA(k) == ByteShift((0xa0 | k) as bv16) { }
  lemma RowBIsShift(k: bv8) requires k < 16 ensures RowB(k) == ByteShift((0xb0 | k) as bv16) { }
  lemma RowCIsShift(k: bv8) requires k < 16 ensures RowC(k) == ByteShift((0xc0 | k) as bv16) { }
  lemma RowDIsShift(k: bv8) requires k < 16 ensures RowD(k) == ByteShift((0xd0 | k) as bv16) { }
  lemma RowEIsShift(k: bv8) requires k < 16 ensures RowE(k) == ByteShift((0xe0 | k) as bv16) { }
  lemma RowFIsShift(k: bv8) requires k < 16 ensures RowF(k) == ByteShift((0xf0 | k) as bv16) { }

  lemma Quarter0IsShift(h: bv8, k: bv8)
    requires 0 <= h < 4 && k < 16
    ensures Quarter0(h, k) == ByteShift(((h << 4) | k) as bv16)
  {
    if h == 0 { Row0IsShift(k); } else if h == 1 { Row1IsShift(k); } else if h == 2 { Row2IsShift(k); } else
      { Row3IsShift(k); }
  }

  lemma Quarter1IsShift(h: bv8, k: bv8)
    requires 4 <= h < 8 && k < 16
    ensures Quarter1(h, k) == ByteShift(((h << 4) | k) as bv16)
  {
    if h == 4 { Row4IsShift(k); } else if h == 5 { Row5IsShift(k); } else if h == 6 { Row6IsShift(k); } else
      { Row7IsShift(k); }
  }

  lemma Quarter2IsShift(h: bv8, k: bv8)
    requires 8 <= h < 12 && k < 16
    ensures Quarter2(h, k) == ByteShift(((h << 4) | k) as bv16)
  {
    if h == 8 { Row8IsShift(k); } else if h == 9 { Row9IsShift(k); } else if h == 10 { RowAIsShift(k); } else
      { RowBIsShift(k); }
  }

  lemma Quarter3IsShift(h: bv8, k: bv8)
    requires 12 <= h < 16 && k < 16
    ensures Quarter3(h, k) == ByteShift(((h << 4) | k) as bv16)
  {
    if h == 12 { RowCIsShift(k); } else if h == 13 { RowDIsShift(k); } else if h == 14 { RowEIsShift(k); } else
      { RowFIsShift(k); }
  }

  /** Every table entry is its index shifted out bit by bit. */
  lemma TableIsShift(i: bv8)
    ensures Table(i) == ByteShift(i as bv16)
  {
    var h, k := i >> 4, i & 0xf;
    assert i == (h << 4) | k;
    if h < 4 { Quarter0IsShift(h, k); } else if h < 8 { Quarter1IsShift(h, k); }
    else if h < 12 { Quarter2IsShift(h, k); } else { Quarter3IsShift(h, k); }
  }

  // ----- one byte at a time -----

  /** One round of get_crc16_check_sum. */
  function ByteStep(c: bv16, b: bv8): bv16 {
    (c >> 8) ^ Table(((c ^ (b as bv16)) & 0x00ff) as bv8)
  }

  lemma ShiftOnce(c: bv16, n: nat)
    requires 0 < n
    ensures Shifts(Machine(), c, n) == Shifts(Machine(), Shift(c), n - 1)
  {
  }

  lemma EightShifts(c: bv16)
    ensures Shifts(Machine(), c, 8) == ByteShift(c)
  {
    var c1 := Shift(c);
    var c2 := Shift(c1);
    var c3 := Shift(c2);
    var c4 := Shift(c3);
    var c5 := Shift(c4);
    var c6 := Shift(c5);
    var c7 := Shift(c6);
    ShiftOnce(c, 8);
    ShiftOnce(c1, 7);
    ShiftOnce(c2, 6);
    ShiftOnce(c3, 5);
    ShiftOnce(c4, 4);
    ShiftOnce(c5, 3);
    ShiftOnce(c6, 2);
    ShiftOnce(c7, 1);
  }

  lemma WordNext(b: bool, rest: seq<bool>)
    ensures Word(Machine(), [b] + rest) == Cons(b, Word(Machine(), rest))
  {
    assert ([b] + rest)[1..] == rest;
  }

  function Assembled(b: bv8): bv16 {
    Cons(b & 0x01 != 0, Cons(b & 0x02 != 0, Cons(b & 0x04 != 0, Cons(b & 0x08 != 0,
      Cons(b & 0x10 != 0, Cons(b & 0x20 != 0, Cons(b & 0x40 != 0, Cons(b & 0x80 != 0, 0))))))))
  }

  lemma AssembledIs(b: bv8)
    ensures Assembled(b) == b as bv16
  {
  }

  lemma WordOfFour(p: bool, q: bool, r: bool, t: bool, rest: seq<bool>)
    ensures Word(Machine(), [p, q, r, t] + rest) == Cons(p, Cons(q, Cons(r, Cons(t, Word(Machine(), rest)))))
  {
    assert [p, q, r, t] + rest == [p] + ([q] + ([r] + ([t] + rest)));
    WordNext(t, rest);
    WordNext(r, [t] + rest);
    WordNext(q, [r] + ([t] + rest));
    WordNext(p, [q] + ([r] + ([t] + rest)));
  }

  lemma WordOfEight(p: bool, q: bool, r: bool, t: bool, u: bool, v: bool, w: bool, x: bool)
    ensures Word(Machine(), [p, q, r, t, u, v, w, x])
         == Cons(p, Cons(q, Cons(r, Cons(t, Cons(u, Cons(v, Cons(w, Cons(x, Word(Machine(), [])))))))))
  {
    WordOfFour(u, v, w, x, []);
    WordOfFour(p, q, r, t, [u, v, w, x]);
    assert [u, v, w, x] + [] == [u, v, w, x] && [p, q, r, t] + [u, v, w, x] == [p, q, r, t, u, v, w, x];
  }

  lemma WordOfByte(b: bv8)
    ensures Word(Machine(), Bits(b)) == b as bv16
  {
    WordOfEight(b & 0x01 != 0, b & 0x02 != 0, b & 0x04 != 0, b & 0x08 != 0,
                b & 0x10 != 0, b & 0x20 != 0, b & 0x40 != 0, b & 0x80 != 0);
    AssembledIs(b);
  }

  lemma FeedByte(c: bv16, b: bv8)
    ensures Feed(Machine(), c, Bits(b)) == Shifts(Machine(), c ^ (b as bv16), 8)
  {
    MachineLawful();
    FeedIsShifts(Machine(), c, Bits(b));
    WordOfByte(b);
    AddIs(c, b as bv16);
  }

  lemma AddIs(c: bv16, w: bv16)
    ensures Machine().add(c, w) == c ^ w
  {
  }

  lemma RaisedOnce(w: bv16, n: nat)
    requires n > 0
    ensures Raised(Machine(), w, n) == Raised(Machine(), w, n - 1) << 1
  {
  }

  lemma RaisedEight(w: bv16)
    ensures Raised(Machine(), w, 8) == w << 1 << 1 << 1 << 1 << 1 << 1 << 1 << 1
  {
    RaisedOnce(w, 8);
    RaisedOnce(w, 7);
    RaisedOnce(w, 6);
    RaisedOnce(w, 5);
    RaisedOnce(w, 4);
    RaisedOnce(w, 3);
    RaisedOnce(w, 2);
    RaisedOnce(w, 1);
  }

  lemma HighAndLow(x: bv16)
    ensures x == (x & 0x00ff) ^ ((x >> 8) << 1 << 1 << 1 << 1 << 1 << 1 << 1 << 1)
  {
  }

  lemma HighFits(w: bv16)
    ensures Machine().fits(w >> 8, 8) && Machine().width == 16
  {
    assert HighBits(8) == 0xff00;
  }

  lemma HighByteShiftsDown(x: bv16)
    ensures Shifts(Machine(), x, 8) == (x >> 8) ^ Shifts(Machine(), x & 0x00ff, 8)
  {
    HighFits(x);
    RaisedEight(x >> 8);
    HighAndLow(x);
    ShiftsDown(x, x & 0x00ff, x >> 8, Raised(Machine(), x >> 8, 8));
  }

  lemma ShiftsDown(x: bv16, c: bv16, w: bv16, raised: bv16)
    requires Machine().fits(w, 8) && Machine().width == 16 && Raised(Machine(), w, 8) == raised && x == c ^ raised
    ensures Shifts(Machine(), x, 8) == w ^ Shifts(Machine(), c, 8)
  {
    MachineLawful();
    RaisedShifts(Machine(), c, w, 8, 8);
    AddIs(c, raised);
    AddIs(Shifts(Machine(), c, 8), w);
    Commutes(Shifts(Machine(), c, 8), w);
  }

  lemma Commutes(a: bv16, b: bv16)
    ensures a ^ b == b ^ a
  {
  }

  /** The high byte moves down unchanged while the low byte is shifted out. */
  lemma HighByteMovesDown(x: bv16)
    ensures ByteShift(x) == (x >> 8) ^ ByteShift(x & 0x00ff)
  {
    HighByteShiftsDown(x);
    EightShifts(x);
    EightShifts(x & 0x00ff);
  }

  /** Each table step shifts in the eight bits of the byte. */
  lemma ByteStepIsFeed(c: bv16, b: bv8)
    ensures ByteStep(c, b) == Feed(Machine(), c, Bits(b))
  {
    FeedByte(c, b);
    EightShifts(c ^ (b as bv16));
    HighByteMovesDown(c ^ (b as bv16));
    TableIsShift(((c ^ (b as bv16)) & 0x00ff) as bv8);
  }

  // ----- the start value -----

  lemma FlipsCons(b: bool, w: bv16, v: bv16)
    ensures Cons(!b, w ^ v) == Cons(b, w) ^ Cons(true, v)
  {
    if b {
    } else {
    }
  }

  function Ones(n: nat): bv16 {
    if n == 0 then 0 else Cons(true, Ones(n - 1))
  }

  lemma {:induction false} WordFlipped(bits: seq<bool>)
    ensures Word(Machine(), Flipped(bits)) == Word(Machine(), bits) ^ Ones(|bits|)
  {
    if bits != [] {
      var b, rest := bits[0], bits[1..];
      assert bits == [b] + rest && Flipped(bits) == [!b] + Flipped(rest);
      WordFlipped(rest);
      WordNext(b, rest);
      WordNext(!b, Flipped(rest));
      FlipsCons(b, Word(Machine(), rest), Ones(|rest|));
    }
  }

  lemma AllOnes()
    ensures Ones(16) == 0xffff
  {
    assert Ones(4) == 0xf;
    assert Ones(8) == 0xff;
    assert Ones(12) == 0xfff;
  }

  lemma StartIsFlip(w: bv16, v: bv16)
    requires v == w ^ 0xffff
    ensures INIT ^ w == 0 ^ v
  {
  }

  lemma SameSums(w: bv16, v: bv16)
    requires v == w ^ 0xffff
    ensures Machine().add(INIT, w) == Machine().add(0, v)
  {
    StartIsFlip(w, v);
    AddIs(INIT, w);
    AddIs(0, v);
  }

  lemma FirstBits(u: seq<bool>)
    requires |u| == 16
    ensures Machine().width == 16 &&
            Machine().add(INIT, Word(Machine(), u)) == Machine().add(0, Word(Machine(), Flipped(u)))
  {
    WordFlipped(u);
    AllOnes();
    SameSums(Word(Machine(), u), Word(Machine(), Flipped(u)));
  }

  /** The check sum of a message of at least 16 bits is what a register that starts at 0 makes of the message with its
      first 16 bits complemented. */
  lemma StartsComplemented(m: seq<bv8>)
    requires |m| >= 2
    ensures |Stream(m)| >= 16 && Crc(m) == Feed(Machine(), 0, Flipped(Stream(m)[..16]) + Stream(m)[16..])
  {
    StreamLength(m);
    var u, rest := Stream(m)[..16], Stream(m)[16..];
    assert Stream(m) == u + rest;
    MachineLawful();
    FirstBits(u);
    StartMoves(Machine(), INIT, 0, u, Flipped(u), rest);
  }

  /** A zero byte put in front of a message changes its check sum. */
  lemma LeadingZeroChanges(m: seq<bv8>)
    ensures Crc([0] + m) != Crc(m)
  {
    StreamAppend([0], m);
    StreamOne(0);
    FeedAppend(Machine(), INIT, Bits(0), Stream(m));
    ByteStepIsFeed(INIT, 0);
    AfterZero();
    if Crc([0] + m) == Crc(m) {
      MachineLawful();
      FeedInjective(Machine(), Feed(Machine(), INIT, Bits(0)), INIT, Stream(m));
    }
  }

  lemma AfterZero()
    ensures ByteStep(INIT, 0) != INIT
  {
  }
}
