/** The check sum functions of lib/algorithm/src/protocol/crc.c on messages, and what a check sum at the end of a
    message detects. */
module CrcFrames {
  import opened BitStream
  import opened ShiftRegister
  import Crc8
  import Crc16

  // ----- the loops -----

  lemma FeedOneMore8(c: bv8, m: seq<bv8>, k: nat)
    requires k < |m|
    ensures Feed(Crc8.Machine(), c, Stream(m[..k + 1])) == Crc8.ByteStep(Feed(Crc8.Machine(), c, Stream(m[..k])), m[k])
  {
    assert m[..k + 1][..k] == m[..k];
    FeedAppend(Crc8.Machine(), c, Stream(m[..k]), Bits(m[k]));
    Crc8.ByteStepIsFeed(Feed(Crc8.Machine(), c, Stream(m[..k])), m[k]);
  }

  lemma FeedOneMore16(c: bv16, m: seq<bv8>, k: nat)
    requires k < |m|
    ensures Feed(Crc16.Machine(), c, Stream(m[..k + 1]))
         == Crc16.ByteStep(Feed(Crc16.Machine(), c, Stream(m[..k])), m[k])
  {
    assert m[..k + 1][..k] == m[..k];
    FeedAppend(Crc16.Machine(), c, Stream(m[..k]), Bits(m[k]));
    Crc16.ByteStepIsFeed(Feed(Crc16.Machine(), c, Stream(m[..k])), m[k]);
  }

  /** get_crc8_check_sum: the table-driven loop shifts in the message bit by bit. */
  method GetCrc8(m: array<bv8>, length: nat, start: bv8) returns (c: bv8)
    requires length <= m.Length
    ensures c == Feed(Crc8.Machine(), start, Stream(m[..length]))
  {
    c := start;
    var k := 0;
    while k < length
      invariant 0 <= k <= length && c == Feed(Crc8.Machine(), start, Stream(m[..k]))
    {
      FeedOneMore8(start, m[..], k);
      assert m[..][..k] == m[..k] && m[..][..k + 1] == m[..k + 1];
      c := Crc8.ByteStep(c, m[k]);
      k := k + 1;
    }
  }

  /** get_crc16_check_sum */
  method GetCrc16(m: array?<bv8>, length: nat, start: bv16) returns (c: bv16)
    requires m != null ==> length <= m.Length
    ensures c == if m == null then 0xffff else Feed(Crc16.Machine(), start, Stream(m[..length]))
  {
    if m == null {
      return 0xffff;
    }
    c := start;
    var k := 0;
    while k < length
      invariant 0 <= k <= length && c == Feed(Crc16.Machine(), start, Stream(m[..k]))
    {
      FeedOneMore16(start, m[..], k);
      assert m[..][..k] == m[..k] && m[..][..k + 1] == m[..k + 1];
      c := Crc16.ByteStep(c, m[k]);
      k := k + 1;
    }
  }

  // ----- messages with a check sum at the end -----

  function Low(c: bv16): bv8 {
    (c & 0x00ff) as bv8
  }

  function High(c: bv16): bv8 {
    ((c >> 8) & 0x00ff) as bv8
  }

  ghost predicate Sealed8(m: seq<bv8>) {
    |m| > 2 && m[|m| - 1] == Crc8.Crc(m[..|m| - 1])
  }

  ghost predicate Sealed16(m: seq<bv8>) {
    |m| > 2 && var c := Crc16.Crc(m[..|m| - 2]); m[|m| - 2] == Low(c) && m[|m| - 1] == High(c)
  }

  /** verify_crc8_check_sum */
  method VerifyCrc8(m: array?<bv8>, length: nat) returns (ok: bool)
    requires m != null ==> length <= m.Length
    ensures ok <==> m != null && Sealed8(m[..length])
  {
    if m == null || length <= 2 {
      return false;
    }
    var want := GetCrc8(m, length - 1, Crc8.INIT);
    assert m[..length][..length - 1] == m[..length - 1];
    return want == m[length - 1];
  }

  /** append_crc8_check_sum: it overwrites the last byte; what it leaves verifies. */
  method AppendCrc8(m: array?<bv8>, length: nat)
    requires m != null ==> length <= m.Length
    modifies if m == null then {} else {m}
    ensures m != null && length > 2 ==>
              Sealed8(m[..length]) && m[..length - 1] == old(m[..length - 1]) && m[length..] == old(m[length..])
    ensures m != null && length <= 2 ==> m[..] == old(m[..])
  {
    if m == null || length <= 2 {
      return;
    }
    var c := GetCrc8(m, length - 1, Crc8.INIT);
    m[length - 1] := c;
    assert m[..length][..length - 1] == m[..length - 1] == old(m[..length - 1]);
  }

  /** verify_crc16_check_sum */
  method VerifyCrc16(m: array?<bv8>, length: nat) returns (ok: bool)
    requires m != null ==> length <= m.Length
    ensures ok <==> m != null && Sealed16(m[..length])
  {
    if m == null || length <= 2 {
      return false;
    }
    var want := GetCrc16(m, length - 2, Crc16.INIT);
    assert m[..length][..length - 2] == m[..length - 2];
    return Low(want) == m[length - 2] && High(want) == m[length - 1];
  }

  /** append_crc16_check_sum: it overwrites the last two bytes, the low one first; what it leaves verifies. */
  method AppendCrc16(m: array?<bv8>, length: nat)
    requires m != null ==> length <= m.Length
    modifies if m == null then {} else {m}
    ensures m != null && length > 2 ==>
              Sealed16(m[..length]) && m[..length - 2] == old(m[..length - 2]) && m[length..] == old(m[length..])
    ensures m != null && length <= 2 ==> m[..] == old(m[..])
  {
    if m == null || length <= 2 {
      return;
    }
    var c := GetCrc16(m, length - 2, Crc16.INIT);
    m[length - 2] := Low(c);
    m[length - 1] := High(c);
    assert m[..length][..length - 2] == m[..length - 2] == old(m[..length - 2]);
  }

  // ----- a sealed message leaves the register at 0 -----

  lemma ByteShiftInjective8(a: bv8, b: bv8)
    requires Crc8.ByteShift(a) == Crc8.ByteShift(b)
    ensures a == b
  {
    Crc8.EightShifts(a);
    Crc8.EightShifts(b);
    Crc8.MachineLawful();
    ShiftsInjective(Crc8.Machine(), a, b, 8);
  }

  lemma ByteShiftInjective16(a: bv16, b: bv16)
    requires Crc16.ByteShift(a) == Crc16.ByteShift(b)
    ensures a == b
  {
    Crc16.EightShifts(a);
    Crc16.EightShifts(b);
    Crc16.MachineLawful();
    ShiftsInjective(Crc16.Machine(), a, b, 8);
  }

  lemma LastStep8(c: bv8, b: bv8)
    ensures Crc8.ByteStep(c, b) == 0 <==> b == c
  {
    Crc8.TableIsShift(c ^ b);
    assert Crc8.ByteShift(0) == 0;
    if Crc8.ByteStep(c, b) == 0 { ByteShiftInjective8(c ^ b, 0); }
    XorZero8(c, b);
  }

  lemma XorZero8(c: bv8, b: bv8)
    ensures c ^ b == 0 <==> b == c
  {
  }

  /** A message is sealed exactly when its check sum, the check sum byte included, is 0. */
  lemma SealedExactly8(m: seq<bv8>)
    requires |m| > 2
    ensures Sealed8(m) <==> Crc8.Crc(m) == 0
  {
    var k := |m| - 1;
    FeedOneMore8(Crc8.INIT, m, k);
    assert m[..k + 1] == m;
    LastStep8(Crc8.Crc(m[..k]), m[k]);
  }

  lemma StepIsShift16(c: bv16, b: bv8)
    ensures Crc16.ByteStep(c, b) == Crc16.ByteShift(c ^ (b as bv16))
  {
    Crc16.ByteStepIsFeed(c, b);
    Crc16.FeedByte(c, b);
    Crc16.EightShifts(c ^ (b as bv16));
  }

  lemma LastStep16(c: bv16, b: bv8)
    ensures Crc16.ByteStep(c, b) == 0 <==> c == b as bv16
  {
    StepIsShift16(c, b);
    assert Crc16.ByteShift(0) == 0;
    if Crc16.ByteStep(c, b) == 0 { ByteShiftInjective16(c ^ (b as bv16), 0); }
    XorZero16(c, b);
  }

  lemma XorZero16(c: bv16, b: bv8)
    ensures c ^ (b as bv16) == 0 <==> c == b as bv16
  {
  }

  lemma HighByteOnly(h: bv8)
    ensures Crc16.ByteShift((h as bv16) << 8) == h as bv16
  {
    Crc16.HighByteMovesDown((h as bv16) << 8);
    assert Crc16.ByteShift(0) == 0;
    assert ((h as bv16) << 8) & 0x00ff == 0 && ((h as bv16) << 8) >> 8 == h as bv16;
  }

  lemma BeforeLastStep16(c: bv16, l: bv8, h: bv8)
    ensures Crc16.ByteStep(c, l) == h as bv16 <==> l == Low(c) && h == High(c)
  {
    StepIsShift16(c, l);
    HighByteOnly(h);
    if Crc16.ByteStep(c, l) == h as bv16 { ByteShiftInjective16(c ^ (l as bv16), (h as bv16) << 8); }
    SplitBytes(c, l, h);
  }

  lemma SplitBytes(c: bv16, l: bv8, h: bv8)
    ensures c ^ (l as bv16) == (h as bv16) << 8 <==> l == Low(c) && h == High(c)
  {
  }

  lemma SealedExactly16(m: seq<bv8>)
    requires |m| > 2
    ensures Sealed16(m) <==> Crc16.Crc(m) == 0
  {
    TwoMore16(m, |m| - 2);
    LastTwoSteps16(Crc16.Crc(m[..|m| - 2]), m[|m| - 2], m[|m| - 1]);
  }

  lemma LastTwoSteps16(c: bv16, l: bv8, h: bv8)
    ensures Crc16.ByteStep(Crc16.ByteStep(c, l), h) == 0 <==> l == Low(c) && h == High(c)
  {
    LastStep16(Crc16.ByteStep(c, l), h);
    BeforeLastStep16(c, l, h);
  }

  lemma TwoMore16(m: seq<bv8>, k: nat)
    requires |m| == k + 2
    ensures Crc16.Crc(m) == Crc16.ByteStep(Crc16.ByteStep(Crc16.Crc(m[..k]), m[k]), m[k + 1])
  {
    FeedOneMore16(Crc16.INIT, m, k);
    FeedOneMore16(Crc16.INIT, m, k + 1);
    assert m[..k + 2] == m;
  }

  // ----- detection -----

  /** A sealed message is no longer sealed once a zero byte is put in front of it. */
  lemma LeadingZeroDetected8(m: seq<bv8>)
    requires Sealed8(m)
    ensures !Sealed8([0] + m)
  {
    SealedExactly8(m);
    SealedExactly8([0] + m);
    Crc8.LeadingZeroChanges(m);
  }

  lemma LeadingZeroDetected16(m: seq<bv8>)
    requires Sealed16(m)
    ensures !Sealed16([0] + m)
  {
    SealedExactly16(m);
    SealedExactly16([0] + m);
    Crc16.LeadingZeroChanges(m);
  }

  /** Any change within 8 consecutive bits, at any bit of a message of any length, changes its CRC8. */
  lemma Burst8(m: seq<bv8>, n: seq<bv8>, at: nat, count: nat)
    requires |m| == |n| && m != n && DifferWithin(Stream(m), Stream(n), at, count) && count <= 8
    ensures Crc8.Crc(m) != Crc8.Crc(n)
  {
    Crc8.MachineLawful();
    StreamUnique(m, n);
    BurstDetected(Crc8.Machine(), Crc8.INIT, Stream(m), Stream(n), at, count);
  }

  /** Any change within 16 consecutive bits changes the CRC16. */
  lemma Burst16(m: seq<bv8>, n: seq<bv8>, at: nat, count: nat)
    requires |m| == |n| && m != n && DifferWithin(Stream(m), Stream(n), at, count) && count <= 16
    ensures Crc16.Crc(m) != Crc16.Crc(n)
  {
    Crc16.MachineLawful();
    StreamUnique(m, n);
    BurstDetected(Crc16.Machine(), Crc16.INIT, Stream(m), Stream(n), at, count);
  }

  /** A sealed message in which one byte, its check sum or another, was changed is not sealed. */
  lemma OneByteDetected(m: seq<bv8>, i: nat, b: bv8)
    requires Sealed8(m) && i < |m| && m[i] != b
    ensures !Sealed8(m[i := b])
  {
    var n := m[i := b];
    BytesDifferWithin(m, n, i, 1);
    Burst8(m, n, 8 * i, 8);
    SealedExactly8(m);
    SealedExactly8(n);
  }

  /** The same for two adjacent bytes, even if they straddle message and check sum. */
  lemma TwoBytesDetected(m: seq<bv8>, i: nat, a: bv8, b: bv8)
    requires Sealed16(m) && i + 1 < |m| && (m[i] != a || m[i + 1] != b)
    ensures !Sealed16(m[i := a][i + 1 := b])
  {
    var n := m[i := a][i + 1 := b];
    assert n[i] == a && n[i + 1] == b;
    BytesDifferWithin(m, n, i, 2);
    Burst16(m, n, 8 * i, 16);
    SealedExactly16(m);
    SealedExactly16(n);
  }
}
