/** The fixed-size slots of a flat byte buffer. */
module RingSlots {
  import opened RingArithmetic

  newtype Byte = b: int | 0 <= b < 256
  type Item = seq<Byte>

  /** Slot i of a buffer of `esize`-byte slots. */
  function Row(b: seq<Byte>, esize: nat, i: nat): Item {
    if i * esize + esize <= |b| then b[i * esize..i * esize + esize] else []
  }

  function Rows(b: seq<Byte>, cap: nat, esize: nat): seq<Item> {
    seq(cap, i requires 0 <= i => Row(b, esize, i))
  }

  lemma RowFits(cap: nat, esize: nat, i: nat)
    requires i < cap
    ensures i * esize + esize <= cap * esize
  {
    MulMono(i + 1, cap, esize);
    assert (i + 1) * esize == i * esize + esize;
  }

  lemma RowsSized(b: seq<Byte>, cap: nat, esize: nat)
    requires |b| == cap * esize
    ensures forall i :: 0 <= i < cap ==> |Rows(b, cap, esize)[i]| == esize
  {
    forall i | 0 <= i < cap ensures |Rows(b, cap, esize)[i]| == esize { RowFits(cap, esize, i); }
  }

  /** Writing byte k of slot i changes that byte of that slot and no other slot. */
  lemma RowsUpdate(b: seq<Byte>, cap: nat, esize: nat, i: nat, k: nat, x: Byte)
    requires |b| == cap * esize && i < cap && k < esize
    ensures i * esize + k < |b| && |Rows(b, cap, esize)[i]| == esize
    ensures Rows(b[i * esize + k := x], cap, esize) == Rows(b, cap, esize)[i := Rows(b, cap, esize)[i][k := x]]
  {
    RowsSized(b, cap, esize);
    RowFits(cap, esize, i);
    var c := b[i * esize + k := x];
    forall j | 0 <= j < cap ensures Row(c, esize, j) == if i == j then Row(b, esize, j)[k := x] else Row(b, esize, j) {
      RowFits(cap, esize, j);
      if j < i { RowFits(i, esize, j); }
      if j > i { RowFits(j, esize, i); }
      SliceUpdate(b, i * esize + k, x, j * esize, esize);
    }
  }

  lemma SliceUpdate(b: seq<Byte>, at: nat, x: Byte, lo: nat, n: nat)
    requires at < |b| && lo + n <= |b|
    ensures b[at := x][lo..lo + n] == if lo <= at < lo + n then b[lo..lo + n][at - lo := x] else b[lo..lo + n]
  {
  }
}
