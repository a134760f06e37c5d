/** The SPSC ring as memory: a flat byte buffer and two wrapping positions, with the source's
    two-piece copies, proved against the queue of SpscSafety. */
module Ringbuf {
  import opened RingArithmetic
  import opened RingSlots
  import opened SpscProtocol
  import opened SpscSafety

  // ----- the two-piece copy -----

  /** The length of the first piece: up to the end of the buffer at most. */
  function FirstPiece(size: nat, off: nat, len: nat): int {
    if len < size - off then len else size - off
  }

  /** Which byte of the copied data belongs at buffer index y; -1 when the copy leaves y alone. */
  function Source(size: nat, off: nat, len: nat, y: nat): int {
    var first := FirstPiece(size, off, len);
    if off <= y < off + first then y - off else if y < len - first then first + y else -1
  }

  lemma PiecesFit(cap: nat, esize: nat, p: nat, n: nat)
    requires p < cap && n <= cap
    ensures p * esize <= cap * esize && n * esize <= cap * esize
  {
    MulMono(p, cap, esize);
    MulMono(n, cap, esize);
  }

  /** How many slots after slot p, going round, slot x comes. */
  function Distance(cap: nat, p: nat, x: nat): int {
    if x >= p then x - p else x + cap - p
  }

  lemma MulDistributes(a: int, b: int, c: int)
    ensures (a + b) * c == a * c + b * c && (a - b) * c == a * c - b * c
  {
  }

  /** Whichever piece slot x is in, its byte k is byte k of the item as far on in the data, and a slot beyond the
      data is left alone. */
  lemma SlotSource(cap: nat, esize: nat, p: nat, n: nat, x: nat, k: nat)
    requires p < cap && n <= cap && x < cap && k < esize
    ensures var i := Distance(cap, p, x);
            Source(cap * esize, p * esize, n * esize, x * esize + k) == if i < n then i * esize + k else -1
  {
    var i := Distance(cap, p, x);
    MulDistributes(cap, p, esize);
    MulDistributes(x, p, esize);
    MulDistributes(x + cap, p, esize);
    MulDistributes(x, cap, esize);
    RowFits(cap, esize, x);
    MulMono(p, cap, esize);
    if i < n { RowFits(n, esize, i); } else { MulMono(n, i, esize); }
    if x < p { RowFits(p, esize, x); } else { MulMono(p, x, esize); }
    MulMono(n, cap, esize);
  }

  /** Slot x once `data` has been laid from slot p on, going round. */
  function SlotAfter(was: seq<Item>, p: nat, data: seq<Item>, x: nat): Item
    requires p < |was| && x < |was| && |data| <= |was|
  {
    var i := Distance(|was|, p, x);
    if i < |data| then data[i] else was[x]
  }

  ghost predicate Overlaid(was: seq<Item>, now: seq<Item>, p: nat, data: seq<Item>)
    requires p < |was| && |data| <= |was|
  {
    |now| == |was| && forall x :: 0 <= x < |was| ==> now[x] == SlotAfter(was, p, data, x)
  }

  lemma DistanceInverse(cap: nat, pos: nat, x: nat, i: nat)
    requires 0 < cap && x < cap && i < cap
    ensures Distance(cap, pos % cap, x) == i <==> (pos + i) % cap == x
  {
    var p, turn := pos % cap, pos / cap;
    assert pos == turn * cap + p;
    assert (turn + 1) * cap == turn * cap + cap;
    if p + i < cap { ModUnique(cap, turn, p + i); } else { ModUnique(cap, turn + 1, p + i - cap); }
  }

  lemma RowsAt(b: seq<Byte>, n: nat, esize: nat, i: nat)
    requires n * esize <= |b| && i < n
    ensures i * esize + esize <= |b| && Rows(b, n, esize)[i] == b[i * esize..i * esize + esize]
  {
    RowFits(n, esize, i);
  }

  lemma AllRowsSized(b: seq<Byte>, n: nat, esize: nat)
    requires n * esize <= |b|
    ensures AllSized(Rows(b, n, esize), esize)
  {
    forall i | 0 <= i < n ensures |Rows(b, n, esize)[i]| == esize { RowsAt(b, n, esize, i); }
  }

  /** Fewer rows are a prefix. */
  lemma FewerRows(b: seq<Byte>, m: nat, n: nat, esize: nat)
    requires m <= n && n * esize <= |b|
    ensures m * esize <= |b| && Rows(b, n, esize)[..m] == Rows(b[..m * esize], m, esize)
  {
    MulMono(m, n, esize);
    forall i | 0 <= i < m ensures Rows(b, n, esize)[i] == Rows(b[..m * esize], m, esize)[i] {
      RowsAt(b, n, esize, i);
      RowsAt(b[..m * esize], m, esize, i);
    }
  }

  /** `b` with `data` written over it at index `at`. */
  function Spliced(b: seq<Byte>, at: nat, data: seq<Byte>): (c: seq<Byte>)
    requires at + |data| <= |b|
    ensures |c| == |b| && forall y :: 0 <= y < |b| ==> c[y] == if at <= y < at + |data| then data[y - at] else b[y]
  {
    b[..at] + data + b[at + |data|..]
  }

  /** `c` is `b` after `src` was copied in from offset `off`, in two pieces. */
  ghost predicate CopiedIn(b: seq<Byte>, c: seq<Byte>, src: seq<Byte>, off: nat) {
    |c| == |b| && forall y :: 0 <= y < |c| ==> FromSource(b, c[y], src, Source(|b|, off, |src|, y), y)
  }

  predicate FromSource(b: seq<Byte>, got: Byte, src: seq<Byte>, from: int, y: int)
    requires 0 <= y < |b|
  {
    from < |src| && got == if 0 <= from then src[from] else b[y]
  }

  lemma TwoPiecesIn(b: seq<Byte>, src: seq<Byte>, off: nat)
    requires off <= |b| && |src| <= |b|
    ensures var first := FirstPiece(|b|, off, |src|);
            CopiedIn(b, Spliced(Spliced(b, off, src[0..first]), 0, src[first..first + (|src| - first)]), src, off)
  {
  }

  lemma PieceCopied(b: seq<Byte>, c: seq<Byte>, src: seq<Byte>, off: nat, lo: nat, from: nat, n: nat)
    requires CopiedIn(b, c, src, off) && lo + n <= |c| && from + n <= |src|
    requires forall y :: lo <= y < lo + n ==> Source(|b|, off, |src|, y) == y - lo + from
    ensures c[lo..lo + n] == src[from..from + n]
  {
    forall y | lo <= y < lo + n ensures c[y] == src[y - lo + from] {
      assert FromSource(b, c[y], src, Source(|b|, off, |src|, y), y);
    }
  }

  lemma PieceLeft(b: seq<Byte>, c: seq<Byte>, src: seq<Byte>, off: nat, lo: nat, n: nat)
    requires CopiedIn(b, c, src, off) && lo + n <= |c|
    requires forall y :: lo <= y < lo + n ==> Source(|b|, off, |src|, y) == -1
    ensures c[lo..lo + n] == b[lo..lo + n]
  {
    forall y | lo <= y < lo + n ensures c[y] == b[y] {
      assert FromSource(b, c[y], src, Source(|b|, off, |src|, y), y);
    }
  }

  lemma SlotSources(cap: nat, esize: nat, p: nat, n: nat, x: nat)
    requires p < cap && n <= cap && x < cap
    ensures var lo, i := x * esize, Distance(cap, p, x);
            forall y :: lo <= y < lo + esize ==>
              Source(cap * esize, p * esize, n * esize, y) == if i < n then y - lo + i * esize else -1
  {
    var lo, i := x * esize, Distance(cap, p, x);
    forall y | lo <= y < lo + esize
      ensures Source(cap * esize, p * esize, n * esize, y) == if i < n then y - lo + i * esize else -1
    {
      SlotSource(cap, esize, p, n, x, y - lo);
    }
  }

  lemma BytesFilled(b: seq<Byte>, c: seq<Byte>, src: seq<Byte>, cap: nat, esize: nat, p: nat, n: nat, x: nat)
    requires p < cap && n <= cap && x < cap && |b| == cap * esize && |src| == n * esize &&
             CopiedIn(b, c, src, p * esize)
    requires Distance(cap, p, x) < n
    ensures var lo, from := x * esize, Distance(cap, p, x) * esize;
            lo + esize <= |c| && from + esize <= |src| && c[lo..lo + esize] == src[from..from + esize]
  {
    RowFits(cap, esize, x);
    RowFits(n, esize, Distance(cap, p, x));
    SlotSources(cap, esize, p, n, x);
    PieceCopied(b, c, src, p * esize, x * esize, Distance(cap, p, x) * esize, esize);
  }

  lemma SlotFilled(b: seq<Byte>, c: seq<Byte>, src: seq<Byte>, cap: nat, esize: nat, p: nat, n: nat, x: nat)
    requires p < cap && n <= cap && x < cap && |b| == cap * esize && |src| == n * esize &&
             CopiedIn(b, c, src, p * esize)
    requires Distance(cap, p, x) < n
    ensures Rows(c, cap, esize)[x] == Rows(src, n, esize)[Distance(cap, p, x)]
  {
    BytesFilled(b, c, src, cap, esize, p, n, x);
    RowsAt(c, cap, esize, x);
    RowsAt(src, n, esize, Distance(cap, p, x));
  }

  lemma SlotKept(b: seq<Byte>, c: seq<Byte>, src: seq<Byte>, cap: nat, esize: nat, p: nat, n: nat, x: nat)
    requires p < cap && n <= cap && x < cap && |b| == cap * esize && |src| == n * esize &&
             CopiedIn(b, c, src, p * esize)
    requires Distance(cap, p, x) >= n
    ensures Rows(c, cap, esize)[x] == Rows(b, cap, esize)[x]
  {
    RowsAt(c, cap, esize, x);
    RowsAt(b, cap, esize, x);
    SlotSources(cap, esize, p, n, x);
    PieceLeft(b, c, src, p * esize, x * esize, esize);
  }

  /** The two-piece copy lays the items into the slots from p on, going round, and touches no other slot. */
  lemma RowsOverlaid(b: seq<Byte>, c: seq<Byte>, src: seq<Byte>, cap: nat, esize: nat, p: nat, n: nat)
    requires p < cap && n <= cap && |b| == cap * esize && |src| == n * esize && CopiedIn(b, c, src, p * esize)
    ensures Overlaid(Rows(b, cap, esize), Rows(c, cap, esize), p, Rows(src, n, esize))
  {
    var was, now, data := Rows(b, cap, esize), Rows(c, cap, esize), Rows(src, n, esize);
    forall x | 0 <= x < cap ensures now[x] == SlotAfter(was, p, data, x) {
      if Distance(cap, p, x) < n {
        SlotFilled(b, c, src, cap, esize, p, n, x);
      } else {
        SlotKept(b, c, src, cap, esize, p, n, x);
      }
    }
  }

  /** `d` is what a copy out of `b` from offset `off` brings. */
  ghost predicate CopiedOut(b: seq<Byte>, d: seq<Byte>, off: nat) {
    var first := FirstPiece(|b|, off, |d|);
    forall c :: 0 <= c < |d| ==> var y := if c < first then off + c else c - first; 0 <= y < |b| && d[c] == b[y]
  }

  lemma TwoPiecesOut(b: seq<Byte>, d: seq<Byte>, off: nat)
    requires off <= |b| && |d| <= |b|
    requires var first := FirstPiece(|b|, off, |d|); d == b[off..off + first] + b[..|d| - first]
    ensures CopiedOut(b, d, off)
  {
  }

  lemma PieceBrought(b: seq<Byte>, d: seq<Byte>, off: nat, lo: nat, from: nat, n: nat)
    requires CopiedOut(b, d, off) && from + n <= |d| && lo + n <= |b|
    requires forall y :: lo <= y < lo + n ==> Source(|b|, off, |d|, y) == y - lo + from
    ensures d[from..from + n] == b[lo..lo + n]
  {
    forall c | from <= c < from + n ensures d[c] == b[c - from + lo] {
      var y := c - from + lo;
      assert Source(|b|, off, |d|, y) == c;
    }
  }

  /** What the copy in the other direction brings as item i. */
  lemma ItemAfterCopyOut(b: seq<Byte>, d: seq<Byte>, cap: nat, esize: nat, p: nat, n: nat, x: nat)
    requires p < cap && n <= cap && x < cap && |b| == cap * esize && |d| == n * esize && Distance(cap, p, x) < n
    requires CopiedOut(b, d, p * esize)
    ensures Rows(d, n, esize)[Distance(cap, p, x)] == Rows(b, cap, esize)[x]
  {
    var i := Distance(cap, p, x);
    RowsAt(b, cap, esize, x);
    RowsAt(d, n, esize, i);
    SlotSources(cap, esize, p, n, x);
    PieceBrought(b, d, p * esize, x * esize, i * esize, esize);
  }

  /** The copy in the other direction brings the items of the slots from p on, going round. */
  lemma RowsBrought(b: seq<Byte>, d: seq<Byte>, cap: nat, esize: nat, pos: nat, n: nat)
    requires 0 < cap && n <= cap && |b| == cap * esize && |d| == n * esize && CopiedOut(b, d, (pos % cap) * esize)
    ensures forall i :: 0 <= i < n ==> Rows(d, n, esize)[i] == Rows(b, cap, esize)[(pos + i) % cap]
  {
    forall i | 0 <= i < n ensures Rows(d, n, esize)[i] == Rows(b, cap, esize)[(pos + i) % cap] {
      DistanceInverse(cap, pos, (pos + i) % cap, i);
      ItemAfterCopyOut(b, d, cap, esize, pos % cap, n, (pos + i) % cap);
    }
  }

  lemma OverlayKeepsStored(s: State, data: seq<Item>, slots: seq<Item>)
    requires Inv(s) && |data| <= s.cap - |Queue(s)| && Overlaid(s.slots, slots, s.writePos % s.cap, data)
    ensures Stored(s.(slots := slots))
  {
    var w := |s.accepted|;
    forall q | |s.delivered| <= q < w ensures slots[q % s.cap] == s.accepted[q] {
      var i := q + s.cap - w;
      SameSlotNextTurn(s.cap, q);
      TrueSlot(s.cap, w, i);
      DistanceInverse(s.cap, s.writePos, q % s.cap, i);
      assert slots[q % s.cap] == SlotAfter(s.slots, s.writePos % s.cap, data, q % s.cap);
    }
  }

  lemma OverlaidAt(s: State, data: seq<Item>, slots: seq<Item>, j: nat)
    requires Inv(s) && |data| <= s.cap && Overlaid(s.slots, slots, s.writePos % s.cap, data) && j < |data|
    ensures slots[(|s.accepted| + j) % s.cap] == data[j]
  {
    var x := (|s.accepted| + j) % s.cap;
    TrueSlot(s.cap, |s.accepted|, j);
    DistanceInverse(s.cap, s.writePos, x, j);
    assert slots[x] == SlotAfter(s.slots, s.writePos % s.cap, data, x);
  }

  lemma OverlayHolds(s: State, data: seq<Item>, slots: seq<Item>)
    requires Inv(s) && |data| <= s.cap && Overlaid(s.slots, slots, s.writePos % s.cap, data)
    ensures Holds(s.(slots := slots), |s.accepted|, data)
  {
    forall j | 0 <= j < |data| ensures slots[(|s.accepted| + j) % s.cap] == data[j] { OverlaidAt(s, data, slots, j); }
  }

  /** Copying whole items into the free slots from position w on keeps everything. */
  lemma CopyInKeepsInv(s: State, data: seq<Item>, slots: seq<Item>)
    requires Inv(s) && s.producer.Outside? && s.consumer.Away? && AllSized(data, s.esize) &&
             |data| <= s.cap - |Queue(s)|
    requires Overlaid(s.slots, slots, s.writePos % s.cap, data)
    ensures Inv(s.(slots := slots, producer := StoresWrite(data, s.writePos)))
  {
    OverlayKeepsStored(s, data, slots);
    OverlayHolds(s, data, slots);
    forall x | 0 <= x < s.cap ensures |slots[x]| == s.esize {
      assert slots[x] == SlotAfter(s.slots, s.writePos % s.cap, data, x);
    }
  }

  /** The state once items copied into the free slots are published. */
  ghost function Published(s: State, slots: seq<Item>, data: seq<Item>): State {
    s.(slots := slots, writePos := (s.writePos + |data|) % U32, accepted := s.accepted + data)
  }

  lemma PublishStep(s: State, slots: seq<Item>, data: seq<Item>)
    requires Shape(s) && |slots| == s.cap && s.producer.Outside?
    ensures Step(s.(slots := slots, producer := StoresWrite(data, s.writePos)), StoreWrite) == Published(s, slots, data)
  {
  }

  lemma CopyAndPublish(s: State, data: seq<Item>, slots: seq<Item>)
    requires Inv(s) && s.producer.Outside? && s.consumer.Away? && AllSized(data, s.esize) &&
             |data| <= s.cap - |Queue(s)|
    requires Overlaid(s.slots, slots, s.writePos % s.cap, data)
    ensures Inv(Published(s, slots, data)) && Queue(Published(s, slots, data)) == Queue(s) + data
  {
    CopyInKeepsInv(s, data, slots);
    PublishStep(s, slots, data);
    StoreWriteKeepsInv(s.(slots := slots, producer := StoresWrite(data, s.writePos)));
  }

  lemma PublishInPlace(s: State, n: nat)
    requires Inv(s) && s.producer.Outside? && n <= s.cap - |Queue(s)|
    ensures var data := SlotsFrom(s, s.writePos, n);
            Inv(Published(s, s.slots, data)) && Queue(Published(s, s.slots, data)) == Queue(s) + data
  {
    var data := SlotsFrom(s, s.writePos, n);
    var t := s.(slots := s.slots, producer := StoresWrite(data, s.writePos));
    SlotsFromTrue(s, |s.accepted|, n);
    ReadyToPublish(s, data);
    PublishStep(s, s.slots, data);
    StoreWriteKeepsInv(t);
  }

  lemma ReadyToPublish(s: State, data: seq<Item>)
    requires Inv(s) && s.producer.Outside? && |data| <= s.cap - |Queue(s)|
    requires AllSized(data, s.esize) && Holds(s, |s.accepted|, data)
    ensures Inv(s.(slots := s.slots, producer := StoresWrite(data, s.writePos)))
  {
  }

  lemma PeekedItems(s: State, items: seq<Item>)
    requires Inv(s) && |items| <= |Queue(s)|
    requires forall i :: 0 <= i < |items| ==> items[i] == s.slots[(s.readPos + i) % s.cap]
    ensures items == Queue(s)[..|items|]
  {
    QueueAtSlots(s, |items|);
    assert items == SlotsFrom(s, s.readPos, |items|);
  }

  lemma Released(s: State, n: nat)
    requires Inv(s) && s.consumer.Away? && n <= |Queue(s)|
    ensures var t := s.(readPos := (s.readPos + n) % U32, delivered := s.delivered + Queue(s)[..n]);
            Inv(t) && Queue(t) == Queue(s)[n..]
  {
    QueueFront(s, n);
    RemovedKeepsInv(s, n);
  }

  lemma QueueFront(s: State, n: nat)
    requires |s.delivered| + n <= |s.accepted|
    ensures Queue(s)[..n] == s.accepted[|s.delivered|..|s.delivered| + n]
    ensures Queue(Removed(s, n)) == Queue(s)[n..]
  {
  }

  class Ringbuf {
    const buf: array<Byte>
    const mask: nat   // capacity - 1
    const esize: nat
    var writePos: int
    var readPos: int
    ghost var accepted: seq<Item>
    ghost var delivered: seq<Item>

    ghost predicate Sizes() {
      0 < esize && buf.Length == (mask + 1) * esize < U32 && mask + 1 < U32 && U32 % (mask + 1) == 0
    }

    /** The ring with neither side inside a call. */
    ghost function View(): State
      reads this, buf
    {
      State(mask + 1, esize, writePos, readPos, Rows(buf[..], mask + 1, esize), Outside, Away, accepted, delivered, [])
    }

    ghost predicate Valid()
      reads this, buf
    {
      Sizes() && Inv(View())
    }

    ghost function Contents(): seq<Item>
      requires Valid()
      reads this, buf
    {
      Queue(View())
    }

    /** ringbuf_init, for a capacity that roundup_pow_of_two returned; the buffer keeps whatever it held. */
    constructor (buf: array<Byte>, itemSize: nat, itemCount: nat)
      requires 0 < itemSize && 0 < itemCount < U32 && U32 % itemCount == 0
      requires buf.Length == itemCount * itemSize < U32
      ensures Valid() && this.buf == buf && mask + 1 == itemCount && esize == itemSize && Contents() == []
    {
      this.buf, esize, mask := buf, itemSize, itemCount - 1;
      writePos, readPos, accepted, delivered := 0, 0, [], [];
      new;
      RowsSized(buf[..], mask + 1, esize);
    }

    /** memcpy of the n bytes of src from `from` on to buffer index `at`. */
    method CopyRunIn(at: nat, src: seq<Byte>, from: nat, n: nat)
      requires at + n <= buf.Length && from + n <= |src|
      modifies buf
      ensures buf[..] == Spliced(old(buf[..]), at, src[from..from + n])
    {
      var j := 0;
      while j < n
        invariant 0 <= j <= n && buf[..] == Spliced(old(buf[..]), at, src[from..from + j])
      {
        buf[at + j] := src[from + j];
        j := j + 1;
      }
    }

    /** The two memcpy calls of ringbuf_copy_in. */
    method CopyPiecesIn(src: seq<Byte>, off: nat)
      requires off <= buf.Length && |src| <= buf.Length
      modifies buf
      ensures CopiedIn(old(buf[..]), buf[..], src, off)
    {
      var copyLen := FirstPiece(buf.Length, off, |src|);
      TwoPiecesIn(buf[..], src, off);
      CopyRunIn(off, src, 0, copyLen);
      CopyRunIn(0, src, copyLen, |src| - copyLen);
    }

    /** ringbuf_copy_in.  No product reaches 2^32: each is at most the length of the buffer. */
    method CopyIn(src: seq<Byte>, count: nat, off0: nat)
      requires Sizes() && count <= mask + 1 && |src| == count * esize
      modifies buf
      ensures Overlaid(old(Rows(buf[..], mask + 1, esize)), Rows(buf[..], mask + 1, esize),
                       off0 % (mask + 1), Rows(src, count, esize))
    {
      PiecesFit(mask + 1, esize, off0 % (mask + 1), count);
      ghost var b := buf[..];
      CopyPiecesIn(src, (off0 % (mask + 1)) * esize);
      RowsOverlaid(b, buf[..], src, mask + 1, esize, off0 % (mask + 1), count);
    }

    /** ringbuf_in with no consumer step in between: it appends the items that fit and returns their number. */
    method In(src: seq<Byte>, count: nat) returns (n: nat)
      requires Valid() && |src| == count * esize && count < U32
      modifies this`writePos, this`accepted, buf
      ensures Valid() && n == Min(count, mask + 1 - |old(Contents())|)
      ensures Contents() == old(Contents()) + Rows(src, count, esize)[..n]
    {
      ghost var s := View();
      TrueAvail(mask + 1, |accepted|, |delivered|);
      n := AvailCount(mask + 1, writePos, readPos);
      if count < n { n := count; }
      MulMono(n, count, esize);
      ghost var data := Rows(src[..n * esize], n, esize);
      AllRowsSized(src[..n * esize], n, esize);
      FewerRows(src, n, count, esize);
      CopyIn(src[..n * esize], n, writePos);
      CopyAndPublish(s, data, Rows(buf[..], mask + 1, esize));
      writePos := (writePos + n) % U32;
      accepted := accepted + data;
      assert View() == Published(s, Rows(buf[..], mask + 1, esize), data);
    }

    /** ringbuf_update_in: it publishes the items that the caller wrote into the slots in place. */
    method UpdateIn(count: nat) returns (n: nat)
      requires Valid() && count < U32
      modifies this`writePos, this`accepted
      ensures Valid() && n == Min(count, mask + 1 - |old(Contents())|)
      ensures Contents() == old(Contents()) + SlotsFrom(old(View()), old(writePos), n)
    {
      ghost var s := View();
      TrueAvail(mask + 1, |accepted|, |delivered|);
      n := AvailCount(mask + 1, writePos, readPos);
      if count < n { n := count; }
      PublishInPlace(s, n);
      writePos := (writePos + n) % U32;
      accepted := accepted + SlotsFrom(s, s.writePos, n);
      assert View() == Published(s, s.slots, SlotsFrom(s, s.writePos, n));
    }

    // ----- ringbuf_out -----

    /** memcpy of n bytes from buffer index `at` on to index `to` of dst. */
    method CopyRunOut(dst: array<Byte>, to: nat, at: nat, n: nat)
      requires dst != buf && at + n <= buf.Length && to + n <= dst.Length
      modifies dst
      ensures dst[..] == Spliced(old(dst[..]), to, buf[at..at + n])
    {
      var j := 0;
      while j < n
        invariant 0 <= j <= n && dst[..] == Spliced(old(dst[..]), to, buf[at..at + j])
      {
        dst[to + j] := buf[at + j];
        j := j + 1;
      }
    }

    /** The two memcpy calls of ringbuf_copy_out. */
    method CopyPiecesOut(dst: array<Byte>, off: nat, len: nat)
      requires dst != buf && off <= buf.Length && len <= buf.Length && len <= dst.Length
      modifies dst
      ensures CopiedOut(buf[..], dst[..len], off) && dst[len..] == old(dst[len..])
    {
      var copyLen := FirstPiece(buf.Length, off, len);
      CopyRunOut(dst, 0, off, copyLen);
      CopyRunOut(dst, copyLen, 0, len - copyLen);
      assert dst[..len] == buf[off..off + copyLen] + buf[..len - copyLen];
      TwoPiecesOut(buf[..], dst[..len], off);
    }

    /** ringbuf_copy_out */
    method CopyOut(dst: array<Byte>, count: nat, off0: nat)
      requires Sizes() && dst != buf && count <= mask + 1 && count * esize <= dst.Length
      modifies dst
      ensures forall i :: 0 <= i < count ==>
                Rows(dst[..count * esize], count, esize)[i] == Rows(buf[..], mask + 1, esize)[(off0 + i) % (mask + 1)]
      ensures dst[count * esize..] == old(dst[count * esize..])
    {
      PiecesFit(mask + 1, esize, off0 % (mask + 1), count);
      CopyPiecesOut(dst, (off0 % (mask + 1)) * esize, count * esize);
      RowsBrought(buf[..], dst[..count * esize], mask + 1, esize, off0, count);
    }

    /** `used_count = write_pos - read_pos` and the cut to it. */
    method UpToUsed(count: nat) returns (n: nat)
      requires Valid()
      ensures n == Min(count, |Contents()|)
    {
      TrueUsed(|accepted|, |delivered|);
      n := UsedCount(writePos, readPos);
      if count < n { n := count; }
    }

    /** ringbuf_out_peek: it copies out the oldest items, as many as asked for or as there are. */
    method OutPeek(dst: array<Byte>, count: nat) returns (n: nat)
      requires Valid() && dst != buf && count * esize <= dst.Length && count < U32
      modifies dst
      ensures Valid() && n == Min(count, |Contents()|) && n * esize <= dst.Length
      ensures Rows(dst[..n * esize], n, esize) == Contents()[..n] && dst[n * esize..] == old(dst[n * esize..])
    {
      n := UpToUsed(count);
      MulMono(n, count, esize);
      ghost var s := View();
      CopyOut(dst, n, readPos);
      PeekedItems(s, Rows(dst[..n * esize], n, esize));
    }

    method Release(n: nat)
      requires Valid() && n <= |Contents()|
      modifies this`readPos, this`delivered
      ensures Valid() && Contents() == old(Contents())[n..]
    {
      ghost var s := View();
      Released(s, n);
      readPos := (readPos + n) % U32;
      delivered := delivered + Queue(s)[..n];
      assert View() == s.(readPos := readPos, delivered := delivered);
    }

    /** ringbuf_out: it removes what it copies out. */
    method Out(dst: array<Byte>, count: nat) returns (n: nat)
      requires Valid() && dst != buf && count * esize <= dst.Length && count < U32
      modifies dst, this`readPos, this`delivered
      ensures Valid() && n == Min(count, |old(Contents())|) && n * esize <= dst.Length
      ensures old(Contents()) == Rows(dst[..n * esize], n, esize) + Contents()
      ensures dst[n * esize..] == old(dst[n * esize..])
    {
      n := OutPeek(dst, count);
      Release(n);
    }

    /** ringbuf_update_out: it drops the oldest items. */
    method UpdateOut(count: nat) returns (n: nat)
      requires Valid() && count < U32
      modifies this`readPos, this`delivered
      ensures Valid() && n == Min(count, |old(Contents())|) && Contents() == old(Contents())[n..]
    {
      n := UpToUsed(count);
      Release(n);
    }

    // ----- queries -----

    /** ringbuf_len, ringbuf_avail, ringbuf_is_full and ringbuf_is_empty */
    method Queries() returns (len: nat, avail: nat, full: bool, empty: bool)
      requires Valid()
      ensures len == |Contents()| && avail == mask + 1 - len && (full <==> len == mask + 1) &&
              (empty <==> Contents() == [])
    {
      QueriesExact(View(), View());
      len := UsedCount(writePos, readPos);
      avail := (mask + 1 - len) % U32;
      full := len > mask;
      empty := writePos == readPos;
    }
  }
}
