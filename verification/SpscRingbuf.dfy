/** The SPSC ring as memory while both sides are at work: a flat byte buffer and two wrapping positions, with one method
    for each atomic step of ringbuf_in, ringbuf_out, ringbuf_out_peek, ringbuf_update_in and ringbuf_update_out.  The
    two-piece copies go byte by byte, with steps of the other side in between.  Each method is proved to be the step of
    SpscProtocol on the abstract state. */
module SpscRingbuf {
  import opened RingArithmetic
  import opened RingSlots
  import opened SpscProtocol
  import R = Ringbuf

  /** ringbuf_copy_in and ringbuf_copy_out: where byte f of a copy of n items at position pos lies.  The copy is in two
      pieces, up to the end of the buffer and on from its start. */
  function ByteIndex(mask: nat, esize: nat, pos: nat, n: nat, f: nat): int {
    var size, off := (mask + 1) * esize, (pos % (mask + 1)) * esize;
    var copyLen := R.FirstPiece(size, off, n * esize);
    if f < copyLen then off + f else f - copyLen
  }

  lemma SlotOf(cap: nat, pos: nat, i: nat)
    requires 0 < cap && i < cap
    ensures (pos + i) % cap == if pos % cap + i < cap then pos % cap + i else pos % cap + i - cap
  {
    R.DistanceInverse(cap, pos, if pos % cap + i < cap then pos % cap + i else pos % cap + i - cap, i);
  }

  lemma Scaled(a: nat, b: nat, i: nat, e: nat)
    requires a >= b
    ensures (a - b) * e == a * e - b * e && (a + i) * e == a * e + i * e
  {
  }

  /** Whichever piece it is in, byte k of item i lies in the slot of that item. */
  lemma ByteIndexInSlot(mask: nat, esize: nat, pos: nat, n: nat, i: nat, k: nat)
    requires k < esize && i < n <= mask + 1
    ensures ByteIndex(mask, esize, pos, n, i * esize + k) == ((pos + i) % (mask + 1)) * esize + k
    ensures ((pos + i) % (mask + 1)) * esize + esize <= (mask + 1) * esize
  {
    var cap, p := mask + 1, pos % (mask + 1);
    SlotOf(cap, pos, i);
    RowFits(cap, esize, (pos + i) % cap);
    RowFits(n, esize, i);
    Scaled(cap, p, 0, esize);
    Scaled(p, p, i, esize);
    if p + i < cap {
      RowFits(cap - p, esize, i);
    } else {
      MulMono(cap - p, i, esize);
      Scaled(p + i, cap, 0, esize);
    }
  }

  /** So the byte read there is that byte of the slot, */
  lemma ByteRead(b: seq<Byte>, mask: nat, esize: nat, pos: nat, n: nat, i: nat, k: nat)
    requires |b| == (mask + 1) * esize && k < esize && i < n <= mask + 1
    ensures var y, row := ByteIndex(mask, esize, pos, n, i * esize + k),
            Rows(b, mask + 1, esize)[(pos + i) % (mask + 1)];
            0 <= y < |b| && |row| == esize && row[k] == b[y]
  {
    ByteIndexInSlot(mask, esize, pos, n, i, k);
  }

  /** and a byte written there changes that byte of the slot and nothing else. */
  lemma ByteWritten(b: seq<Byte>, mask: nat, esize: nat, pos: nat, n: nat, i: nat, k: nat, x: Byte)
    requires |b| == (mask + 1) * esize && k < esize && i < n <= mask + 1
    ensures var y, j, rows := ByteIndex(mask, esize, pos, n, i * esize + k), (pos + i) % (mask + 1),
            Rows(b, mask + 1, esize);
            0 <= y < |b| && |rows[j]| == esize && Rows(b[y := x], mask + 1, esize) == rows[j := rows[j][k := x]]
  {
    ByteIndexInSlot(mask, esize, pos, n, i, k);
    RowsUpdate(b, mask + 1, esize, (pos + i) % (mask + 1), k, x);
  }

  /** The consumer's place after one byte more. */
  function WithByte(c: Consumer, esize: nat, x: Byte): Consumer
    requires c.Reads?
  {
    if |c.part| + 1 < esize then c.(part := c.part + [x]) else c.(got := c.got + [c.part + [x]], part := [])
  }

  lemma ReadStep(s: State, x: Byte)
    requires Shape(s) && s.consumer.Reads? && |s.consumer.got| < s.consumer.n
    requires var row := s.slots[(s.consumer.pos + |s.consumer.got|) % s.cap];
             |s.consumer.part| < |row| && row[|s.consumer.part|] == x
    ensures Step(s, ReadByte) == s.(consumer := WithByte(s.consumer, s.esize, x))
  {
  }

  /** The producer's place after one byte more. */
  function PastByte(p: Producer, esize: nat): Producer
    requires p.Copies?
  {
    if p.k + 1 < esize then p.(k := p.k + 1) else p.(i := p.i + 1, k := 0)
  }

  lemma CopyStep(s: State)
    requires Shape(s) && s.producer.Copies? && s.producer.i < |s.producer.data|
    requires s.producer.k < |s.producer.data[s.producer.i]|
    requires s.producer.k < |s.slots[(s.producer.pos + s.producer.i) % s.cap]|
    ensures var p, at := s.producer, (s.producer.pos + s.producer.i) % s.cap;
            Step(s, CopyByte) == s.(producer := PastByte(p, s.esize),
                                    slots := s.slots[at := s.slots[at][p.k := p.data[p.i][p.k]]])
  {
  }

  class SpscRingbuf {
    const buf: array<Byte>
    const mask: nat   // capacity - 1
    const esize: nat
    var writePos: int
    var readPos: int
    // each side's place in the code
    var producer: Producer
    var consumer: Consumer
    // the history
    var accepted: seq<Item>
    var delivered: seq<Item>
    var peeked: seq<(nat, seq<Item>)>

    ghost predicate Valid() {
      0 < esize && buf.Length == (mask + 1) * esize && mask + 1 < U32 && U32 % (mask + 1) == 0
    }

    function View(): (s: State)
      requires Valid()
      reads this, buf
      ensures Sized(s)
    {
      RowsSized(buf[..], mask + 1, esize);
      State(mask + 1, esize, writePos, readPos, Rows(buf[..], mask + 1, esize), producer, consumer,
            accepted, delivered, peeked)
    }

    /** ringbuf_init, for a capacity that roundup_pow_of_two returned; the buffer keeps whatever it held. */
    constructor (buf: array<Byte>, itemSize: nat, itemCount: nat)
      requires 0 < itemSize && 0 < itemCount < U32 && U32 % itemCount == 0 && buf.Length == itemCount * itemSize
      ensures Valid() && this.buf == buf && View() == Init(itemCount, itemSize, Rows(buf[..], itemCount, itemSize))
    {
      this.buf, esize, mask := buf, itemSize, itemCount - 1;
      writePos, readPos, producer, consumer := 0, 0, Outside, Away;
      accepted, delivered, peeked := [], [], [];
    }

    // ----- the producer -----

    method CallIn(data: seq<Item>)
      requires Valid() && producer.Outside? && forall j :: 0 <= j < |data| ==> |data[j]| == esize
      modifies this`producer
      ensures Valid() && View() == Step(old(View()), In(data))
    {
      producer := LoadsRead(data, writePos);
    }

    method CallUpdateIn(count: nat)
      requires Valid() && producer.Outside?
      modifies this`producer
      ensures Valid() && View() == Step(old(View()), UpdateIn(count))
    {
      producer := LoadsReadToUpdate(count, writePos);
    }

    /** The load of readPos, and the cut of the count to the free slots. */
    method InLoadsRead()
      requires Valid() && (producer.LoadsRead? || producer.LoadsReadToUpdate?)
      modifies this`producer
      ensures Valid() && View() == Step(old(View()), LoadRead)
    {
      var avail := AvailCount(mask + 1, producer.pos, readPos);
      match producer
      case LoadsRead(data, pos) =>
        producer := Copies(data[..Min(|data|, avail)], pos, 0, 0);
      case LoadsReadToUpdate(count, pos) =>
        producer := StoresWrite(SlotsFrom(View(), pos, Min(count, avail)), pos);
    }

    /** One byte of ringbuf_copy_in, or its end. */
    method InCopies()
      requires Valid() && producer.Copies? && 0 <= producer.pos && |producer.data| <= mask + 1
      requires producer.i < |producer.data| ==> producer.k < |producer.data[producer.i]| == esize
      modifies this`producer, buf
      ensures Valid() && View() == Step(old(View()), CopyByte)
    {
      var Copies(data, pos, i, k) := producer;
      if i >= |data| {
        producer := StoresWrite(data, pos);
      } else {
        ByteWritten(buf[..], mask, esize, pos, |data|, i, k, data[i][k]);
        CopyStep(View());
        var at := ByteIndex(mask, esize, pos, |data|, i * esize + k);
        buf[at] := data[i][k];
        assert buf[..] == old(buf[..])[at := data[i][k]];
        producer := PastByte(producer, esize);
      }
    }

    /** The store of writePos; ringbuf_in and ringbuf_update_in return the number of items. */
    method InStoresWrite() returns (n: nat)
      requires Valid() && producer.StoresWrite?
      modifies this`producer, this`writePos, this`accepted
      ensures Valid() && View() == Step(old(View()), StoreWrite)
      ensures n <= |accepted| && accepted[..|accepted| - n] == old(accepted)
    {
      n := |producer.data|;
      writePos, accepted := (producer.pos + n) % U32, accepted + producer.data;
      producer := Outside;
    }

    // ----- the consumer -----

    method CallOut(kind: Kind, count: nat)
      requires Valid() && consumer.Away?
      modifies this`consumer
      ensures Valid() && View() == Step(old(View()), Out(kind, count))
    {
      consumer := LoadsWrite(kind, count, readPos);
    }

    /** The load of writePos, and the cut of the count to what is there. */
    method OutLoadsWrite()
      requires Valid() && consumer.LoadsWrite?
      modifies this`consumer
      ensures Valid() && View() == Step(old(View()), LoadWrite)
    {
      var LoadsWrite(kind, count, pos) := consumer;
      var n := Min(count, UsedCount(writePos, pos));
      consumer := if kind.Skip? then StoresRead(SlotsFrom(View(), pos, n), pos) else Reads(kind.Peek?, n, pos, [], []);
    }

    /** One byte of ringbuf_copy_out, or its end, where a peek returns. */
    method OutReads()
      requires Valid() && consumer.Reads? && 0 <= consumer.pos && consumer.n <= mask + 1 && |consumer.part| < esize
      modifies this`consumer, this`peeked
      ensures Valid() && View() == Step(old(View()), ReadByte)
    {
      var Reads(peek, n, pos, got, part) := consumer;
      if |got| < n {
        ByteRead(buf[..], mask, esize, pos, n, |got|, |part|);
        var x := buf[ByteIndex(mask, esize, pos, n, |got| * esize + |part|)];
        ReadStep(View(), x);
        consumer := WithByte(consumer, esize, x);
      } else if peek {
        consumer, peeked := Away, peeked + [(|delivered|, got)];
      } else {
        consumer := StoresRead(got, pos);
      }
    }

    /** The store of readPos; ringbuf_out returns the items. */
    method OutStoresRead() returns (items: seq<Item>)
      requires Valid() && consumer.StoresRead?
      modifies this`consumer, this`readPos, this`delivered
      ensures Valid() && View() == Step(old(View()), StoreRead) && delivered == old(delivered) + items
    {
      items := consumer.got;
      readPos, delivered := (consumer.pos + |items|) % U32, delivered + items;
      consumer := Away;
    }
  }
}
