/** The MPSC ring as memory: a flat byte buffer, a flag for each slot and two counters, with one
    method for each atomic step of mpscrb_in, mpscrb_out and mpscrb_out_peek.  Each method is
    proved to be the step of MpscProtocol on the abstract state. */
module MpscRingbuf {
  import opened MpscProtocol
  import opened RingArithmetic
  import opened RingSlots

  /** mpscrb_copy_in and mpscrb_copy_out: where byte k of the item at position pos lies.  The copy is in two pieces,
      up to the end of the buffer and on from its start. */
  function ByteIndex(mask: nat, esize: nat, pos: nat, k: nat): int
    requires esize > 0
  {
    var size := (mask + 1) * esize;
    var off := (pos % (mask + 1)) * esize;
    var copyLen := if esize < size - off then esize else size - off;
    if k < copyLen then off + k else k - copyLen
  }

  /** The second piece is always empty: an item never straddles the end. */
  lemma ByteIndexInSlot(mask: nat, esize: nat, pos: nat, k: nat)
    requires 0 < esize && k < esize
    ensures ByteIndex(mask, esize, pos, k) == (pos % (mask + 1)) * esize + k
    ensures (pos % (mask + 1)) * esize + esize <= (mask + 1) * esize
  {
    RowFits(mask + 1, esize, pos % (mask + 1));
  }

  class MpscRingbuf {
    const buf: array<Byte>
    const ready: array<bool>
    const mask: nat   // capacity - 1
    const esize: nat
    var writePos: int
    var readPos: int
    // each thread's place in the code
    var producers: map<Id, Producer>
    var consumer: Consumer
    // the history
    var reserved: seq<Item>
    var owner: seq<Id>
    var delivered: seq<Item>
    var peeked: seq<(nat, Item)>

    ghost predicate Valid()
      reads this
    {
      0 < esize && buf.Length == (mask + 1) * esize && ready.Length == mask + 1
    }

    ghost function View(): (s: State)
      requires Valid()
      reads this, buf, ready
      ensures Sized(s)
    {
      RowsSized(buf[..], mask + 1, esize);
      State(mask + 1, esize, writePos, readPos, ready[..], Rows(buf[..], mask + 1, esize), producers, consumer,
            reserved, owner, delivered, peeked)
    }

    /** mpscrb_init, with the arrays it is given; the buffer keeps whatever it held. */
    constructor (buf: array<Byte>, ready: array<bool>, itemSize: nat, itemCount: nat)
      requires 0 < itemSize && 0 < itemCount && buf.Length == itemCount * itemSize && ready.Length == itemCount
      modifies ready
      ensures Valid() && this.buf == buf && this.ready == ready
      ensures View() == Init(itemCount, itemSize, Rows(buf[..], itemCount, itemSize))
    {
      this.buf, this.ready, esize, mask := buf, ready, itemSize, itemCount - 1;
      writePos, readPos, producers, consumer := 0, 0, map[], Away;
      reserved, owner, delivered, peeked := [], [], [], [];
      new;
      forall i | 0 <= i < ready.Length { ready[i] := false; }
      assert ready[..] == seq(itemCount, _ => false);
    }

    // ----- mpscrb_in, one atomic step at a time -----

    method CallIn(id: Id, data: Item)
      requires Valid() && At(View(), id).Outside? && |data| == esize
      modifies this`producers
      ensures Valid() && View() == Step(old(View()), Call(id, data))
    {
      producers := producers[id := LoadsWrite(data, |reserved|, 0)];
    }

    /** `pos = OM_LOAD_ACQ(&rb->writePos)` */
    method InLoadsWrite(id: Id)
      requires Valid() && At(View(), id).LoadsWrite?
      modifies this`producers
      ensures Valid() && View() == Step(old(View()), LoadWrite(id))
    {
      var p := producers[id];
      producers := producers[id := LoadsRead(p.data, p.start, p.fails, writePos)];
    }

    /** `read_pos = OM_LOAD_ACQ(&rb->readPos)` and the test of the free count. */
    method InLoadsRead(id: Id) returns (refused: bool)
      requires Valid() && At(View(), id).LoadsRead?
      modifies this`producers
      ensures Valid() && View() == Step(old(View()), LoadRead(id)) && refused == At(View(), id).Outside?
    {
      var p := producers[id];
      refused := FreeCount(mask + 1, p.pos, readPos) == 0;
      producers := producers[id := if refused then Outside else Swaps(p.data, p.start, p.fails, p.pos)];
    }

    /** `OM_CAS_AR(&rb->writePos, &pos, pos + 1U)` */
    method InSwaps(id: Id) returns (swapped: bool)
      requires Valid() && At(View(), id).Swaps?
      modifies this`producers, this`writePos, this`reserved, this`owner
      ensures Valid() && View() == Step(old(View()), Swap(id)) && swapped == At(View(), id).Copies?
    {
      var p := producers[id];
      swapped := writePos == p.pos;
      if swapped {
        writePos := (p.pos + 1) % U32;
        producers := producers[id := Copies(p.data, p.pos, 0)];
        reserved, owner := reserved + [p.data], owner + [id];
      } else {
        producers := producers[id := LoadsWrite(p.data, p.start, p.fails + 1)];
      }
    }

    /** One byte of `mpscrb_copy_in(rb, data, pos)`, or its end. */
    method InCopies(id: Id)
      requires Valid() && At(View(), id).Copies? && |At(View(), id).data| == esize && 0 <= At(View(), id).pos
      modifies this`producers, buf
      ensures Valid() && View() == Step(old(View()), CopyByte(id))
    {
      var p := producers[id];
      if p.done >= |p.data| {
        producers := producers[id := SetsReady(p.data, p.pos)];
      } else {
        ByteIndexInSlot(mask, esize, p.pos, p.done);
        RowsUpdate(buf[..], mask + 1, esize, p.pos % (mask + 1), p.done, p.data[p.done]);
        var at := ByteIndex(mask, esize, p.pos, p.done);
        buf[at] := p.data[p.done];
        assert buf[..] == old(buf[..])[at := p.data[p.done]];
        producers := producers[id := Copies(p.data, p.pos, p.done + 1)];
      }
    }

    /** `OM_STORE_REL(&rb->ready[pos & rb->mask], MPSCRB_READY)` */
    method InSetsReady(id: Id)
      requires Valid() && At(View(), id).SetsReady?
      modifies this`producers, ready
      ensures Valid() && View() == Step(old(View()), SetReady(id))
    {
      var p := producers[id];
      ready[p.pos % (mask + 1)] := true;
      producers := producers[id := Outside];
      assert ready[..] == old(ready[..])[p.pos % (mask + 1) := true];
    }

    // ----- mpscrb_out and mpscrb_out_peek -----

    /** `pos = OM_LOAD_RLX(&rb->readPos)` */
    method CallOut(peek: bool)
      requires Valid() && consumer.Away?
      modifies this`consumer
      ensures Valid() && View() == Step(old(View()), Take(peek))
    {
      consumer := LoadsWritePos(peek, readPos);
    }

    /** `if (pos >= OM_LOAD_ACQ(&rb->writePos)) return false` */
    method OutLoadsWrite() returns (nothing: bool)
      requires Valid() && consumer.LoadsWritePos?
      modifies this`consumer
      ensures Valid() && View() == Step(old(View()), TakeLoadWrite) && nothing == consumer.Away?
    {
      nothing := consumer.pos >= writePos;
      consumer := if nothing then Away else LoadsReady(consumer.peek, consumer.pos);
    }

    method OutLoadsReady() returns (nothing: bool)
      requires Valid() && consumer.LoadsReady?
      modifies this`consumer
      ensures Valid() && View() == Step(old(View()), TakeLoadReady) && nothing == consumer.Away?
    {
      nothing := !ready[consumer.pos % (mask + 1)];
      consumer := if nothing then Away else Reads(consumer.peek, consumer.pos, []);
    }

    /** One byte of `mpscrb_copy_out(rb, buf, pos)`, or its end, where a peek returns. */
    method OutReads()
      requires Valid() && consumer.Reads? && 0 <= consumer.pos && |consumer.got| <= esize
      modifies this`consumer, this`peeked
      ensures Valid() && View() == Step(old(View()), TakeByte)
    {
      var c := consumer;
      if |c.got| < esize {
        ByteIndexInSlot(mask, esize, c.pos, |c.got|);
        var x := buf[ByteIndex(mask, esize, c.pos, |c.got|)];
        assert x == View().slots[c.pos % (mask + 1)][|c.got|];
        consumer := Reads(c.peek, c.pos, c.got + [x]);
      } else if c.peek {
        consumer, peeked := Away, peeked + [(|delivered|, c.got)];
      } else {
        consumer := ClearsReady(c.pos, c.got);
      }
    }

    method OutClearsReady()
      requires Valid() && consumer.ClearsReady?
      modifies this`consumer, ready
      ensures Valid() && View() == Step(old(View()), TakeClear)
    {
      var c := consumer;
      ready[c.pos % (mask + 1)] := false;
      consumer := StoresRead(c.pos, c.got);
      assert ready[..] == old(ready[..])[c.pos % (mask + 1) := false];
    }

    /** `OM_STORE_REL(&rb->readPos, pos + 1U)`; mpscrb_out returns the item. */
    method OutStoresRead() returns (item: Item)
      requires Valid() && consumer.StoresRead?
      modifies this`consumer, this`readPos, this`delivered
      ensures Valid() && View() == Step(old(View()), TakeStore) && delivered == old(delivered) + [item]
    {
      item := consumer.got;
      readPos := (consumer.pos + 1) % U32;
      consumer, delivered := Away, delivered + [item];
    }
  }
}
