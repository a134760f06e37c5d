/** What every run of the MPSC ring keeps, for any number of producers and every interleaving,
    as long as fewer than 2^32 slots have been reserved. */
module MpscSafety {
  import opened MpscProtocol
  import opened RingArithmetic
  import opened RingSlots

  // ----- the invariant -----

  /** Items reserved but not yet taken. */
  ghost predicate Counters(s: State) {
    var r, w := |s.delivered|, |s.reserved|;
    s.writePos == w && s.readPos == r && r <= w <= r + s.cap && |s.owner| == w &&
    s.delivered == s.reserved[..r] && (forall i :: 0 <= i < w ==> |s.reserved[i]| == s.esize)
  }

  /** No slot reserved from `from` on belongs to id. */
  ghost predicate NoneOwned(s: State, id: Id, from: nat) {
    forall i :: from <= i < |s.owner| ==> s.owner[i] != id
  }

  ghost predicate Trying(s: State, id: Id, data: Item, start: nat, fails: nat, seen: int) {
    |data| == s.esize && start <= seen <= |s.reserved| && fails <= seen - start && NoneOwned(s, id, start)
  }

  /** A producer that holds the slot of position pos and has written `done` bytes of it. */
  ghost predicate Writing(s: State, id: Id, data: Item, pos: int, done: nat)
    requires Shape(s)
  {
    |s.delivered| <= pos < |s.reserved| && pos < |s.owner| && s.owner[pos] == id && s.reserved[pos] == data &&
    !s.ready[pos % s.cap] && done <= |data| == |s.slots[pos % s.cap]| && s.slots[pos % s.cap][..done] == data[..done]
  }

  ghost predicate ProducerOk(s: State, id: Id)
    requires Sized(s)
  {
    match At(s, id)
    case Outside => true
    case LoadsWrite(data, start, fails) => Trying(s, id, data, start, fails, |s.reserved|)
    case LoadsRead(data, start, fails, pos) => Trying(s, id, data, start, fails, pos)
    case Swaps(data, start, fails, pos) => Trying(s, id, data, start, fails, pos) && pos < |s.delivered| + s.cap
    case Copies(data, pos, done) => Writing(s, id, data, pos, done)
    case SetsReady(data, pos) => Writing(s, id, data, pos, |data|)
  }

  ghost predicate Producers(s: State)
    requires Sized(s)
  {
    forall id :: ProducerOk(s, id)
  }

  ghost predicate HoldsSlot(p: Producer, pos: int) {
    (p.Copies? || p.SetsReady?) && p.pos == pos
  }

  /** A reserved position is ready with its whole item in its slot, or still being written by its owner,
      or, at the head only, just cleared by the consumer. */
  ghost predicate PositionOk(s: State, q: int)
    requires Sized(s) && 0 <= q < |s.reserved| && q < |s.owner|
  {
    if s.ready[q % s.cap] then s.slots[q % s.cap] == s.reserved[q]
    else HoldsSlot(At(s, s.owner[q]), q) || (q == |s.delivered| && s.consumer.StoresRead?)
  }

  ghost predicate Positions(s: State)
    requires Sized(s) && Counters(s)
  {
    (forall q :: |s.delivered| <= q < |s.reserved| ==> PositionOk(s, q)) &&
    (forall q :: |s.reserved| <= q < |s.delivered| + s.cap ==> !s.ready[q % s.cap])
  }

  ghost predicate ConsumerOk(s: State)
    requires Sized(s) && Counters(s)
  {
    var r := |s.delivered|;
    match s.consumer
    case Away => true
    case LoadsWritePos(_, pos) => pos == r
    case LoadsReady(_, pos) => pos == r < |s.reserved|
    case Reads(_, pos, got) =>
      pos == r < |s.reserved| && s.ready[r % s.cap] && |got| <= s.esize && got == s.reserved[r][..|got|]
    case ClearsReady(pos, got) => pos == r < |s.reserved| && s.ready[r % s.cap] && got == s.reserved[r]
    case StoresRead(pos, got) => pos == r < |s.reserved| && !s.ready[r % s.cap] && got == s.reserved[r] &&
                                 (forall id :: !HoldsSlot(At(s, id), r))
  }

  ghost predicate PeeksOk(s: State) {
    forall i :: 0 <= i < |s.peeked| ==> s.peeked[i].0 < |s.reserved| && s.peeked[i].1 == s.reserved[s.peeked[i].0]
  }

  ghost predicate Inv(s: State) {
    Sized(s) && s.cap < U32 && Counters(s) && Producers(s) && Positions(s) && ConsumerOk(s) && PeeksOk(s)
  }

  lemma AllSlotsDiffer(s: State, p: int)
    requires 0 < s.cap && |s.delivered| <= p < |s.delivered| + s.cap
    ensures forall q :: |s.delivered| <= q < |s.delivered| + s.cap && q != p ==> q % s.cap != p % s.cap
  {
    forall q | |s.delivered| <= q < |s.delivered| + s.cap && q != p ensures q % s.cap != p % s.cap {
      if p < q { SlotsDiffer(s.cap, p, q); } else { SlotsDiffer(s.cap, q, p); }
    }
  }

  // ----- one step keeps the invariant -----

  ghost predicate HoldsAny(p: Producer) {
    p.Copies? || p.SetsReady?
  }

  /** A producer that holds no slot may move to any place that is in order and holds none. */
  lemma MoveKeepsInv(s: State, id: Id, p: Producer)
    requires Inv(s) && !HoldsAny(At(s, id)) && !HoldsAny(p) && ProducerOk(Put(s, id, p), id)
    ensures Inv(Put(s, id, p))
  {
    var t := Put(s, id, p);
    forall i ensures ProducerOk(t, i) { assert ProducerOk(s, i); }
    forall q | |t.delivered| <= q < |t.reserved| ensures PositionOk(t, q) { assert PositionOk(s, q); }
    assert forall i, r :: HoldsSlot(At(t, i), r) ==> HoldsSlot(At(s, i), r);
    assert ConsumerOk(t);
  }

  /** A successful swap hands out position |reserved|, whose slot is free and not ready. */
  lemma SwapKeepsInv(s: State, id: Id, data: Item, start: nat, fails: nat)
    requires Inv(s) && At(s, id) == Swaps(data, start, fails, |s.reserved|) && |s.reserved| + 1 < U32
    ensures var w := |s.reserved|;
            Inv(Put(s, id, Copies(data, w, 0)).(writePos := w + 1, reserved := s.reserved + [data],
              owner := s.owner + [id]))
  {
    var w := |s.reserved|;
    var t := Put(s, id, Copies(data, w, 0)).(writePos := w + 1, reserved := s.reserved + [data],
      owner := s.owner + [id]);
    assert ProducerOk(s, id);
    assert Counters(t);
    forall i ensures ProducerOk(t, i) { assert ProducerOk(s, i); }
    forall q | |t.delivered| <= q < |t.reserved| ensures PositionOk(t, q) { assert q < w ==> PositionOk(s, q); }
    assert forall i, r :: HoldsSlot(At(t, i), r) ==> HoldsSlot(At(s, i), r) || r == w;
  }

  /** Copying one byte disturbs no other slot in use. */
  lemma CopyKeepsInv(s: State, id: Id, data: Item, pos: int, done: nat)
    requires Inv(s) && At(s, id) == Copies(data, pos, done) && done < |data|
    ensures |data| == |s.slots[pos % s.cap]|
    ensures var i := pos % s.cap;
            Inv(Put(s, id, Copies(data, pos, done + 1)).(slots := s.slots[i := s.slots[i][done := data[done]]]))
  {
    assert ProducerOk(s, id);
    var i := pos % s.cap;
    var row := s.slots[i][done := data[done]];
    var t := Put(s, id, Copies(data, pos, done + 1)).(slots := s.slots[i := row]);
    AllSlotsDiffer(s, pos);
    assert row[..done + 1] == row[..done] + [data[done]] && data[..done + 1] == data[..done] + [data[done]];
    assert row[..done] == s.slots[i][..done];
    forall k ensures ProducerOk(t, k) { assert ProducerOk(s, k); }
    forall q | |t.delivered| <= q < |t.reserved| ensures PositionOk(t, q) { assert PositionOk(s, q); }
    assert forall k, r :: HoldsSlot(At(t, k), r) ==> HoldsSlot(At(s, k), r);
  }

  /** A copy ends with the whole item in the slot. */
  lemma CopiedKeepsInv(s: State, id: Id, data: Item, pos: int, done: nat)
    requires Inv(s) && At(s, id) == Copies(data, pos, done) && done >= |data|
    ensures Inv(Put(s, id, SetsReady(data, pos)))
  {
    assert ProducerOk(s, id);
    var t := Put(s, id, SetsReady(data, pos));
    forall k ensures ProducerOk(t, k) { assert ProducerOk(s, k); }
    forall q | |t.delivered| <= q < |t.reserved| ensures PositionOk(t, q) { assert PositionOk(s, q); }
    assert forall k, r :: HoldsSlot(At(t, k), r) ==> HoldsSlot(At(s, k), r);
  }

  /** Raising the ready flag publishes a whole item. */
  lemma SetReadyKeepsInv(s: State, id: Id, data: Item, pos: int)
    requires Inv(s) && At(s, id) == SetsReady(data, pos)
    ensures Inv(Put(s, id, Outside).(ready := s.ready[pos % s.cap := true]))
  {
    var t := Put(s, id, Outside).(ready := s.ready[pos % s.cap := true]);
    assert ProducerOk(s, id);
    AllSlotsDiffer(s, pos);
    forall k ensures ProducerOk(t, k) { assert ProducerOk(s, k); }
    forall q | |t.delivered| <= q < |t.reserved| ensures PositionOk(t, q) { assert PositionOk(s, q); }
    assert forall k, r :: HoldsSlot(At(t, k), r) ==> HoldsSlot(At(s, k), r);
  }

  /** The consumer's own loads and reads. */
  lemma ConsumerMoveKeepsInv(s: State, c: Consumer, peeked: seq<(nat, Item)>)
    requires Inv(s) && !s.consumer.StoresRead? && !c.StoresRead?
    requires ConsumerOk(s.(consumer := c)) && PeeksOk(s.(peeked := peeked))
    ensures Inv(s.(consumer := c, peeked := peeked))
  {
    var t := s.(consumer := c, peeked := peeked);
    forall k ensures ProducerOk(t, k) { assert ProducerOk(s, k); }
    forall q | |t.delivered| <= q < |t.reserved| ensures PositionOk(t, q) { assert PositionOk(s, q); }
  }

  lemma ClearKeepsInv(s: State, pos: int, got: Item)
    requires Inv(s) && s.consumer == ClearsReady(pos, got)
    ensures Inv(s.(consumer := StoresRead(pos, got), ready := s.ready[pos % s.cap := false]))
  {
    var t := s.(consumer := StoresRead(pos, got), ready := s.ready[pos % s.cap := false]);
    AllSlotsDiffer(s, pos);
    forall k ensures ProducerOk(t, k) { assert ProducerOk(s, k); }
    forall q | |t.delivered| <= q < |t.reserved| ensures PositionOk(t, q) { assert PositionOk(s, q); }
    forall k ensures !HoldsSlot(At(t, k), pos) { assert ProducerOk(s, k); }
  }

  lemma StoreKeepsInv(s: State, pos: int, got: Item)
    requires Inv(s) && s.consumer == StoresRead(pos, got)
    ensures Inv(s.(consumer := Away, readPos := pos + 1, delivered := s.delivered + [got]))
  {
    var t := s.(consumer := Away, readPos := pos + 1, delivered := s.delivered + [got]);
    assert t.delivered == t.reserved[..pos + 1];
    forall k ensures ProducerOk(t, k) { assert ProducerOk(s, k) && !HoldsSlot(At(s, k), pos); }
    forall q | |t.delivered| <= q < |t.reserved| ensures PositionOk(t, q) { assert PositionOk(s, q); }
    SameSlotNextTurn(s.cap, pos);
  }
}
