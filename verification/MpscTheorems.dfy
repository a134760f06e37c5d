/** The promises of the MPSC ring over whole runs. */
module MpscTheorems {
  import opened RingArithmetic
  import opened RingSlots
  import opened MpscProtocol
  import opened MpscSafety

  /** `free_count == 0` for any position a producer can have loaded, however stale: the position is a whole capacity
      ahead of readPos, or it is so after the counters have come round. */
  lemma FreeCountExact(cap: nat, pos: nat, r: nat)
    requires 0 < cap < U32 && pos <= r + cap && r < pos + U32
    ensures FreeCount(cap, pos, r) == 0 <==> pos == r + cap || pos + U32 == r + cap
  {
  }

  lemma LoadReadKeepsInv(s: State, id: Id)
    requires Inv(s) && At(s, id).LoadsRead? && |s.reserved| < U32
    ensures Inv(Step(s, LoadRead(id)))
  {
    assert ProducerOk(s, id);
    var LoadsRead(data, start, fails, pos) := At(s, id);
    FreeCountExact(s.cap, pos, s.readPos);
    if FreeCount(s.cap, pos, s.readPos) == 0 { MoveKeepsInv(s, id, Outside); }
    else { MoveKeepsInv(s, id, Swaps(data, start, fails, pos)); }
  }

  lemma SwapStepKeepsInv(s: State, id: Id)
    requires Inv(s) && At(s, id).Swaps? && |Step(s, Swap(id)).reserved| < U32
    ensures Inv(Step(s, Swap(id)))
  {
    assert ProducerOk(s, id);
    var Swaps(data, start, fails, pos) := At(s, id);
    if s.writePos != pos { MoveKeepsInv(s, id, LoadsWrite(data, start, fails + 1)); }
    else { SwapKeepsInv(s, id, data, start, fails); }
  }

  lemma CopyStepKeepsInv(s: State, id: Id)
    requires Inv(s) && At(s, id).Copies?
    ensures Inv(Step(s, CopyByte(id)))
  {
    assert ProducerOk(s, id);
    var p := At(s, id);
    if p.done < |p.data| {
      CopyKeepsInv(s, id, p.data, p.pos, p.done);
    } else {
      CopiedKeepsInv(s, id, p.data, p.pos, p.done);
    }
  }

  lemma ProducerStepKeepsInv(s: State, a: Action)
    requires Inv(s) && |Step(s, a).reserved| < U32
    requires a.Call? || a.LoadWrite? || a.LoadRead? || a.Swap? || a.CopyByte? || a.SetReady?
    ensures Inv(Step(s, a))
  {
    assert ProducerOk(s, a.id);
    match (a, At(s, a.id))
    case (Call(id, data), Outside) =>
      if |data| == s.esize { MoveKeepsInv(s, id, LoadsWrite(data, |s.reserved|, 0)); }
    case (LoadWrite(id), LoadsWrite(data, start, fails)) =>
      MoveKeepsInv(s, id, LoadsRead(data, start, fails, s.writePos));
    case (LoadRead(id), LoadsRead(_, _, _, _)) => LoadReadKeepsInv(s, id);
    case (Swap(id), Swaps(_, _, _, _)) => SwapStepKeepsInv(s, id);
    case (CopyByte(id), Copies(_, _, _)) => CopyStepKeepsInv(s, id);
    case (SetReady(id), SetsReady(data, pos)) => SetReadyKeepsInv(s, id, data, pos);
    case _ =>
  }

  lemma ConsumerStepKeepsInv(s: State, a: Action)
    requires Inv(s) && |s.reserved| < U32
    requires a.Take? || a.TakeLoadWrite? || a.TakeLoadReady? || a.TakeByte? || a.TakeClear? || a.TakeStore?
    ensures Inv(Step(s, a))
  {
    match (a, s.consumer)
    case (Take(peek), Away) => ConsumerMoveKeepsInv(s, LoadsWritePos(peek, s.readPos), s.peeked);
    case (TakeLoadWrite, LoadsWritePos(peek, pos)) =>
      ConsumerMoveKeepsInv(s, if pos >= s.writePos then Away else LoadsReady(peek, pos), s.peeked);
    case (TakeLoadReady, LoadsReady(peek, pos)) =>
      ConsumerMoveKeepsInv(s, if s.ready[pos % s.cap] then Reads(peek, pos, []) else Away, s.peeked);
    case (TakeByte, Reads(peek, pos, got)) =>
      assert PositionOk(s, pos);
      if |got| < s.esize {
        ConsumerMoveKeepsInv(s, Reads(peek, pos, got + [s.slots[pos % s.cap][|got|]]), s.peeked);
      } else if peek {
        ConsumerMoveKeepsInv(s, Away, s.peeked + [(|s.delivered|, got)]);
      } else {
        ConsumerMoveKeepsInv(s, ClearsReady(pos, got), s.peeked);
      }
    case (TakeClear, ClearsReady(pos, got)) => ClearKeepsInv(s, pos, got);
    case (TakeStore, StoresRead(pos, got)) => StoreKeepsInv(s, pos, got);
    case _ =>
  }

  /** Every step of every thread keeps the invariant while fewer than 2^32 slots have been reserved. */
  lemma StepKeepsInv(s: State, a: Action)
    requires Inv(s) && |Step(s, a).reserved| < U32
    ensures Inv(Step(s, a))
  {
    if a.Take? || a.TakeLoadWrite? || a.TakeLoadReady? || a.TakeByte? || a.TakeClear? || a.TakeStore? {
      ConsumerStepKeepsInv(s, a);
    } else {
      ProducerStepKeepsInv(s, a);
    }
  }

  lemma InitInv(cap: nat, esize: nat, slots: seq<Item>)
    requires 0 < cap < U32 && |slots| == cap && forall i :: 0 <= i < cap ==> |slots[i]| == esize
    ensures Inv(Init(cap, esize, slots))
  {
  }

  lemma {:induction false} RunKeepsInv(s: State, schedule: seq<Action>)
    requires Inv(s) && |Run(s, schedule).reserved| < U32
    ensures Inv(Run(s, schedule))
  {
    if schedule != [] {
      var before := schedule[..|schedule| - 1];
      RunKeepsInv(s, before);
      StepKeepsInv(Run(s, before), schedule[|schedule| - 1]);
    }
  }

  /** The queue is first in, first out for any number of producers and every schedule: what mpscrb_out has
      returned is a prefix of the items in the order of the successful swaps, and every peek returned an item of
      that order. */
  lemma Fifo(cap: nat, esize: nat, slots: seq<Item>, schedule: seq<Action>)
    requires 0 < cap < U32 && |slots| == cap && forall i :: 0 <= i < cap ==> |slots[i]| == esize
    requires |Run(Init(cap, esize, slots), schedule).reserved| < U32
    ensures var t := Run(Init(cap, esize, slots), schedule);
            t.delivered <= t.reserved && |t.reserved| <= |t.delivered| + cap && PeeksOk(t)
  {
    InitInv(cap, esize, slots);
    RunKeepsInv(Init(cap, esize, slots), schedule);
  }

  /** No two producers write the same slot, and no producer writes the slot the consumer reads. */
  lemma SlotsAreExclusive(s: State, id: Id, other: Id)
    requires Inv(s) && HoldsAny(At(s, id))
    ensures HoldsAny(At(s, other)) && other != id ==> At(s, id).pos % s.cap != At(s, other).pos % s.cap
    ensures s.consumer.Reads? || s.consumer.ClearsReady? || s.consumer.StoresRead? ==>
              s.consumer.pos % s.cap != At(s, id).pos % s.cap
    ensures |s.delivered| <= At(s, id).pos < |s.delivered| + s.cap
  {
    assert ProducerOk(s, id) && ProducerOk(s, other);
    AllSlotsDiffer(s, At(s, id).pos);
  }

  /** mpscrb_in turns an item away if and only if the position it loaded is a whole capacity ahead of readPos, and
      then the ring is full at that load; or the position is so stale that it is a whole capacity ahead of readPos
      only modulo 2^32, and then the ring may have room. */
  lemma RefusedExactly(s: State, id: Id)
    requires Inv(s) && At(s, id).LoadsRead? && |s.reserved| < U32
    ensures At(Step(s, LoadRead(id)), id).Outside? <==>
              At(s, id).pos == |s.delivered| + s.cap || At(s, id).pos + U32 == |s.delivered| + s.cap
    ensures At(s, id).pos == |s.delivered| + s.cap ==> |s.reserved| == |s.delivered| + s.cap
    ensures At(s, id).pos + U32 == |s.delivered| + s.cap ==>
              At(s, id).pos < s.cap && U32 <= |s.reserved| + s.cap
  {
    assert ProducerOk(s, id);
    FreeCountExact(s.cap, At(s, id).pos, s.readPos);
  }

  /** In one call a producer's failed swaps never exceed the slots reserved since it began, all by others. */
  lemma RetriesAreOthersSuccesses(s: State, id: Id)
    requires Inv(s) && (At(s, id).LoadsWrite? || At(s, id).LoadsRead? || At(s, id).Swaps?)
    ensures At(s, id).fails <= |s.reserved| - At(s, id).start
    ensures forall i :: At(s, id).start <= i < |s.reserved| ==> s.owner[i] != id
  {
    assert ProducerOk(s, id);
  }

  /** mpscrb_out finds nothing exactly when no slot is reserved beyond those taken, or when the producer that owns
      the head is still writing it. */
  lemma NothingToTake(s: State)
    requires Inv(s) && |s.reserved| < U32
    ensures s.consumer.LoadsWritePos? ==> (Step(s, TakeLoadWrite).consumer.Away? <==> |s.reserved| == |s.delivered|)
    ensures s.consumer.LoadsReady? ==>
              (Step(s, TakeLoadReady).consumer.Away? <==> HoldsSlot(At(s, s.owner[|s.delivered|]), |s.delivered|))
  {
    if s.consumer.LoadsReady? {
      var r := |s.delivered|;
      assert PositionOk(s, r);
      assert ProducerOk(s, s.owner[r]);
    }
  }

  /** The emptiness test compares raw counters.  For true positions r <= w it agrees with emptiness exactly when
      the two have wrapped equally often. */
  lemma EmptyTestExact(r: nat, w: nat, cap: nat)
    requires r <= w <= r + cap && cap < U32
    ensures (r % U32 >= w % U32 <==> r == w) <==> (r == w || r / U32 == w / U32)
  {
  }
}
