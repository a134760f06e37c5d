/** lib/data_struct/src/mpsc_ringbuf.c as interleaved steps: any number of producers, one
    consumer, and one step for each atomic load, store, compare-and-swap and copied byte. */
module MpscProtocol {
  import opened RingArithmetic
  import opened RingSlots

  type Id = nat

  /** Where a producer is inside mpscrb_in.  `start` is how many slots were reserved when the call began and
      `fails` how many of its swaps failed since. */
  datatype Producer =
    | Outside
    | LoadsWrite(data: Item, start: nat, fails: nat)
    | LoadsRead(data: Item, start: nat, fails: nat, pos: int)
    | Swaps(data: Item, start: nat, fails: nat, pos: int)
    | Copies(data: Item, pos: int, done: nat)
    | SetsReady(data: Item, pos: int)

  /** Where the consumer is inside mpscrb_out, or mpscrb_out_peek when `peek` holds. */
  datatype Consumer =
    | Away
    | LoadsWritePos(peek: bool, pos: int)
    | LoadsReady(peek: bool, pos: int)
    | Reads(peek: bool, pos: int, got: Item)
    | ClearsReady(pos: int, got: Item)
    | StoresRead(pos: int, got: Item)

  /** The shared memory, every thread's place, and the history: the items in the order their slots were
      reserved with the producer of each, the items mpscrb_out returned, and what peeks returned with the
      number of items delivered before. */
  datatype State = State(
    cap: nat, esize: nat,
    writePos: int, readPos: int, ready: seq<bool>, slots: seq<Item>,
    producers: map<Id, Producer>, consumer: Consumer,
    reserved: seq<Item>, owner: seq<Id>, delivered: seq<Item>, peeked: seq<(nat, Item)>)

  datatype Action =
    | Call(id: Id, data: Item)
    | LoadWrite(id: Id)
    | LoadRead(id: Id)
    | Swap(id: Id)
    | CopyByte(id: Id)
    | SetReady(id: Id)
    | Take(peek: bool)
    | TakeLoadWrite
    | TakeLoadReady
    | TakeByte
    | TakeClear
    | TakeStore

  function At(s: State, id: Id): Producer {
    if id in s.producers then s.producers[id] else Outside
  }

  function Put(s: State, id: Id, p: Producer): State {
    s.(producers := s.producers[id := p])
  }

  /** `(rb->mask + 1U) - (pos - read_pos)` in unsigned arithmetic. */
  function FreeCount(cap: nat, pos: int, readPos: int): int {
    (cap - (pos - readPos) % U32) % U32
  }

  /** `pos & rb->mask`, for a power-of-two capacity. */
  function Slot(s: State, pos: int): int
    requires s.cap > 0
  {
    pos % s.cap
  }

  // ----- mpscrb_in -----

  function StepProducer(s: State, a: Action): State
    requires Shape(s) && !a.Take? && !a.TakeLoadWrite? && !a.TakeLoadReady? && !a.TakeByte? && !a.TakeClear? &&
             !a.TakeStore?
  {
    match (a, At(s, a.id))
    case (Call(id, data), Outside) =>
      if |data| == s.esize then Put(s, id, LoadsWrite(data, |s.reserved|, 0)) else s
    case (LoadWrite(id), LoadsWrite(data, start, fails)) =>
      Put(s, id, LoadsRead(data, start, fails, s.writePos))
    case (LoadRead(id), LoadsRead(data, start, fails, pos)) =>
      if FreeCount(s.cap, pos, s.readPos) == 0 then Put(s, id, Outside)  // returns false
      else Put(s, id, Swaps(data, start, fails, pos))
    case (Swap(id), Swaps(data, start, fails, pos)) =>
      if s.writePos != pos then Put(s, id, LoadsWrite(data, start, fails + 1))
      else Put(s, id, Copies(data, pos, 0))
           .(writePos := (pos + 1) % U32, reserved := s.reserved + [data], owner := s.owner + [id])
    case (CopyByte(id), Copies(data, pos, done)) =>
      if done >= |data| then Put(s, id, SetsReady(data, pos))
      else
        var i := Slot(s, pos);
        if done >= |s.slots[i]| then s
        else Put(s, id, Copies(data, pos, done + 1)).(slots := s.slots[i := s.slots[i][done := data[done]]])
    case (SetReady(id), SetsReady(data, pos)) =>
      Put(s, id, Outside).(ready := s.ready[Slot(s, pos) := true])  // returns true
    case _ => s
  }

  // ----- mpscrb_out and mpscrb_out_peek -----

  function StepConsumer(s: State, a: Action): State
    requires Shape(s)
  {
    match (a, s.consumer)
    case (Take(peek), Away) => s.(consumer := LoadsWritePos(peek, s.readPos))
    case (TakeLoadWrite, LoadsWritePos(peek, pos)) =>
      if pos >= s.writePos then s.(consumer := Away)  // returns false
      else s.(consumer := LoadsReady(peek, pos))
    case (TakeLoadReady, LoadsReady(peek, pos)) =>
      if !s.ready[Slot(s, pos)] then s.(consumer := Away)  // returns false
      else s.(consumer := Reads(peek, pos, []))
    case (TakeByte, Reads(peek, pos, got)) =>
      if |got| < s.esize then
        var row := s.slots[Slot(s, pos)];
        if |got| < |row| then s.(consumer := Reads(peek, pos, got + [row[|got|]])) else s
      else if peek then s.(consumer := Away, peeked := s.peeked + [(|s.delivered|, got)])
      else s.(consumer := ClearsReady(pos, got))
    case (TakeClear, ClearsReady(pos, got)) =>
      s.(consumer := StoresRead(pos, got), ready := s.ready[Slot(s, pos) := false])
    case (TakeStore, StoresRead(pos, got)) =>
      s.(consumer := Away, readPos := (pos + 1) % U32, delivered := s.delivered + [got])
    case _ => s
  }

  /** The arrays have one entry for each slot. */
  ghost predicate Sized(s: State) {
    Shape(s) && (forall i :: 0 <= i < s.cap ==> |s.slots[i]| == s.esize)
  }

  predicate Shape(s: State) {
    0 < s.cap && |s.ready| == s.cap && |s.slots| == s.cap
  }

  function Step(s: State, a: Action): State
    requires Shape(s)
  {
    if a.Take? || a.TakeLoadWrite? || a.TakeLoadReady? || a.TakeByte? || a.TakeClear? || a.TakeStore? then
      StepConsumer(s, a)
    else StepProducer(s, a)
  }

  function Init(cap: nat, esize: nat, slots: seq<Item>): State {
    State(cap, esize, 0, 0, seq(cap, _ => false), slots, map[], Away, [], [], [], [])
  }

  /** The state after a schedule of steps. */
  function Run(s: State, schedule: seq<Action>): (r: State)
    requires Shape(s)
    ensures Shape(r) && r.cap == s.cap && r.esize == s.esize
  {
    if schedule == [] then s
    else Step(Run(s, schedule[..|schedule| - 1]), schedule[|schedule| - 1])
  }
}
