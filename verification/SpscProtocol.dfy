/** lib/data_struct/src/ringbuffer.c as interleaved steps: one producer and one consumer, with one
    step for each load and store of a position and for each copied byte. */
module SpscProtocol {
  import opened RingArithmetic
  import opened RingSlots

  /** Where the producer is inside ringbuf_in or ringbuf_update_in.  `i` and `k` say which byte of which item is
      copied next. */
  datatype Producer =
    | Outside
    | LoadsRead(data: seq<Item>, pos: int)
    | LoadsReadToUpdate(count: nat, pos: int)
    | Copies(data: seq<Item>, pos: int, i: nat, k: nat)
    | StoresWrite(data: seq<Item>, pos: int)

  /** ringbuf_out, ringbuf_out_peek and ringbuf_update_out. */
  datatype Kind = Take | Peek | Skip

  datatype Consumer =
    | Away
    | LoadsWrite(kind: Kind, count: nat, pos: int)
    | Reads(peek: bool, n: nat, pos: int, got: seq<Item>, part: Item)
    | StoresRead(got: seq<Item>, pos: int)

  /** The shared memory, both threads' places, and the history: the items published and the items consumed so
      far, and what peeks returned with the number of items consumed before. */
  datatype State = State(
    cap: nat, esize: nat,
    writePos: int, readPos: int, slots: seq<Item>,
    producer: Producer, consumer: Consumer,
    accepted: seq<Item>, delivered: seq<Item>, peeked: seq<(nat, seq<Item>)>)

  datatype Action =
    | In(data: seq<Item>)
    | UpdateIn(count: nat)
    | Fill(j: nat, byte: nat, x: Byte)  // the owner of the producer side writes into free space
    | LoadRead
    | CopyByte
    | StoreWrite
    | Out(kind: Kind, count: nat)
    | LoadWrite
    | ReadByte
    | StoreRead

  predicate Shape(s: State) {
    0 < s.esize && 0 < s.cap < U32 && U32 % s.cap == 0 && |s.slots| == s.cap
  }

  ghost predicate Sized(s: State) {
    Shape(s) && forall i :: 0 <= i < s.cap ==> |s.slots[i]| == s.esize
  }

  /** `write_pos - read_pos` in unsigned arithmetic. */
  function UsedCount(writePos: int, readPos: int): nat {
    (writePos - readPos) % U32
  }

  /** `ringbuf_cap(rb) - (write_pos - read_pos)` */
  function AvailCount(cap: nat, writePos: int, readPos: int): nat {
    (cap - UsedCount(writePos, readPos)) % U32
  }

  function Min(a: nat, b: nat): nat {
    if a < b then a else b
  }

  /** What the n slots from position pos on hold. */
  function SlotsFrom(s: State, pos: int, n: nat): seq<Item>
    requires Shape(s)
  {
    seq(n, j => s.slots[(pos + j) % s.cap])
  }

  // ----- the producer -----

  function StepProducer(s: State, a: Action): State
    requires Shape(s)
  {
    match (a, s.producer)
    case (In(data), Outside) =>
      if forall j :: 0 <= j < |data| ==> |data[j]| == s.esize then s.(producer := LoadsRead(data, s.writePos)) else s
    case (UpdateIn(count), Outside) => s.(producer := LoadsReadToUpdate(count, s.writePos))
    case (Fill(j, byte, x), Outside) =>
      var i := (s.writePos + j) % s.cap;
      if j < AvailCount(s.cap, s.writePos, s.readPos) && byte < |s.slots[i]| then
        s.(slots := s.slots[i := s.slots[i][byte := x]])
      else s
    case (LoadRead, LoadsRead(data, pos)) =>
      s.(producer := Copies(data[..Min(|data|, AvailCount(s.cap, pos, s.readPos))], pos, 0, 0))
    case (LoadRead, LoadsReadToUpdate(count, pos)) =>
      s.(producer := StoresWrite(SlotsFrom(s, pos, Min(count, AvailCount(s.cap, pos, s.readPos))), pos))
    case (CopyByte, Copies(data, pos, i, k)) =>
      if i >= |data| then s.(producer := StoresWrite(data, pos))
      else
        var at := (pos + i) % s.cap;
        if k < |data[i]| && k < |s.slots[at]| then
          s.(producer := if k + 1 < s.esize then Copies(data, pos, i, k + 1) else Copies(data, pos, i + 1, 0),
             slots := s.slots[at := s.slots[at][k := data[i][k]]])
        else s
    case (StoreWrite, StoresWrite(data, pos)) =>
      s.(producer := Outside, writePos := (pos + |data|) % U32, accepted := s.accepted + data)
    case _ => s
  }

  // ----- the consumer -----

  function StepConsumer(s: State, a: Action): State
    requires Shape(s)
  {
    match (a, s.consumer)
    case (Out(kind, count), Away) => s.(consumer := LoadsWrite(kind, count, s.readPos))
    case (LoadWrite, LoadsWrite(kind, count, pos)) =>
      var n := Min(count, UsedCount(s.writePos, pos));
      s.(consumer := if kind.Skip? then StoresRead(SlotsFrom(s, pos, n), pos) else Reads(kind.Peek?, n, pos, [], []))
    case (ReadByte, Reads(peek, n, pos, got, part)) =>
      if |got| < n then
        var row := s.slots[(pos + |got|) % s.cap];
        if |part| >= |row| then s
        else if |part| + 1 < s.esize then s.(consumer := Reads(peek, n, pos, got, part + [row[|part|]]))
        else s.(consumer := Reads(peek, n, pos, got + [part + [row[|part|]]], []))
      else if peek then s.(consumer := Away, peeked := s.peeked + [(|s.delivered|, got)])
      else s.(consumer := StoresRead(got, pos))
    case (StoreRead, StoresRead(got, pos)) =>
      s.(consumer := Away, readPos := (pos + |got|) % U32, delivered := s.delivered + got)
    case _ => s
  }

  predicate ByConsumer(a: Action) {
    a.Out? || a.LoadWrite? || a.ReadByte? || a.StoreRead?
  }

  function Step(s: State, a: Action): State
    requires Shape(s)
  {
    if ByConsumer(a) then StepConsumer(s, a) else StepProducer(s, a)
  }

  function Init(cap: nat, esize: nat, slots: seq<Item>): State {
    State(cap, esize, 0, 0, slots, Outside, Away, [], [], [])
  }

  /** The state after a schedule of steps. */
  function Run(s: State, schedule: seq<Action>): (r: State)
    requires Shape(s)
    ensures Shape(r) && r.cap == s.cap && r.esize == s.esize
  {
    if schedule == [] then s
    else Step(Run(s, schedule[..|schedule| - 1]), schedule[|schedule| - 1])
  }
}
