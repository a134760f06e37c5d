/** What every run of the SPSC ring keeps.  Nothing bounds the length of a run: the 32-bit positions
    wrap round as often as they like. */
module SpscSafety {
  import opened RingArithmetic
  import opened RingSlots
  import opened SpscProtocol

  // ----- the invariant -----

  /** The published items not yet consumed. */
  ghost function Queue(s: State): seq<Item>
    requires |s.delivered| <= |s.accepted|
  {
    s.accepted[|s.delivered|..]
  }

  ghost predicate AllSized(items: seq<Item>, esize: nat) {
    forall j :: 0 <= j < |items| ==> |items[j]| == esize
  }

  ghost predicate Counters(s: State) {
    var r, w := |s.delivered|, |s.accepted|;
    s.writePos == w % U32 && s.readPos == r % U32 && r <= w <= r + s.cap &&
    s.delivered == s.accepted[..r] && AllSized(s.accepted, s.esize)
  }

  ghost predicate Stored(s: State)
    requires Shape(s)
  {
    forall q :: |s.delivered| <= q < |s.accepted| ==> s.slots[q % s.cap] == s.accepted[q]
  }

  /** The slots from position w on hold these items. */
  ghost predicate Holds(s: State, w: nat, items: seq<Item>)
    requires Shape(s)
  {
    forall j :: 0 <= j < |items| ==> s.slots[(w + j) % s.cap] == items[j]
  }

  ghost predicate CopyOk(s: State, data: seq<Item>, i: nat, k: nat)
    requires Sized(s)
  {
    var w := |s.accepted|;
    AllSized(data, s.esize) && w + |data| <= |s.delivered| + s.cap && i <= |data| && k < s.esize &&
    Holds(s, w, data[..i]) && (if i < |data| then s.slots[(w + i) % s.cap][..k] == data[i][..k] else k == 0)
  }

  ghost predicate ProducerOk(s: State)
    requires Sized(s)
  {
    var w := |s.accepted|;
    match s.producer
    case Outside => true
    case LoadsRead(data, pos) => pos == w % U32 && AllSized(data, s.esize)
    case LoadsReadToUpdate(_, pos) => pos == w % U32
    case Copies(data, pos, i, k) => pos == w % U32 && CopyOk(s, data, i, k)
    case StoresWrite(data, pos) =>
      pos == w % U32 && AllSized(data, s.esize) && w + |data| <= |s.delivered| + s.cap && Holds(s, w, data)
  }

  ghost predicate ConsumerOk(s: State)
    requires Sized(s) && Counters(s)
  {
    var r := |s.delivered|;
    match s.consumer
    case Away => true
    case LoadsWrite(_, _, pos) => pos == r % U32
    case Reads(_, n, pos, got, part) =>
      pos == r % U32 && r + n <= |s.accepted| && |got| <= n && got == s.accepted[r..r + |got|] && |part| < s.esize &&
      (if |got| < n then part == s.accepted[r + |got|][..|part|] else part == [])
    case StoresRead(got, pos) => pos == r % U32 && r + |got| <= |s.accepted| && got == s.accepted[r..r + |got|]
  }

  ghost predicate PeekOk(s: State, p: (nat, seq<Item>)) {
    p.0 + |p.1| <= |s.accepted| && p.1 == s.accepted[p.0..p.0 + |p.1|]
  }

  ghost predicate PeeksOk(s: State) {
    forall i :: 0 <= i < |s.peeked| ==> PeekOk(s, s.peeked[i])
  }

  ghost predicate Inv(s: State) {
    Sized(s) && Counters(s) && Stored(s) && ProducerOk(s) && ConsumerOk(s) && PeeksOk(s)
  }

  // ----- positions, slots and counts -----

  /** The slot found from a wrapped position is the slot of the true one. */
  lemma TrueSlot(cap: nat, p: nat, j: nat)
    requires 0 < cap && U32 % cap == 0
    ensures (p % U32 + j) % cap == (p + j) % cap
  {
    assert U32 == (U32 / cap) * cap;
    WrappedSlot(cap, U32 / cap, p, j);
  }

  /** The unsigned difference of wrapped positions is the true one. */
  lemma TrueUsed(w: nat, r: nat)
    requires r <= w < r + U32
    ensures UsedCount(w % U32, r % U32) == w - r
  {
  }

  lemma SamePosition(w: nat, r: nat)
    requires r <= w < r + U32
    ensures w % U32 == r % U32 <==> w == r
  {
  }

  lemma TrueAvail(cap: nat, w: nat, r: nat)
    requires r <= w <= r + cap && cap < U32
    ensures AvailCount(cap, w % U32, r % U32) == r + cap - w
  {
    TrueUsed(w, r);
  }

  lemma WrapAdd(p: nat, n: nat)
    ensures (p % U32 + n) % U32 == (p + n) % U32
  {
  }

  /** What the slots found from a wrapped position hold. */
  lemma SlotsFromTrue(s: State, w: nat, n: nat)
    requires Sized(s)
    ensures AllSized(SlotsFrom(s, w % U32, n), s.esize) && Holds(s, w, SlotsFrom(s, w % U32, n))
  {
    forall j | 0 <= j < n ensures SlotsFrom(s, w % U32, n)[j] == s.slots[(w + j) % s.cap] { TrueSlot(s.cap, w, j); }
  }

  lemma OtherSlotsDiffer(s: State, p: int)
    requires Shape(s) && |s.delivered| <= p < |s.delivered| + s.cap
    ensures forall q :: |s.delivered| <= q < |s.delivered| + s.cap && q != p ==> q % s.cap != p % s.cap
  {
    forall q | |s.delivered| <= q < |s.delivered| + s.cap && q != p ensures q % s.cap != p % s.cap {
      if p < q { SlotsDiffer(s.cap, p, q); } else { SlotsDiffer(s.cap, q, p); }
    }
  }

  // ----- one step keeps the invariant -----

  lemma CallKeepsInv(s: State, a: Action)
    requires Inv(s) && (a.In? || a.UpdateIn? || a.Out?)
    ensures Inv(Step(s, a)) && Queue(Step(s, a)) == Queue(s)
  {
    match a
    case Out(_, _) =>
    case In(_) =>
    case UpdateIn(_) =>
  }

  /** The load of readPos fixes how many items fit: exactly the free slots at that moment, or all of them. */
  lemma LoadReadTakesWhatFits(s: State)
    requires Inv(s) && s.producer.LoadsRead?
    ensures var data := s.producer.data;
            Step(s, LoadRead).producer == Copies(data[..Min(|data|, s.cap - |Queue(s)|)], s.producer.pos, 0, 0)
    ensures Inv(Step(s, LoadRead))
  {
    TrueAvail(s.cap, |s.accepted|, |s.delivered|);
  }

  lemma UpdateInTakesWhatFits(s: State)
    requires Inv(s) && s.producer.LoadsReadToUpdate?
    ensures var t := Step(s, LoadRead);
            t.producer.StoresWrite? && Inv(t) && |t.producer.data| == Min(s.producer.count, s.cap - |Queue(s)|)
  {
    TrueAvail(s.cap, |s.accepted|, |s.delivered|);
    SlotsFromTrue(s, |s.accepted|, Min(s.producer.count, s.cap - |Queue(s)|));
  }

  /** Writing a byte of a slot from w on leaves every stored item alone. */
  lemma WriteKeepsStored(s: State, j: nat, byte: nat, x: Byte)
    requires Inv(s) && |s.accepted| + j < |s.delivered| + s.cap && byte < s.esize
    ensures var i := (|s.accepted| + j) % s.cap; var t := s.(slots := s.slots[i := s.slots[i][byte := x]]);
            Sized(t) && Counters(t) && Stored(t) && ConsumerOk(t) && PeeksOk(t)
  {
    OtherSlotsDiffer(s, |s.accepted| + j);
  }

  lemma FillKeepsInv(s: State, j: nat, byte: nat, x: Byte)
    requires Inv(s)
    ensures Inv(Step(s, Fill(j, byte, x))) && Queue(Step(s, Fill(j, byte, x))) == Queue(s)
  {
    if s.producer.Outside? && j < AvailCount(s.cap, s.writePos, s.readPos) && byte < s.esize {
      TrueAvail(s.cap, |s.accepted|, |s.delivered|);
      TrueSlot(s.cap, |s.accepted|, j);
      WriteKeepsStored(s, j, byte, x);
    }
  }

  lemma TakeMore(a: Item, b: Item, k: nat)
    requires |a| == |b| && k < |a| && a[..k] == b[..k]
    ensures a[k := b[k]][..k + 1] == b[..k + 1]
    ensures k + 1 == |a| ==> a[k := b[k]] == b
  {
    assert b[..k + 1] == b[..k] + [b[k]] && a[k := b[k]][..k + 1] == a[..k] + [b[k]];
    if k + 1 == |a| {
      assert a[k := b[k]] == a[k := b[k]][..k + 1] && b == b[..k + 1];
    }
  }

  /** The copied byte goes to its own slot, so the items already copied stay. */
  lemma CopyKeepsHeld(s: State, data: seq<Item>, i: nat, k: nat)
    requires Inv(s) && CopyOk(s, data, i, k) && i < |data|
    ensures var at := (|s.accepted| + i) % s.cap;
            var t := s.(slots := s.slots[at := s.slots[at][k := data[i][k]]]);
            Sized(t) && Holds(t, |s.accepted|, data[..i])
  {
    var w := |s.accepted|;
    OtherSlotsDiffer(s, w + i);
    forall j | 0 <= j < i ensures (w + j) % s.cap != (w + i) % s.cap && s.slots[(w + j) % s.cap] == data[j] {
      assert data[..i][j] == data[j];
    }
  }

  lemma HoldsOneMore(s: State, w: nat, data: seq<Item>, i: nat)
    requires Shape(s) && i < |data| && Holds(s, w, data[..i]) && s.slots[(w + i) % s.cap] == data[i]
    ensures Holds(s, w, data[..i + 1])
  {
    var more := data[..i + 1];
    forall j | 0 <= j < i + 1 ensures s.slots[(w + j) % s.cap] == more[j] {
      assert j < i ==> more[j] == data[..i][j];
    }
  }

  lemma CopyByteKeepsOk(s: State, data: seq<Item>, i: nat, k: nat)
    requires Inv(s) && CopyOk(s, data, i, k) && i < |data|
    ensures var at := (|s.accepted| + i) % s.cap;
            var t := s.(slots := s.slots[at := s.slots[at][k := data[i][k]]]);
            Sized(t) && if k + 1 < s.esize then CopyOk(t, data, i, k + 1) else CopyOk(t, data, i + 1, 0)
  {
    var w := |s.accepted|;
    var at := (w + i) % s.cap;
    var t := s.(slots := s.slots[at := s.slots[at][k := data[i][k]]]);
    CopyKeepsHeld(s, data, i, k);
    TakeMore(s.slots[at], data[i], k);
    if k + 1 == s.esize {
      HoldsOneMore(t, w, data, i);
    }
  }

  lemma CopyOneByteKeepsInv(s: State, data: seq<Item>, pos: int, i: nat, k: nat)
    requires Inv(s) && s.producer == Copies(data, pos, i, k) && i < |data|
    ensures var at := (|s.accepted| + i) % s.cap;
            Inv(s.(producer := if k + 1 < s.esize then Copies(data, pos, i, k + 1) else Copies(data, pos, i + 1, 0),
                   slots := s.slots[at := s.slots[at][k := data[i][k]]]))
  {
    WriteKeepsStored(s, i, k, data[i][k]);
    CopyByteKeepsOk(s, data, i, k);
  }

  lemma CopyEndKeepsInv(s: State, data: seq<Item>, pos: int, k: nat)
    requires Inv(s) && s.producer == Copies(data, pos, |data|, k)
    ensures Inv(s.(producer := StoresWrite(data, pos)))
  {
    assert data[..|data|] == data;
  }

  lemma CopyByteStep(s: State, data: seq<Item>, pos: int, i: nat, k: nat)
    requires Inv(s) && s.producer == Copies(data, pos, i, k)
    ensures Step(s, CopyByte) ==
            if i >= |data| then s.(producer := StoresWrite(data, pos))
            else
              var at := (|s.accepted| + i) % s.cap;
              s.(producer := if k + 1 < s.esize then Copies(data, pos, i, k + 1) else Copies(data, pos, i + 1, 0),
                 slots := s.slots[at := s.slots[at][k := data[i][k]]])
  {
    TrueSlot(s.cap, |s.accepted|, i);
  }

  lemma CopyByteKeepsInv(s: State)
    requires Inv(s)
    ensures Inv(Step(s, CopyByte))
  {
    match s.producer
    case Copies(data, pos, i, k) =>
      CopyByteStep(s, data, pos, i, k);
      if i < |data| {
        CopyOneByteKeepsInv(s, data, pos, i, k);
      } else {
        CopyEndKeepsInv(s, data, pos, k);
      }
    case _ =>
  }

  lemma StoredAppend(s: State, data: seq<Item>)
    requires Inv(s) && Holds(s, |s.accepted|, data)
    ensures Stored(s.(accepted := s.accepted + data))
  {
    var w := |s.accepted|;
    forall q | |s.delivered| <= q < w + |data| ensures s.slots[q % s.cap] == (s.accepted + data)[q] {
      if q >= w { assert s.slots[(w + (q - w)) % s.cap] == data[q - w]; }
    }
  }

  lemma CountersAppend(s: State, data: seq<Item>)
    requires Counters(s) && AllSized(data, s.esize) && |s.accepted| + |data| <= |s.delivered| + s.cap
    ensures Counters(s.(writePos := (s.writePos + |data|) % U32, accepted := s.accepted + data))
  {
    WrapAdd(|s.accepted|, |data|);
    SliceKept(s.accepted, data, 0, |s.delivered|);
  }

  /** Publishing appends the copied items to the queue. */
  lemma StoreWriteKeepsInv(s: State)
    requires Inv(s) && s.producer.StoresWrite?
    ensures Inv(Step(s, StoreWrite)) && Queue(Step(s, StoreWrite)) == Queue(s) + s.producer.data
  {
    var data := s.producer.data;
    CountersAppend(s, data);
    StoredAppend(s, data);
    PrefixKept(s, data);
    PeeksKept(s, data);
  }

  lemma SliceKept(a: seq<Item>, b: seq<Item>, lo: nat, hi: nat)
    requires lo <= hi <= |a|
    ensures (a + b)[lo..hi] == a[lo..hi]
  {
  }

  lemma PrefixKept(s: State, data: seq<Item>)
    requires Inv(s)
    ensures match s.consumer
            case Reads(_, n, _, got, part) => got == (s.accepted + data)[|s.delivered|..|s.delivered| + |got|]
            case StoresRead(got, _) => got == (s.accepted + data)[|s.delivered|..|s.delivered| + |got|]
            case _ => true
  {
    match s.consumer
    case Reads(_, n, _, got, part) => SliceKept(s.accepted, data, |s.delivered|, |s.delivered| + |got|);
    case StoresRead(got, _) => SliceKept(s.accepted, data, |s.delivered|, |s.delivered| + |got|);
    case _ =>
  }

  lemma PeeksKept(s: State, data: seq<Item>)
    requires PeeksOk(s)
    ensures PeeksOk(s.(accepted := s.accepted + data))
  {
    forall i | 0 <= i < |s.peeked| ensures PeekOk(s.(accepted := s.accepted + data), s.peeked[i]) {
      var p := s.peeked[i];
      assert PeekOk(s, p);
      SliceKept(s.accepted, data, p.0, p.0 + |p.1|);
    }
  }

  lemma QueueAtSlots(s: State, n: nat)
    requires Inv(s) && n <= |Queue(s)|
    ensures SlotsFrom(s, s.readPos, n) == s.accepted[|s.delivered|..|s.delivered| + n] == Queue(s)[..n]
  {
    var r := |s.delivered|;
    SlotsFromTrue(s, r, n);
    forall j | 0 <= j < n ensures SlotsFrom(s, s.readPos, n)[j] == s.accepted[r + j] {
      assert s.slots[(r + j) % s.cap] == s.accepted[r + j];
    }
  }

  /** The load of writePos fixes how many items there are: exactly those in the queue at that moment, or as many
      as were asked for. */
  lemma LoadWriteGivesWhatIsThere(s: State)
    requires Inv(s) && s.consumer.LoadsWrite?
    ensures var t := Step(s, LoadWrite); var n := Min(s.consumer.count, |Queue(s)|);
            Inv(t) && if s.consumer.kind.Skip? then t.consumer == StoresRead(Queue(s)[..n], s.consumer.pos)
                      else t.consumer == Reads(s.consumer.kind.Peek?, n, s.consumer.pos, [], [])
  {
    TrueUsed(|s.accepted|, |s.delivered|);
    QueueAtSlots(s, Min(s.consumer.count, |Queue(s)|));
  }

  lemma ReadMore(items: seq<Item>, r: nat, got: seq<Item>, part: Item, x: Byte)
    requires r + |got| < |items| && got == items[r..r + |got|]
    requires |part| < |items[r + |got|]| && part == items[r + |got|][..|part|] && x == items[r + |got|][|part|]
    ensures part + [x] == items[r + |got|][..|part| + 1]
    ensures |part| + 1 == |items[r + |got|]| ==> got + [part + [x]] == items[r..r + |got| + 1]
  {
    var item := items[r + |got|];
    if |part| + 1 == |item| { assert part + [x] == item; }
  }

  lemma ReadOneByteKeepsInv(s: State, peek: bool, n: nat, pos: int, got: seq<Item>, part: Item)
    requires Inv(s) && s.consumer == Reads(peek, n, pos, got, part) && |got| < n
    ensures |s.slots[(pos + |got|) % s.cap]| == s.esize
    ensures var x := s.slots[(pos + |got|) % s.cap][|part|];
            Inv(s.(consumer := if |part| + 1 < s.esize then Reads(peek, n, pos, got, part + [x])
                               else Reads(peek, n, pos, got + [part + [x]], [])))
  {
    var r := |s.delivered|;
    TrueSlot(s.cap, r, |got|);
    assert s.slots[(r + |got|) % s.cap] == s.accepted[r + |got|];
    ReadMore(s.accepted, r, got, part, s.accepted[r + |got|][|part|]);
  }

  lemma ReadEndKeepsInv(s: State, got: seq<Item>)
    requires Inv(s) && s.consumer.Reads? && s.consumer.got == got && |got| == s.consumer.n
    ensures Inv(s.(consumer := Away, peeked := s.peeked + [(|s.delivered|, got)]))
    ensures Inv(s.(consumer := StoresRead(got, s.consumer.pos)))
  {
    assert PeekOk(s, (|s.delivered|, got));
  }

  lemma ReadByteKeepsInv(s: State)
    requires Inv(s)
    ensures Inv(Step(s, ReadByte))
  {
    match s.consumer
    case Reads(peek, n, pos, got, part) =>
      if |got| < n {
        ReadOneByteKeepsInv(s, peek, n, pos, got, part);
      } else {
        ReadEndKeepsInv(s, got);
      }
    case _ =>
  }

  lemma CutFront(items: seq<Item>, r: nat, n: nat)
    requires r + n <= |items|
    ensures items[..r] + items[r..r + n] == items[..r + n] && items[r..] == items[r..r + n] + items[r + n..]
  {
  }

  lemma CountersRemove(s: State, n: nat)
    requires Counters(s) && |s.delivered| + n <= |s.accepted|
    ensures var got := s.accepted[|s.delivered|..|s.delivered| + n];
            Counters(s.(readPos := (s.readPos + n) % U32, delivered := s.delivered + got))
  {
    WrapAdd(|s.delivered|, n);
    CutFront(s.accepted, |s.delivered|, n);
  }

  /** The state without the n oldest items. */
  ghost function Removed(s: State, n: nat): State
    requires |s.delivered| + n <= |s.accepted|
  {
    s.(consumer := Away, readPos := (s.readPos + n) % U32,
       delivered := s.delivered + s.accepted[|s.delivered|..|s.delivered| + n])
  }

  lemma StoreReadRemoves(s: State)
    requires Inv(s) && s.consumer.StoresRead?
    ensures |s.delivered| + |s.consumer.got| <= |s.accepted| && Step(s, StoreRead) == Removed(s, |s.consumer.got|)
  {
  }

  /** The producer has only more room. */
  lemma RemovedKeepsProducer(s: State, n: nat)
    requires Inv(s) && |s.delivered| + n <= |s.accepted|
    ensures ProducerOk(Removed(s, n))
  {
  }

  lemma RemovedKeepsInv(s: State, n: nat)
    requires Inv(s) && |s.delivered| + n <= |s.accepted|
    ensures Inv(Removed(s, n))
  {
    CountersRemove(s, n);
    RemovedKeepsProducer(s, n);
  }

  /** Releasing removes the items read from the front of the queue. */
  lemma StoreReadKeepsInv(s: State)
    requires Inv(s) && s.consumer.StoresRead?
    ensures Inv(Step(s, StoreRead)) && Queue(s) == s.consumer.got + Queue(Step(s, StoreRead))
  {
    StoreReadRemoves(s);
    RemovedKeepsInv(s, |s.consumer.got|);
    CutFront(s.accepted, |s.delivered|, |s.consumer.got|);
  }

  /** Every step of either thread keeps the invariant. */
  lemma StepKeepsInv(s: State, a: Action)
    requires Inv(s)
    ensures Inv(Step(s, a))
  {
    match (a, s.producer, s.consumer)
    case (In(_), _, _) => CallKeepsInv(s, a);
    case (UpdateIn(_), _, _) => CallKeepsInv(s, a);
    case (Out(_, _), _, _) => CallKeepsInv(s, a);
    case (Fill(j, byte, x), _, _) => FillKeepsInv(s, j, byte, x);
    case (LoadRead, LoadsRead(_, _), _) => LoadReadTakesWhatFits(s);
    case (LoadRead, LoadsReadToUpdate(_, _), _) => UpdateInTakesWhatFits(s);
    case (CopyByte, _, _) => CopyByteKeepsInv(s);
    case (StoreWrite, StoresWrite(_, _), _) => StoreWriteKeepsInv(s);
    case (LoadWrite, _, LoadsWrite(_, _, _)) => LoadWriteGivesWhatIsThere(s);
    case (ReadByte, _, _) => ReadByteKeepsInv(s);
    case (StoreRead, _, StoresRead(_, _)) => StoreReadKeepsInv(s);
    case _ =>
  }

  // ----- whole runs -----

  lemma {:induction false} RunKeepsInv(s: State, schedule: seq<Action>)
    requires Inv(s)
    ensures Inv(Run(s, schedule))
  {
    if schedule != [] {
      var front := schedule[..|schedule| - 1];
      RunKeepsInv(s, front);
      StepKeepsInv(Run(s, front), schedule[|schedule| - 1]);
    }
  }

  /** In every interleaving, what the consumer got is a prefix of what the producer put in, at most a capacity
      behind, and every peek saw the items that were next. */
  lemma Fifo(cap: nat, esize: nat, slots: seq<Item>, schedule: seq<Action>)
    requires Shape(Init(cap, esize, slots)) && AllSized(slots, esize)
    ensures var s := Run(Init(cap, esize, slots), schedule);
            |s.delivered| <= |s.accepted| <= |s.delivered| + cap && s.delivered == s.accepted[..|s.delivered|] &&
            PeeksOk(s)
  {
    RunKeepsInv(Init(cap, esize, slots), schedule);
  }

  /** Each step is a step of a bounded first-in-first-out queue: it appends the published items, or removes from
      the front the items it returns, or leaves the queue alone, and the queue never outgrows the capacity. */
  lemma StepRefinesFifo(s: State, a: Action)
    requires Inv(s)
    ensures var t := Step(s, a);
            |t.delivered| <= |t.accepted| && |Queue(t)| <= t.cap &&
            (if a.StoreWrite? && s.producer.StoresWrite? then Queue(t) == Queue(s) + s.producer.data
             else if a.StoreRead? && s.consumer.StoresRead? then Queue(s) == s.consumer.got + Queue(t)
             else Queue(t) == Queue(s))
  {
    StepKeepsInv(s, a);
    if a.StoreWrite? && s.producer.StoresWrite? { StoreWriteKeepsInv(s); }
    if a.StoreRead? && s.consumer.StoresRead? { StoreReadKeepsInv(s); }
  }

  /** The byte being written and the byte being read never share a slot. */
  lemma WriterAndReaderApart(s: State)
    requires Inv(s) && s.producer.Copies? && s.producer.i < |s.producer.data|
    requires s.consumer.Reads? && |s.consumer.got| < s.consumer.n
    ensures (s.producer.pos + s.producer.i) % s.cap != (s.consumer.pos + |s.consumer.got|) % s.cap
  {
    TrueSlot(s.cap, |s.accepted|, s.producer.i);
    TrueSlot(s.cap, |s.delivered|, |s.consumer.got|);
    SlotsDiffer(s.cap, |s.delivered| + |s.consumer.got|, |s.accepted| + s.producer.i);
  }

  /** The queries load writePos in state s and readPos in a later state t.  Asked by the producer, whose own
      position stands still, they are exact at the second load; asked by the consumer, at the first. */
  lemma QueriesExact(s: State, t: State)
    requires Inv(s) && Inv(t) && s.cap == t.cap && (s.accepted == t.accepted || s.delivered == t.delivered)
    ensures var q := if s.accepted == t.accepted then Queue(t) else Queue(s);
            var len := UsedCount(s.writePos, t.readPos);
            len == |q| && AvailCount(s.cap, s.writePos, t.readPos) == s.cap - |q| &&
            (len > s.cap - 1 <==> |q| == s.cap) && (s.writePos == t.readPos <==> q == [])
  {
    var w, r := |s.accepted|, |t.delivered|;
    TrueAvail(s.cap, w, r);
    TrueUsed(w, r);
    assert s.writePos == t.readPos <==> w == r by { SamePosition(w, r); }
  }
}
