/** What the SPSC ring does with what its callers pass and ask for: ringbuf_in publishes a prefix of its caller's items,
    the three ways out return no more than was asked for, and a call that is left alone is one operation of a bounded
    queue. */
module SpscCalls {
  import opened RingArithmetic
  import opened RingSlots
  import opened SpscProtocol
  import opened SpscSafety

  // ----- the producer's side -----

  /** What the producer last called: ringbuf_in with these items, or ringbuf_update_in with this count. */
  datatype Passed = Nothing | Items(data: seq<Item>) | Count(n: nat)

  ghost predicate Begins(s: State, a: Action) {
    s.producer.Outside? && (a.UpdateIn? || (a.In? && AllSized(a.data, s.esize)))
  }

  ghost function LastPassed(s: State, schedule: seq<Action>): Passed
    requires Shape(s)
  {
    if schedule == [] then Nothing
    else
      var front, a := schedule[..|schedule| - 1], schedule[|schedule| - 1];
      if !Begins(Run(s, front), a) then LastPassed(s, front) else if a.In? then Items(a.data) else Count(a.count)
  }

  /** These items may be published in the call. */
  predicate Serves(items: seq<Item>, p: Passed) {
    match p
    case Nothing => items == []
    case Items(data) => items <= data
    case Count(n) => |items| <= n
  }

  /** The producer is where a call with this argument may be. */
  predicate InCallOf(place: Producer, p: Passed) {
    match place
    case Outside => true
    case LoadsRead(data, _) => p == Items(data)
    case LoadsReadToUpdate(count, _) => p == Count(count)
    case Copies(data, _, _, _) => p.Items? && data <= p.data
    case StoresWrite(data, _) => Serves(data, p)
  }

  lemma StepKeepsCall(s: State, a: Action, p: Passed)
    requires Shape(s) && InCallOf(s.producer, p)
    ensures InCallOf(Step(s, a).producer, if !Begins(s, a) then p else if a.In? then Items(a.data) else Count(a.count))
  {
  }

  lemma {:induction false} RunKeepsCall(s: State, schedule: seq<Action>)
    requires Shape(s) && s.producer.Outside?
    ensures InCallOf(Run(s, schedule).producer, LastPassed(s, schedule))
  {
    if schedule != [] {
      var front, a := schedule[..|schedule| - 1], schedule[|schedule| - 1];
      RunKeepsCall(s, front);
      StepKeepsCall(Run(s, front), a, LastPassed(s, front));
    }
  }

  /** What t has published beyond s. */
  ghost function Published(s: State, t: State): seq<Item> {
    if s.accepted <= t.accepted then t.accepted[|s.accepted|..] else []
  }

  lemma StepPublishes(s: State, a: Action, p: Passed)
    requires Shape(s) && InCallOf(s.producer, p)
    ensures var t := Step(s, a); s.accepted <= t.accepted && (t.accepted == s.accepted || Serves(Published(s, t), p))
  {
    if a.StoreWrite? && s.producer.StoresWrite? {
      assert (s.accepted + s.producer.data)[|s.accepted|..] == s.producer.data;
    }
  }

  /** In every run each step publishes nothing, or a prefix of the items that the call of ringbuf_in in progress was
      given, or no more items than ringbuf_update_in was told. */
  lemma PublishesWhatWasPassed(s: State, schedule: seq<Action>, a: Action)
    requires Shape(s) && s.producer.Outside?
    ensures var t, u := Run(s, schedule), Step(Run(s, schedule), a);
            t.accepted <= u.accepted &&
            (u.accepted == t.accepted || Serves(Published(t, u), LastPassed(s, schedule)))
  {
    RunKeepsCall(s, schedule);
    StepPublishes(Run(s, schedule), a, LastPassed(s, schedule));
  }

  // ----- the consumer's side -----

  datatype Asked = NeverAsked | Asked(kind: Kind, count: nat)

  ghost function LastAsked(s: State, schedule: seq<Action>): Asked
    requires Shape(s)
  {
    if schedule == [] then NeverAsked
    else
      var front, a := schedule[..|schedule| - 1], schedule[|schedule| - 1];
      if a.Out? && Run(s, front).consumer.Away? then Asked(a.kind, a.count) else LastAsked(s, front)
  }

  predicate InOutOf(place: Consumer, q: Asked) {
    match place
    case Away => true
    case LoadsWrite(kind, count, _) => q == Asked(kind, count)
    case Reads(peek, n, _, got, _) => q.Asked? && !q.kind.Skip? && peek == q.kind.Peek? && |got| <= n <= q.count
    case StoresRead(got, _) => q.Asked? && !q.kind.Peek? && |got| <= q.count
  }

  lemma StepKeepsOut(s: State, a: Action, q: Asked)
    requires Shape(s) && InOutOf(s.consumer, q)
    ensures InOutOf(Step(s, a).consumer, if a.Out? && s.consumer.Away? then Asked(a.kind, a.count) else q)
  {
  }

  lemma {:induction false} RunKeepsOut(s: State, schedule: seq<Action>)
    requires Shape(s) && s.consumer.Away?
    ensures InOutOf(Run(s, schedule).consumer, LastAsked(s, schedule))
  {
    if schedule != [] {
      var front, a := schedule[..|schedule| - 1], schedule[|schedule| - 1];
      RunKeepsOut(s, front);
      StepKeepsOut(Run(s, front), a, LastAsked(s, front));
    }
  }

  /** A step that returns items, drops them or shows them does what the caller asked. */
  ghost predicate Answers(s: State, t: State, q: Asked) {
    ((t.delivered == s.delivered && t.readPos == s.readPos) ||
     (q.Asked? && !q.kind.Peek? && s.delivered <= t.delivered && |t.delivered| <= |s.delivered| + q.count)) &&
    (t.peeked == s.peeked ||
     (q.Asked? && q.kind.Peek? && |t.peeked| == |s.peeked| + 1 && s.peeked <= t.peeked &&
      t.peeked[|s.peeked|].0 == |s.delivered| && |t.peeked[|s.peeked|].1| <= q.count))
  }

  lemma StepAnswers(s: State, a: Action, q: Asked)
    requires Shape(s) && InOutOf(s.consumer, q)
    ensures Answers(s, Step(s, a), q)
  {
  }

  /** In every run each step consumes nothing, or no more items than the call of ringbuf_out or ringbuf_update_out in
      progress asked for; and only ringbuf_out_peek shows items without consuming them. */
  lemma ReturnsWhatWasAsked(s: State, schedule: seq<Action>, a: Action)
    requires Shape(s) && s.consumer.Away?
    ensures Answers(Run(s, schedule), Step(Run(s, schedule), a), LastAsked(s, schedule))
  {
    RunKeepsOut(s, schedule);
    StepAnswers(Run(s, schedule), a, LastAsked(s, schedule));
  }

  // ----- calls left alone -----

  /** The producer copies until its block is whole. */
  ghost function CopiesAlone(s: State): (r: State)
    requires Inv(s) && s.producer.Copies?
    ensures Shape(r)
    decreases |s.producer.data| - s.producer.i, s.esize - s.producer.k
  {
    var t := Step(s, CopyByte);
    CopyByteKeepsInv(s);
    if t.producer.Copies? then CopiesAlone(t) else t
  }

  lemma InLoads(s: State, data: seq<Item>)
    requires Inv(s) && s.producer.Outside? && AllSized(data, s.esize)
    ensures var t := Step(Step(s, In(data)), LoadRead);
            Inv(t) && t == s.(producer := Copies(data[..Min(|data|, s.cap - |Queue(s)|)], s.writePos, 0, 0))
  {
    CallKeepsInv(s, In(data));
    LoadReadTakesWhatFits(Step(s, In(data)));
  }

  /** A call of ringbuf_in during which the consumer takes no step. */
  ghost function InAlone(s: State, data: seq<Item>): State
    requires Inv(s) && s.producer.Outside? && AllSized(data, s.esize)
  {
    InLoads(s, data);
    Step(CopiesAlone(Step(Step(s, In(data)), LoadRead)), StoreWrite)
  }

  lemma CopyAlone(s: State)
    requires Inv(s) && s.producer.Copies?
    ensures var t := Step(s, CopyByte);
            Inv(t) && t.producer.data == s.producer.data && t == s.(slots := t.slots, producer := t.producer) &&
            t.producer.pos == s.producer.pos && (t.producer.Copies? || t.producer.StoresWrite?)
  {
    CopyByteKeepsInv(s);
  }

  lemma {:induction false} CopiesAll(s: State)
    requires Inv(s) && s.producer.Copies?
    ensures var t := CopiesAlone(s);
            Inv(t) && t == s.(slots := t.slots, producer := StoresWrite(s.producer.data, s.producer.pos))
    decreases |s.producer.data| - s.producer.i, s.esize - s.producer.k
  {
    var t := Step(s, CopyByte);
    CopyAlone(s);
    if t.producer.Copies? { CopiesAll(t); }
  }

  /** In every state that a run can reach, a call of ringbuf_in that is left alone appends to the queue as many of the
      caller's items as there is room for, the first ones in their order, and leaves the consumer's side alone. */
  lemma InAloneExact(s: State, data: seq<Item>)
    requires Inv(s) && s.producer.Outside? && AllSized(data, s.esize)
    ensures var t := InAlone(s, data);
            Inv(t) && t.producer.Outside? && Queue(t) == Queue(s) + data[..Min(|data|, s.cap - |Queue(s)|)] &&
            t.delivered == s.delivered && t.readPos == s.readPos && t.consumer == s.consumer && t.peeked == s.peeked
  {
    InLoads(s, data);
    var t := s.(producer := Copies(data[..Min(|data|, s.cap - |Queue(s)|)], s.writePos, 0, 0));
    CopiesAll(t);
    StoreWriteKeepsInv(CopiesAlone(t));
  }

  function UpdateInAlone(s: State, count: nat): State
    requires Shape(s)
  {
    Step(Step(Step(s, UpdateIn(count)), LoadRead), StoreWrite)
  }

  /** ringbuf_update_in publishes as many slots as there is room for, with the bytes that the caller left in them. */
  lemma UpdateInAloneExact(s: State, count: nat)
    requires Inv(s) && s.producer.Outside?
    ensures var n := Min(count, s.cap - |Queue(s)|);
            var t := UpdateInAlone(s, count);
            Inv(t) && t.producer.Outside? && t.slots == s.slots && |Queue(t)| == |Queue(s)| + n &&
            Queue(t)[..|Queue(s)|] == Queue(s) && t.delivered == s.delivered && t.readPos == s.readPos &&
            t.consumer == s.consumer && t.peeked == s.peeked
  {
    var t := Step(s, UpdateIn(count));
    CallKeepsInv(s, UpdateIn(count));
    UpdateInTakesWhatFits(t);
    StoreWriteKeepsInv(Step(t, LoadRead));
  }

  /** The consumer reads until it has all it set out to read. */
  ghost function ReadsAlone(s: State): (r: State)
    requires Inv(s) && s.consumer.Reads?
    ensures Shape(r)
    decreases s.consumer.n - |s.consumer.got|, s.esize - |s.consumer.part|
  {
    var t := Step(s, ReadByte);
    ReadByteKeepsInv(s);
    ReadAlone(s);
    if t.consumer.Reads? then ReadsAlone(t) else t
  }

  /** One more byte, or the end: a peek shows the items, and a take goes on to store readPos. */
  lemma ReadAlone(s: State)
    requires Inv(s) && s.consumer.Reads?
    ensures var c, t := s.consumer, Step(s, ReadByte);
            if |c.got| < c.n then
              t.consumer.Reads? && t == s.(consumer := t.consumer) &&
              t.consumer.n == c.n && t.consumer.peek == c.peek && t.consumer.pos == c.pos && |c.got| <= |t.consumer.got| &&
              (|t.consumer.got| == |c.got| ==> |c.part| < |t.consumer.part|) && Inv(t)
            else t == (if c.peek then s.(consumer := Away, peeked := s.peeked + [(|s.delivered|, c.got)])
                       else s.(consumer := StoresRead(c.got, c.pos)))
  {
    ReadByteKeepsInv(s);
    if |s.consumer.got| < s.consumer.n {
      ReadOneByteKeepsInv(s, s.consumer.peek, s.consumer.n, s.consumer.pos, s.consumer.got, s.consumer.part);
    }
  }

  lemma {:induction false} ReadsAll(s: State)
    requires Inv(s) && s.consumer.Reads?
    ensures var c, t := s.consumer, ReadsAlone(s);
            var items := Queue(s)[..c.n];
            t == (if c.peek then s.(consumer := Away, peeked := s.peeked + [(|s.delivered|, items)])
                  else s.(consumer := StoresRead(items, c.pos)))
    decreases s.consumer.n - |s.consumer.got|, s.esize - |s.consumer.part|
  {
    ReadAlone(s);
    var t := Step(s, ReadByte);
    if |s.consumer.got| < s.consumer.n {
      ReadsAll(t);
    } else {
      assert s.consumer.got == Queue(s)[..s.consumer.n];
    }
  }

  lemma ReadsOut(s: State, peek: bool, n: nat)
    requires Counters(s) && s.consumer.Away? && n <= |Queue(s)| &&
             Inv(s.(consumer := Reads(peek, n, s.readPos, [], [])))
    ensures Step(ReadsAlone(s.(consumer := Reads(peek, n, s.readPos, [], []))), StoreRead) ==
            if peek then s.(peeked := s.peeked + [(|s.delivered|, Queue(s)[..n])])
            else s.(readPos := (s.readPos + n) % U32, delivered := s.delivered + Queue(s)[..n])
  {
    ReadsAll(s.(consumer := Reads(peek, n, s.readPos, [], [])));
  }

  lemma OutLoads(s: State, kind: Kind, count: nat)
    requires Inv(s) && s.consumer.Away?
    ensures var n := Min(count, |Queue(s)|);
            var t := Step(Step(s, Out(kind, count)), LoadWrite);
            Inv(t) && t == s.(consumer := if kind.Skip? then StoresRead(Queue(s)[..n], s.readPos)
                                          else Reads(kind.Peek?, n, s.readPos, [], []))
  {
    CallKeepsInv(s, Out(kind, count));
    LoadWriteGivesWhatIsThere(Step(s, Out(kind, count)));
  }

  /** A call of ringbuf_out, ringbuf_out_peek or ringbuf_update_out during which the producer takes no step. */
  ghost function OutAlone(s: State, kind: Kind, count: nat): State
    requires Inv(s) && s.consumer.Away?
  {
    OutLoads(s, kind, count);
    var t := Step(Step(s, Out(kind, count)), LoadWrite);
    if kind.Skip? then Step(t, StoreRead) else Step(ReadsAlone(t), StoreRead)
  }

  /** In every state that a run can reach, a call on the way out that is left alone moves as many items as were asked
      for and are there from the front of the queue to the caller; ringbuf_out_peek shows the same items and changes
      nothing.  The producer's side is left alone. */
  lemma OutAloneExact(s: State, kind: Kind, count: nat)
    requires Inv(s) && s.consumer.Away?
    ensures var n := Min(count, |Queue(s)|);
            var t := OutAlone(s, kind, count);
            t == if kind.Peek? then s.(peeked := s.peeked + [(|s.delivered|, Queue(s)[..n])])
                 else s.(readPos := (s.readPos + n) % U32, delivered := s.delivered + Queue(s)[..n])
  {
    OutLoads(s, kind, count);
    if !kind.Skip? { ReadsOut(s, kind.Peek?, Min(count, |Queue(s)|)); }
  }
}
