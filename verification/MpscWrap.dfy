/** What the 32-bit counters of the MPSC ring do when they come round.  No run of any ring delivers more than
    2^32 - 1 items, because the emptiness test compares raw counters; and a producer that stalls for as long is refused
    by a ring that has room, or reserves a slot of one that has none. */
module MpscWrap {
  import opened RingArithmetic
  import opened RingSlots
  import opened MpscProtocol

  // ----- what holds of every run, however long -----

  /** The consumer's counter never comes round: past its test it holds a position below another 32-bit number. */
  ghost predicate Unwrapped(s: State) {
    0 <= s.writePos < U32 && s.readPos == |s.delivered| < U32 &&
    match s.consumer
    case Away => true
    case LoadsWritePos(_, pos) => pos == |s.delivered|
    case _ => s.consumer.pos == |s.delivered| < U32 - 1
  }

  lemma StepKeepsUnwrapped(s: State, a: Action)
    requires Shape(s) && Unwrapped(s)
    ensures Unwrapped(Step(s, a))
  {
  }

  lemma {:induction false} RunKeepsUnwrapped(s: State, schedule: seq<Action>)
    requires Shape(s) && Unwrapped(s)
    ensures Unwrapped(Run(s, schedule))
  {
    if schedule != [] {
      RunKeepsUnwrapped(s, schedule[..|schedule| - 1]);
      StepKeepsUnwrapped(Run(s, schedule[..|schedule| - 1]), schedule[|schedule| - 1]);
    }
  }

  /** Whatever the capacity and the run, mpscrb_out returns at most 2^32 - 1 items in the life of a ring, and after
      that many every call of it and of mpscrb_out_peek finds the ring empty, whatever has been put in. */
  lemma DeliveryEnds(cap: nat, esize: nat, slots: seq<Item>, schedule: seq<Action>)
    requires 0 < cap && |slots| == cap
    ensures var s := Run(Init(cap, esize, slots), schedule);
            |s.delivered| < U32 &&
            (|s.delivered| == U32 - 1 ==>
               (s.consumer.Away? || s.consumer.LoadsWritePos?) && Step(s, TakeLoadWrite).consumer.Away? &&
               forall peek :: Step(Step(s, Take(peek)), TakeLoadWrite) == s.(consumer := Away))
  {
    RunKeepsUnwrapped(Init(cap, esize, slots), schedule);
    var s := Run(Init(cap, esize, slots), schedule);
    if |s.delivered| == U32 - 1 {
      forall peek ensures Step(Step(s, Take(peek)), TakeLoadWrite) == s.(consumer := Away) {
        var t := Step(s, Take(peek));
        assert t.consumer.LoadsWritePos? && t.consumer.pos >= t.writePos;
        assert t.(consumer := Away) == s.(consumer := Away);
      }
    }
  }

  // ----- runs round the counters -----

  /** A one-slot ring of one-byte items at rest, n items having come and `left` of them still in it, with producer 1
      stalled where it is. */
  ghost predicate AtRest(s: State, n: nat, left: nat, stalled: Producer) {
    Sized(s) && s.cap == 1 && s.esize == 1 && left <= n &&
    At(s, 0).Outside? && At(s, 1) == stalled && s.consumer.Away? &&
    s.writePos == n % U32 && s.readPos == (n - left) % U32 && s.ready == [left == 1] &&
    |s.reserved| == n && |s.delivered| == n - left
  }

  lemma RunStep(s: State, schedule: seq<Action>, a: Action)
    requires Shape(s)
    ensures Run(s, schedule + [a]) == Step(Run(s, schedule), a)
  {
    assert (schedule + [a])[..|schedule|] == schedule;
  }

  /** The steps of a call up to its swap. */
  lemma Approach(s: State, n: nat, stalled: Producer) returns (t: State)
    requires AtRest(s, n, 0, stalled)
    ensures t == Step(Step(Step(s, Call(0, [7])), LoadWrite(0)), LoadRead(0))
    ensures t == s.(producers := t.producers) && At(t, 0) == Swaps([7], n, 0, n % U32) && At(t, 1) == stalled
  {
    var s1 := Step(s, Call(0, [7]));
    assert At(s1, 0) == LoadsWrite([7], n, 0);
    var s2 := Step(s1, LoadWrite(0));
    assert At(s2, 0) == LoadsRead([7], n, 0, n % U32);
    t := Step(s2, LoadRead(0));
  }

  /** The steps up to a successful swap. */
  lemma Reserve(s: State, n: nat, stalled: Producer) returns (t: State)
    requires AtRest(s, n, 0, stalled)
    ensures t == Step(Step(Step(Step(s, Call(0, [7])), LoadWrite(0)), LoadRead(0)), Swap(0))
    ensures Sized(t) && t.cap == 1 && t.esize == 1 && t.consumer.Away?
    ensures At(t, 0) == Copies([7], n % U32, 0) && At(t, 1) == stalled
    ensures t.writePos == (n + 1) % U32 && t.readPos == n % U32 && t.ready == [false]
    ensures |t.reserved| == n + 1 && |t.delivered| == n
  {
    var s3 := Approach(s, n, stalled);
    t := Step(s3, Swap(0));
    NextPosition(n);
  }

  lemma NextPosition(n: nat)
    ensures (n % U32 + 1) % U32 == (n + 1) % U32
  {
  }

  lemma Fill(t: State, n: nat, stalled: Producer) returns (u: State)
    requires Sized(t) && t.cap == 1 && t.esize == 1 && t.consumer.Away?
    requires At(t, 0) == Copies([7], n % U32, 0) && At(t, 1) == stalled
    requires t.writePos == (n + 1) % U32 && t.readPos == n % U32 && t.ready == [false]
    requires |t.reserved| == n + 1 && |t.delivered| == n
    ensures u == Step(Step(Step(t, CopyByte(0)), CopyByte(0)), SetReady(0)) && AtRest(u, n + 1, 1, stalled)
  {
    var t1 := Step(t, CopyByte(0));
    assert At(t1, 0) == Copies([7], n % U32, 1);
    var t2 := Step(t1, CopyByte(0));
    assert At(t2, 0) == SetsReady([7], n % U32);
    u := Step(t2, SetReady(0));
  }

  lemma PutOne(start: State, schedule: seq<Action>, n: nat, stalled: Producer) returns (longer: seq<Action>)
    requires Shape(start) && AtRest(Run(start, schedule), n, 0, stalled)
    ensures AtRest(Run(start, longer), n + 1, 1, stalled)
  {
    var t := Reserve(Run(start, schedule), n, stalled);
    var u := Fill(t, n, stalled);
    longer := schedule;
    RunStep(start, longer, Call(0, [7])); longer := longer + [Call(0, [7])];
    RunStep(start, longer, LoadWrite(0)); longer := longer + [LoadWrite(0)];
    RunStep(start, longer, LoadRead(0)); longer := longer + [LoadRead(0)];
    RunStep(start, longer, Swap(0)); longer := longer + [Swap(0)];
    RunStep(start, longer, CopyByte(0)); longer := longer + [CopyByte(0)];
    RunStep(start, longer, CopyByte(0)); longer := longer + [CopyByte(0)];
    RunStep(start, longer, SetReady(0)); longer := longer + [SetReady(0)];
  }

  lemma Read(s: State, n: nat, stalled: Producer) returns (t: State)
    requires AtRest(s, n, 1, stalled) && s.readPos < s.writePos
    ensures t == Step(Step(Step(s, Take(false)), TakeLoadWrite), TakeLoadReady)
    ensures t == s.(consumer := Reads(false, s.readPos, []))
  {
    var s1 := Step(s, Take(false));
    assert s1 == s.(consumer := LoadsWritePos(false, s.readPos));
    var s2 := Step(s1, TakeLoadWrite);
    assert s2 == s.(consumer := LoadsReady(false, s.readPos));
    t := Step(s2, TakeLoadReady);
  }

  lemma Finish(s: State, t: State, n: nat, stalled: Producer) returns (u: State)
    requires AtRest(s, n, 1, stalled) && t == s.(consumer := Reads(false, s.readPos, []))
    ensures u == Step(Step(Step(Step(t, TakeByte), TakeByte), TakeClear), TakeStore) && AtRest(u, n, 0, stalled)
  {
    var got := [s.slots[0][0]];
    assert Slot(t, s.readPos) == 0 && [] + [s.slots[0][0]] == got;
    var t1 := Step(t, TakeByte);
    assert t1 == s.(consumer := Reads(false, s.readPos, got));
    var t2 := Step(t1, TakeByte);
    assert t2 == s.(consumer := ClearsReady(s.readPos, got));
    var t3 := Step(t2, TakeClear);
    assert t3 == s.(consumer := StoresRead(s.readPos, got), ready := [false]);
    u := Step(t3, TakeStore);
    assert u == s.(consumer := Away, ready := [false], readPos := u.readPos, delivered := s.delivered + [got]);
    NextPosition(n - 1);
  }

  lemma TakeOne(start: State, schedule: seq<Action>, n: nat, stalled: Producer) returns (longer: seq<Action>)
    requires Shape(start) && AtRest(Run(start, schedule), n, 1, stalled)
    requires Run(start, schedule).readPos < Run(start, schedule).writePos
    ensures AtRest(Run(start, longer), n, 0, stalled)
  {
    var t := Read(Run(start, schedule), n, stalled);
    var u := Finish(Run(start, schedule), t, n, stalled);
    longer := schedule;
    RunStep(start, longer, Take(false)); longer := longer + [Take(false)];
    RunStep(start, longer, TakeLoadWrite); longer := longer + [TakeLoadWrite];
    RunStep(start, longer, TakeLoadReady); longer := longer + [TakeLoadReady];
    RunStep(start, longer, TakeByte); longer := longer + [TakeByte];
    RunStep(start, longer, TakeByte); longer := longer + [TakeByte];
    RunStep(start, longer, TakeClear); longer := longer + [TakeClear];
    RunStep(start, longer, TakeStore); longer := longer + [TakeStore];
  }

  lemma CountersApart(n: nat, s: State, stalled: Producer)
    requires 0 < n < U32 && AtRest(s, n, 1, stalled)
    ensures s.readPos < s.writePos
  {
  }

  /** Producer 0 and the consumer pass n items through the ring. */
  lemma {:induction false} Rounds(start: State, prefix: seq<Action>, n: nat, stalled: Producer)
    returns (schedule: seq<Action>)
    requires Shape(start) && AtRest(Run(start, prefix), 0, 0, stalled) && n < U32
    ensures AtRest(Run(start, schedule), n, 0, stalled)
  {
    if n == 0 {
      schedule := prefix;
    } else {
      var before := Rounds(start, prefix, n - 1, stalled);
      var once := PutOne(start, before, n - 1, stalled);
      CountersApart(n, Run(start, once), stalled);
      schedule := TakeOne(start, once, n, stalled);
    }
  }

  /** The one-slot ring, and producer 1 as far as its load of writePos. */
  lemma Stall() returns (schedule: seq<Action>)
    ensures AtRest(Run(Init(1, 1, [[0]]), schedule), 0, 0, LoadsRead([7], 0, 0, 0))
  {
    var start := Init(1, 1, [[0]]);
    schedule := [];
    RunStep(start, schedule, Call(1, [7])); schedule := schedule + [Call(1, [7])];
    RunStep(start, schedule, LoadWrite(1)); schedule := schedule + [LoadWrite(1)];
  }

  /** There is a run after which an item lies ready and no thread is at work, and the consumer's next call finds
      nothing and leaves everything as it was. */
  lemma ItemLostAtWrap() returns (schedule: seq<Action>)
    ensures var t := Run(Init(1, 1, [[0]]), schedule);
            AtRest(t, U32, 1, Outside) && Step(Step(t, Take(false)), TakeLoadWrite) == t
  {
    var start := Init(1, 1, [[0]]);
    var before := Rounds(start, [], U32 - 1, Outside);
    schedule := PutOne(start, before, U32 - 1, Outside);
    var t := Run(start, schedule);
    assert Step(t, Take(false)) == t.(consumer := LoadsWritePos(false, U32 - 1));
  }

  lemma StaleRefused(t: State)
    requires AtRest(t, U32 - 1, 0, LoadsRead([7], 0, 0, 0))
    ensures At(Step(t, LoadRead(1)), 1).Outside?
  {
    assert FreeCount(1, 0, U32 - 1) == 0;
  }

  lemma StaleSwaps(t: State)
    requires AtRest(t, U32, 1, Swaps([7], 0, 0, 0))
    ensures At(Step(t, Swap(1)), 1) == Copies([7], 0, 0)
  {
  }

  /** There is a run after which the ring is empty and at rest, but for one producer that loaded writePos long ago:
      its next step turns its item away. */
  lemma RefusedWithRoom() returns (schedule: seq<Action>)
    ensures var t := Run(Init(1, 1, [[0]]), schedule);
            AtRest(t, U32 - 1, 0, LoadsRead([7], 0, 0, 0)) && At(Step(t, LoadRead(1)), 1).Outside?
  {
    var start := Init(1, 1, [[0]]);
    var prefix := Stall();
    schedule := Rounds(start, prefix, U32 - 1, LoadsRead([7], 0, 0, 0));
    StaleRefused(Run(start, schedule));
  }

  /** There is a run in which a producer's swap succeeds on a counter that has come round to the value it loaded: it
      reserves the only slot, in which another's item lies ready. */
  lemma StaleSwapSucceeds() returns (schedule: seq<Action>)
    ensures var t := Run(Init(1, 1, [[0]]), schedule);
            AtRest(t, U32, 1, Swaps([7], 0, 0, 0)) && |t.reserved| == |t.delivered| + t.cap &&
            At(Step(t, Swap(1)), 1) == Copies([7], 0, 0)
  {
    var start := Init(1, 1, [[0]]);
    schedule := Stall();
    RunStep(start, schedule, LoadRead(1)); schedule := schedule + [LoadRead(1)];
    schedule := Rounds(start, schedule, U32 - 1, Swaps([7], 0, 0, 0));
    schedule := PutOne(start, schedule, U32 - 1, Swaps([7], 0, 0, 0));
    StaleSwaps(Run(start, schedule));
  }
}
