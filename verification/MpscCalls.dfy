/** What the MPSC ring does with what its callers pass: every reserved item is the item of the call that reserved it, a
    peek consumes nothing, and a call that is left alone succeeds exactly when it should. */
module MpscCalls {
  import opened RingArithmetic
  import opened RingSlots
  import opened MpscProtocol
  import opened MpscSafety
  import opened MpscTheorems

  // ----- items are what the callers passed -----

  datatype Option<+T> = None | Some(value: T)

  /** The call begins: its thread is in no other, and the item has the size of an element. */
  ghost predicate Begins(s: State, a: Action, id: Id)
    requires Shape(s)
  {
    a.Call? && a.id == id && At(s, id).Outside? && |a.data| == s.esize
  }

  /** The item passed by the last call of mpscrb_in that the thread began. */
  ghost function LastPassed(s: State, schedule: seq<Action>, id: Id): Option<Item>
    requires Shape(s)
  {
    if schedule == [] then None
    else
      var front, a := schedule[..|schedule| - 1], schedule[|schedule| - 1];
      if Begins(Run(s, front), a, id) then Some(a.data) else LastPassed(s, front, id)
  }

  function InHand(p: Producer): Option<Item> {
    if p.Outside? then None else Some(p.data)
  }

  /** In a step a thread keeps its item, leaves, or begins a call with the item it passes. */
  lemma StepKeepsItem(s: State, a: Action, id: Id)
    requires Shape(s) && !At(Step(s, a), id).Outside?
    ensures InHand(At(Step(s, a), id)) == if Begins(s, a, id) then Some(a.data) else InHand(At(s, id))
  {
  }

  /** Whoever is in a call has in hand the item passed to it. */
  lemma {:induction false} InHandWasPassed(s: State, schedule: seq<Action>, id: Id)
    requires Shape(s) && At(s, id).Outside? && !At(Run(s, schedule), id).Outside?
    ensures InHand(At(Run(s, schedule), id)) == LastPassed(s, schedule, id)
  {
    if schedule != [] {
      var front, a := schedule[..|schedule| - 1], schedule[|schedule| - 1];
      StepKeepsItem(Run(s, front), a, id);
      if !Begins(Run(s, front), a, id) { InHandWasPassed(s, front, id); }
    }
  }

  /** The i-th reservation was made by step k, a swap of its owner, and the item is the one that the owner passed last
      before that step. */
  ghost predicate PassedBy(s: State, schedule: seq<Action>, i: nat, k: nat)
    requires Shape(s)
  {
    var t := Run(s, schedule);
    i < |t.reserved| == |t.owner| && k < |schedule| && schedule[k] == Swap(t.owner[i]) &&
    |Run(s, schedule[..k]).reserved| == i && LastPassed(s, schedule[..k], t.owner[i]) == Some(t.reserved[i])
  }

  /** A step leaves the reservations alone, or is a swap that appends the item its thread has in hand. */
  lemma StepReserves(s: State, a: Action)
    requires Shape(s)
    ensures var t := Step(s, a);
            (t.reserved == s.reserved && t.owner == s.owner) ||
            (a.Swap? && !At(s, a.id).Outside? && t.reserved == s.reserved + [At(s, a.id).data] &&
             t.owner == s.owner + [a.id])
  {
  }

  lemma {:induction false} OwnersMatch(s: State, schedule: seq<Action>)
    requires Shape(s) && |s.reserved| == |s.owner|
    ensures |Run(s, schedule).reserved| == |Run(s, schedule).owner|
  {
    if schedule != [] {
      OwnersMatch(s, schedule[..|schedule| - 1]);
      StepReserves(Run(s, schedule[..|schedule| - 1]), schedule[|schedule| - 1]);
    }
  }

  lemma PassedStays(s: State, schedule: seq<Action>, i: nat, k: nat)
    requires Shape(s) && schedule != [] && PassedBy(s, schedule[..|schedule| - 1], i, k)
    ensures PassedBy(s, schedule, i, k)
  {
    var front := schedule[..|schedule| - 1];
    StepReserves(Run(s, front), schedule[|schedule| - 1]);
    assert front[..k] == schedule[..k];
  }

  /** In every run, of any length, each reserved item is the one that its owner passed to mpscrb_in in the very call
      whose swap reserved the slot. */
  lemma {:induction false} ReservesWhatWasPassed(s: State, schedule: seq<Action>, i: nat) returns (k: nat)
    requires Shape(s) && s.reserved == [] && s.owner == [] && forall id :: At(s, id).Outside?
    requires i < |Run(s, schedule).reserved|
    ensures PassedBy(s, schedule, i, k)
  {
    var front, a := schedule[..|schedule| - 1], schedule[|schedule| - 1];
    var t := Run(s, front);
    StepReserves(t, a);
    if i < |t.reserved| {
      k := ReservesWhatWasPassed(s, front, i);
      PassedStays(s, schedule, i, k);
    } else {
      k := |front|;
      InHandWasPassed(s, front, a.id);
      OwnersMatch(s, front);
    }
  }

  /** So below 2^32 reservations what mpscrb_out returns is, in the order of the successful swaps, what the callers of
      mpscrb_in passed. */
  lemma DeliversWhatWasPassed(cap: nat, esize: nat, slots: seq<Item>, schedule: seq<Action>, i: nat) returns (k: nat)
    requires 0 < cap < U32 && |slots| == cap && forall x :: 0 <= x < cap ==> |slots[x]| == esize
    requires |Run(Init(cap, esize, slots), schedule).reserved| < U32
    requires i < |Run(Init(cap, esize, slots), schedule).delivered|
    ensures var s := Init(cap, esize, slots);
            var t := Run(s, schedule);
            i < |t.owner| && k < |schedule| && schedule[k] == Swap(t.owner[i]) &&
            |Run(s, schedule[..k]).reserved| == i &&
            LastPassed(s, schedule[..k], t.owner[i]) == Some(t.delivered[i])
  {
    Fifo(cap, esize, slots, schedule);
    k := ReservesWhatWasPassed(Init(cap, esize, slots), schedule, i);
  }

  // ----- peeks consume nothing -----

  /** The consumer is in no call, or in mpscrb_out_peek. */
  predicate Peeking(c: Consumer) {
    match c
    case Away => true
    case LoadsWritePos(peek, _) => peek
    case LoadsReady(peek, _) => peek
    case Reads(peek, _, _) => peek
    case _ => false
  }

  ghost predicate OnlyPeeks(schedule: seq<Action>) {
    forall k :: 0 <= k < |schedule| && schedule[k].Take? ==> schedule[k].peek
  }

  ghost predicate NoneSets(schedule: seq<Action>) {
    forall k :: 0 <= k < |schedule| ==> !schedule[k].SetReady?
  }

  /** The flags of before are still up. */
  ghost predicate KeepsFlags(s: State, t: State) {
    |s.ready| <= |t.ready| && forall i :: 0 <= i < |s.ready| && s.ready[i] ==> t.ready[i]
  }

  lemma PeekStep(s: State, a: Action)
    requires Shape(s) && Peeking(s.consumer) && (a.Take? ==> a.peek)
    ensures var t := Step(s, a);
            Peeking(t.consumer) && t.delivered == s.delivered && t.readPos == s.readPos && KeepsFlags(s, t) &&
            (!a.SetReady? ==> t.ready == s.ready)
  {
  }

  /** However the producers move meanwhile, calls of mpscrb_out_peek return nothing as taken, move no position and clear
      no flag: only a producer's last step changes one, and it raises it. */
  lemma {:induction false} PeeksConsumeNothing(s: State, schedule: seq<Action>)
    requires Shape(s) && Peeking(s.consumer) && OnlyPeeks(schedule)
    ensures var t := Run(s, schedule);
            Peeking(t.consumer) && t.delivered == s.delivered && t.readPos == s.readPos && KeepsFlags(s, t) &&
            (NoneSets(schedule) ==> t.ready == s.ready)
  {
    if schedule != [] {
      var front, a := schedule[..|schedule| - 1], schedule[|schedule| - 1];
      PeeksConsumeNothing(s, front);
      PeekStep(Run(s, front), a);
    }
  }

  // ----- mpscrb_in left alone -----

  function CopiesBytes(s: State, id: Id, n: nat): (r: State)
    requires Shape(s)
    ensures Shape(r)
  {
    if n == 0 then s else Step(CopiesBytes(s, id, n - 1), CopyByte(id))
  }

  /** A call of mpscrb_in during which nobody else takes a step; the steps that a refused call does not reach do
      nothing. */
  function InAlone(s: State, id: Id, data: Item): State
    requires Shape(s)
  {
    var t := Step(Step(Step(Step(s, Call(id, data)), LoadWrite(id)), LoadRead(id)), Swap(id));
    Step(CopiesBytes(t, id, |data| + 1), SetReady(id))
  }

  /** The thread has reached a new place, and one slot hwass these bytes. */
  function Reached(s: State, id: Id, p: Producer, i: nat, row: Item): State
    requires Shape(s) && i < s.cap
  {
    Put(s, id, p).(slots := s.slots[i := row])
  }

  lemma CopiesOne(s: State, id: Id, data: Item, pos: int, n: nat, row: Item)
    requires Shape(s) && n < |data| == |row|
    ensures var i := pos % s.cap;
            Step(Reached(s, id, Copies(data, pos, n), i, row), CopyByte(id)) ==
            Reached(s, id, Copies(data, pos, n + 1), i, row[n := data[n]])
  {
    var i := pos % s.cap;
    assert s.slots[i := row][i := row[n := data[n]]] == s.slots[i := row[n := data[n]]];
    assert s.producers[id := Copies(data, pos, n)][id := Copies(data, pos, n + 1)] ==
           s.producers[id := Copies(data, pos, n + 1)];
  }

  lemma RowBegins(data: Item, was: Item)
    ensures data[..0] + was[0..] == was
  {
  }

  lemma RowGrows(data: Item, was: Item, n: nat)
    requires 0 < n <= |data| == |was|
    ensures (data[..n - 1] + was[n - 1..])[n - 1 := data[n - 1]] == data[..n] + was[n..]
  {
  }

  lemma {:induction false} CopiesWhole(s: State, id: Id, data: Item, pos: int, was: Item, n: nat)
    requires Shape(s) && n <= |data| == |was|
    ensures var i := pos % s.cap;
            CopiesBytes(Reached(s, id, Copies(data, pos, 0), i, was), id, n) ==
            Reached(s, id, Copies(data, pos, n), i, data[..n] + was[n..])
  {
    if n == 0 {
      RowBegins(data, was);
    } else {
      CopiesWhole(s, id, data, pos, was, n - 1);
      RowGrows(data, was, n);
      CopiesOne(s, id, data, pos, n - 1, data[..n - 1] + was[n - 1..]);
    }
  }

  /** The call begins and loads both positions. */
  lemma InBegins(s: State, id: Id, data: Item)
    requires Inv(s) && At(s, id).Outside? && |data| == s.esize && |s.reserved| < U32
    ensures Step(Step(Step(s, Call(id, data)), LoadWrite(id)), LoadRead(id)) ==
            Put(s, id, if |s.reserved| == |s.delivered| + s.cap then Outside
                       else Swaps(data, |s.reserved|, 0, |s.reserved|))
  {
    FreeCountExact(s.cap, |s.reserved|, |s.delivered|);
  }

  lemma InFinishes(s: State, id: Id, data: Item, pos: int)
    requires Shape(s)
    ensures var i := pos % s.cap;
            Step(Step(Reached(s, id, Copies(data, pos, |data|), i, data), CopyByte(id)), SetReady(id)) ==
            Reached(s, id, Outside, i, data).(ready := s.ready[i := true])
  {
    var p := s.producers[id := Copies(data, pos, |data|)];
    assert p[id := SetsReady(data, pos)] == s.producers[id := SetsReady(data, pos)];
    assert s.producers[id := SetsReady(data, pos)][id := Outside] == s.producers[id := Outside];
  }

  /** The rest of the call for a thread that has its slot. */
  lemma InEnds(s: State, id: Id, data: Item, pos: int)
    requires Sized(s) && |data| == s.esize
    ensures var i := pos % s.cap;
            Step(CopiesBytes(Put(s, id, Copies(data, pos, 0)), id, |data| + 1), SetReady(id)) ==
            Put(s, id, Outside).(slots := s.slots[i := data], ready := s.ready[i := true])
  {
    var i := pos % s.cap;
    var was := s.slots[i];
    assert s.slots[i := was] == s.slots;
    CopiesWhole(s, id, data, pos, was, |data|);
    assert data[..|data|] + was[|data|..] == data;
    InFinishes(s, id, data, pos);
  }

  lemma SwapsAlone(s: State, id: Id, data: Item)
    requires Shape(s) && s.writePos == |s.reserved| && |s.reserved| + 1 < U32
    ensures var w := |s.reserved|;
            Step(Put(s, id, Swaps(data, w, 0, w)), Swap(id)) ==
            Put(s.(writePos := w + 1, reserved := s.reserved + [data], owner := s.owner + [id]), id,
                Copies(data, w, 0))
  {
    var w := |s.reserved|;
    assert s.producers[id := Swaps(data, w, 0, w)][id := Copies(data, w, 0)] == s.producers[id := Copies(data, w, 0)];
  }

  lemma {:induction false} OutsideStands(s: State, id: Id, n: nat)
    requires Shape(s) && At(s, id).Outside?
    ensures CopiesBytes(s, id, n) == s
  {
    if n > 0 { OutsideStands(s, id, n - 1); }
  }

  /** In every state that a run can reach, a call of mpscrb_in that is left alone is refused when the ring is full, and
      then nothing has changed ... */
  lemma InRefused(s: State, id: Id, data: Item)
    requires Inv(s) && At(s, id).Outside? && |data| == s.esize && |s.reserved| < U32
    requires |s.reserved| == |s.delivered| + s.cap
    ensures InAlone(s, id, data) == Put(s, id, Outside)
  {
    InBegins(s, id, data);
    OutsideStands(Put(s, id, Outside), id, |data| + 1);
  }

  /** ... and otherwise succeeds: its item is reserved last, whole in its slot and marked ready. */
  lemma InSucceeds(s: State, id: Id, data: Item)
    requires Inv(s) && At(s, id).Outside? && |data| == s.esize && |s.reserved| + 1 < U32
    requires |s.reserved| < |s.delivered| + s.cap
    ensures var i := |s.reserved| % s.cap;
            InAlone(s, id, data) ==
            Put(s, id, Outside).(writePos := |s.reserved| + 1, reserved := s.reserved + [data],
              owner := s.owner + [id], slots := s.slots[i := data], ready := s.ready[i := true])
  {
    InBegins(s, id, data);
    SwapsAlone(s, id, data);
    var u := s.(writePos := |s.reserved| + 1, reserved := s.reserved + [data], owner := s.owner + [id]);
    InEnds(u, id, data, |s.reserved|);
  }

  // ----- mpscrb_out and mpscrb_out_peek left alone -----

  function TakesBytes(s: State, n: nat): (r: State)
    requires Shape(s)
    ensures Shape(r)
  {
    if n == 0 then s else Step(TakesBytes(s, n - 1), TakeByte)
  }

  /** A call of mpscrb_out, or of mpscrb_out_peek, during which no producer takes a step. */
  function OutAlone(s: State, peek: bool): State
    requires Shape(s)
  {
    var t := Step(Step(Step(s, Take(peek)), TakeLoadWrite), TakeLoadReady);
    Step(Step(TakesBytes(t, s.esize + 1), TakeClear), TakeStore)
  }

  lemma TakesOne(s: State, peek: bool, pos: int, row: Item, n: nat)
    requires Shape(s) && s.slots[pos % s.cap] == row && n < |row| == s.esize
    ensures Step(s.(consumer := Reads(peek, pos, row[..n])), TakeByte) == s.(consumer := Reads(peek, pos, row[..n + 1]))
  {
    assert row[..n] + [row[n]] == row[..n + 1];
  }

  lemma {:induction false} TakesWhole(s: State, peek: bool, pos: int, row: Item, n: nat)
    requires Shape(s) && s.slots[pos % s.cap] == row && n <= |row| == s.esize
    ensures TakesBytes(s.(consumer := Reads(peek, pos, [])), n) == s.(consumer := Reads(peek, pos, row[..n]))
  {
    if n == 0 {
      assert row[..0] == [];
    } else {
      TakesWhole(s, peek, pos, row, n - 1);
      TakesOne(s, peek, pos, row, n - 1);
    }
  }

  lemma {:induction false} AwayStands(s: State, n: nat)
    requires Shape(s) && s.consumer.Away?
    ensures TakesBytes(s, n) == s
  {
    if n > 0 { AwayStands(s, n - 1); }
  }

  lemma OutBegins(s: State, peek: bool)
    requires Inv(s) && s.consumer.Away? && |s.reserved| < U32
    ensures var r := |s.delivered|;
            Step(Step(Step(s, Take(peek)), TakeLoadWrite), TakeLoadReady) ==
            if |s.reserved| == r || !s.ready[r % s.cap] then s else s.(consumer := Reads(peek, r, []))
  {
  }

  lemma OutFinishes(s: State, peek: bool, pos: int, item: Item)
    requires Shape(s) && |item| == s.esize
    ensures Step(Step(Step(s.(consumer := Reads(peek, pos, item)), TakeByte), TakeClear), TakeStore) ==
            if peek then s.(consumer := Away, peeked := s.peeked + [(|s.delivered|, item)])
            else s.(consumer := Away, ready := s.ready[pos % s.cap := false], readPos := (pos + 1) % U32,
                    delivered := s.delivered + [item])
  {
  }

  lemma OutEnds(s: State, peek: bool, pos: nat, item: Item)
    requires Shape(s) && s.consumer.Away? && s.slots[pos % s.cap] == item && |item| == s.esize && pos + 1 < U32
    ensures Step(Step(TakesBytes(s.(consumer := Reads(peek, pos, [])), s.esize + 1), TakeClear), TakeStore) ==
            if peek then s.(peeked := s.peeked + [(|s.delivered|, item)])
            else s.(ready := s.ready[pos % s.cap := false], readPos := pos + 1, delivered := s.delivered + [item])
  {
    TakesWhole(s, peek, pos, item, s.esize);
    assert item[..s.esize] == item;
    OutFinishes(s, peek, pos, item);
  }

  lemma HeadItem(s: State)
    requires Inv(s) && |s.delivered| < |s.reserved| && s.ready[|s.delivered| % s.cap]
    ensures var r := |s.delivered|; s.slots[r % s.cap] == s.reserved[r] && |s.reserved[r]| == s.esize
  {
    assert PositionOk(s, |s.delivered|);
  }

  /** In every state that a run can reach, a call of mpscrb_out or mpscrb_out_peek that is left alone changes nothing
      when no item is reserved beyond those taken, or the flag of the first of them is down ... */
  lemma OutFindsNothing(s: State, peek: bool)
    requires Inv(s) && s.consumer.Away? && |s.reserved| < U32
    requires |s.reserved| == |s.delivered| || !s.ready[|s.delivered| % s.cap]
    ensures OutAlone(s, peek) == s
  {
    OutBegins(s, peek);
    AwayStands(s, s.esize + 1);
  }

  /** ... and otherwise mpscrb_out takes that item, and mpscrb_out_peek shows it and changes nothing. */
  lemma OutFindsFirst(s: State, peek: bool)
    requires Inv(s) && s.consumer.Away? && |s.reserved| < U32
    requires |s.delivered| < |s.reserved| && s.ready[|s.delivered| % s.cap]
    ensures var r := |s.delivered|;
            OutAlone(s, peek) ==
            if peek then s.(peeked := s.peeked + [(r, s.reserved[r])])
            else s.(ready := s.ready[r % s.cap := false], readPos := r + 1, delivered := s.delivered + [s.reserved[r]])
  {
    var r := |s.delivered|;
    HeadItem(s);
    OutBegins(s, peek);
    OutEnds(s, peek, r, s.reserved[r]);
  }
}
