/** What each call of the workqueue comes to when nobody else takes a step, or nobody but the worker: an enqueue, a
    start, the worker's round over the list, a flush and a stop. */
module WorkqueueAlone {
  import opened WorkqueueProtocol
  import opened WorkqueueSafety
  import opened WorkqueueThreads
  import opened WorkqueuePromises
  import opened WorkqueueLife

  // ----- an enqueue -----

  function EnqueueAlone(s: State, id: Id, n: nat): State {
    Step(Step(Step(s, EnqueueTest(id, n)), EnqueueLink(id)), EnqueuePost(id))
  }

  lemma BackOutside<T>(m: map<Id, T>, id: Id, a: T, b: T)
    requires id !in m
    ensures m[id := a] - {id} == m && m[id := a][id := b] - {id} == m
  {
  }

  /** The work is last on the list, PENDING, with the next ticket. */
  function Linked(s: State, w: Work): State {
    s.(pending := s.pending + [Entry(w, |s.workOf|)], flags := s.flags[w := Pending], workOf := s.workOf + [w])
  }

  /** The steps of an enqueue that passes its state test. */
  lemma EnqueueSteps(s: State, id: Id, w: Work)
    requires id !in s.callers
    ensures var t := SetCaller(s, id, Links(w));
            var e := |s.workOf|;
            Step(t, EnqueueLink(id)) ==
            if FlagOf(s, w) != Idle then s
            else SetCaller(Linked(s, w), id, Posts(w, e))
  {
    BackOutside(s.callers, id, Links(w), Links(w));
    assert s.callers[id := Links(w)][id := Posts(w, |s.workOf|)] == s.callers[id := Posts(w, |s.workOf|)];
  }

  lemma EnqueuePosts(s: State, id: Id, n: nat, e: Ticket)
    requires id !in s.callers
    ensures Step(SetCaller(s, id, Posts(User(n), e)), EnqueuePost(id)) == s.(sem := 1)
  {
    BackOutside(s.callers, id, Posts(User(n), e), Posts(User(n), e));
  }

  lemma NoneEnters(s: State, id: Id, n: nat)
    requires id !in s.callers && !s.life.IsRunning?
    ensures EnqueueAlone(s, id, n) == s
  {
  }

  lemma OneEnters(s: State, id: Id, n: nat)
    requires id !in s.callers && s.life.IsRunning?
    ensures Step(s, EnqueueTest(id, n)) == SetCaller(s, id, Links(User(n)))
  {
  }

  lemma EnqueueRefused(s: State, id: Id, n: nat)
    requires id !in s.callers && (s.life.IsRunning? ==> FlagOf(s, User(n)) != Idle)
    ensures EnqueueAlone(s, id, n) == s
  {
    if s.life.IsRunning? {
      OneEnters(s, id, n);
      EnqueueSteps(s, id, User(n));
    } else {
      NoneEnters(s, id, n);
    }
  }

  lemma EnqueueAccepted(s: State, id: Id, n: nat)
    requires id !in s.callers && s.life.IsRunning? && FlagOf(s, User(n)) == Idle
    ensures EnqueueAlone(s, id, n) == Linked(s, User(n)).(sem := 1)
  {
    OneEnters(s, id, n);
    EnqueueSteps(s, id, User(n));
    EnqueuePosts(Linked(s, User(n)), id, n, |s.workOf|);
  }

  /** An enqueue that is left alone is refused, and changes nothing, exactly when the queue is not RUNNING or an earlier
      accepted enqueue of the work is unsettled; otherwise the work is last on the list and the semaphore up. */
  lemma EnqueueAloneExact(s: State, id: Id, n: nat)
    requires Inv(s) && id !in s.callers
    ensures EnqueueAlone(s, id, n) ==
            if !s.life.IsRunning? || Unsettled(s, User(n)) then s else Linked(s, User(n)).(sem := 1)
  {
    BusyIsUnsettled(s, User(n));
    if !s.life.IsRunning? || FlagOf(s, User(n)) != Idle {
      EnqueueRefused(s, id, n);
    } else {
      EnqueueAccepted(s, id, n);
    }
  }

  // ----- the worker's round -----

  function TicketsInOrder(p: seq<Entry>): seq<Ticket> {
    seq(|p|, i requires 0 <= i < |p| => p[i].ticket)
  }

  ghost predicate AllExecuted(s: State, p: seq<Entry>) {
    forall i :: 0 <= i < |p| ==> p[i].ticket in s.fate && s.fate[p[i].ticket] == Executed
  }

  function OneWork(s: State, w: Id): State {
    Step(Step(Step(s, WorkerTake(w)), WorkerRun(w)), WorkerReturn(w))
  }

  lemma OneWorkExact(s: State, w: Id)
    requires w in s.workers && s.workers[w].at.Takes? && s.pending != []
    ensures var e := s.pending[0];
            OneWork(s, w) ==
            s.(pending := s.pending[1..], flags := s.flags[e.work := Running][e.work := Idle],
               fate := s.fate[e.ticket := Executed], calls := s.calls + [e.ticket])
  {
    var e, b := s.pending[0], s.workers[w].sound;
    var m: map<Id, Worker> := s.workers;
    assert m[w := Worker(Runs(e), b)][w := Worker(Returns(e), b)] == m[w := Worker(Returns(e), b)];
    assert m[w := Worker(Returns(e), b)][w := Worker(Takes, b)] == m;
  }

  /** The worker goes through the list until it finds it empty. */
  ghost function RoundAlone(s: State, w: Id): State
    requires w in s.workers && s.workers[w].at.Takes?
    decreases |s.pending|
  {
    if s.pending == [] then Step(s, WorkerTake(w))
    else
      OneWorkExact(s, w);
      RoundAlone(OneWork(s, w), w)
  }

  lemma OneWorkKeepsInv(s: State, w: Id)
    requires Inv(s)
    ensures Inv(OneWork(s, w))
  {
    StepKeepsInv(s, WorkerTake(w));
    StepKeepsInv(Step(s, WorkerTake(w)), WorkerRun(w));
    StepKeepsInv(Step(Step(s, WorkerTake(w)), WorkerRun(w)), WorkerReturn(w));
  }

  /** What a round leaves as it was. */
  ghost predicate SameBut(s: State, t: State, w: Id, at: WorkerAt)
    requires w in s.workers
  {
    t.life == s.life && t.sem == s.sem && t.done == s.done && t.callers == s.callers && t.workOf == s.workOf &&
    t.workers == s.workers[w := s.workers[w].(at := at)]
  }

  lemma FirstThenRest(p: seq<Entry>, calls: seq<Ticket>)
    requires p != []
    ensures calls + [p[0].ticket] + TicketsInOrder(p[1..]) == calls + TicketsInOrder(p)
  {
    assert TicketsInOrder(p) == [p[0].ticket] + TicketsInOrder(p[1..]);
  }

  lemma {:induction false} RoundCalls(s: State, w: Id)
    requires w in s.workers && s.workers[w].at.Takes?
    ensures var t := RoundAlone(s, w);
            t.pending == [] && t.calls == s.calls + TicketsInOrder(s.pending) && SameBut(s, t, w, Tests)
    decreases |s.pending|
  {
    if s.pending == [] {
      assert s.calls + TicketsInOrder(s.pending) == s.calls;
    } else {
      OneWorkExact(s, w);
      RoundCalls(OneWork(s, w), w);
      FirstThenRest(s.pending, s.calls);
    }
  }

  lemma {:induction false} RoundKeepsInv(s: State, w: Id)
    requires Inv(s) && w in s.workers && s.workers[w].at.Takes?
    ensures Inv(RoundAlone(s, w))
    decreases |s.pending|
  {
    if s.pending == [] {
      StepKeepsInv(s, WorkerTake(w));
    } else {
      OneWorkExact(s, w);
      OneWorkKeepsInv(s, w);
      RoundKeepsInv(OneWork(s, w), w);
    }
  }

  /** A called function whose worker is past its return has been executed. */
  lemma CalledIsExecuted(s: State, w: Id, u: Ticket)
    requires Inv(s) && w in s.workers && !s.workers[w].at.Returns? && u in s.calls
    ensures u in s.fate && s.fate[u] == Executed
  {
    assert CallOk(s, u);
    if v :| ReturnsTicket(s, v, u) { SingleWorker(s, v, w); }
  }

  lemma CalledAreExecuted(t: State, w: Id, calls: seq<Ticket>, p: seq<Entry>)
    requires Inv(t) && w in t.workers && !t.workers[w].at.Returns? && t.calls == calls + TicketsInOrder(p)
    ensures AllExecuted(t, p)
  {
    forall i | 0 <= i < |p| ensures p[i].ticket in t.fate && t.fate[p[i].ticket] == Executed {
      assert t.calls[|calls| + i] == p[i].ticket;
      CalledIsExecuted(t, w, p[i].ticket);
    }
  }

  /** A worker that takes calls, if nobody else takes a step, the function of every pending work, in the order of the
      enqueues, and comes to its exit test; all of them have been executed and the rest is as it was. */
  lemma RoundExecutesAll(s: State, w: Id)
    requires Inv(s) && w in s.workers && s.workers[w].at.Takes?
    ensures var t := RoundAlone(s, w);
            Inv(t) && t.pending == [] && t.calls == s.calls + TicketsInOrder(s.pending) && AllExecuted(t, s.pending) &&
            SameBut(s, t, w, Tests)
  {
    RoundCalls(s, w);
    RoundKeepsInv(s, w);
    CalledAreExecuted(RoundAlone(s, w), w, s.calls, s.pending);
  }

  /** At its exit test the worker goes back to sleep, unless the queue is STOPPING. */
  lemma TestExact(s: State, w: Id)
    requires w in s.workers && s.workers[w].at.Tests?
    ensures SameBut(s, Step(s, WorkerTest(w)), w, if s.life.IsStopping? then Exits else Waits)
    ensures var t := Step(s, WorkerTest(w)); t.pending == s.pending && t.calls == s.calls && t.fate == s.fate
  {
  }

  lemma BackInPlace<T>(m: map<Id, T>, k: Id, a: T, b: T)
    requires k in m
    ensures m[k := a][k := b][k := m[k]] == m
  {
  }

  lemma WakesUp(s: State, w: Id)
    requires w in s.workers && s.workers[w].at.Waits? && s.sem > 0
    ensures Step(s, WorkerWait(w)) ==
            s.(sem := s.sem - 1, workers := s.workers[w := Worker(Takes, s.workers[w].sound)])
  {
  }

  /** A worker that is woken executes everything on the list and sleeps again. */
  lemma WokenDelivers(s: State, w: Id)
    requires Inv(s) && s.life.IsRunning? && w in s.workers && s.workers[w].at.Waits? && s.sem > 0
    ensures Step(s, WorkerWait(w)).workers[w].at.Takes?
    ensures var t := Step(RoundAlone(Step(s, WorkerWait(w)), w), WorkerTest(w));
            t.pending == [] && t.calls == s.calls + TicketsInOrder(s.pending) && AllExecuted(t, s.pending) &&
            t.workers == s.workers && t.life == s.life && t.callers == s.callers && t.sem == s.sem - 1
  {
    WakesUp(s, w);
    StepKeepsInv(s, WorkerWait(w));
    SleepsAgain(s, s.(sem := s.sem - 1, workers := s.workers[w := Worker(Takes, s.workers[w].sound)]), w);
  }

  lemma SleepsAgain(s: State, u: State, w: Id)
    requires Inv(u) && s.life.IsRunning? && w in s.workers && s.workers[w].at.Waits? && s.sem > 0
    requires u == s.(sem := s.sem - 1, workers := s.workers[w := Worker(Takes, s.workers[w].sound)])
    ensures var t := Step(RoundAlone(u, w), WorkerTest(w));
            t.pending == [] && t.calls == s.calls + TicketsInOrder(s.pending) && AllExecuted(t, s.pending) &&
            t.workers == s.workers && t.life == s.life && t.callers == s.callers && t.sem == s.sem - 1
  {
    var b := s.workers[w].sound;
    BackInPlace(s.workers, w, Worker(Takes, b), Worker(Tests, b));
    RoundExecutesAll(u, w);
    TestExact(RoundAlone(u, w), w);
  }

  /** A worker whose semaphore wait fails runs nothing and leaves: the queue is no longer RUNNING and the completion is
      done. */
  lemma FailedWaitLeaves(s: State, w: Id)
    requires Inv(s) && w in s.workers && s.workers[w].at.Waits?
    ensures Step(Step(s, WorkerSemFail(w)), WorkerExit(w)) ==
            s.(life := IsStopping, done := true, workers := map[])
  {
    OnlyWorker(s, w);
    assert Holds(s, ByWorker(w));
    assert s.workers[w := s.workers[w].(at := Exits)] - {w} == s.workers - {w};
  }

  // ----- a start -----

  function StartAlone(s: State, id: Id): State {
    var t := Step(Step(Step(s, StartTest(id)), StartDrain(id)), StartDrain(id));
    Step(Step(t, StartInit(id)), StartCreate(id))
  }

  /** The semaphore is binary. */
  lemma {:induction false} SemIsBinary(schedule: seq<Action>)
    ensures Run(schedule).sem <= 1
  {
    if schedule != [] {
      SemIsBinary(schedule[..|schedule| - 1]);
      StepKeepsBinary(Run(schedule[..|schedule| - 1]), schedule[|schedule| - 1]);
    }
  }

  lemma StepKeepsBinary(s: State, a: Action)
    requires s.sem <= 1
    ensures Step(s, a).sem <= 1
  {
    if LifeAction(a) {
      LifeKeepsBinary(s, a);
    } else if WorkerAction(a) {
      WorkerKeepsBinary(s, a);
    } else if a.EnqueuePost? {
    } else {
      PlainSemStands(s, a);
    }
  }

  lemma LifeKeepsBinary(s: State, a: Action)
    requires LifeAction(a) && s.sem <= 1
    ensures StepLife(s, a).sem <= 1
  {
  }

  lemma WorkerKeepsBinary(s: State, a: Action)
    requires WorkerAction(a) && s.sem <= 1
    ensures StepWorker(s, a).sem <= 1
  {
  }

  lemma StartDrainsAll(s: State, id: Id)
    requires s.life.IsIdle? && id !in s.callers && s.sem <= 1
    ensures Step(Step(Step(s, StartTest(id)), StartDrain(id)), StartDrain(id)) ==
            SetCaller(s.(life := IsRunning, sem := 0), id, StartInits)
  {
    assert s.callers[id := StartDrains][id := StartInits] == s.callers[id := StartInits];
  }

  lemma StartCreatesWorker(s: State, id: Id)
    requires id !in s.callers
    ensures var t := Step(Step(SetCaller(s, id, StartInits), StartInit(id)), StartCreate(id));
            id in t.workers && t.workers[id].at.Waits? &&
            t == s.(done := false, workers := s.workers[id := t.workers[id]])
  {
    BackOutside(s.callers, id, StartInits, StartCreates);
  }

  /** A start of an idle queue that is left alone makes it RUNNING, with the semaphore down, the completion reset and
      one worker asleep. */
  lemma StartAloneExact(s: State, id: Id)
    requires Inv(s) && s.life.IsIdle? && id !in s.callers && s.sem <= 1
    ensures var t := StartAlone(s, id);
            id in t.workers && t.workers[id].at.Waits? && t.workers.Keys == {id} &&
            t == s.(life := IsRunning, sem := 0, done := false, workers := t.workers)
  {
    StartDrainsAll(s, id);
    StartCreatesWorker(s.(life := IsRunning, sem := 0), id);
    forall w ensures w !in s.workers { assert w in s.workers ==> Holds(s, ByWorker(w)); }
  }

  // ----- a stop -----

  function StopBegins(s: State, id: Id): State {
    Step(Step(s, StopTest(id)), StopPost(id))
  }

  function StopEnds(s: State, id: Id, w: Id): State {
    Step(Step(Step(Step(Step(s, WorkerTest(w)), WorkerExit(w)), StopWait(id)), StopClean(id)), StopIdle(id))
  }

  lemma StopBeginsSo(s: State, id: Id)
    requires s.life.IsRunning? && id !in s.callers
    ensures StopBegins(s, id) == SetCaller(s.(life := IsStopping, sem := 1), id, StopWaits)
  {
    assert s.callers[id := StopPosts][id := StopWaits] == s.callers[id := StopWaits];
  }

  lemma LeavesAndWaits(s: State, id: Id, w: Id)
    requires s.life.IsStopping? && id !in s.callers && w in s.workers && s.workers[w].at.Tests?
    ensures Step(Step(Step(SetCaller(s, id, StopWaits), WorkerTest(w)), WorkerExit(w)), StopWait(id)) ==
            SetCaller(s.(done := false, workers := s.workers - {w}), id, StopCleans)
  {
    assert s.callers[id := StopWaits][id := StopCleans] == s.callers[id := StopCleans];
    assert s.workers[w := s.workers[w].(at := Exits)] - {w} == s.workers - {w};
  }

  lemma CleansAndLeaves(s: State, id: Id)
    requires id !in s.callers && s.pending == []
    ensures Step(Step(SetCaller(s, id, StopCleans), StopClean(id)), StopIdle(id)) == s.(life := IsIdle)
  {
    BackOutside(s.callers, id, StopCleans, StopIdles);
  }

  lemma StopEndsSo(s: State, id: Id, w: Id)
    requires s.life.IsStopping? && id !in s.callers && s.pending == []
    requires w in s.workers && s.workers[w].at.Tests?
    ensures StopEnds(SetCaller(s, id, StopWaits), id, w) ==
            s.(life := IsIdle, done := false, workers := s.workers - {w})
  {
    LeavesAndWaits(s, id, w);
    CleansAndLeaves(s.(done := false, workers := s.workers - {w}), id);
  }

  lemma RoundUnderStop(s: State, id: Id, w: Id)
    requires Inv(s) && s.life.IsRunning? && id !in s.callers && w in s.workers && s.workers[w].at.Waits?
    ensures var v := Step(StopBegins(s, id), WorkerWait(w));
            w in v.workers && v.workers[w].at.Takes? && Inv(v) &&
            v == SetCaller(s.(life := IsStopping, sem := 0,
                              workers := s.workers[w := Worker(Takes, s.workers[w].sound)]), id, StopWaits)
  {
    StopBeginsSo(s, id);
    WakesUp(StopBegins(s, id), w);
    StepKeepsInv(s, StopTest(id));
    StepKeepsInv(Step(s, StopTest(id)), StopPost(id));
    StepKeepsInv(StopBegins(s, id), WorkerWait(w));
  }

  lemma StopFromTest(s: State, r: State, id: Id, w: Id)
    requires id !in s.callers && w in s.workers && r.life.IsStopping? && r.pending == []
    requires r.callers == s.callers[id := StopWaits]
    requires r.workers == s.workers[w := Worker(Tests, s.workers[w].sound)]
    ensures StopEnds(r, id, w) ==
            r.(life := IsIdle, done := false, workers := s.workers - {w}, callers := s.callers)
  {
    var r0 := r.(callers := s.callers);
    assert r == SetCaller(r0, id, StopWaits);
    StopEndsSo(r0, id, w);
    assert r0.workers - {w} == s.workers - {w};
  }

  lemma RoundThroughStop(s: State, v: State, id: Id, w: Id)
    requires Inv(v) && w in s.workers
    requires v == SetCaller(s.(life := IsStopping, sem := 0,
                               workers := s.workers[w := Worker(Takes, s.workers[w].sound)]), id, StopWaits)
    ensures var r := RoundAlone(v, w);
            r.life.IsStopping? && r.pending == [] && r.callers == s.callers[id := StopWaits] &&
            r.workers == s.workers[w := Worker(Tests, s.workers[w].sound)] &&
            r.calls == s.calls + TicketsInOrder(s.pending) && AllExecuted(r, s.pending)
  {
    RoundExecutesAll(v, w);
    var b := s.workers[w].sound;
    assert s.workers[w := Worker(Takes, b)][w := Worker(Tests, b)] == s.workers[w := Worker(Tests, b)];
  }

  lemma StopAfterRound(s: State, v: State, id: Id, w: Id)
    requires Inv(v) && id !in s.callers && w in s.workers
    requires v == SetCaller(s.(life := IsStopping, sem := 0,
                               workers := s.workers[w := Worker(Takes, s.workers[w].sound)]), id, StopWaits)
    ensures var t := StopEnds(RoundAlone(v, w), id, w);
            t.life.IsIdle? && t.workers == s.workers - {w} && t.callers == s.callers && t.pending == [] &&
            t.calls == s.calls + TicketsInOrder(s.pending) && AllExecuted(t, s.pending)
  {
    RoundThroughStop(s, v, id, w);
    StopFromTest(s, RoundAlone(v, w), id, w);
  }

  lemma OnlyWorker(s: State, w: Id)
    requires Custody(s) && w in s.workers
    ensures s.workers - {w} == map[]
  {
    forall v | v in s.workers ensures v == w { SingleWorker(s, v, w); }
  }

  /** A stop of a queue whose worker sleeps, with only that worker moving besides: the function of every pending work is
      called in order, the worker is gone, and the queue is IDLE and can be started again. */
  lemma StopAloneExact(s: State, id: Id, w: Id)
    requires Inv(s) && s.life.IsRunning? && id !in s.callers && w in s.workers && s.workers[w].at.Waits?
    ensures var v := Step(StopBegins(s, id), WorkerWait(w));
            w in v.workers && v.workers[w].at.Takes? &&
            var t := StopEnds(RoundAlone(v, w), id, w);
            t.life.IsIdle? && t.workers == map[] && t.callers == s.callers && t.pending == [] &&
            t.calls == s.calls + TicketsInOrder(s.pending) && AllExecuted(t, s.pending)
  {
    RoundUnderStop(s, id, w);
    StopAfterRound(s, Step(StopBegins(s, id), WorkerWait(w)), id, w);
    OnlyWorker(s, w);
  }

  // ----- a flush -----

  function FlushBegins(s: State, id: Id): State {
    Step(Step(Step(Step(s, FlushTest(id)), FlushEnqueue(id)), EnqueueLink(id)), EnqueuePost(id))
  }

  lemma FlushEnters(s: State, id: Id)
    requires s.life.IsRunning? && id !in s.callers
    ensures Step(Step(s, FlushTest(id)), FlushEnqueue(id)) ==
            SetCaller(s.(flags := s.flags[Barrier(id) := Idle]), id, Links(Barrier(id)))
  {
    assert s.callers[id := FlushEnqueues][id := Links(Barrier(id))] == s.callers[id := Links(Barrier(id))];
  }

  lemma FlushPosts(s: State, id: Id, e: Ticket)
    requires id !in s.callers
    ensures Step(SetCaller(s, id, Posts(Barrier(id), e)), EnqueuePost(id)) == SetCaller(s.(sem := 1), id, Polls(e))
  {
    assert s.callers[id := Posts(Barrier(id), e)][id := Polls(e)] == s.callers[id := Polls(e)];
  }

  /** A flush puts its barrier last on the list, wakes the worker and waits. */
  lemma FlushBeginsSo(s: State, id: Id)
    requires s.life.IsRunning? && id !in s.callers
    ensures FlushBegins(s, id) ==
            SetCaller(Linked(s.(flags := s.flags[Barrier(id) := Idle]), Barrier(id)).(sem := 1), id, Polls(|s.workOf|))
  {
    var u := s.(flags := s.flags[Barrier(id) := Idle]);
    FlushEnters(s, id);
    EnqueueSteps(u, id, Barrier(id));
    FlushPosts(Linked(u, Barrier(id)), id, |s.workOf|);
  }

  lemma FlushBeginsKeepsInv(s: State, id: Id)
    requires Inv(s)
    ensures Inv(FlushBegins(s, id))
  {
    StepKeepsInv(s, FlushTest(id));
    StepKeepsInv(Step(s, FlushTest(id)), FlushEnqueue(id));
    StepKeepsInv(Step(Step(s, FlushTest(id)), FlushEnqueue(id)), EnqueueLink(id));
    StepKeepsInv(Step(Step(Step(s, FlushTest(id)), FlushEnqueue(id)), EnqueueLink(id)), EnqueuePost(id));
  }

  lemma BarrierLast(p: seq<Entry>, e: Entry, calls: seq<Ticket>)
    ensures TicketsInOrder(p + [e]) == TicketsInOrder(p) + [e.ticket]
    ensures calls + TicketsInOrder(p + [e]) == calls + TicketsInOrder(p) + [e.ticket]
  {
  }

  /** With the list empty and no claim every barrier is IDLE. */
  lemma RoundFreesBarrier(s: State, id: Id, w: Id)
    requires Inv(s) && s.pending == [] && w in s.workers && s.workers[w].at.Tests?
    ensures FlagOf(s, Barrier(id)) == Idle
  {
    assert !OnList(s.pending, Barrier(id));
    if FlagOf(s, Barrier(id)) == Running {
      var k :| Claimed(s, k).Some? && Claimed(s, k).value.work == Barrier(id);
      SingleWorker(s, k, w);
    }
  }

  lemma PollLeaves(s: State, id: Id, e: Ticket)
    requires InCall(s, id, Polls(e)) && FlagOf(s, Barrier(id)) == Idle
    ensures Step(s, FlushPoll(id)) == s.(callers := s.callers - {id})
  {
  }

  lemma FlushReturns(s: State, r: State, id: Id, w: Id, e: Ticket)
    requires Inv(r) && id !in s.callers && r.pending == [] && w in r.workers && r.workers[w].at.Tests?
    requires r.callers == s.callers[id := Polls(e)]
    ensures Step(r, FlushPoll(id)) == r.(callers := s.callers)
  {
    RoundFreesBarrier(r, id, w);
    PollLeaves(r, id, e);
    BackOutside(s.callers, id, Polls(e), Polls(e));
  }

  lemma ExecutedPrefix(t: State, p: seq<Entry>, q: seq<Entry>)
    requires AllExecuted(t, p + q)
    ensures AllExecuted(t, p)
  {
    assert forall i :: 0 <= i < |p| ==> (p + q)[i] == p[i];
  }

  lemma FlushAfterRound(s: State, u: State, id: Id, w: Id, e: Ticket)
    requires Inv(u) && id !in s.callers && w in u.workers && u.workers[w].at.Takes?
    requires u.callers == s.callers[id := Polls(e)] && u.pending == s.pending + [Entry(Barrier(id), e)] &&
             u.calls == s.calls
    ensures var t := Step(RoundAlone(u, w), FlushPoll(id));
            t.callers == s.callers && t.pending == [] && t.life == u.life &&
            t.calls == s.calls + TicketsInOrder(s.pending) + [e] && AllExecuted(t, s.pending)
  {
    RoundExecutesAll(u, w);
    var r := RoundAlone(u, w);
    FlushReturns(s, r, id, w, e);
    BarrierLast(s.pending, Entry(Barrier(id), e), s.calls);
    ExecutedPrefix(r, s.pending, [Entry(Barrier(id), e)]);
  }

  /** A flush of a queue whose worker sleeps, with only that worker moving besides, returns after the functions of
      everything that was pending have been called, in order. */
  lemma FlushAloneExact(s: State, id: Id, w: Id)
    requires Inv(s) && s.life.IsRunning? && id !in s.callers && w in s.workers && s.workers[w].at.Waits?
    ensures var u := Step(FlushBegins(s, id), WorkerWait(w));
            w in u.workers && u.workers[w].at.Takes? &&
            var t := Step(RoundAlone(u, w), FlushPoll(id));
            t.callers == s.callers && t.pending == [] && t.life == s.life &&
            t.calls == s.calls + TicketsInOrder(s.pending) + [|s.workOf|] && AllExecuted(t, s.pending)
  {
    FlushBeginsSo(s, id);
    FlushBeginsKeepsInv(s, id);
    WakesUp(FlushBegins(s, id), w);
    StepKeepsInv(FlushBegins(s, id), WorkerWait(w));
    FlushAfterRound(s, Step(FlushBegins(s, id), WorkerWait(w)), id, w, |s.workOf|);
  }
}
