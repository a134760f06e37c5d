/** The life of a workqueue over whole runs: while it is RUNNING a worker lives or a start is about to create it,
    pending work is watched, and what is accepted is what an enqueue or a flush brought while RUNNING. */
module WorkqueueLife {
  import opened WorkqueueProtocol
  import opened WorkqueueSafety
  import opened WorkqueueThreads
  import opened WorkqueuePromises
  import opened WorkqueueWake

  // ----- the worker lives as long as the queue is RUNNING -----

  predicate Starting(c: Caller) {
    c.StartDrains? || c.StartInits? || c.StartCreates?
  }

  ghost predicate SomeStarts(s: State) {
    exists id :: id in s.callers && Starting(s.callers[id])
  }

  ghost predicate SomeWorker(s: State) {
    exists w :: w in s.workers
  }

  /** A queue that is RUNNING has a worker, or a start that has not created it yet; a worker on its way out has seen
      STOPPING. */
  ghost predicate Staffed(s: State) {
    (s.life.IsRunning? ==> SomeWorker(s) || SomeStarts(s)) &&
    (forall w :: w in s.workers && s.workers[w].at.Exits? ==> s.life.IsStopping?)
  }

  lemma LinkKeepsStarts(s: State, id: Id, w: Work)
    requires id in s.callers && s.callers[id].Links? && SomeStarts(s)
    ensures SomeStarts(Link(s, id, w))
  {
    var k :| k in s.callers && Starting(s.callers[k]);
    assert k in Link(s, id, w).callers && Starting(Link(s, id, w).callers[k]);
  }

  predicate OneMoves(a: Action) {
    a.EnqueueTest? || a.EnqueuePost? || a.FlushTest? || a.FlushEnqueue? || a.FlushPoll?
  }

  lemma OthersStand(s: State, a: Action, k: Id)
    requires OneMoves(a) && k != a.id
    ensures k in StepEnqueue(s, a).callers <==> k in s.callers
    ensures k in s.callers ==> StepEnqueue(s, a).callers[k] == s.callers[k]
  {
    OtherCallersStand(s, a);
  }

  /** A thread in the middle of a start does nothing else. */
  lemma StartingStands(s: State, a: Action)
    requires OneMoves(a) && a.id in s.callers && Starting(s.callers[a.id])
    ensures StepEnqueue(s, a) == s
  {
  }

  lemma PlainLeavesStarts(s: State, a: Action, k: Id)
    requires !a.EnqueueLink? && k in s.callers && Starting(s.callers[k])
    ensures k in StepEnqueue(s, a).callers && StepEnqueue(s, a).callers[k] == s.callers[k]
  {
    if OneMoves(a) {
      if k != a.id { OthersStand(s, a, k); } else { StartingStands(s, a); }
    }
  }

  lemma EnqueueKeepsStarts(s: State, a: Action)
    requires SomeStarts(s)
    ensures SomeStarts(StepEnqueue(s, a))
  {
    if a.EnqueueLink? {
      if a.id in s.callers && s.callers[a.id].Links? { LinkKeepsStarts(s, a.id, s.callers[a.id].work); }
    } else {
      var k :| k in s.callers && Starting(s.callers[k]);
      PlainLeavesStarts(s, a, k);
    }
  }

  lemma EnqueueKeepsStaffed(s: State, a: Action)
    requires Staffed(s)
    ensures Staffed(StepEnqueue(s, a))
  {
    EnqueueKeepsHolders(s, a);
    if SomeStarts(s) { EnqueueKeepsStarts(s, a); }
    if SomeWorker(s) {
      var w :| w in s.workers;
      assert w in StepEnqueue(s, a).workers;
    }
  }

  /** A start in progress goes on, until it creates the worker or gives up. */
  lemma LifeLeavesStarts(s: State, a: Action, k: Id)
    requires LifeAction(a) && k in s.callers && Starting(s.callers[k])
    ensures var t := StepLife(s, a); (k in t.callers && Starting(t.callers[k])) || k in t.workers || t.life.IsIdle?
  {
  }

  lemma LifeKeepsWorkers(s: State, a: Action)
    requires Custody(s) && LifeAction(a) && SomeWorker(s)
    ensures var t := StepLife(s, a); t.workers == s.workers && (t.life == s.life || t.life.IsStopping?)
  {
    var w :| w in s.workers;
    NoHoldingCall(s, w);
    assert Holds(s, ByWorker(w));
  }

  lemma LifeBringsStart(s: State, a: Action)
    requires LifeAction(a) && !s.life.IsRunning? && StepLife(s, a).life.IsRunning?
    ensures SomeStarts(StepLife(s, a))
  {
    assert a.id in StepLife(s, a).callers && Starting(StepLife(s, a).callers[a.id]);
  }

  lemma NewWorkerWaits(s: State, a: Action)
    requires LifeAction(a)
    ensures forall w :: w in StepLife(s, a).workers ==>
                          w in s.workers || StepLife(s, a).workers[w].at.Waits?
  {
  }

  lemma LifeKeepsStaffed(s: State, a: Action)
    requires Custody(s) && Staffed(s) && LifeAction(a)
    ensures Staffed(StepLife(s, a))
  {
    var t := StepLife(s, a);
    if SomeWorker(s) {
      LifeKeepsWorkers(s, a);
    } else {
      NewWorkerWaits(s, a);
      if !s.life.IsRunning? && t.life.IsRunning? {
        LifeBringsStart(s, a);
      } else if SomeStarts(s) {
        var k :| k in s.callers && Starting(s.callers[k]);
        LifeLeavesStarts(s, a, k);
      }
    }
  }

  /** A worker goes to its exit only in STOPPING, or brings STOPPING about itself. */
  lemma WorkerLeavesInStop(s: State, a: Action)
    requires WorkerAction(a) && (a.w in s.workers ==> !s.life.IsIdle?)
    ensures var t := StepWorker(s, a);
            (t.life == s.life || t.life.IsStopping?) && t.callers == s.callers &&
            (a.w in t.workers && t.workers[a.w].at.Exits? ==> s.workers[a.w].at.Exits? || t.life.IsStopping?) &&
            (a.w in s.workers && a.w !in t.workers ==> s.workers[a.w].at.Exits?)
  {
    WorkerMovesNobody(s, a);
  }

  lemma WorkerKeepsStaffed(s: State, a: Action)
    requires Custody(s) && Staffed(s) && WorkerAction(a)
    ensures Staffed(StepWorker(s, a))
  {
    var t := StepWorker(s, a);
    assert a.w in s.workers ==> Holds(s, ByWorker(a.w));
    WorkerLeavesInStop(s, a);
    OtherWorkersStand(s, a);
    if SomeStarts(s) {
      assert SomeStarts(t);
    } else if t.life.IsRunning? {
      var w :| w in s.workers;
      if a.w in s.workers { SingleWorker(s, w, a.w); }
      assert w in t.workers;
    }
  }

  lemma StepKeepsStaffed(s: State, a: Action)
    requires Custody(s) && Staffed(s)
    ensures Staffed(Step(s, a))
  {
    if LifeAction(a) {
      LifeKeepsStaffed(s, a);
    } else if WorkerAction(a) {
      WorkerKeepsStaffed(s, a);
    } else {
      EnqueueKeepsStaffed(s, a);
    }
  }

  /** In every run: while the queue is RUNNING a worker is alive or a start is still about to create it, and a worker
      leaves only in STOPPING. */
  lemma {:induction false} RunIsStaffed(schedule: seq<Action>)
    ensures Staffed(Run(schedule))
  {
    if schedule != [] {
      var before := schedule[..|schedule| - 1];
      RunIsStaffed(before);
      RunKeepsInv(before);
      StepKeepsStaffed(Run(before), schedule[|schedule| - 1]);
    }
  }

  // ----- pending work is watched -----

  predicate Awake(at: WorkerAt) {
    at.Takes? || at.Runs? || at.Returns?
  }

  /** The worker is awake before its last look at the list, or will be woken. */
  ghost predicate Watches(s: State, w: Id) {
    w in s.workers && (Awake(s.workers[w].at) || s.sem > 0 || SomePosts(s))
  }

  lemma SoundWorkerWatches(s: State, w: Id)
    requires Inv(s) && Announced(s) && Staffed(s) && s.life.IsRunning? && s.pending != [] && w in s.workers
    ensures Watches(s, w)
  {
  }

  /** In every run in which each start ends its drain over an empty list, or with an enqueuer still about to post: when
      the queue is RUNNING and no start is in progress, pending work has a live worker, and it is awake, or the
      semaphore is up, or an enqueuer is about to raise it. */
  lemma PendingIsWatched(schedule: seq<Action>) returns (w: Id)
    requires AllDrainWell(Fresh, schedule)
    requires var t := Run(schedule); t.life.IsRunning? && !SomeStarts(t) && t.pending != []
    ensures Watches(Run(schedule), w)
  {
    RunKeepsInv([]);
    RunKeepsInv(schedule);
    RunKeepsAnnounced(Fresh, schedule);
    RunIsStaffed(schedule);
    w :| w in Run(schedule).workers;
    SoundWorkerWatches(Run(schedule), w);
  }

  // ----- who may enter -----

  /** A thread in no call enters enqueue, flush or stop only while the queue is RUNNING, and start only while it is
      IDLE; flush brings its barrier to the lock only while it is RUNNING. */
  lemma EntersOnlyInLife(s: State, a: Action, id: Id)
    requires id in Step(s, a).callers && (id !in s.callers || s.callers[id].FlushEnqueues?)
    requires id in s.callers ==> Step(s, a).callers[id] != s.callers[id]
    ensures if Step(s, a).callers[id].StartDrains? then s.life.IsIdle? && a == StartTest(id) else s.life.IsRunning?
  {
    if LifeAction(a) {
      LifeEnters(s, a, id);
    } else if WorkerAction(a) {
      WorkerMovesNobody(s, a);
    } else {
      EnqueueEnters(s, a, id);
    }
  }

  lemma LifeEnters(s: State, a: Action, id: Id)
    requires LifeAction(a) && id in StepLife(s, a).callers && (id !in s.callers || s.callers[id].FlushEnqueues?)
    requires id in s.callers ==> StepLife(s, a).callers[id] != s.callers[id]
    ensures if StepLife(s, a).callers[id].StartDrains? then s.life.IsIdle? && a == StartTest(id) else s.life.IsRunning?
  {
  }

  lemma EnqueueEnters(s: State, a: Action, id: Id)
    requires id in StepEnqueue(s, a).callers && (id !in s.callers || s.callers[id].FlushEnqueues?)
    requires id in s.callers ==> StepEnqueue(s, a).callers[id] != s.callers[id]
    ensures s.life.IsRunning? && !StepEnqueue(s, a).callers[id].StartDrains?
  {
    if OneMoves(a) {
      if id != a.id { OthersStand(s, a, id); } else { MoverEnters(s, a); }
    }
  }

  lemma MoverEnters(s: State, a: Action)
    requires OneMoves(a) && a.id in StepEnqueue(s, a).callers && (a.id !in s.callers || s.callers[a.id].FlushEnqueues?)
    requires a.id in s.callers ==> StepEnqueue(s, a).callers[a.id] != s.callers[a.id]
    ensures s.life.IsRunning? && !StepEnqueue(s, a).callers[a.id].StartDrains?
  {
  }

  /** The life state changes only so: a start takes it from IDLE to RUNNING, and back when it fails; a stop, or a worker
      whose semaphore fails, takes it from RUNNING to STOPPING; and the end of a stop makes it IDLE. */
  lemma LifeChanges(s: State, a: Action)
    requires Step(s, a).life != s.life
    ensures match Step(s, a).life
            case IsRunning => s.life.IsIdle? && a.StartTest?
            case IsStopping => s.life.IsRunning? && (a.StopTest? || a.WorkerSemFail?)
            case IsIdle => a.StartFail? || a.StopIdle?
  {
    if LifeAction(a) {
    } else if WorkerAction(a) {
    } else {
      EnqueueKeepsHolders(s, a);
    }
  }

  // ----- what is accepted -----

  /** The thread passes the state test of workqueue_enqueue, for a work of its own or for the barrier of its flush. */
  ghost predicate PassesTest(s: State, a: Action, id: Id) {
    s.life.IsRunning? &&
    ((a.EnqueueTest? && a.id == id && id !in s.callers) || (a == FlushEnqueue(id) && InCall(s, id, FlushEnqueues)))
  }

  function Brings(a: Action): Work
    requires a.EnqueueTest? || a.FlushEnqueue?
  {
    if a.EnqueueTest? then User(a.n) else Barrier(a.id)
  }

  /** The work that the thread brought to the state test when it last passed. */
  ghost function LastBrought(s: State, schedule: seq<Action>, id: Id): Option<Work> {
    if schedule == [] then None
    else
      var front, a := schedule[..|schedule| - 1], schedule[|schedule| - 1];
      if PassesTest(RunFrom(s, front), a, id) then Some(Brings(a)) else LastBrought(s, front, id)
  }

  ghost predicate AtLock(s: State, id: Id) {
    id in s.callers && s.callers[id].Links?
  }

  lemma PlainBrings(s: State, a: Action, id: Id)
    requires !a.EnqueueLink? && AtLock(StepEnqueue(s, a), id)
    ensures if PassesTest(s, a, id) then StepEnqueue(s, a).callers[id].work == Brings(a)
            else AtLock(s, id) && StepEnqueue(s, a).callers[id] == s.callers[id]
  {
    if OneMoves(a) {
      if id != a.id { OthersStand(s, a, id); } else { MoverBrings(s, a); }
    }
  }

  lemma MoverBrings(s: State, a: Action)
    requires OneMoves(a) && AtLock(StepEnqueue(s, a), a.id)
    ensures if PassesTest(s, a, a.id) then StepEnqueue(s, a).callers[a.id].work == Brings(a)
            else AtLock(s, a.id) && StepEnqueue(s, a).callers[a.id] == s.callers[a.id]
  {
  }

  lemma LinkBrings(s: State, a: Action, id: Id)
    requires a.EnqueueLink? && AtLock(StepEnqueue(s, a), id)
    ensures AtLock(s, id) && StepEnqueue(s, a).callers[id] == s.callers[id]
  {
  }

  lemma StepBrings(s: State, a: Action, id: Id)
    requires AtLock(Step(s, a), id)
    ensures if PassesTest(s, a, id) then Step(s, a).callers[id].work == Brings(a)
            else AtLock(s, id) && Step(s, a).callers[id] == s.callers[id]
  {
    if LifeAction(a) {
      LifeBringsOnlyLife(s, a);
    } else if WorkerAction(a) {
      WorkerMovesNobody(s, a);
    } else if a.EnqueueLink? {
      LinkBrings(s, a, id);
    } else {
      PlainBrings(s, a, id);
    }
  }

  lemma {:induction false} AtLockBrought(s: State, schedule: seq<Action>, id: Id)
    requires !AtLock(s, id) && AtLock(RunFrom(s, schedule), id)
    ensures LastBrought(s, schedule, id) == Some(RunFrom(s, schedule).callers[id].work)
  {
    if schedule != [] {
      var front, a := schedule[..|schedule| - 1], schedule[|schedule| - 1];
      StepBrings(RunFrom(s, front), a, id);
      if !PassesTest(RunFrom(s, front), a, id) { AtLockBrought(s, front, id); }
    }
  }

  lemma StepAccepts(s: State, a: Action)
    ensures var t := Step(s, a);
            t.workOf == s.workOf ||
            (a.EnqueueLink? && AtLock(s, a.id) && t.workOf == s.workOf + [s.callers[a.id].work])
  {
    if LifeAction(a) {
      LifeKeepsWorkOf(s, a);
    } else if WorkerAction(a) {
      WorkerKeepsWorkOf(s, a);
    } else if !a.EnqueueLink? && !a.Cancel? {
      PlainListStands(s, a);
    }
  }

  lemma LifeKeepsWorkOf(s: State, a: Action)
    requires LifeAction(a)
    ensures StepLife(s, a).workOf == s.workOf
  {
  }

  lemma WorkerKeepsWorkOf(s: State, a: Action)
    requires WorkerAction(a)
    ensures StepWorker(s, a).workOf == s.workOf
  {
  }

  /** Ticket i was given by step k, a link of the thread id, to the work that this thread had brought when it last
      passed the state test. */
  ghost predicate AcceptedBy(schedule: seq<Action>, i: Ticket, k: nat, id: Id) {
    i < |Run(schedule).workOf| && k < |schedule| && schedule[k] == EnqueueLink(id) &&
    |Run(schedule[..k]).workOf| == i && LastBrought(Fresh, schedule[..k], id) == Some(Run(schedule).workOf[i])
  }

  lemma AcceptedStays(schedule: seq<Action>, i: Ticket, k: nat, id: Id)
    requires schedule != [] && AcceptedBy(schedule[..|schedule| - 1], i, k, id)
    ensures AcceptedBy(schedule, i, k, id)
  {
    var front := schedule[..|schedule| - 1];
    StepAccepts(Run(front), schedule[|schedule| - 1]);
    assert front[..k] == schedule[..k];
  }

  /** In every run each accepted work is the one that a caller passed to workqueue_enqueue, or the barrier of a flush,
      while the queue was RUNNING. */
  lemma {:induction false} AcceptsWhatWasBrought(schedule: seq<Action>, i: Ticket) returns (k: nat, id: Id)
    requires i < |Run(schedule).workOf|
    ensures AcceptedBy(schedule, i, k, id)
  {
    var front, a := schedule[..|schedule| - 1], schedule[|schedule| - 1];
    StepAccepts(Run(front), a);
    if i < |Run(front).workOf| {
      k, id := AcceptsWhatWasBrought(front, i);
      AcceptedStays(schedule, i, k, id);
    } else {
      k, id := |front|, a.id;
      AtLockBrought(Fresh, front, id);
    }
  }

  // ----- when an enqueue is refused and a cancel succeeds -----

  /** An accepted enqueue of the work has not come to its end. */
  ghost predicate Unsettled(s: State, w: Work) {
    exists t :: 0 <= t < |s.workOf| && s.workOf[t] == w && t !in s.fate
  }

  lemma BusyIsUnsettled(s: State, w: Work)
    requires Inv(s)
    ensures FlagOf(s, w) != Idle <==> Unsettled(s, w)
  {
    if FlagOf(s, w) == Pending {
      var i :| 0 <= i < |s.pending| && s.pending[i].work == w;
      assert EntryOk(s, s.pending[i]);
    } else if FlagOf(s, w) == Running {
      var k :| Claimed(s, k).Some? && Claimed(s, k).value.work == w;
      assert ClaimOk(s, k);
    } else if Unsettled(s, w) {
      var t :| 0 <= t < |s.workOf| && s.workOf[t] == w && t !in s.fate;
      TicketFacts(s, t);
    }
  }

  /** At the lock an enqueue is refused exactly when an earlier accepted enqueue of the same work is unsettled, and then
      nothing changes; otherwise the work goes to the end of the list with a ticket of its own. */
  lemma LinkExact(s: State, id: Id, w: Work)
    requires Inv(s) && InCall(s, id, Links(w))
    ensures var t := Step(s, EnqueueLink(id));
            if Unsettled(s, w) then t == s.(callers := s.callers - {id})
            else t.pending == s.pending + [Entry(w, |s.workOf|)] && t.workOf == s.workOf + [w] && t.fate == s.fate &&
                 InCall(t, id, Posts(w, |s.workOf|)) && t.sem == s.sem && t.workers == s.workers
  {
    BusyIsUnsettled(s, w);
  }

  lemma CancelCuts(s: State, n: nat) returns (i: nat)
    requires FlagOf(s, User(n)) == Pending && OnList(s.pending, User(n))
    ensures i < |s.pending| && s.pending[i].work == User(n)
    ensures Step(s, Cancel(n)) ==
            s.(pending := s.pending[..i] + s.pending[i + 1..], flags := s.flags[User(n) := Idle],
               fate := s.fate[s.pending[i].ticket := Cancelled])
  {
    i := WithoutCuts(s.pending, User(n));
  }

  /** A cancel succeeds exactly when the work is pending, and then it removes that entry alone and leaves the work free;
      otherwise it changes nothing. */
  lemma CancelExact(s: State, n: nat) returns (i: nat)
    requires Inv(s)
    ensures var t := Step(s, Cancel(n));
            if OnList(s.pending, User(n)) then
              i < |s.pending| && s.pending[i].work == User(n) && t.pending == s.pending[..i] + s.pending[i + 1..] &&
              t.fate == s.fate[s.pending[i].ticket := Cancelled] && FlagOf(t, User(n)) == Idle && t.calls == s.calls
            else t == s
  {
    i := 0;
    if OnList(s.pending, User(n)) { i := CancelCuts(s, n); }
  }

  /** Whatever runs afterwards, the function of a cancelled ticket is never called. */
  lemma CancelledNeverRuns(s: State, n: nat, schedule: seq<Action>) returns (i: nat)
    requires Inv(s) && OnList(s.pending, User(n))
    ensures var t := RunFrom(Step(s, Cancel(n)), schedule);
            i < |s.pending| && s.pending[i].work == User(n) && s.pending[i].ticket in t.fate &&
            t.fate[s.pending[i].ticket] == Cancelled && s.pending[i].ticket !in t.calls
  {
    i := CancelExact(s, n);
    var u := Step(s, Cancel(n));
    StepKeepsInv(s, Cancel(n));
    FatesAreFinal(u, schedule);
    RunFromKeepsInv(u, schedule);
    ExecutedOnce(RunFrom(u, schedule));
  }
}
