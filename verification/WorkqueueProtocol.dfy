/** lib/async/src/workqueue.c between init and deinit, as interleaved steps: any number of
    threads inside enqueue, cancel, flush, start and stop, and the worker threads.  One step
    is one critical section, one semaphore operation, one read or write of `state` outside a
    lock, or one operation on the completion, which is taken to be an ideal one-shot event. */
module WorkqueueProtocol {

  type Id = nat
  type Ticket = nat

  /** A caller's work item, or the barrier on the stack of the thread `id` inside workqueue_flush. */
  datatype Work = User(n: nat) | Barrier(id: Id)

  datatype Flag = Idle | Pending | Running
  datatype Life = IsIdle | IsRunning | IsStopping

  /** What became of an accepted work. */
  datatype Fate = Executed | Cancelled | Discarded

  /** A work on the pending list, with the number of the enqueue that put it there. */
  datatype Entry = Entry(work: Work, ticket: Ticket)

  /** Where a thread is inside a call; a thread in no call is not in the map. */
  datatype Caller =
    | FlushEnqueues                  // flush has seen RUNNING (586) and calls enqueue
    | Links(work: Work)              // enqueue has seen RUNNING (439) and takes the lock
    | Posts(work: Work, ticket: Ticket)
    | Polls(ticket: Ticket)          // flush waits for its barrier to become IDLE
    | StartDrains | StartInits | StartCreates
    | StopPosts | StopWaits | StopCleans | StopIdles

  /** Where a worker thread is.  `sound` says that on its creation the list was empty, or the semaphore up, or an
      enqueuer about to post. */
  datatype Worker = Worker(at: WorkerAt, sound: bool)
  datatype WorkerAt =
    | Waits | Takes | Runs(entry: Entry) | Returns(entry: Entry) | Tests | Exits

  datatype State = State(
    life: Life, sem: nat, done: bool, pending: seq<Entry>, flags: map<Work, Flag>,
    callers: map<Id, Caller>, workers: map<Id, Worker>,
    // history: the work of each accepted enqueue, its fate once it has one, and the tickets whose function ran
    workOf: seq<Work>, fate: map<Ticket, Fate>, calls: seq<Ticket>)

  datatype Action =
    | EnqueueTest(id: Id, n: nat) | EnqueueLink(id: Id) | EnqueuePost(id: Id)
    | Cancel(n: nat)
    | FlushTest(id: Id) | FlushEnqueue(id: Id) | FlushPoll(id: Id)
    | StartTest(id: Id) | StartDrain(id: Id) | StartInit(id: Id) | StartCreate(id: Id) | StartFail(id: Id)
    | StopTest(id: Id) | StopPost(id: Id) | StopWait(id: Id) | StopClean(id: Id) | StopIdle(id: Id)
    | WorkerWait(w: Id) | WorkerSemFail(w: Id) | WorkerTake(w: Id) | WorkerRun(w: Id) | WorkerReturn(w: Id)
    | WorkerTest(w: Id) | WorkerExit(w: Id)

  function FlagOf(s: State, w: Work): Flag {
    if w in s.flags then s.flags[w] else Idle
  }

  ghost predicate InCall(s: State, id: Id, c: Caller) {
    id in s.callers && s.callers[id] == c
  }

  function SetCaller(s: State, id: Id, c: Caller): State {
    s.(callers := s.callers[id := c])
  }

  function Leave(s: State, id: Id): State {
    s.(callers := s.callers - {id})
  }

  function SetWorker(s: State, w: Id, at: WorkerAt): State
    requires w in s.workers
  {
    s.(workers := s.workers[w := s.workers[w].(at := at)])
  }

  /** Binary semaphore: a post on a full one is lost. */
  function Post(s: State): State {
    s.(sem := 1)
  }

  predicate SomePosts(s: State) {
    exists id :: id in s.callers && s.callers[id].Posts?
  }

  /** Pending work will be noticed by a worker asleep. */
  predicate WillWake(s: State) {
    s.pending == [] || s.sem > 0 || SomePosts(s)
  }

  /** The list without the node of work w. */
  function Without(p: seq<Entry>, w: Work): seq<Entry> {
    if p == [] then [] else if p[0].work == w then p[1..] else [p[0]] + Without(p[1..], w)
  }

  function TicketIn(p: seq<Entry>, w: Work): Ticket {
    if p == [] then 0 else if p[0].work == w then p[0].ticket else TicketIn(p[1..], w)
  }

  /** Every work on the list back to IDLE. */
  function AllIdle(flags: map<Work, Flag>, p: seq<Entry>): map<Work, Flag>
    decreases p
  {
    if p == [] then flags else AllIdle(flags[p[0].work := Idle], p[1..])
  }

  function AllDiscarded(fate: map<Ticket, Fate>, p: seq<Entry>): map<Ticket, Fate>
    decreases p
  {
    if p == [] then fate else AllDiscarded(fate[p[0].ticket := Discarded], p[1..])
  }

  // ----- the critical sections -----

  /** Enqueue (472-487), from the flag test to the link. */
  function Link(s: State, id: Id, w: Work): State {
    if FlagOf(s, w) != Idle then Leave(s, id)  // OM_ERROR_BUSY
    else
      var t := |s.workOf|;
      SetCaller(s, id, Posts(w, t)).(pending := s.pending + [Entry(w, t)], flags := s.flags[w := Pending],
        workOf := s.workOf + [w])
  }

  function CancelWork(s: State, w: Work): State {
    if FlagOf(s, w) != Pending then s  // OM_ERROR_BUSY or OM_ERROR
    else s.(pending := Without(s.pending, w), flags := s.flags[w := Idle],
      fate := s.fate[TicketIn(s.pending, w) := Cancelled])
  }

  function Take(s: State, w: Id): State
    requires w in s.workers
  {
    if s.pending == [] then SetWorker(s, w, Tests)
    else SetWorker(s, w, Runs(s.pending[0])).(pending := s.pending[1..], flags := s.flags[s.pending[0].work := Running])
  }

  function Clean(s: State, id: Id): State {
    SetCaller(s, id, StopIdles).(pending := [], flags := AllIdle(s.flags, s.pending),
      fate := AllDiscarded(s.fate, s.pending))
  }

  // ----- one step -----

  function StepEnqueue(s: State, a: Action): State {
    match a
    case EnqueueTest(id, n) =>
      if id !in s.callers && s.life.IsRunning? then SetCaller(s, id, Links(User(n))) else s
    case EnqueueLink(id) =>
      if id in s.callers && s.callers[id].Links? then Link(s, id, s.callers[id].work) else s
    case EnqueuePost(id) =>
      if id in s.callers && s.callers[id].Posts? then
        var c := s.callers[id];
        Post(if c.work.Barrier? then SetCaller(s, id, Polls(c.ticket)) else Leave(s, id))
      else s
    case Cancel(n) => CancelWork(s, User(n))
    case FlushTest(id) =>
      if id !in s.callers && s.life.IsRunning? then
        SetCaller(s, id, FlushEnqueues).(flags := s.flags[Barrier(id) := Idle])  // work_init
      else s
    case FlushEnqueue(id) =>
      if id in s.callers && s.callers[id].FlushEnqueues? then
        if s.life.IsRunning? then SetCaller(s, id, Links(Barrier(id))) else Leave(s, id)
      else s
    case FlushPoll(id) =>
      if id in s.callers && s.callers[id].Polls? && FlagOf(s, Barrier(id)) == Idle then Leave(s, id) else s
    case _ => s
  }

  function StepLife(s: State, a: Action): State {
    match a
    case StartTest(id) =>
      if id !in s.callers && s.life.IsIdle? then SetCaller(s, id, StartDrains).(life := IsRunning) else s
    case StartDrain(id) =>
      if id in s.callers && s.callers[id].StartDrains? then
        if s.sem > 0 then s.(sem := s.sem - 1) else SetCaller(s, id, StartInits)
      else s
    case StartInit(id) =>
      if id in s.callers && s.callers[id].StartInits? then SetCaller(s, id, StartCreates).(done := false) else s
    case StartCreate(id) =>
      if id in s.callers && s.callers[id].StartCreates? then
        Leave(s, id).(workers := s.workers[id := Worker(Waits, WillWake(s))])
      else s
    case StartFail(id) =>
      if id in s.callers && (s.callers[id].StartInits? || s.callers[id].StartCreates?) then
        Leave(s, id).(life := IsIdle)
      else s
    case StopTest(id) =>
      if id !in s.callers && s.life.IsRunning? then SetCaller(s, id, StopPosts).(life := IsStopping) else s
    case StopPost(id) =>
      if id in s.callers && s.callers[id].StopPosts? then Post(SetCaller(s, id, StopWaits)) else s
    case StopWait(id) =>
      if id in s.callers && s.callers[id].StopWaits? && s.done then SetCaller(s, id, StopCleans).(done := false) else s
    case StopClean(id) =>
      if id in s.callers && s.callers[id].StopCleans? then Clean(s, id) else s
    case StopIdle(id) =>
      if id in s.callers && s.callers[id].StopIdles? then Leave(s, id).(life := IsIdle) else s
    case _ => s
  }

  function StepWorker(s: State, a: Action): State {
    match a
    case WorkerWait(w) =>
      if w in s.workers && s.workers[w].at.Waits? && s.sem > 0 then SetWorker(s, w, Takes).(sem := s.sem - 1) else s
    case WorkerSemFail(w) =>
      if w in s.workers && s.workers[w].at.Waits? then
        SetWorker(s, w, Exits).(life := if s.life.IsRunning? then IsStopping else s.life)
      else s
    case WorkerTake(w) => if w in s.workers && s.workers[w].at.Takes? then Take(s, w) else s
    case WorkerRun(w) =>
      if w in s.workers && s.workers[w].at.Runs? then
        SetWorker(s, w, Returns(s.workers[w].at.entry)).(calls := s.calls + [s.workers[w].at.entry.ticket])
      else s
    case WorkerReturn(w) =>
      if w in s.workers && s.workers[w].at.Returns? then
        var e := s.workers[w].at.entry;
        SetWorker(s, w, Takes).(flags := s.flags[e.work := Idle], fate := s.fate[e.ticket := Executed])
      else s
    case WorkerTest(w) =>
      if w in s.workers && s.workers[w].at.Tests? then
        SetWorker(s, w, if s.life.IsStopping? then Exits else Waits)
      else s
    case WorkerExit(w) =>
      if w in s.workers && s.workers[w].at.Exits? then s.(workers := s.workers - {w}, done := true) else s
    case _ => s
  }

  predicate LifeAction(a: Action) {
    a.StartTest? || a.StartDrain? || a.StartInit? || a.StartCreate? || a.StartFail? ||
    a.StopTest? || a.StopPost? || a.StopWait? || a.StopClean? || a.StopIdle?
  }

  predicate WorkerAction(a: Action) {
    a.WorkerWait? || a.WorkerSemFail? || a.WorkerTake? || a.WorkerRun? || a.WorkerReturn? || a.WorkerTest? ||
      a.WorkerExit?
  }

  function Step(s: State, a: Action): State {
    if LifeAction(a) then StepLife(s, a) else if WorkerAction(a) then StepWorker(s, a) else StepEnqueue(s, a)
  }

  /** Just after workqueue_init. */
  const Fresh := State(IsIdle, 0, false, [], map[], map[], map[], [], map[], [])

  function RunFrom(s: State, schedule: seq<Action>): State {
    if schedule == [] then s else Step(RunFrom(s, schedule[..|schedule| - 1]), schedule[|schedule| - 1])
  }

  function Run(schedule: seq<Action>): State {
    RunFrom(Fresh, schedule)
  }

  lemma RunFromStep(s: State, schedule: seq<Action>, a: Action)
    ensures RunFrom(s, schedule + [a]) == Step(RunFrom(s, schedule), a)
  {
    assert (schedule + [a])[..|schedule|] == schedule;
  }

  /** Two steps more. */
  lemma RunTwo(schedule: seq<Action>, a: Action, b: Action)
    ensures Run(schedule + [a, b]) == Step(Step(Run(schedule), a), b)
  {
    RunFromStep(Fresh, schedule, a);
    RunFromStep(Fresh, schedule + [a], b);
    assert schedule + [a] + [b] == schedule + [a, b];
  }
}
