/** Who is sure to wake: a start that drains the semaphore over unannounced work loses the wake-up of
    that work, and nothing else does. */
module WorkqueueWake {
  import opened WorkqueueProtocol
  import opened WorkqueueSafety
  import opened WorkqueueThreads

  /** The worker sleeps over pending work, with the semaphore down and nobody about to post it. */
  ghost predicate AsleepOverWork(s: State, w: Id) {
    w in s.workers && s.workers[w].at.Waits? && s.pending != [] && s.sem == 0 && !SomePosts(s)
  }

  ghost predicate LostWakeup(s: State) {
    exists w :: AsleepOverWork(s, w)
  }

  // ----- what a lost wake-up means -----

  /** The steps that could wake a sleeping worker. */
  ghost predicate Wakes(a: Action) {
    a.EnqueuePost? || a.StopPost? || a.WorkerSemFail?
  }

  ghost predicate NoneWakes(schedule: seq<Action>) {
    forall k :: 0 <= k < |schedule| ==> !Wakes(schedule[k])
  }

  lemma OthersLeaveSleeper(s: State, w: Id, a: Action)
    requires Custody(s) && w in s.workers && s.sem == 0 && !Wakes(a) && !WorkerAction(a)
    ensures var t := Step(s, a); w in t.workers && t.workers[w] == s.workers[w] && t.sem == 0 && t.calls == s.calls
  {
    NoHoldingCall(s, w);
  }

  lemma SleeperStays(s: State, w: Id, a: Action)
    requires Custody(s) && w in s.workers && s.workers[w].at.Waits? && s.sem == 0 && !Wakes(a)
    ensures var t := Step(s, a); w in t.workers && t.workers[w] == s.workers[w] && t.sem == 0 && t.calls == s.calls
  {
    if !WorkerAction(a) {
      OthersLeaveSleeper(s, w, a);
    } else if a.w in s.workers {
      SingleWorker(s, w, a.w);
    }
  }

  /** A worker asleep over work stays asleep and runs nothing, whatever happens, until some later call posts. */
  lemma {:induction false} SleepsOn(s: State, w: Id, schedule: seq<Action>)
    requires Inv(s) && AsleepOverWork(s, w) && NoneWakes(schedule)
    ensures var t := RunFrom(s, schedule); w in t.workers && t.workers[w].at.Waits? && t.sem == 0 && t.calls == s.calls
  {
    if schedule != [] {
      var k := |schedule| - 1;
      SleepsOn(s, w, schedule[..k]);
      RunFromKeepsInv(s, schedule[..k]);
      SleeperStays(RunFrom(s, schedule[..k]), w, schedule[k]);
    }
  }

  // ----- when none is lost -----

  /** A start whose drain ends here leaves no pending work unannounced. */
  ghost predicate DrainsWell(s: State, a: Action) {
    a.StartDrain? && InCall(s, a.id, StartDrains) && s.sem == 0 ==> s.pending == [] || SomePosts(s)
  }

  ghost predicate AllDrainWell(s: State, schedule: seq<Action>) {
    forall k :: 0 <= k < |schedule| ==> DrainsWell(RunFrom(s, schedule[..k]), schedule[k])
  }

  predicate PastDrain(c: Caller) {
    c.StartInits? || c.StartCreates?
  }

  /** From the end of a drain on, pending work will be noticed. */
  ghost predicate Announced(s: State) {
    (forall w :: w in s.workers ==> s.workers[w].sound) &&
    (forall id :: id in s.callers && PastDrain(s.callers[id]) ==> WillWake(s))
  }

  lemma EnqueueKeepsAnnounced(s: State, a: Action)
    requires Inv(s) && Announced(s)
    ensures Announced(StepEnqueue(s, a))
  {
    EnqueueKeepsHolders(s, a);
    if WillWake(s) { EnqueueKeepsWillWake(s, a); }
  }

  lemma WorkerKeepsAnnounced(s: State, a: Action)
    requires Inv(s) && Announced(s) && WorkerAction(a)
    ensures Announced(StepWorker(s, a))
  {
    if a.w in s.workers {
      WorkerStands(s, a);
      OtherWorkersStand(s, a);
      NoHoldingCall(s, a.w);
    }
  }

  /** No step of start or stop takes back an announcement, but the drain. */
  lemma LifeKeepsWillWake(s: State, a: Action)
    requires LifeAction(a) && WillWake(s) && !(a.StartDrain? && s.sem > 0)
    ensures WillWake(StepLife(s, a))
  {
    if SomePosts(s) {
      var id :| id in s.callers && s.callers[id].Posts?;
      assert id in StepLife(s, a).callers && StepLife(s, a).callers[id].Posts?;
    }
  }

  lemma LifeKeepsAnnounced(s: State, a: Action)
    requires Inv(s) && Announced(s) && LifeAction(a) && DrainsWell(s, a)
    ensures Announced(StepLife(s, a))
  {
    var t := StepLife(s, a);
    if t == s {
    } else if a.StartDrain? && s.sem > 0 {
      assert Holds(s, ByCaller(a.id));
      forall id | id in t.callers ensures !PastDrain(t.callers[id]) {
        assert HoldingCall(s.callers[id]) ==> Holds(s, ByCaller(id));
      }
    } else if WillWake(s) {
      LifeKeepsWillWake(s, a);
    }
  }

  lemma StepKeepsAnnounced(s: State, a: Action)
    requires Inv(s) && Announced(s) && DrainsWell(s, a)
    ensures Announced(Step(s, a))
  {
    if LifeAction(a) {
      LifeKeepsAnnounced(s, a);
    } else if WorkerAction(a) {
      WorkerKeepsAnnounced(s, a);
    } else {
      EnqueueKeepsAnnounced(s, a);
    }
  }

  lemma AllDrainWellPrefix(s: State, schedule: seq<Action>)
    requires AllDrainWell(s, schedule) && schedule != []
    ensures var k := |schedule| - 1;
            AllDrainWell(s, schedule[..k]) && DrainsWell(RunFrom(s, schedule[..k]), schedule[k])
  {
    var k := |schedule| - 1;
    assert forall i :: 0 <= i < k ==> schedule[..k][..i] == schedule[..i];
  }

  lemma {:induction false} RunKeepsAnnounced(s: State, schedule: seq<Action>)
    requires Inv(s) && Announced(s) && AllDrainWell(s, schedule)
    ensures Announced(RunFrom(s, schedule))
  {
    if schedule != [] {
      var k := |schedule| - 1;
      AllDrainWellPrefix(s, schedule);
      RunKeepsAnnounced(s, schedule[..k]);
      RunFromKeepsInv(s, schedule[..k]);
      StepKeepsAnnounced(RunFrom(s, schedule[..k]), schedule[k]);
    }
  }

  /** A worker that began sound never sleeps over work that nobody will announce. */
  lemma SoundSleeper(s: State)
    requires Inv(s) && Announced(s)
    ensures !LostWakeup(s)
  {
  }

  /** In every run in which each start ends its drain over an empty list, or with an enqueuer still about to post, no
      wake-up is ever lost. */
  lemma NoLostWakeup(schedule: seq<Action>)
    requires AllDrainWell(Fresh, schedule)
    ensures !LostWakeup(Run(schedule))
  {
    RunKeepsInv([]);
    RunKeepsInv(schedule);
    RunKeepsAnnounced(Fresh, schedule);
    SoundSleeper(Run(schedule));
  }

  // ----- and when one is -----

  ghost predicate Loses(s: State, schedule: seq<Action>) {
    AllDrainWell(s, schedule) && LostWakeup(RunFrom(s, schedule))
  }

  /** Nobody holds the worker's place but the start, and it goes on to create a worker that sleeps. */
  lemma StartGoesOn(s: State, id: Id)
    requires Inv(s) && InCall(s, id, StartInits) && s.sem == 0 && s.pending != [] && !SomePosts(s)
    ensures AsleepOverWork(Step(Step(s, StartInit(id)), StartCreate(id)), id)
  {
    var t := Step(s, StartInit(id));
    assert t == s.(callers := s.callers[id := StartCreates], done := false);
    forall k | k in t.callers ensures !t.callers[k].Posts? {
      assert k in s.callers && !(s.callers[k].Posts?);
    }
    var u := Step(t, StartCreate(id));
    assert u.callers == t.callers - {id} && u.pending == s.pending && u.sem == 0;
  }

  /** The end of a drain loses a wake-up, if no later drain does, exactly when work is pending and no enqueuer is about
      to post. */
  lemma DrainExact(s: State, id: Id)
    requires Inv(s) && InCall(s, id, StartDrains) && s.sem == 0
    ensures (exists schedule :: Loses(Step(s, StartDrain(id)), schedule)) <==> s.pending != [] && !SomePosts(s)
  {
    var t := Step(s, StartDrain(id));
    StepKeepsInv(s, StartDrain(id));
    if s.pending != [] && !SomePosts(s) {
      assert t == s.(callers := s.callers[id := StartInits]);
      forall k | k in t.callers ensures !t.callers[k].Posts? { assert k in s.callers && !(s.callers[k].Posts?); }
      var schedule := [StartInit(id), StartCreate(id)];
      LosesBy(t, id, schedule);
    } else {
      NoWorker(s, id);
      LifeKeepsWillWake(s, StartDrain(id));
      forall schedule ensures !Loses(t, schedule) {
        if AllDrainWell(t, schedule) {
          RunFromKeepsInv(t, schedule);
          RunKeepsAnnounced(t, schedule);
          SoundSleeper(RunFrom(t, schedule));
        }
      }
    }
  }

  lemma LosesBy(t: State, id: Id, schedule: seq<Action>)
    requires Inv(t) && InCall(t, id, StartInits) && t.sem == 0 && t.pending != [] && !SomePosts(t)
    requires schedule == [StartInit(id), StartCreate(id)]
    ensures Loses(t, schedule)
  {
    StartGoesOn(t, id);
    assert RunFrom(t, []) == t;
    RunFromStep(t, [], StartInit(id));
    RunFromStep(t, [StartInit(id)], StartCreate(id));
    assert [] + [StartInit(id)] + [StartCreate(id)] == schedule && [] + [StartInit(id)] == [StartInit(id)];
  }

  // ----- a run that loses one -----

  /** A start has published RUNNING and is about to drain; an enqueuer has passed its state test. */
  lemma StartAndEnqueue(s: State)
    requires s == Fresh
    ensures Step(Step(s, StartTest(0)), EnqueueTest(1, 5))
         == s.(life := IsRunning, callers := map[0 := StartDrains, 1 := Links(User(5))])
  {
  }

  lemma EnqueueInTime(s: State)
    requires s.callers == map[0 := StartDrains, 1 := Links(User(5))] && s.flags == map[] && s.pending == [] &&
             s.workOf == []
    ensures Step(Step(s, EnqueueLink(1)), EnqueuePost(1))
         == s.(sem := 1, callers := map[0 := StartDrains], pending := [Entry(User(5), 0)],
               flags := map[User(5) := Pending], workOf := [User(5)])
  {
    var t := Step(s, EnqueueLink(1));
    assert t.callers == map[0 := StartDrains, 1 := Posts(User(5), 0)];
    assert t.callers - {1} == map[0 := StartDrains];
  }

  lemma DrainSwallows(s: State)
    requires s.callers == map[0 := StartDrains] && s.sem == 1
    ensures Step(Step(s, StartDrain(0)), StartDrain(0)) == s.(sem := 0, callers := map[0 := StartInits])
  {
    assert Step(s, StartDrain(0)) == s.(sem := 0);
    assert s.callers[0 := StartInits] == map[0 := StartInits];
  }

  lemma StartCompletes(s: State)
    requires s.callers == map[0 := StartInits] && s.sem == 0 && s.pending != [] && s.workers == map[]
    ensures Step(Step(s, StartInit(0)), StartCreate(0))
         == s.(done := false, callers := map[], workers := map[0 := Worker(Waits, false)])
  {
    var t := Step(s, StartInit(0));
    assert t.callers == map[0 := StartCreates] && t.callers - {0} == map[];
  }

  /** The start drains the semaphore after publishing RUNNING, so it can swallow the post of an enqueue: the work is
      accepted and pending, nobody is in a call, and the worker sleeps on a semaphore that is down. */
  lemma StartSwallowsPost() returns (schedule: seq<Action>)
    ensures var t := Run(schedule);
            t.workOf == [User(5)] && t.pending == [Entry(User(5), 0)] && t.callers == map[] && AsleepOverWork(t, 0)
  {
    RunTwo([], StartTest(0), EnqueueTest(1, 5));
    schedule := [] + [StartTest(0), EnqueueTest(1, 5)];
    StartAndEnqueue(Fresh);
    RunTwo(schedule, EnqueueLink(1), EnqueuePost(1));
    EnqueueInTime(Run(schedule));
    schedule := schedule + [EnqueueLink(1), EnqueuePost(1)];
    RunTwo(schedule, StartDrain(0), StartDrain(0));
    DrainSwallows(Run(schedule));
    schedule := schedule + [StartDrain(0), StartDrain(0)];
    RunTwo(schedule, StartInit(0), StartCreate(0));
    StartCompletes(Run(schedule));
    schedule := schedule + [StartInit(0), StartCreate(0)];
  }
}
