/** What workqueue_stop does to accepted works: what the clearing of the list settles, when a stop can
    discard, and when it cannot. */
module WorkqueueStop {
  import opened WorkqueueProtocol
  import opened WorkqueueSafety
  import opened WorkqueueThreads
  import opened WorkqueuePromises

  /** When stop has cleared the list, no worker is left, nothing is pending and every accepted work has its fate. */
  lemma StopAccountsForAll(s: State, id: Id)
    requires Inv(s) && InCall(s, id, StopCleans)
    ensures var t := Step(s, StopClean(id));
            t.pending == [] && t.workers == map[] && Below(t, |t.workOf|) &&
            (forall u :: TicketOnList(s.pending, u) <==> u in t.fate && u !in s.fate) &&
            (forall u :: TicketOnList(s.pending, u) ==> t.fate[u] == Discarded)
  {
    CleanKeepsCore(s, id);
    NoWorker(s, id);
    forall u: Ticket ensures TicketOnList(s.pending, u) <==> u in Clean(s, id).fate && u !in s.fate {
      AllDiscardedMeaning(s.fate, s.pending, u);
      TicketPlace(s, u);
    }
    forall u | TicketOnList(s.pending, u) ensures Clean(s, id).fate[u] == Discarded {
      AllDiscardedMeaning(s.fate, s.pending, u);
    }
  }

  // ----- when stop cannot discard -----

  ghost predicate SomeLinks(s: State) {
    exists id :: id in s.callers && s.callers[id].Links?
  }

  /** A worker that looks at the list again before it can leave. */
  ghost predicate SomeTakes(s: State) {
    exists w :: w in s.workers && !s.workers[w].at.Tests? && !s.workers[w].at.Exits?
  }

  /** No enqueuer stands between its state test and its lock, and what is pending will be taken. */
  ghost predicate Guarded(s: State) {
    !SomeLinks(s) && (s.pending == [] || SomeTakes(s))
  }

  /** The schedule goes no further than the end of this stop, and the semaphore does not fail. */
  ghost predicate Stopping(s: State, schedule: seq<Action>) {
    forall k :: 0 <= k < |schedule| ==> RunFrom(s, schedule[..k]).life.IsStopping? && !schedule[k].WorkerSemFail?
  }

  ghost predicate NewlyDiscarded(s: State, t: State, u: Ticket) {
    u in t.fate && t.fate[u] == Discarded && !(u in s.fate && s.fate[u] == Discarded)
  }

  ghost predicate NoneDiscarded(s: State, t: State) {
    forall u :: !NewlyDiscarded(s, t, u)
  }

  lemma NoneDiscardedTwice(s: State, t: State, u: State)
    requires NoneDiscarded(s, t) && NoneDiscarded(t, u)
    ensures NoneDiscarded(s, u)
  {
    forall v ensures !NewlyDiscarded(s, u, v) { assert !NewlyDiscarded(s, t, v) && !NewlyDiscarded(t, u, v); }
  }

  lemma EnqueueKeepsGuarded(s: State, a: Action)
    requires Inv(s) && s.life.IsStopping? && Guarded(s)
    ensures Guarded(StepEnqueue(s, a)) && NoneDiscarded(s, StepEnqueue(s, a))
  {
    var t := StepEnqueue(s, a);
    if a.Cancel? {
      if FlagOf(s, User(a.n)) == Pending { assert OnList(s.pending, User(a.n)); }
    } else if !a.EnqueueLink? {
      FlagsStand(s, a);
    }
    if SomeTakes(s) {
      var w :| w in s.workers && !s.workers[w].at.Tests? && !s.workers[w].at.Exits?;
      assert w in t.workers && t.workers[w] == s.workers[w];
    }
  }

  lemma LifeKeepsGuarded(s: State, a: Action)
    requires Inv(s) && s.life.IsStopping? && Guarded(s) && LifeAction(a)
    ensures Guarded(StepLife(s, a)) && NoneDiscarded(s, StepLife(s, a))
  {
    LifeBringsNoLinks(s, a);
    if a.StopClean? {
      if InCall(s, a.id, StopCleans) {
        NoWorker(s, a.id);
        assert AllDiscarded(s.fate, []) == s.fate;
      }
    } else {
      LifeStands(s, a);
      if SomeTakes(s) { LifeKeepsTaking(s, a); }
    }
  }

  lemma LifeBringsNoLinks(s: State, a: Action)
    requires LifeAction(a) && !SomeLinks(s)
    ensures !SomeLinks(StepLife(s, a))
  {
  }

  lemma LifeKeepsTaking(s: State, a: Action)
    requires LifeAction(a) && SomeTakes(s)
    ensures SomeTakes(StepLife(s, a))
  {
    var w :| w in s.workers && !s.workers[w].at.Tests? && !s.workers[w].at.Exits?;
    var t := StepLife(s, a);
    assert w in t.workers && (t.workers[w] == s.workers[w] || t.workers[w].at.Waits?);
  }

  lemma WorkerDiscardsNothing(s: State, a: Action)
    requires WorkerAction(a)
    ensures NoneDiscarded(s, StepWorker(s, a))
  {
  }

  lemma WorkerGoesOn(s: State, a: Action, w: Id)
    requires WorkerAction(a) && !a.WorkerSemFail?
    requires s.life.IsStopping? && w in s.workers && (a.w == w || a.w !in s.workers)
    requires s.workers[w].at.Tests? || s.workers[w].at.Exits? ==> s.pending == []
    ensures Guarded(s) ==> Guarded(StepWorker(s, a))
  {
    WorkerMovesNobody(s, a);
    WorkerTakesAgain(s, a, w);
  }

  lemma WorkerTakesAgain(s: State, a: Action, w: Id)
    requires WorkerAction(a) && !a.WorkerSemFail?
    requires s.life.IsStopping? && w in s.workers && (a.w == w || a.w !in s.workers)
    requires s.workers[w].at.Tests? || s.workers[w].at.Exits? ==> s.pending == []
    ensures var t := StepWorker(s, a);
            t.pending == [] || (w in t.workers && !t.workers[w].at.Tests? && !t.workers[w].at.Exits?)
  {
  }

  lemma WorkerKeepsGuarded(s: State, a: Action)
    requires Inv(s) && s.life.IsStopping? && Guarded(s) && WorkerAction(a) && !a.WorkerSemFail?
    ensures Guarded(StepWorker(s, a))
  {
    if a.w in s.workers {
      if SomeTakes(s) {
        var w :| w in s.workers && !s.workers[w].at.Tests? && !s.workers[w].at.Exits?;
        SingleWorker(s, w, a.w);
      }
      WorkerGoesOn(s, a, a.w);
    }
  }

  lemma StepKeepsGuarded(s: State, a: Action)
    requires Inv(s) && s.life.IsStopping? && Guarded(s) && !a.WorkerSemFail?
    ensures Guarded(Step(s, a)) && NoneDiscarded(s, Step(s, a))
  {
    if LifeAction(a) {
      LifeKeepsGuarded(s, a);
    } else if WorkerAction(a) {
      WorkerKeepsGuarded(s, a);
      WorkerDiscardsNothing(s, a);
    } else {
      EnqueueKeepsGuarded(s, a);
    }
  }

  lemma StoppingPrefix(s: State, schedule: seq<Action>)
    requires Stopping(s, schedule) && schedule != []
    ensures var k := |schedule| - 1;
            Stopping(s, schedule[..k]) && RunFrom(s, schedule[..k]).life.IsStopping? && !schedule[k].WorkerSemFail?
  {
    var k := |schedule| - 1;
    assert forall i :: 0 <= i < k ==> schedule[..k][..i] == schedule[..i];
  }

  /** While nobody stands between state test and lock, and what is pending will be taken, no run up to the end of the
      stop discards an accepted work. */
  lemma {:induction false} StopKeepsAccepted(s: State, schedule: seq<Action>)
    requires Inv(s) && Guarded(s) && Stopping(s, schedule)
    ensures Guarded(RunFrom(s, schedule)) && NoneDiscarded(s, RunFrom(s, schedule))
  {
    if schedule != [] {
      var k := |schedule| - 1;
      var before, a := schedule[..k], schedule[k];
      StoppingPrefix(s, schedule);
      StopKeepsAccepted(s, before);
      RunFromKeepsInv(s, before);
      var t := RunFrom(s, before);
      StepKeepsGuarded(t, a);
      NoneDiscardedTwice(s, t, Step(t, a));
    }
  }

  // ----- when it can -----

  ghost predicate Discards(s: State, schedule: seq<Action>) {
    Stopping(s, schedule) && exists u :: NewlyDiscarded(s, RunFrom(s, schedule), u)
  }

  /** Stop has signalled, or is about to, and waits for the completion. */
  ghost predicate StopperWaits(s: State, id: Id) {
    InCall(s, id, StopPosts) || InCall(s, id, StopWaits)
  }

  /** The worker is awake, or there is a post for it or one to come. */
  ghost predicate AwakeSoon(s: State, w: Id, id: Id)
    requires w in s.workers
  {
    s.workers[w].at.Waits? ==> s.sem > 0 || InCall(s, id, StopPosts) || SomePosts(s)
  }

  /** On the way to a discard: first while the worker is there, then past its exit, then past the wait of stop. */
  ghost predicate WithWorker(s: State, w: Id, id: Id) {
    w in s.workers && AwakeSoon(s, w, id) && StopperWaits(s, id) &&
    (SomeLinks(s) || (s.pending != [] && (s.workers[w].at.Tests? || s.workers[w].at.Exits?)))
  }

  ghost predicate AfterExit(s: State, w: Id, id: Id) {
    w !in s.workers && s.done && s.pending != [] && StopperWaits(s, id)
  }

  ghost predicate AtRisk(s: State, w: Id, id: Id) {
    s.life.IsStopping? &&
    (WithWorker(s, w, id) || AfterExit(s, w, id) || (InCall(s, id, StopCleans) && s.pending != []))
  }

  /** An upper bound on the steps still to go. */
  ghost function Remaining(s: State, w: Id, id: Id): nat {
    var left := if s.pending == [] then 1 else 0;
    if InCall(s, id, StopCleans) then 0
    else if w !in s.workers then if InCall(s, id, StopWaits) then 1 else 2
    else match s.workers[w].at
         case Exits => 3 + left
         case Tests => 5 + left
         case Takes => 4 * |s.pending| + 7
         case Returns(_) => 4 * |s.pending| + 8
         case Runs(_) => 4 * |s.pending| + 9
         case Waits => 4 * |s.pending| + if s.sem > 0 then 10 else 11
  }

  /** At the exit test or past it there is no claim, so with an empty list every link succeeds. */
  lemma LateLinkSucceeds(s: State, w: Id, k: Id)
    requires Inv(s) && w in s.workers && (s.workers[w].at.Tests? || s.workers[w].at.Exits?) && s.pending == []
    requires k in s.callers && s.callers[k].Links?
    ensures var t := Step(s, EnqueueLink(k));
            t.pending != [] && t.workers == s.workers && t.life == s.life &&
            forall id :: id != k && id in s.callers ==> id in t.callers && t.callers[id] == s.callers[id]
  {
    var v := s.callers[k].work;
    if FlagOf(s, v) == Running {
      var j :| Claimed(s, j).Some? && Claimed(s, j).value.work == v;
      SingleWorker(s, j, w);
    }
    assert !OnList(s.pending, v);
  }

  lemma LinksStay(s: State, a: Action)
    requires WorkerAction(a) && SomeLinks(s)
    ensures SomeLinks(StepWorker(s, a)) && StepWorker(s, a).callers == s.callers
  {
  }

  /** The next step of a worker that has not come to its exit test. */
  function NextStep(s: State, w: Id): Action
    requires w in s.workers
  {
    match s.workers[w].at
    case Runs(_) => WorkerRun(w)
    case Returns(_) => WorkerReturn(w)
    case _ => WorkerTake(w)
  }

  lemma NextStepNearer(s: State, w: Id)
    requires w in s.workers && (s.workers[w].at.Runs? || s.workers[w].at.Returns? || s.workers[w].at.Takes?)
    ensures var t := StepWorker(s, NextStep(s, w));
            t.callers == s.callers && t.life == s.life && w in t.workers && !t.workers[w].at.Waits? &&
            forall id :: !InCall(s, id, StopCleans) ==> Remaining(t, w, id) < Remaining(s, w, id)
  {
  }

  lemma RiskWhileAsleep(s: State, w: Id, id: Id) returns (a: Action)
    requires s.life.IsStopping? && WithWorker(s, w, id) && s.workers[w].at.Waits?
    ensures !a.WorkerSemFail? && AtRisk(Step(s, a), w, id) && Remaining(Step(s, a), w, id) < Remaining(s, w, id)
  {
    if s.sem > 0 {
      a := WorkerWait(w);
      LinksStay(s, a);
      assert WithWorker(Step(s, a), w, id);
    } else {
      a := RiskPost(s, w, id);
    }
  }

  lemma RiskPost(s: State, w: Id, id: Id) returns (a: Action)
    requires s.life.IsStopping? && WithWorker(s, w, id) && s.workers[w].at.Waits? && s.sem == 0
    ensures !a.WorkerSemFail? && AtRisk(Step(s, a), w, id) && Remaining(Step(s, a), w, id) < Remaining(s, w, id)
  {
    if InCall(s, id, StopPosts) {
      a := StopPost(id);
    } else {
      var k :| k in s.callers && s.callers[k].Posts?;
      a := EnqueuePost(k);
    }
    var j :| j in s.callers && s.callers[j].Links?;
    var t := Step(s, a);
    assert j in t.callers && t.callers[j].Links?;
    assert WithWorker(t, w, id);
  }

  /** An awake worker works its way to its exit test, while the enqueuer stands where it is. */
  lemma RiskWhileTaking(s: State, w: Id, id: Id) returns (a: Action)
    requires s.life.IsStopping? && WithWorker(s, w, id)
    requires !s.workers[w].at.Waits? && !s.workers[w].at.Tests? && !s.workers[w].at.Exits?
    ensures !a.WorkerSemFail? && AtRisk(Step(s, a), w, id) && Remaining(Step(s, a), w, id) < Remaining(s, w, id)
  {
    a := NextStep(s, w);
    LinksStay(s, a);
    NextStepNearer(s, w);
    assert WithWorker(Step(s, a), w, id);
  }

  lemma RiskLink(s: State, w: Id, id: Id) returns (a: Action)
    requires Inv(s) && s.life.IsStopping? && WithWorker(s, w, id) && s.pending == []
    requires s.workers[w].at.Tests? || s.workers[w].at.Exits?
    ensures !a.WorkerSemFail? && AtRisk(Step(s, a), w, id) && Remaining(Step(s, a), w, id) < Remaining(s, w, id)
  {
    var k :| k in s.callers && s.callers[k].Links?;
    a := EnqueueLink(k);
    LateLinkSucceeds(s, w, k);
    assert WithWorker(Step(s, a), w, id);
  }

  lemma RiskLeave(s: State, w: Id, id: Id) returns (a: Action)
    requires s.life.IsStopping? && WithWorker(s, w, id) && s.pending != []
    requires s.workers[w].at.Tests? || s.workers[w].at.Exits?
    ensures !a.WorkerSemFail? && AtRisk(Step(s, a), w, id) && Remaining(Step(s, a), w, id) < Remaining(s, w, id)
  {
    a := if s.workers[w].at.Tests? then WorkerTest(w) else WorkerExit(w);
    assert Step(s, a).callers == s.callers && Step(s, a).pending == s.pending;
  }

  lemma RiskAfterExit(s: State, w: Id, id: Id) returns (a: Action)
    requires s.life.IsStopping? && AfterExit(s, w, id)
    ensures !a.WorkerSemFail? && AtRisk(Step(s, a), w, id) && Remaining(Step(s, a), w, id) < Remaining(s, w, id)
  {
    a := if InCall(s, id, StopPosts) then StopPost(id) else StopWait(id);
  }

  lemma StoppingStep(s: State, schedule: seq<Action>, a: Action)
    requires Stopping(s, schedule) && RunFrom(s, schedule).life.IsStopping? && !a.WorkerSemFail?
    ensures Stopping(s, schedule + [a]) && RunFrom(s, schedule + [a]) == Step(RunFrom(s, schedule), a)
  {
    RunFromStep(s, schedule, a);
    var longer := schedule + [a];
    forall k | 0 <= k < |longer| ensures RunFrom(s, longer[..k]).life.IsStopping? && !longer[k].WorkerSemFail? {
      assert longer[..k] == if k < |schedule| then schedule[..k] else schedule;
    }
  }

  lemma ClearDiscards(t: State, id: Id)
    requires Listed(t) && InCall(t, id, StopCleans) && t.pending != []
    ensures var u, r := t.pending[0].ticket, Step(t, StopClean(id));
            u !in t.fate && u in r.fate && r.fate[u] == Discarded
  {
    assert TicketOnList(t.pending, t.pending[0].ticket) && EntryOk(t, t.pending[0]);
    AllDiscardedMeaning(t.fate, t.pending, t.pending[0].ticket);
  }

  lemma ClearsPending(s: State, schedule: seq<Action>, id: Id)
    requires Inv(s)
    requires var t := RunFrom(s, schedule); InCall(t, id, StopCleans) && t.pending != []
    ensures exists u :: NewlyDiscarded(s, Step(RunFrom(s, schedule), StopClean(id)), u)
  {
    RunFromKeepsInv(s, schedule);
    FatesAreFinal(s, schedule);
    var t := RunFrom(s, schedule);
    ClearDiscards(t, id);
    assert NewlyDiscarded(s, Step(t, StopClean(id)), t.pending[0].ticket);
  }

  lemma {:induction false} RiskRuns(s: State, done: seq<Action>, w: Id, id: Id) returns (schedule: seq<Action>)
    requires Inv(s) && Stopping(s, done) && AtRisk(RunFrom(s, done), w, id)
    ensures Discards(s, schedule)
    decreases Remaining(RunFrom(s, done), w, id)
  {
    var t := RunFrom(s, done);
    RunFromKeepsInv(s, done);
    if InCall(t, id, StopCleans) {
      ClearsPending(s, done, id);
      StoppingStep(s, done, StopClean(id));
      schedule := done + [StopClean(id)];
    } else {
      var a;
      if !WithWorker(t, w, id) {
        a := RiskAfterExit(t, w, id);
      } else if t.workers[w].at.Waits? {
        a := RiskWhileAsleep(t, w, id);
      } else if !t.workers[w].at.Tests? && !t.workers[w].at.Exits? {
        a := RiskWhileTaking(t, w, id);
      } else if t.pending == [] {
        a := RiskLink(t, w, id);
      } else {
        a := RiskLeave(t, w, id);
      }
      StoppingStep(s, done, a);
      schedule := RiskRuns(s, done + [a], w, id);
    }
  }

  /** Exactly when a stop that waits for a worker that is awake, or has a post coming, can still discard an accepted
      work: an enqueuer stands between its state test and its lock, or something is pending and the worker is past its
      last look at the list. */
  lemma StopDiscardsExactly(s: State, w: Id, id: Id)
    requires Inv(s) && s.life.IsStopping? && w in s.workers && AwakeSoon(s, w, id) && StopperWaits(s, id)
    ensures (exists schedule :: Discards(s, schedule)) <==>
              SomeLinks(s) || (s.pending != [] && (s.workers[w].at.Tests? || s.workers[w].at.Exits?))
  {
    if WithWorker(s, w, id) {
      assert RunFrom(s, []) == s;
      var schedule := RiskRuns(s, [], w, id);
    } else {
      forall schedule ensures !Discards(s, schedule) {
        if Stopping(s, schedule) { StopKeepsAccepted(s, schedule); }
      }
    }
  }

  // ----- a quiet exit -----

  /** The worker is at its exit test or past it, the list empty, and no enqueuer between its state test and its lock. */
  ghost predicate QuietExit(s: State) {
    s.pending == [] && (forall w :: w in s.workers ==> s.workers[w].at.Tests? || s.workers[w].at.Exits?) &&
    forall id :: id in s.callers ==>
                   var c := s.callers[id]; !c.Links? && !c.StartDrains? && !c.StartInits? && !c.StartCreates?
  }

  lemma QuietLife(s: State, a: Action)
    requires s.life.IsStopping? && QuietExit(s) && LifeAction(a)
    ensures QuietExit(StepLife(s, a)) && StepLife(s, a).fate == s.fate
  {
  }

  lemma QuietWorkers(s: State, a: Action)
    requires s.life.IsStopping? && WorkerAction(a)
    requires forall w :: w in s.workers ==> s.workers[w].at.Tests? || s.workers[w].at.Exits?
    ensures var t := StepWorker(s, a);
            t.callers == s.callers && t.pending == s.pending && t.fate == s.fate &&
            forall w :: w in t.workers ==> t.workers[w].at.Tests? || t.workers[w].at.Exits?
  {
  }

  lemma QuietWorker(s: State, a: Action)
    requires s.life.IsStopping? && QuietExit(s) && WorkerAction(a)
    ensures QuietExit(StepWorker(s, a)) && StepWorker(s, a).fate == s.fate
  {
    QuietWorkers(s, a);
  }

  lemma QuietEnqueue(s: State, a: Action)
    requires Listed(s) && s.life.IsStopping? && QuietExit(s)
    ensures QuietExit(StepEnqueue(s, a)) && StepEnqueue(s, a).fate == s.fate
  {
    if a.Cancel? {
      assert !OnList(s.pending, User(a.n));
    } else {
      QuietCallers(s, a);
      QuietList(s, a);
    }
  }

  lemma QuietCallers(s: State, a: Action)
    requires s.life.IsStopping? && QuietExit(s) && !a.Cancel?
    ensures forall id :: id in StepEnqueue(s, a).callers ==>
                           var c := StepEnqueue(s, a).callers[id];
                           !c.Links? && !c.StartDrains? && !c.StartInits? && !c.StartCreates?
  {
  }

  lemma QuietList(s: State, a: Action)
    requires s.life.IsStopping? && QuietExit(s) && !a.Cancel?
    ensures var t := StepEnqueue(s, a); t.pending == s.pending && t.workers == s.workers && t.fate == s.fate
  {
  }

  lemma QuietStep(s: State, a: Action)
    requires Listed(s) && s.life.IsStopping? && QuietExit(s)
    ensures QuietExit(Step(s, a)) && Step(s, a).fate == s.fate
  {
    if LifeAction(a) {
      QuietLife(s, a);
    } else if WorkerAction(a) {
      QuietWorker(s, a);
    } else {
      QuietEnqueue(s, a);
    }
  }

  /** From there on, whatever runs until the stop has ended: the list stays empty and no work changes its fate. */
  lemma {:induction false} QuietExitKept(s: State, schedule: seq<Action>)
    requires Inv(s) && QuietExit(s) && Stopping(s, schedule)
    ensures QuietExit(RunFrom(s, schedule)) && RunFrom(s, schedule).fate == s.fate
  {
    if schedule != [] {
      var before := schedule[..|schedule| - 1];
      StoppingPrefix(s, schedule);
      QuietExitKept(s, before);
      RunFromKeepsInv(s, before);
      QuietStep(RunFrom(s, before), schedule[|schedule| - 1]);
    }
  }

  // ----- a run that discards -----

  lemma StartsAlone(s: State)
    requires s == Fresh
    ensures Step(Step(s, StartTest(0)), StartDrain(0)) == s.(life := IsRunning, callers := map[0 := StartInits])
  {
  }

  lemma StartCompletes(s: State)
    requires s.callers == map[0 := StartInits] && s.pending == [] && s.workers == map[] && !s.done
    ensures Step(Step(s, StartInit(0)), StartCreate(0))
         == s.(callers := map[], workers := map[0 := Worker(Waits, true)])
  {
    var t := Step(s, StartInit(0));
    assert t.callers == map[0 := StartCreates] && t.callers - {0} == map[];
  }

  /** An enqueuer passes its state test just before a stop passes its own. */
  lemma StopRaces(s: State)
    requires s.life.IsRunning? && s.callers == map[]
    ensures Step(Step(s, EnqueueTest(1, 5)), StopTest(2))
         == s.(life := IsStopping, callers := map[1 := Links(User(5)), 2 := StopPosts])
  {
    assert Step(s, EnqueueTest(1, 5)).callers == map[1 := Links(User(5))];
  }

  lemma StopWakes(s: State)
    requires s.callers == map[1 := Links(User(5)), 2 := StopPosts] && s.workers == map[0 := Worker(Waits, true)]
    ensures Step(Step(s, StopPost(2)), WorkerWait(0))
         == s.(sem := 0, callers := map[1 := Links(User(5)), 2 := StopWaits], workers := map[0 := Worker(Takes, true)])
  {
    var t := Step(s, StopPost(2));
    assert t.callers == map[1 := Links(User(5)), 2 := StopWaits] && t.sem == 1;
    assert t.workers[0 := Worker(Takes, true)] == map[0 := Worker(Takes, true)];
  }

  /** The worker finds the list empty and decides to leave. */
  lemma WorkerDecides(s: State)
    requires s.life.IsStopping? && s.pending == [] && s.workers == map[0 := Worker(Takes, true)]
    ensures Step(Step(s, WorkerTake(0)), WorkerTest(0)) == s.(workers := map[0 := Worker(Exits, true)])
  {
    var t := Step(s, WorkerTake(0));
    assert t.workers == map[0 := Worker(Tests, true)];
    assert t.workers[0 := Worker(Exits, true)] == map[0 := Worker(Exits, true)];
  }

  /** Only now does the enqueuer link and post, and return OM_OK. */
  lemma LateLink(s: State)
    requires s.callers == map[1 := Links(User(5)), 2 := StopWaits] && s.flags == map[] && s.pending == [] &&
             s.workOf == []
    ensures Step(Step(s, EnqueueLink(1)), EnqueuePost(1))
         == s.(sem := 1, callers := map[2 := StopWaits], pending := [Entry(User(5), 0)],
               flags := map[User(5) := Pending], workOf := [User(5)])
  {
    var t := Step(s, EnqueueLink(1));
    assert t == s.(callers := map[1 := Posts(User(5), 0), 2 := StopWaits], pending := [Entry(User(5), 0)],
                   flags := map[User(5) := Pending], workOf := [User(5)]);
    assert t.callers - {1} == map[2 := StopWaits];
  }

  lemma ExitsAndWaits(s: State)
    requires s.workers == map[0 := Worker(Exits, true)] && s.callers == map[2 := StopWaits] && !s.done
    ensures Step(Step(s, WorkerExit(0)), StopWait(2)) == s.(workers := map[], callers := map[2 := StopCleans])
  {
    assert s.workers - {0} == map[];
    assert s.callers[2 := StopCleans] == map[2 := StopCleans];
  }

  lemma ClearsOne(s: State)
    requires s.callers == map[2 := StopCleans] && s.pending == [Entry(User(5), 0)] && s.fate == map[]
    ensures var t := Step(s, StopClean(2));
            t.pending == [] && t.fate == map[0 := Discarded] && t.workOf == s.workOf && t.calls == s.calls &&
            t.callers == map[2 := StopIdles]
  {
    assert s.pending[1..] == [];
    assert AllDiscarded(map[0 := Discarded], []) == map[0 := Discarded];
    assert s.callers[2 := StopIdles] == map[2 := StopIdles];
  }

  lemma StopMeetsEnqueue() returns (schedule: seq<Action>)
    ensures Run(schedule) == Fresh.(life := IsStopping, callers := map[1 := Links(User(5)), 2 := StopPosts],
                                    workers := map[0 := Worker(Waits, true)])
  {
    RunTwo([], StartTest(0), StartDrain(0));
    StartsAlone(Fresh);
    schedule := [] + [StartTest(0), StartDrain(0)];
    RunTwo(schedule, StartInit(0), StartCreate(0));
    StartCompletes(Run(schedule));
    schedule := schedule + [StartInit(0), StartCreate(0)];
    RunTwo(schedule, EnqueueTest(1, 5), StopTest(2));
    StopRaces(Run(schedule));
    schedule := schedule + [EnqueueTest(1, 5), StopTest(2)];
  }

  lemma WorkerGone() returns (schedule: seq<Action>)
    ensures Run(schedule) == Fresh.(life := IsStopping, callers := map[1 := Links(User(5)), 2 := StopWaits],
                                    workers := map[0 := Worker(Exits, true)])
  {
    schedule := StopMeetsEnqueue();
    RunTwo(schedule, StopPost(2), WorkerWait(0));
    StopWakes(Run(schedule));
    schedule := schedule + [StopPost(2), WorkerWait(0)];
    RunTwo(schedule, WorkerTake(0), WorkerTest(0));
    WorkerDecides(Run(schedule));
    schedule := schedule + [WorkerTake(0), WorkerTest(0)];
  }

  /** The state tests of enqueue and of the exiting worker are outside the lock, so an accepted work, whose enqueue
      returned OK, can be discarded by stop without running. */
  lemma StopDiscardsAccepted() returns (schedule: seq<Action>)
    ensures var t := Run(schedule);
            t.workOf == [User(5)] && t.fate == map[0 := Discarded] && t.calls == [] && 1 !in t.callers
  {
    schedule := WorkerGone();
    RunTwo(schedule, EnqueueLink(1), EnqueuePost(1));
    LateLink(Run(schedule));
    schedule := schedule + [EnqueueLink(1), EnqueuePost(1)];
    RunTwo(schedule, WorkerExit(0), StopWait(2));
    ExitsAndWaits(Run(schedule));
    schedule := schedule + [WorkerExit(0), StopWait(2)];
    RunFromStep(Fresh, schedule, StopClean(2));
    ClearsOne(Run(schedule));
    schedule := schedule + [StopClean(2)];
  }
}
