/** What every run of the workqueue keeps about the threads inside its calls, the functions that
    ran, and wake-ups; with WorkqueueSafety this makes the whole invariant. */
module WorkqueueThreads {
  import opened WorkqueueProtocol
  import opened WorkqueueSafety

  // ----- the threads inside a call -----

  ghost predicate CallerOk(s: State, id: Id) {
    id in s.callers ==>
      match s.callers[id]
      case Links(w) => w.Barrier? ==> w.id == id
      case Posts(w, t) => t < |s.workOf| && s.workOf[t] == w && (w.Barrier? ==> w.id == id)
      case Polls(t) => t < |s.workOf| && s.workOf[t] == Barrier(id)
      case _ => true
  }

  /** A barrier in use belongs to a flush that has linked it and not yet returned. */
  ghost predicate BarrierOk(s: State, id: Id) {
    FlagOf(s, Barrier(id)) != Idle ==>
      id in s.callers && (s.callers[id].Polls? || (s.callers[id].Posts? && s.callers[id].work == Barrier(id)))
  }

  ghost predicate Callers(s: State) {
    (forall id :: CallerOk(s, id)) && (forall id :: BarrierOk(s, id))
  }

  // ----- the calls of work functions -----

  ghost predicate Increasing(c: seq<Ticket>) {
    forall i, j :: 0 <= i < j < |c| ==> c[i] < c[j]
  }

  /** The worker w has run the function of ticket t and not yet written IDLE. */
  ghost predicate ReturnsTicket(s: State, w: Id, t: Ticket) {
    w in s.workers && s.workers[w].at.Returns? && s.workers[w].at.entry.ticket == t
  }

  ghost predicate CallOk(s: State, t: Ticket) {
    (t in s.fate && s.fate[t] == Executed) || (exists w :: ReturnsTicket(s, w, t))
  }

  ghost predicate WorkerCalls(s: State, w: Id) {
    w in s.workers ==>
      match s.workers[w].at
      case Runs(e) => forall i :: 0 <= i < |s.calls| ==> s.calls[i] < e.ticket
      case Returns(e) => s.calls != [] && s.calls[|s.calls| - 1] == e.ticket
      case _ => true
  }

  ghost predicate Calls(s: State) {
    Increasing(s.calls) && (forall i :: 0 <= i < |s.calls| ==> CallOk(s, s.calls[i])) &&
    (forall t :: t in s.fate && s.fate[t] == Executed ==> t in s.calls) &&
    (forall w :: WorkerCalls(s, w))
  }

  // ----- wake-ups -----

  ghost predicate Wake(s: State) {
    forall w :: w in s.workers && s.workers[w].sound && (s.workers[w].at.Waits? || s.workers[w].at.Tests?) ==>
                  WillWake(s)
  }

  ghost predicate Inv(s: State) {
    Core(s) && Callers(s) && Calls(s) && Wake(s)
  }

  // ----- the core under every step -----

  lemma EnqueueKeepsCore(s: State, a: Action)
    requires Core(s) && Callers(s)
    ensures Core(StepEnqueue(s, a))
  {
    var t := StepEnqueue(s, a);
    if a.EnqueueLink? {
      if t != s { LinkKeepsCore(s, a.id, s.callers[a.id].work); }
    } else if a.Cancel? {
      CancelKeepsCore(s, User(a.n));
    } else {
      EnqueueKeepsCustody(s, a);
      FlagsStand(s, a);
      CoreUnchanged(s, t);
    }
  }

  /** Apart from the link and the cancel, no step of enqueue or flush changes a flag: work_init finds an idle
      barrier. */
  lemma FlagsStand(s: State, a: Action)
    requires Callers(s) && !a.EnqueueLink? && !a.Cancel?
    ensures var t := StepEnqueue(s, a);
            (forall w :: FlagOf(t, w) == FlagOf(s, w)) && t.pending == s.pending && t.workOf == s.workOf &&
            t.fate == s.fate && t.workers == s.workers && t.calls == s.calls
  {
    PlainListStands(s, a);
    PlainFlagsStand(s, a);
  }

  lemma PlainListStands(s: State, a: Action)
    requires !a.EnqueueLink? && !a.Cancel?
    ensures var t := StepEnqueue(s, a);
            t.pending == s.pending && t.workOf == s.workOf && t.fate == s.fate &&
            t.workers == s.workers && t.calls == s.calls
  {
  }

  lemma PlainFlagsStand(s: State, a: Action)
    requires Callers(s) && !a.EnqueueLink? && !a.Cancel?
    ensures forall w :: FlagOf(StepEnqueue(s, a), w) == FlagOf(s, w)
  {
    if a.FlushTest? { assert BarrierOk(s, a.id); } else {}
  }

  lemma LifeKeepsCore(s: State, a: Action)
    requires Core(s) && LifeAction(a)
    ensures Core(StepLife(s, a))
  {
    LifeKeepsCustody(s, a);
    if a.StopClean? {
      if a.id in s.callers && s.callers[a.id].StopCleans? { CleanKeepsCore(s, a.id); }
    } else {
      LifeStands(s, a);
      CoreUnchanged(s, StepLife(s, a));
    }
  }

  /** Apart from the clearing of the list, no step of start or stop touches the list, a flag, a fate or a claim. */
  lemma LifeStands(s: State, a: Action)
    requires Custody(s) && LifeAction(a) && !a.StopClean?
    ensures var t := StepLife(s, a);
            t.pending == s.pending && t.flags == s.flags &&
            t.workOf == s.workOf && t.fate == s.fate && t.calls == s.calls &&
            (forall k :: Claimed(t, k) == Claimed(s, k))
  {
    LifeListStands(s, a);
    LifeClaimsStand(s, a);
  }

  lemma LifeListStands(s: State, a: Action)
    requires LifeAction(a) && !a.StopClean?
    ensures var t := StepLife(s, a);
            t.pending == s.pending && t.flags == s.flags && t.workOf == s.workOf && t.fate == s.fate &&
            t.calls == s.calls
  {
  }

  lemma LifeClaimsStand(s: State, a: Action)
    requires Custody(s) && LifeAction(a) && !a.StopClean?
    ensures forall k :: Claimed(StepLife(s, a), k) == Claimed(s, k)
  {
    var t := StepLife(s, a);
    if a.StartCreate? && t != s { assert Holds(s, ByCaller(a.id)) && !Holds(s, ByWorker(a.id)); }
  }

  lemma WorkerKeepsCore(s: State, a: Action)
    requires Core(s) && WorkerAction(a)
    ensures Core(StepWorker(s, a))
  {
    var t := StepWorker(s, a);
    WorkerKeepsCustody(s, a);
    if t == s {
    } else if a.WorkerTake? {
      TakeKeepsCore(s, a.w);
    } else if a.WorkerReturn? {
      ReturnKeepsCore(s, a.w);
    } else {
      CoreUnchanged(s, t);
    }
  }

  // ----- the callers under every step -----

  lemma EnqueueKeepsCallers(s: State, a: Action)
    requires Core(s) && Callers(s)
    ensures Callers(StepEnqueue(s, a))
  {
    var t := StepEnqueue(s, a);
    if a.EnqueueLink? {
      if t != s { LinkKeepsCallers(s, a.id, s.callers[a.id].work); }
    } else if a.Cancel? {
      CancelKeepsCallers(s, User(a.n));
    } else if a.EnqueueTest? || a.EnqueuePost? || a.FlushTest? || a.FlushEnqueue? || a.FlushPoll? {
      FlagsStand(s, a);
      OtherCallersStand(s, a);
      MovedCallerOk(s, a);
      OneCallerMoved(s, t, a.id);
    }
  }

  lemma CancelKeepsCallers(s: State, w: Work)
    requires Callers(s) && w.User?
    ensures Callers(CancelWork(s, w))
  {
    var t := CancelWork(s, w);
    assert forall v :: v != w ==> FlagOf(t, v) == FlagOf(s, v);
    forall id ensures CallerOk(t, id) { assert CallerOk(s, id); }
    forall id ensures BarrierOk(t, id) { assert BarrierOk(s, id); }
  }

  lemma MovedCallerOk(s: State, a: Action)
    requires Callers(s) && (a.EnqueueTest? || a.EnqueuePost? || a.FlushTest? || a.FlushEnqueue? || a.FlushPoll?)
    ensures CallerOk(StepEnqueue(s, a), a.id) && BarrierOk(StepEnqueue(s, a), a.id)
  {
    assert CallerOk(s, a.id) && BarrierOk(s, a.id);
  }

  lemma OneCallerMoved(s: State, t: State, k: Id)
    requires Callers(s) && t.workOf == s.workOf && (forall w :: FlagOf(t, w) == FlagOf(s, w))
    requires (forall id :: id != k ==> (id in t.callers <==> id in s.callers)) &&
             (forall id :: id != k && id in t.callers ==> t.callers[id] == s.callers[id])
    requires CallerOk(t, k) && BarrierOk(t, k)
    ensures Callers(t)
  {
    forall id ensures CallerOk(t, id) { assert CallerOk(s, id); }
    forall id ensures BarrierOk(t, id) { assert BarrierOk(s, id); }
  }

  lemma OtherCallersStand(s: State, a: Action)
    requires a.EnqueueTest? || a.EnqueuePost? || a.FlushTest? || a.FlushEnqueue? || a.FlushPoll?
    ensures var t := StepEnqueue(s, a);
            (forall id :: id != a.id ==> (id in t.callers <==> id in s.callers)) &&
            (forall id :: id != a.id && id in t.callers ==> t.callers[id] == s.callers[id])
  {
  }

  lemma LinkKeepsCallers(s: State, id: Id, w: Work)
    requires Callers(s) && id in s.callers && s.callers[id] == Links(w)
    ensures Callers(Link(s, id, w))
  {
    var t := Link(s, id, w);
    forall k ensures CallerOk(t, k) && BarrierOk(t, k) { LinkKeepsCaller(s, id, w, k); }
  }

  lemma LinkKeepsCaller(s: State, id: Id, w: Work, k: Id)
    requires Callers(s) && id in s.callers && s.callers[id] == Links(w)
    ensures CallerOk(Link(s, id, w), k) && BarrierOk(Link(s, id, w), k)
  {
    assert CallerOk(s, id) && BarrierOk(s, id);
    assert CallerOk(s, k) && BarrierOk(s, k);
  }

  lemma LifeKeepsCallers(s: State, a: Action)
    requires Core(s) && Callers(s) && LifeAction(a)
    ensures Callers(StepLife(s, a))
  {
    if a.StopClean? {
      if a.id in s.callers && s.callers[a.id].StopCleans? { CleanKeepsCallers(s, a.id); }
    } else {
      LifeStands(s, a);
      LifeMovesCallers(s, a);
      CallersMoved(s, StepLife(s, a));
    }
  }

  predicate LifeCall(c: Caller) {
    c.StartDrains? || c.StartInits? || c.StartCreates? || c.StopPosts? || c.StopWaits? || c.StopCleans? || c.StopIdles?
  }

  /** Steps of start and stop move only threads inside start and stop. */
  lemma LifeMovesCallers(s: State, a: Action)
    requires LifeAction(a)
    ensures var t := StepLife(s, a);
            (forall id :: id in t.callers && !LifeCall(t.callers[id]) ==>
                            id in s.callers && t.callers[id] == s.callers[id]) &&
            (forall id :: id in s.callers && !LifeCall(s.callers[id]) ==>
                            id in t.callers && t.callers[id] == s.callers[id])
  {
    LifeBringsOnlyLife(s, a);
    LifeLeavesOthers(s, a);
  }

  lemma LifeBringsOnlyLife(s: State, a: Action)
    requires LifeAction(a)
    ensures var t := StepLife(s, a);
            forall id :: id in t.callers && !LifeCall(t.callers[id]) ==>
                           id in s.callers && t.callers[id] == s.callers[id]
  {
  }

  lemma LifeLeavesOthers(s: State, a: Action)
    requires LifeAction(a)
    ensures var t := StepLife(s, a);
            forall id :: id in s.callers && !LifeCall(s.callers[id]) ==>
                           id in t.callers && t.callers[id] == s.callers[id]
  {
  }

  lemma CallersMoved(s: State, t: State)
    requires Callers(s) && t.flags == s.flags && t.workOf == s.workOf
    requires forall id :: id in t.callers && !LifeCall(t.callers[id]) ==>
                            id in s.callers && t.callers[id] == s.callers[id]
    requires forall id :: id in s.callers && !LifeCall(s.callers[id]) ==>
                            id in t.callers && t.callers[id] == s.callers[id]
    ensures Callers(t)
  {
    forall id ensures CallerOk(t, id) { assert CallerOk(s, id); }
    forall id ensures BarrierOk(t, id) { assert BarrierOk(s, id); }
  }

  lemma CleanKeepsCallers(s: State, id: Id)
    requires Callers(s) && id in s.callers && s.callers[id].StopCleans?
    ensures Callers(Clean(s, id))
  {
    var t := Clean(s, id);
    forall k ensures CallerOk(t, k) { assert CallerOk(s, k); }
    forall k ensures BarrierOk(t, k) {
      assert BarrierOk(s, k);
      AllIdleMeaning(s.flags, s.pending, Barrier(k));
    }
  }

  lemma WorkerKeepsCallers(s: State, a: Action)
    requires Core(s) && Callers(s) && WorkerAction(a)
    ensures Callers(StepWorker(s, a))
  {
    var t := StepWorker(s, a);
    WorkerFlags(s, a);
    forall id ensures CallerOk(t, id) { assert CallerOk(s, id); }
    forall id ensures BarrierOk(t, id) { assert BarrierOk(s, id); }
  }

  /** A worker's step makes no idle work busy. */
  lemma WorkerFlags(s: State, a: Action)
    requires Listed(s) && WorkerAction(a)
    ensures var t := StepWorker(s, a);
            t.callers == s.callers && t.workOf == s.workOf && forall v :: FlagOf(s, v) == Idle ==> FlagOf(t, v) == Idle
  {
    WorkerMovesNobody(s, a);
    IdleStaysIdle(s, a);
  }

  lemma WorkerMovesNobody(s: State, a: Action)
    requires WorkerAction(a)
    ensures StepWorker(s, a).callers == s.callers && StepWorker(s, a).workOf == s.workOf
  {
  }

  lemma IdleStaysIdle(s: State, a: Action)
    requires Listed(s) && WorkerAction(a)
    ensures forall v :: FlagOf(s, v) == Idle ==> FlagOf(StepWorker(s, a), v) == Idle
  {
    if a.WorkerTake? {
      if s.pending != [] { assert OnList(s.pending, s.pending[0].work); }
    } else if a.WorkerReturn? {
    } else {
    }
  }

  // ----- the calls under every step -----

  lemma CallStays(s: State, t: State, u: Ticket)
    requires CallOk(s, u) && (u in s.fate ==> u in t.fate && t.fate[u] == s.fate[u])
    requires forall w :: ReturnsTicket(s, w, u) ==> ReturnsTicket(t, w, u)
    ensures CallOk(t, u)
  {
  }

  lemma CallsUnchanged(s: State, t: State)
    requires Calls(s) && t.calls == s.calls && t.workers == s.workers
    requires forall u :: u in s.fate ==> u in t.fate && t.fate[u] == s.fate[u]
    requires forall u :: u in t.fate && u !in s.fate ==> t.fate[u] != Executed
    ensures Calls(t)
  {
    assert forall w, u :: ReturnsTicket(s, w, u) ==> ReturnsTicket(t, w, u);
    forall i | 0 <= i < |t.calls| ensures CallOk(t, t.calls[i]) { CallStays(s, t, s.calls[i]); }
    forall w ensures WorkerCalls(t, w) { assert WorkerCalls(s, w); }
  }

  lemma EnqueueKeepsCalls(s: State, a: Action)
    requires Core(s) && Callers(s) && Calls(s)
    ensures Calls(StepEnqueue(s, a))
  {
    var t := StepEnqueue(s, a);
    if a.Cancel? && FlagOf(s, User(a.n)) == Pending {
      var n := WithoutCuts(s.pending, User(a.n));
      assert EntryOk(s, s.pending[n]);
    } else if !a.EnqueueLink? && !a.Cancel? {
      FlagsStand(s, a);
    }
    CallsUnchanged(s, t);
  }

  lemma LifeKeepsCalls(s: State, a: Action)
    requires Core(s) && Calls(s) && LifeAction(a)
    ensures Calls(StepLife(s, a))
  {
    var t := StepLife(s, a);
    if t == s {
    } else if a.StartCreate? {
      CreateKeepsCalls(s, a.id);
    } else if a.StopClean? {
      CleanKeepsCalls(s, a.id);
    } else {
      CallsUnchanged(s, t);
    }
  }

  lemma CreateKeepsCalls(s: State, id: Id)
    requires Core(s) && Calls(s) && id in s.callers && s.callers[id].StartCreates?
    ensures Calls(Step(s, StartCreate(id)))
  {
    var t := Step(s, StartCreate(id));
    NoWorker(s, id);
    assert forall w, u :: ReturnsTicket(s, w, u) ==> ReturnsTicket(t, w, u);
    forall i | 0 <= i < |t.calls| ensures CallOk(t, t.calls[i]) { CallStays(s, t, s.calls[i]); }
    forall w ensures WorkerCalls(t, w) { assert WorkerCalls(s, w); }
  }

  lemma CleanKeepsCalls(s: State, id: Id)
    requires Core(s) && Calls(s)
    ensures Calls(Clean(s, id))
  {
    var t := Clean(s, id);
    forall u: Ticket
      ensures u in s.fate ==> u in t.fate && t.fate[u] == s.fate[u]
      ensures u in t.fate && u !in s.fate ==> t.fate[u] != Executed
    {
      AllDiscardedMeaning(s.fate, s.pending, u);
      if TicketOnList(s.pending, u) {
        var i :| 0 <= i < |s.pending| && s.pending[i].ticket == u;
        assert EntryOk(s, s.pending[i]);
      }
    }
    CallsUnchanged(s, t);
  }

  lemma CallsMoved(s: State, t: State)
    requires Calls(s) && t.calls == s.calls && t.fate == s.fate
    requires forall v :: Claimed(t, v) == Claimed(s, v)
    requires forall v :: v in s.workers && s.workers[v].at.Returns? ==> v in t.workers && t.workers[v] == s.workers[v]
    requires forall v :: v in t.workers && Claimed(t, v).Some? ==> v in s.workers && t.workers[v] == s.workers[v]
    ensures Calls(t)
  {
    assert forall v, u :: ReturnsTicket(s, v, u) ==> ReturnsTicket(t, v, u);
    forall i | 0 <= i < |t.calls| ensures CallOk(t, t.calls[i]) { CallStays(s, t, s.calls[i]); }
    forall v ensures WorkerCalls(t, v) { assert WorkerCalls(s, v); }
  }

  /** A worker's claim is later than every call before it. */
  lemma TakeKeepsCalls(s: State, w: Id)
    requires Core(s) && Calls(s) && w in s.workers && s.workers[w].at.Takes?
    ensures Calls(Take(s, w))
  {
    forall v | v in s.workers ensures v == w { SingleWorker(s, v, w); }
    if s.pending == [] { CallsMoved(s, Take(s, w)); } else { ClaimKeepsCalls(s, w); }
  }

  lemma ClaimKeepsCalls(s: State, w: Id)
    requires Core(s) && Calls(s) && w in s.workers && s.workers[w].at.Takes? && s.pending != []
    requires forall v :: v in s.workers ==> v == w
    ensures Calls(Take(s, w))
  {
    var t := Take(s, w);
    assert forall v, u :: !ReturnsTicket(s, v, u);
    CallsBeforeList(s);
    forall i | 0 <= i < |t.calls| ensures CallOk(t, t.calls[i]) { CallStays(s, t, s.calls[i]); }
  }

  lemma CallsBeforeList(s: State)
    requires Core(s) && Calls(s) && s.pending != [] && forall v, u :: !ReturnsTicket(s, v, u)
    ensures forall i :: 0 <= i < |s.calls| ==> s.calls[i] < s.pending[0].ticket
  {
    assert EntryOk(s, s.pending[0]);
    forall i | 0 <= i < |s.calls| ensures s.calls[i] < s.pending[0].ticket {
      assert CallOk(s, s.calls[i]);
      assert Below(s, s.calls[i]);
    }
  }

  lemma RunKeepsCalls(s: State, w: Id)
    requires Core(s) && Calls(s) && w in s.workers && s.workers[w].at.Runs?
    ensures Calls(StepWorker(s, WorkerRun(w)))
  {
    var t := StepWorker(s, WorkerRun(w));
    forall v | v in s.workers ensures v == w { SingleWorker(s, v, w); }
    assert WorkerCalls(s, w);
    assert forall v, u :: !ReturnsTicket(s, v, u);
    assert ReturnsTicket(t, w, s.workers[w].at.entry.ticket);
    forall i | 0 <= i < |t.calls| ensures CallOk(t, t.calls[i]) { if i < |s.calls| { CallStays(s, t, s.calls[i]); } }
  }

  lemma ReturnKeepsCalls(s: State, w: Id)
    requires Core(s) && Calls(s) && w in s.workers && s.workers[w].at.Returns?
    ensures Calls(StepWorker(s, WorkerReturn(w)))
  {
    var t := StepWorker(s, WorkerReturn(w));
    forall v | v in s.workers ensures v == w { SingleWorker(s, v, w); }
    assert WorkerCalls(s, w) && Claimed(s, w).Some? && ClaimOk(s, w);
    forall i | 0 <= i < |t.calls| ensures CallOk(t, t.calls[i]) { assert CallOk(s, s.calls[i]); }
  }

  lemma WorkerKeepsCalls(s: State, a: Action)
    requires Core(s) && Calls(s) && WorkerAction(a)
    ensures Calls(StepWorker(s, a))
  {
    var t := StepWorker(s, a);
    if t == s {
    } else if a.WorkerTake? {
      TakeKeepsCalls(s, a.w);
    } else if a.WorkerRun? {
      RunKeepsCalls(s, a.w);
    } else if a.WorkerReturn? {
      ReturnKeepsCalls(s, a.w);
    } else {
      PlainKeepsCalls(s, a);
    }
  }

  lemma PlainKeepsCalls(s: State, a: Action)
    requires Calls(s) && WorkerAction(a) && !a.WorkerTake? && !a.WorkerRun? && !a.WorkerReturn?
    ensures Calls(StepWorker(s, a))
  {
    PlainKeepsHistory(s, a);
    PlainKeepsClaims(s, a);
    CallsMoved(s, StepWorker(s, a));
  }

  lemma PlainKeepsHistory(s: State, a: Action)
    requires WorkerAction(a) && !a.WorkerTake? && !a.WorkerRun? && !a.WorkerReturn?
    ensures StepWorker(s, a).calls == s.calls && StepWorker(s, a).fate == s.fate
  {
  }

  lemma PlainKeepsClaims(s: State, a: Action)
    requires WorkerAction(a) && !a.WorkerTake? && !a.WorkerRun? && !a.WorkerReturn?
    ensures var t := StepWorker(s, a);
            (forall v :: Claimed(t, v) == Claimed(s, v)) &&
            (forall v :: v in s.workers && s.workers[v].at.Returns? ==>
                           v in t.workers && t.workers[v] == s.workers[v]) &&
            (forall v :: v in t.workers && Claimed(t, v).Some? ==> v in s.workers && t.workers[v] == s.workers[v])
  {
  }

  // ----- wake-ups under every step -----

  lemma EnqueueKeepsWake(s: State, a: Action)
    requires Core(s) && Callers(s) && Wake(s)
    ensures Wake(StepEnqueue(s, a))
  {
    EnqueueKeepsHolders(s, a);
    if WillWake(s) { EnqueueKeepsWillWake(s, a); }
  }

  lemma EnqueueKeepsWillWake(s: State, a: Action)
    requires Core(s) && Callers(s) && WillWake(s)
    ensures WillWake(StepEnqueue(s, a))
  {
    var t := StepEnqueue(s, a);
    if a.EnqueueLink? {
      if t != s && t.pending != s.pending { assert t.callers[a.id].Posts?; }
    } else if a.Cancel? {
      if FlagOf(s, User(a.n)) == Pending { var n := WithoutCuts(s.pending, User(a.n)); }
    } else {
      FlagsStand(s, a);
    }
    WakeStays(s, t, a);
  }

  /** Only a post ends an enqueuer's turn to post, and it raises the semaphore. */
  lemma WakeStays(s: State, t: State, a: Action)
    requires t == StepEnqueue(s, a) && WillWake(s)
    requires s.pending == [] ==> t.pending == [] || SomePosts(t)
    ensures WillWake(t)
  {
    if a.EnqueuePost? {
      PostOrSame(s, a);
    } else if SomePosts(s) {
      PostersStand(s, a);
    } else {
      PlainSemStands(s, a);
    }
  }

  lemma PostOrSame(s: State, a: Action)
    requires a.EnqueuePost?
    ensures StepEnqueue(s, a).sem > 0 || StepEnqueue(s, a) == s
  {
  }

  lemma PostersStand(s: State, a: Action)
    requires !a.EnqueuePost? && SomePosts(s)
    ensures SomePosts(StepEnqueue(s, a))
  {
    var id :| id in s.callers && s.callers[id].Posts?;
    assert id in StepEnqueue(s, a).callers && StepEnqueue(s, a).callers[id].Posts?;
  }

  lemma PlainSemStands(s: State, a: Action)
    requires !a.EnqueuePost?
    ensures StepEnqueue(s, a).sem == s.sem
  {
  }

  lemma LifeKeepsWake(s: State, a: Action)
    requires Core(s) && Wake(s) && LifeAction(a)
    ensures Wake(StepLife(s, a))
  {
    var t := StepLife(s, a);
    if t == s {
    } else if a.StartDrain? || a.StartInit? || a.StartFail? || a.StopIdle? || a.StartCreate? {
      assert Holds(s, ByCaller(a.id));
      forall w ensures w !in s.workers { assert w in s.workers ==> Holds(s, ByWorker(w)); }
      if SomePosts(s) {
        var id :| id in s.callers && s.callers[id].Posts?;
        assert id in t.callers && t.callers[id].Posts?;
      }
    } else if SomePosts(s) {
      var id :| id in s.callers && s.callers[id].Posts?;
      assert id in t.callers && t.callers[id].Posts?;
    }
  }

  lemma WorkerKeepsWake(s: State, a: Action)
    requires Core(s) && Wake(s) && WorkerAction(a)
    ensures Wake(StepWorker(s, a))
  {
    var t := StepWorker(s, a);
    if a.w in s.workers {
      forall v | v in s.workers ensures v == a.w { SingleWorker(s, v, a.w); }
      WorkerStands(s, a);
      OtherWorkersStand(s, a);
      if a.w in t.workers && (t.workers[a.w].at.Waits? || t.workers[a.w].at.Tests?) {
        WorkerRests(s, a);
      }
    }
  }

  lemma WorkerStands(s: State, a: Action)
    requires WorkerAction(a) && a.w in s.workers
    ensures var t := StepWorker(s, a);
            t.callers == s.callers && (a.w in t.workers ==> t.workers[a.w].sound == s.workers[a.w].sound)
  {
    WorkerMovesNobody(s, a);
    WorkerStaysSound(s, a);
  }

  lemma WorkerStaysSound(s: State, a: Action)
    requires WorkerAction(a) && a.w in s.workers
    ensures var t := StepWorker(s, a); a.w in t.workers ==> t.workers[a.w].sound == s.workers[a.w].sound
  {
    if a.WorkerTake? {} else if a.WorkerRun? {} else if a.WorkerReturn? {} else {}
  }

  lemma OtherWorkersStand(s: State, a: Action)
    requires WorkerAction(a)
    ensures var t := StepWorker(s, a);
            forall v :: v in t.workers ==> v in s.workers && (v != a.w ==> t.workers[v] == s.workers[v])
  {
  }

  /** A worker that sleeps or heads for its exit test after a step slept, or headed there, before, or found the list
      empty. */
  lemma WorkerRests(s: State, a: Action)
    requires WorkerAction(a) && a.w in s.workers
    requires a.w in StepWorker(s, a).workers
    requires StepWorker(s, a).workers[a.w].at.Waits? || StepWorker(s, a).workers[a.w].at.Tests?
    ensures StepWorker(s, a).pending == s.pending && StepWorker(s, a).sem == s.sem
    ensures s.pending == [] || s.workers[a.w].at.Waits? || s.workers[a.w].at.Tests?
  {
  }

  // ----- the whole invariant -----

  lemma StepKeepsInv(s: State, a: Action)
    requires Inv(s)
    ensures Inv(Step(s, a))
  {
    if LifeAction(a) {
      LifeKeepsCore(s, a);
      LifeKeepsCallers(s, a);
      LifeKeepsCalls(s, a);
      LifeKeepsWake(s, a);
    } else if WorkerAction(a) {
      WorkerKeepsCore(s, a);
      WorkerKeepsCallers(s, a);
      WorkerKeepsCalls(s, a);
      WorkerKeepsWake(s, a);
    } else {
      EnqueueKeepsCore(s, a);
      EnqueueKeepsCallers(s, a);
      EnqueueKeepsCalls(s, a);
      EnqueueKeepsWake(s, a);
    }
  }

  lemma {:induction false} RunFromKeepsInv(s: State, schedule: seq<Action>)
    requires Inv(s)
    ensures Inv(RunFrom(s, schedule))
  {
    if schedule != [] {
      RunFromKeepsInv(s, schedule[..|schedule| - 1]);
      StepKeepsInv(RunFrom(s, schedule[..|schedule| - 1]), schedule[|schedule| - 1]);
    }
  }

  /** Every state of every run has the invariant. */
  lemma RunKeepsInv(schedule: seq<Action>)
    ensures Inv(Run(schedule))
  {
    assert forall w :: FlagOf(Fresh, w) == Idle;
    RunFromKeepsInv(Fresh, schedule);
  }
}
