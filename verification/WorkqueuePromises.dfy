/** The promises of the workqueue over whole runs: one final fate for each accepted work, one call
    for each executed one, and what a flush waits for. */
module WorkqueuePromises {
  import opened WorkqueueProtocol
  import opened WorkqueueSafety
  import opened WorkqueueThreads

  // ----- accounting -----

  /** Every accepted enqueue is pending, running or settled, and only one of the three. */
  lemma OneFate(s: State, t: Ticket)
    requires Inv(s) && t < |s.workOf|
    ensures t in s.fate || TicketOnList(s.pending, t) || TicketClaimed(s, t)
    ensures !(t in s.fate && TicketOnList(s.pending, t)) && !(t in s.fate && TicketClaimed(s, t))
    ensures !(TicketOnList(s.pending, t) && TicketClaimed(s, t))
  {
    TicketFacts(s, t);
  }

  ghost function Tickets(p: seq<Entry>): set<Ticket> {
    set i | 0 <= i < |p| :: p[i].ticket
  }

  ghost function ClaimedTickets(s: State): set<Ticket> {
    set w | w in s.workers && Claimed(s, w).Some? :: Claimed(s, w).value.ticket
  }

  ghost function WithFate(s: State, f: Fate): set<Ticket> {
    set t | t in s.fate && s.fate[t] == f
  }

  ghost function UpTo(n: nat): (r: set<Ticket>)
    ensures |r| == n && forall t: Ticket :: t in r <==> t < n
  {
    if n == 0 then {} else UpTo(n - 1) + {n - 1}
  }

  lemma {:induction false} TicketsSize(p: seq<Entry>)
    requires Ordered(p)
    ensures |Tickets(p)| == |p|
  {
    if p != [] {
      var q, e := p[..|p| - 1], p[|p| - 1];
      TicketsSize(q);
      assert Tickets(p) == Tickets(q) + {e.ticket} by {
        assert forall i :: 0 <= i < |q| ==> q[i] == p[i];
        assert p[|p| - 1] == e;
      }
    }
  }

  lemma ClaimedAtMostOne(s: State)
    requires Inv(s)
    ensures |ClaimedTickets(s)| <= 1
  {
    if ClaimedTickets(s) != {} {
      var t :| t in ClaimedTickets(s);
      forall u | u in ClaimedTickets(s) ensures u == t {
        var w :| w in s.workers && Claimed(s, w).Some? && Claimed(s, w).value.ticket == t;
        var v :| v in s.workers && Claimed(s, v).Some? && Claimed(s, v).value.ticket == u;
        SingleWorker(s, w, v);
      }
      assert ClaimedTickets(s) == {t};
    }
  }

  lemma FatesSplit(s: State)
    ensures |s.fate| == |WithFate(s, Executed)| + |WithFate(s, Cancelled)| + |WithFate(s, Discarded)|
  {
    ThreeDisjoint(s.fate.Keys, WithFate(s, Executed), WithFate(s, Cancelled), WithFate(s, Discarded));
  }

  lemma ThreeDisjoint(whole: set<Ticket>, a: set<Ticket>, b: set<Ticket>, c: set<Ticket>)
    requires whole == a + b + c && a !! b && (a + b) !! c
    ensures |whole| == |a| + |b| + |c|
  {
    assert |a + b| == |a| + |b|;
  }

  /** Accepted enqueues = executed + cancelled + discarded + pending + running, in every reachable state. */
  lemma Conservation(s: State)
    requires Inv(s)
    ensures |s.workOf| == |WithFate(s, Executed)| + |WithFate(s, Cancelled)| + |WithFate(s, Discarded)|
                          + |s.pending| + |ClaimedTickets(s)|
    ensures |ClaimedTickets(s)| <= 1
  {
    ClaimedAtMostOne(s);
    TicketsSize(s.pending);
    FatesSplit(s);
    forall t: Ticket
      ensures t < |s.workOf| <==> t in s.fate.Keys + Tickets(s.pending) + ClaimedTickets(s)
      ensures t in Tickets(s.pending) ==> t !in s.fate && t !in ClaimedTickets(s)
      ensures t in ClaimedTickets(s) ==> t !in s.fate
    {
      TicketPlace(s, t);
    }
    ThreeParts(|s.workOf|, s.fate.Keys, Tickets(s.pending), ClaimedTickets(s));
  }

  /** So it is after every run. */
  lemma RunsBalance(schedule: seq<Action>)
    ensures var s := Run(schedule);
            |s.workOf| == |WithFate(s, Executed)| + |WithFate(s, Cancelled)| + |WithFate(s, Discarded)|
                          + |s.pending| + |ClaimedTickets(s)|
  {
    RunKeepsInv(schedule);
    Conservation(Run(schedule));
  }

  lemma ThreeParts(n: nat, a: set<Ticket>, b: set<Ticket>, c: set<Ticket>)
    requires forall t: Ticket :: t < n <==> t in a + b + c
    requires a !! b && (a + b) !! c
    ensures n == |a| + |b| + |c|
  {
    ThreeDisjoint(UpTo(n), a, b, c);
  }

  lemma TicketPlace(s: State, t: Ticket)
    requires Inv(s)
    ensures t in Tickets(s.pending) <==> TicketOnList(s.pending, t)
    ensures t in ClaimedTickets(s) <==> TicketClaimed(s, t)
    ensures t < |s.workOf| <==> t in s.fate || TicketOnList(s.pending, t) || TicketClaimed(s, t)
    ensures t in Tickets(s.pending) ==> t !in s.fate && t !in ClaimedTickets(s)
    ensures t in ClaimedTickets(s) ==> t !in s.fate
  {
    TicketFacts(s, t);
  }

  ghost predicate FatesStay(s: State, t: State) {
    forall u :: u in s.fate ==> u in t.fate && t.fate[u] == s.fate[u]
  }

  lemma EnqueueKeepsFates(s: State, a: Action)
    requires Inv(s)
    ensures FatesStay(s, StepEnqueue(s, a))
  {
    if a.Cancel? {
      if FlagOf(s, User(a.n)) == Pending {
        var n := WithoutCuts(s.pending, User(a.n));
        assert EntryOk(s, s.pending[n]);
      }
    } else if !a.EnqueueLink? {
      FlagsStand(s, a);
    }
  }

  lemma LifeKeepsFates(s: State, a: Action)
    requires Inv(s) && LifeAction(a)
    ensures FatesStay(s, StepLife(s, a))
  {
    if a.StopClean? {
      forall u | u in s.fate ensures u in Clean(s, a.id).fate && Clean(s, a.id).fate[u] == s.fate[u] {
        AllDiscardedMeaning(s.fate, s.pending, u);
        TicketFacts(s, u);
      }
    } else {
      LifeStands(s, a);
    }
  }

  lemma WorkerKeepsFates(s: State, a: Action)
    requires Inv(s) && WorkerAction(a)
    ensures FatesStay(s, StepWorker(s, a))
  {
    if a.w in s.workers { assert ClaimOk(s, a.w); }
  }

  /** A fate is final. */
  lemma FateIsFinal(s: State, a: Action)
    requires Inv(s)
    ensures FatesStay(s, Step(s, a))
  {
    if LifeAction(a) {
      LifeKeepsFates(s, a);
    } else if WorkerAction(a) {
      WorkerKeepsFates(s, a);
    } else {
      EnqueueKeepsFates(s, a);
    }
  }

  /** No run changes a fate once given. */
  lemma {:induction false} FatesAreFinal(s: State, schedule: seq<Action>)
    requires Inv(s)
    ensures FatesStay(s, RunFrom(s, schedule))
  {
    if schedule != [] {
      FatesAreFinal(s, schedule[..|schedule| - 1]);
      RunFromKeepsInv(s, schedule[..|schedule| - 1]);
      FateIsFinal(RunFrom(s, schedule[..|schedule| - 1]), schedule[|schedule| - 1]);
    }
  }

  /** The functions run in the order of the enqueues, each executed work's exactly once, a cancelled or
      discarded work's never. */
  lemma ExecutedOnce(s: State)
    requires Inv(s)
    ensures Increasing(s.calls)
    ensures forall t :: t in s.fate ==> (s.fate[t] == Executed <==> t in s.calls)
  {
    forall t | t in s.fate && t in s.calls ensures s.fate[t] == Executed {
      assert CallOk(s, t);
      ReturnsHasNoFate(s, t);
    }
  }

  lemma ReturnsHasNoFate(s: State, t: Ticket)
    requires Core(s)
    ensures forall w :: ReturnsTicket(s, w, t) ==> t !in s.fate
  {
    forall w | ReturnsTicket(s, w, t) ensures t !in s.fate { assert Claimed(s, w).Some? && ClaimOk(s, w); }
  }

  /** Outside critical sections a work is PENDING exactly when it is on the list, in one place, and RUNNING exactly
      when the one worker has claimed it. */
  lemma FlagsTellTruth(s: State, w: Work)
    requires Inv(s)
    ensures FlagOf(s, w) == Pending <==> OnList(s.pending, w)
    ensures forall i, j :: 0 <= i < j < |s.pending| && s.pending[i].work == w ==> s.pending[j].work != w
    ensures FlagOf(s, w) == Running <==> SomeClaims(s, w)
    ensures forall u, v :: u in s.workers && v in s.workers ==> u == v
  {
    if SomeClaims(s, w) {
      var k :| Claimed(s, k).Some? && Claimed(s, k).value.work == w;
      assert ClaimOk(s, k);
    }
    forall u, v | u in s.workers && v in s.workers ensures u == v { SingleWorker(s, u, v); }
  }

  // ----- flush -----

  /** When a flush sees its barrier IDLE, every work that was pending or running when the barrier was linked has
      finished through its write of IDLE, been cancelled, or been discarded by stop; whatever else ran meanwhile. */
  lemma FlushBarrier(linking: State, id: Id, returning: State)
    requires Inv(linking) && InCall(linking, id, Links(Barrier(id))) && FlagOf(linking, Barrier(id)) == Idle
    requires Inv(returning) && InCall(returning, id, Polls(|linking.workOf|)) && FlagOf(returning, Barrier(id)) == Idle
    ensures InCall(Link(linking, id, Barrier(id)), id, Posts(Barrier(id), |linking.workOf|))
    ensures forall t :: TicketOnList(linking.pending, t) || TicketClaimed(linking, t) ==> t in returning.fate
    ensures |linking.workOf| in returning.fate && returning.fate[|linking.workOf|] != Cancelled
  {
    var b := |linking.workOf|;
    assert CallerOk(returning, id);
    TicketFacts(returning, b);
    assert Below(returning, b);
    forall t | TicketOnList(linking.pending, t) || TicketClaimed(linking, t) ensures t in returning.fate {
      TicketPlace(linking, t);
    }
  }

  /** Once the ticket of a flush in progress has its fate, its barrier is IDLE. */
  ghost predicate BarrierSettles(s: State, id: Id) {
    id in s.callers ==>
      match s.callers[id]
      case Polls(t) => t in s.fate ==> FlagOf(s, Barrier(id)) == Idle
      case Posts(w, t) => w == Barrier(id) && t in s.fate ==> FlagOf(s, Barrier(id)) == Idle
      case _ => true
  }

  ghost predicate BarriersSettle(s: State) {
    forall id :: BarrierSettles(s, id)
  }

  lemma LinkKeepsBarriers(s: State, k: Id)
    requires Inv(s) && BarriersSettle(s) && k in s.callers && s.callers[k].Links?
    ensures BarriersSettle(Link(s, k, s.callers[k].work))
  {
    var t := Link(s, k, s.callers[k].work);
    assert CallerOk(s, k);
    forall id ensures BarrierSettles(t, id) { assert BarrierSettles(s, id); }
  }

  lemma CancelKeepsBarriers(s: State, w: Work)
    requires Inv(s) && BarriersSettle(s) && w.User?
    ensures BarriersSettle(CancelWork(s, w))
  {
    var t := CancelWork(s, w);
    if FlagOf(s, w) == Pending {
      var n := WithoutCuts(s.pending, w);
      assert EntryOk(s, s.pending[n]);
    }
    forall id ensures BarrierSettles(t, id) { assert BarrierSettles(s, id) && CallerOk(s, id); }
  }

  lemma EnqueueKeepsBarriers(s: State, a: Action)
    requires Inv(s) && BarriersSettle(s)
    ensures BarriersSettle(StepEnqueue(s, a))
  {
    var t := StepEnqueue(s, a);
    if a.EnqueueLink? {
      if a.id in s.callers && s.callers[a.id].Links? { LinkKeepsBarriers(s, a.id); }
    } else if a.Cancel? {
      CancelKeepsBarriers(s, User(a.n));
    } else {
      PlainKeepsBarriers(s, a);
    }
  }

  lemma PlainKeepsBarriers(s: State, a: Action)
    requires Callers(s) && BarriersSettle(s) && !a.EnqueueLink? && !a.Cancel?
    ensures BarriersSettle(StepEnqueue(s, a))
  {
    FlagsStand(s, a);
    forall id ensures BarrierSettles(StepEnqueue(s, a), id) {
      assert BarrierSettles(s, id) && CallerOk(s, id);
    }
  }

  lemma LifeKeepsBarriers(s: State, a: Action)
    requires Inv(s) && BarriersSettle(s) && LifeAction(a)
    ensures BarriersSettle(StepLife(s, a))
  {
    var t := StepLife(s, a);
    if a.StopClean? {
      if t != s { CleanKeepsCore(s, a.id); }
    } else {
      LifeStands(s, a);
      forall id ensures BarrierSettles(t, id) { assert BarrierSettles(s, id); }
    }
  }

  /** A barrier that is IDLE stays so; and one that gets its fate from the worker becomes so. */
  lemma WorkerSettlesBarrier(s: State, a: Action, id: Id)
    requires Inv(s) && WorkerAction(a)
    ensures var t := StepWorker(s, a);
            t.callers == s.callers && (FlagOf(s, Barrier(id)) == Idle ==> FlagOf(t, Barrier(id)) == Idle) &&
            forall u :: u in t.fate && u !in s.fate && u < |s.workOf| && s.workOf[u] == Barrier(id) ==>
                          FlagOf(t, Barrier(id)) == Idle
  {
    WorkerFlags(s, a);
    if a.w in s.workers { assert ClaimOk(s, a.w); }
  }

  lemma WorkerKeepsBarriers(s: State, a: Action)
    requires Inv(s) && BarriersSettle(s) && WorkerAction(a)
    ensures BarriersSettle(StepWorker(s, a))
  {
    var t := StepWorker(s, a);
    forall id ensures BarrierSettles(t, id) {
      assert BarrierSettles(s, id) && CallerOk(s, id);
      WorkerSettlesBarrier(s, a, id);
    }
  }

  lemma {:induction false} RunKeepsBarriers(schedule: seq<Action>)
    ensures BarriersSettle(Run(schedule))
  {
    if schedule != [] {
      var before, a := schedule[..|schedule| - 1], schedule[|schedule| - 1];
      RunKeepsBarriers(before);
      RunKeepsInv(before);
      if LifeAction(a) {
        LifeKeepsBarriers(Run(before), a);
      } else if WorkerAction(a) {
        WorkerKeepsBarriers(Run(before), a);
      } else {
        EnqueueKeepsBarriers(Run(before), a);
      }
    }
  }

  ghost predicate FlushLeaves(s: State, id: Id) {
    id !in Step(s, FlushPoll(id)).callers
  }

  lemma FlushPolls(linking: State, id: Id, polling: State)
    requires Inv(linking) && InCall(linking, id, Links(Barrier(id))) && FlagOf(linking, Barrier(id)) == Idle
    requires Inv(polling) && InCall(polling, id, Polls(|linking.workOf|)) && BarriersSettle(polling)
    ensures FlushLeaves(polling, id) <==> |linking.workOf| in polling.fate
    ensures FlushLeaves(polling, id) ==>
              polling.fate[|linking.workOf|] != Cancelled &&
              forall t :: TicketOnList(linking.pending, t) || TicketClaimed(linking, t) ==> t in polling.fate
  {
    assert BarrierSettles(polling, id);
    LeavesWhenIdle(polling, id, |linking.workOf|);
    if FlagOf(polling, Barrier(id)) == Idle { FlushBarrier(linking, id, polling); }
  }

  lemma LeavesWhenIdle(s: State, id: Id, b: Ticket)
    requires InCall(s, id, Polls(b))
    ensures FlushLeaves(s, id) <==> FlagOf(s, Barrier(id)) == Idle
  {
  }

  /** In a run in which the barrier is linked after the first k steps and polled at the end: the poll lets flush return
      exactly when the barrier has been executed or discarded, and then every work that was pending or running at the
      link has its fate. */
  lemma FlushWaits(schedule: seq<Action>, k: nat, id: Id)
    requires k <= |schedule|
    requires var linking := Run(schedule[..k]);
             InCall(linking, id, Links(Barrier(id))) && FlagOf(linking, Barrier(id)) == Idle &&
             InCall(Run(schedule), id, Polls(|linking.workOf|))
    ensures var linking, polling := Run(schedule[..k]), Run(schedule);
            (FlushLeaves(polling, id) <==> |linking.workOf| in polling.fate) &&
            (FlushLeaves(polling, id) ==>
               polling.fate[|linking.workOf|] != Cancelled &&
               forall t :: TicketOnList(linking.pending, t) || TicketClaimed(linking, t) ==> t in polling.fate)
  {
    RunKeepsInv(schedule[..k]);
    RunKeepsInv(schedule);
    RunKeepsBarriers(schedule);
    FlushPolls(Run(schedule[..k]), id, Run(schedule));
  }
}
