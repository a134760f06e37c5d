/** The completion as an object: status, semaphore or notification count, and the waiting thread, changed in place by
    one method for each atomic operation of wait and done.  Each method is proved to be the step of
    CompletionProtocol. */
module CompletionMemory {
  import opened CompletionProtocol

  class Completion {
    const backend: Backend
    var status: Status
    var tokens: nat
    var waitThread: bool
    // the place of the waiter and of a preempted done in the code
    var waiter: Waiter
    var doer: Doer
    // the history
    var dones: nat
    var taken: nat
    var waits: seq<Ret>
    var doneRets: seq<Ret>

    ghost function View(): State
      reads this
    {
      State(backend, status, tokens, waitThread, waiter, doer, dones, taken, waits, doneRets)
    }

    constructor (backend: Backend)
      ensures View() == Fresh(backend)
    {
      this.backend, status, tokens, waitThread, waiter, doer := backend, INIT, 0, false, Outside, Idle;
      dones, taken, waits, doneRets := 0, 0, [], [];
    }

    /** OM_CAS_AR(&completion->status, &expected, desired): `seen` is what the swap found. */
    method Swap(want: Status, desired: Status) returns (ok: bool, seen: Status)
      modifies this`status
      ensures seen == old(status) && ok == (seen == want) && status == if ok then desired else seen
    {
      seen, ok := status, status == want;
      if ok { status := desired; }
    }

    method Return(ret: Ret)
      modifies this`waiter, this`waits
      ensures waiter == Outside && waits == old(waits) + [ret]
    {
      waiter, waits := Outside, waits + [ret];
    }

    /** The branches that follow a load of the status in phase 1. */
    method Judge(snap: Status, noWait: bool)
      modifies this`waiter, this`waits, this`waitThread
      ensures View() == AfterSnap(old(View()), snap, noWait)
    {
      if snap.WAIT? || snap.WAITING? {
        Return(Busy);
      } else if !snap.INIT? {
        Return(Error);
      } else if noWait {
        Return(Timeout);
      } else {
        waitThread, waiter := true, SwapsWait;
      }
    }

    method CallWait(noWait: bool)
      requires waiter.Outside?
      modifies this`waiter
      ensures View() == Step(old(View()), Wait(noWait))
    {
      waiter := Loads(noWait);
    }

    /** Phase 1: a done that stands already is taken without waiting. */
    method Phase1()
      requires waiter.Loads? || waiter.TakesDone? || waiter.Reloads?
      modifies this`status, this`taken, this`waitThread, this`waiter, this`waits
      ensures View() == Step(old(View()), Go)
    {
      match waiter
      case Loads(noWait) =>
        if status.DONE? { waiter := TakesDone(noWait); } else { Judge(status, noWait); }
      case TakesDone(noWait) =>
        var ok, _ := Swap(DONE, INIT);
        if ok {
          waitThread, taken, waiter := false, taken + 1, Drains;
        } else {
          waiter := Reloads(noWait);
        }
      case Reloads(noWait) =>
        Judge(status, noWait);
    }

    /** Phase 2: announce the waiter. */
    method Phase2()
      requires waiter.SwapsWait? || waiter.TakesEarly?
      modifies this`status, this`taken, this`waitThread, this`waiter, this`waits
      ensures View() == Step(old(View()), Go)
    {
      if waiter.SwapsWait? {
        var ok, seen := Swap(INIT, WAIT);
        if ok {
          waiter := SwapsWaiting;
        } else {
          waitThread := false;
          if seen.DONE? { waiter := TakesEarly; } else { Return(Busy); }
        }
      } else {
        var ok, seen := Swap(DONE, INIT);
        if ok {
          waitThread, taken, waiter := false, taken + 1, Drains;
        } else {
          Return(if seen.WAIT? || seen.WAITING? then Busy else Error);
        }
      }
    }

    /** Phase 3: from WAIT to WAITING, unless a done came first. */
    method Phase3()
      requires waiter.SwapsWaiting? || waiter.TakesLate? || waiter.GivesUp?
      modifies this`status, this`taken, this`waitThread, this`waiter, this`waits
      ensures View() == Step(old(View()), Go)
    {
      if waiter.SwapsWaiting? {
        var ok, seen := Swap(WAIT, WAITING);
        if ok {
          waiter := Blocks;
        } else {
          waitThread, waiter := false, if seen.DONE? then TakesLate else GivesUp;
        }
      } else if waiter.TakesLate? {
        var ok, _ := Swap(DONE, INIT);
        if ok { waitThread, taken := false, taken + 1; }
        waiter := Drains;
      } else {
        status := INIT;
        Return(Error);
      }
    }

    /** Phase 4: the token, and what follows it. */
    method Phase4()
      requires waiter.Blocks? || waiter.Wakes?
      modifies this`status, this`tokens, this`taken, this`waitThread, this`waiter, this`waits
      ensures View() == Step(old(View()), Go)
    {
      if waiter.Blocks? {
        if tokens > 0 {
          tokens, waiter := if backend.Semaphore? then tokens - 1 else 0, Wakes;
        }
      } else {
        waitThread, status, taken := false, INIT, taken + 1;
        if backend.Semaphore? { waiter := Drains; } else { Return(Ok); }
      }
    }

    method Expires()
      requires waiter.Blocks?
      modifies this`waiter
      ensures View() == Step(old(View()), Expire)
    {
      if tokens == 0 { waiter := TimesOut; }
    }

    /** The timeout path. */
    method AfterTimeout()
      requires waiter.TimesOut? || waiter.TakesTimedOut? || waiter.FailsTimedOut?
      modifies this`status, this`taken, this`waitThread, this`waiter, this`waits
      ensures View() == Step(old(View()), Go)
    {
      if waiter.TimesOut? {
        var ok, seen := Swap(WAITING, INIT);
        waitThread := false;
        if ok {
          Return(Timeout);
        } else {
          waiter := if seen.DONE? then TakesTimedOut else FailsTimedOut;
        }
      } else if waiter.TakesTimedOut? {
        status, taken, waitThread, waiter := INIT, taken + 1, false, Drains;
      } else {
        status := INIT;
        Return(Error);
      }
    }

    /** One turn of completion_sem_drain, or cas_tn_drain_notification, and the return of OM_OK. */
    method DrainStep()
      requires waiter.Drains?
      modifies this`tokens, this`waiter, this`waits
      ensures View() == Step(old(View()), Go)
    {
      if backend.Semaphore? && tokens > 0 {
        tokens := tokens - 1;
      } else {
        tokens := 0;
        Return(Ok);
      }
    }

    /** completion_sem_drain with nobody in between: no token is left. */
    method Drain()
      requires waiter.Drains?
      modifies this`tokens, this`waiter, this`waits
      ensures waiter.Outside? && tokens == 0 && waits == old(waits) + [Ok]
    {
      while waiter.Drains?
        invariant (waiter.Drains? && waits == old(waits)) ||
                  (waiter.Outside? && tokens == 0 && waits == old(waits) + [Ok])
        decreases if waiter.Drains? then 1 else 0, tokens
      {
        DrainStep();
      }
    }

    method DoneReturn(ret: Ret)
      modifies this`doer, this`doneRets
      ensures doer == Idle && doneRets == old(doneRets) + [ret]
    {
      doer, doneRets := Idle, doneRets + [ret];
    }

    /** The quick path of done: INIT to DONE. */
    method DoneFast()
      requires doer.Idle?
      modifies this`status, this`dones, this`doer, this`doneRets
      ensures View() == Step(old(View()), DoneFirst)
    {
      var ok, seen := Swap(INIT, DONE);
      if ok {
        dones := dones + 1;
        DoneReturn(Ok);
      } else if seen.DONE? {
        DoneReturn(Busy);
      } else {
        doer := SwapsSecond(seen);
      }
    }

    /** The waiting path of done: WAIT or WAITING to DONE, then the post; or the load of the waiting thread and,
        as a step of its own, the notification of the thread loaded. */
    method DoneSlow()
      requires !doer.Idle?
      modifies this`status, this`tokens, this`dones, this`doer, this`doneRets
      ensures View() == Step(old(View()), DoneNext)
    {
      match doer
      case SwapsSecond(prev) =>
        var ok, seen := Swap(prev, DONE);
        if ok {
          dones, doer := dones + 1, if backend.Semaphore? then Posts else LoadsThread;
        } else {
          DoneReturn(if seen.DONE? then Busy else Error);
        }
      case Posts =>
        tokens := 1;
        DoneReturn(Ok);
      case LoadsThread =>
        doer := Gives(waitThread);
      case Gives(registered) =>
        if registered { tokens := tokens + 1; }
        DoneReturn(Ok);
    }
  }
}
