/** The one-shot completion of lib/sync/src/completion.c and of its FreeRTOS backend in
    platform/sync/freertos/completion_accel_cas_tn.c, as interleaved steps: one waiter, and any
    number of calls of done.  A step is one atomic operation on `status`, one load of waitThread by
    done, one semaphore or notification operation.  The waiter's plain writes of waitThread go with
    the step they stand next to: that step does not otherwise touch waitThread, so a done's load
    that falls between the two is the same as one before or after both. */
module CompletionProtocol {

  datatype Backend = Semaphore | Notification
  datatype Status = INIT | WAIT | DONE | WAITING
  datatype Ret = Ok | Timeout | Busy | Error

  /** Where the waiter is inside completion_wait. */
  datatype Waiter =
    | Outside
    | Loads(noWait: bool)        // phase 1: load status
    | TakesDone(noWait: bool)    // phase 1: swap DONE for INIT
    | Reloads(noWait: bool)      // phase 1: the swap failed, load again
    | SwapsWait                  // phase 2: waitThread is set, swap INIT for WAIT
    | TakesEarly                 // phase 2: the swap met DONE, swap DONE for INIT
    | SwapsWaiting               // phase 3: swap WAIT for WAITING
    | TakesLate                  // phase 3: the swap met DONE, swap DONE for INIT
    | GivesUp                    // phase 3: the swap met something else, store INIT
    | Blocks                     // phase 4: wait for the semaphore or notification
    | Wakes                      // phase 4: got it, store INIT
    | TimesOut                   // timeout: swap WAITING for INIT
    | TakesTimedOut              // timeout: the swap met DONE, store INIT
    | FailsTimedOut              // timeout: the swap met something else, store INIT
    | Drains                     // about to drain leftover tokens and return OM_OK

  /** Where a done called from a thread is, if it has been preempted inside the call. */
  datatype Doer =
    | Idle
    | SwapsSecond(seen: Status)  // the second swap, WAIT or WAITING, as seen, for DONE
    | Posts                      // semaphore: post
    | LoadsThread                // notification: load waitThread
    | Gives(registered: bool)    // notification: give to the thread loaded, if there was one

  datatype State = State(
    backend: Backend, status: Status, tokens: nat, waitThread: bool, waiter: Waiter, doer: Doer,
    // history: successful dones, times the waiter took a done, and what the waits and the dones returned
    dones: nat, taken: nat, waits: seq<Ret>, doneRets: seq<Ret>)

  datatype Action =
    | Wait(noWait: bool)     // the waiter calls completion_wait, with timeout 0 or not
    | Go                     // the waiter's next step
    | Expire                 // the blocked waiter's timeout runs out
    | Done                   // a whole done, one step for the waiter
    | DoneFirst | DoneNext   // a done called from a thread, in pieces

  function Return(s: State, r: Ret): State {
    s.(waiter := Outside, waits := s.waits + [r])
  }

  /** After status is seen not to be DONE in phase 1. */
  function AfterSnap(s: State, snap: Status, noWait: bool): State {
    if snap.WAIT? || snap.WAITING? then Return(s, Busy)
    else if !snap.INIT? then Return(s, Error)
    else if noWait then Return(s, Timeout)
    else s.(waitThread := true, waiter := SwapsWait)
  }

  function Take(s: State): State {
    s.(status := INIT, taken := s.taken + 1, waitThread := false, waiter := Drains)
  }

  /** One step of the waiter. */
  function GoOn(s: State): State {
    match s.waiter
    case Outside => s
    case Loads(noWait) => if s.status.DONE? then s.(waiter := TakesDone(noWait)) else AfterSnap(s, s.status, noWait)
    case TakesDone(noWait) => if s.status.DONE? then Take(s) else s.(waiter := Reloads(noWait))
    case Reloads(noWait) => AfterSnap(s, s.status, noWait)
    case SwapsWait =>
      if s.status.INIT? then s.(status := WAIT, waiter := SwapsWaiting)
      else if s.status.DONE? then s.(waitThread := false, waiter := TakesEarly)
      else Return(s.(waitThread := false), Busy)
    case TakesEarly =>
      if s.status.DONE? then Take(s)
      else Return(s, if s.status.WAIT? || s.status.WAITING? then Busy else Error)
    case SwapsWaiting =>
      if s.status.WAIT? then s.(status := WAITING, waiter := Blocks)
      else if s.status.DONE? then s.(waitThread := false, waiter := TakesLate)
      else s.(waitThread := false, waiter := GivesUp)
    case TakesLate => if s.status.DONE? then Take(s) else s.(waiter := Drains)
    case GivesUp => Return(s.(status := INIT), Error)
    case Blocks =>
      if s.tokens == 0 then s
      else s.(tokens := if s.backend.Semaphore? then s.tokens - 1 else 0, waiter := Wakes)
    case Wakes =>
      // the notification backend returns without draining
      var t := s.(status := INIT, waitThread := false, taken := s.taken + 1);
      if s.backend.Semaphore? then t.(waiter := Drains) else Return(t, Ok)
    case TimesOut =>
      if s.status.WAITING? then Return(s.(status := INIT, waitThread := false), Timeout)
      else if s.status.DONE? then s.(waitThread := false, waiter := TakesTimedOut)
      else s.(waitThread := false, waiter := FailsTimedOut)
    case TakesTimedOut => Take(s)
    case FailsTimedOut => Return(s.(status := INIT), Error)
    case Drains =>
      if s.backend.Semaphore? && s.tokens > 0 then s.(tokens := s.tokens - 1)
      else Return(s.(tokens := 0), Ok)
  }

  function DoneReturns(s: State, r: Ret): State {
    s.(doer := Idle, doneRets := s.doneRets + [r])
  }

  /** The first swap of done, INIT for DONE. */
  function FirstSwap(s: State): State {
    if s.status.INIT? then DoneReturns(s.(status := DONE, dones := s.dones + 1), Ok)
    else if s.status.DONE? then DoneReturns(s, Busy)
    else s.(doer := SwapsSecond(s.status))
  }

  /** The next piece of done: the second swap, the post, the load of the thread, the notification. */
  function NextPiece(s: State): State {
    match s.doer
    case Idle => s
    case SwapsSecond(seen) =>
      if s.status == seen then
        s.(status := DONE, dones := s.dones + 1, doer := if s.backend.Semaphore? then Posts else LoadsThread)
      else
        DoneReturns(s, if s.status.DONE? then Busy else Error)
    case Posts => DoneReturns(s.(tokens := 1), Ok)
    case LoadsThread => s.(doer := Gives(s.waitThread))
    case Gives(registered) => DoneReturns(if registered then s.(tokens := s.tokens + 1) else s, Ok)
  }

  /** A done that the waiter cannot interrupt, as from an interrupt handler. */
  function WholeDone(s: State): State {
    NextPiece(NextPiece(NextPiece(FirstSwap(s))))
  }

  function Step(s: State, a: Action): State {
    match a
    case Wait(noWait) => if s.waiter.Outside? then s.(waiter := Loads(noWait)) else s
    case Go => GoOn(s)
    case Expire => if s.waiter.Blocks? && s.tokens == 0 then s.(waiter := TimesOut) else s
    case Done => if s.doer.Idle? then WholeDone(s) else s
    case DoneFirst => if s.doer.Idle? then FirstSwap(s) else s
    case DoneNext => NextPiece(s)
  }

  function Fresh(b: Backend): State {
    State(b, INIT, 0, false, Outside, Idle, 0, 0, [], [])
  }

  function RunFrom(s: State, schedule: seq<Action>): State {
    if schedule == [] then s else Step(RunFrom(s, schedule[..|schedule| - 1]), schedule[|schedule| - 1])
  }

  function Run(b: Backend, schedule: seq<Action>): State {
    RunFrom(Fresh(b), schedule)
  }

  /** No done is called from a thread that the waiter could preempt. */
  ghost predicate DonesWhole(schedule: seq<Action>) {
    forall i :: 0 <= i < |schedule| ==> !schedule[i].DoneFirst? && !schedule[i].DoneNext?
  }

  // ----- the invariant -----

  /** The status and the tokens at each place of the waiter. */
  ghost predicate Place(s: State) {
    var calm := (s.status.INIT? || s.status.DONE?) && s.tokens == 0;
    var armed := s.waitThread && s.tokens == if s.status.DONE? then 1 else 0;
    match s.waiter
    case Outside => calm
    case Loads(_) => calm
    case TakesDone(_) => s.status.DONE? && s.tokens == 0
    case SwapsWait => calm && s.waitThread
    case TakesEarly => s.status.DONE? && s.tokens == 0
    case SwapsWaiting => (s.status.WAIT? || s.status.DONE?) && armed
    case TakesLate => s.status.DONE? && s.tokens == 1
    case Blocks => (s.status.WAITING? || s.status.DONE?) && armed
    case Wakes => s.status.DONE? && s.tokens == 0
    case TimesOut => (s.status.WAITING? || s.status.DONE?) && armed
    case TakesTimedOut => s.status.DONE? && s.tokens == 1
    case Drains => (s.status.INIT? || s.status.DONE?) && s.tokens <= 1
    case _ => false
  }

  function CountOk(rets: seq<Ret>): nat {
    if rets == [] then 0 else CountOk(rets[..|rets| - 1]) + if rets[|rets| - 1] == Ok then 1 else 0
  }

  /** A taken done is a wait that has returned OM_OK or is about to. */
  ghost predicate Settled(s: State) {
    CountOk(s.waits) + (if s.waiter.Drains? then 1 else 0) == s.taken && CountOk(s.doneRets) == s.dones &&
    (forall i :: 0 <= i < |s.waits| ==> s.waits[i] == Ok || s.waits[i] == Timeout) &&
    (forall i :: 0 <= i < |s.doneRets| ==> s.doneRets[i] == Ok || s.doneRets[i] == Busy)
  }

  ghost predicate Inv(s: State) {
    s.doer.Idle? && Place(s) && s.dones == s.taken + (if s.status.DONE? then 1 else 0) && Settled(s)
  }

  lemma CountPush(rets: seq<Ret>, r: Ret)
    ensures CountOk(rets + [r]) == CountOk(rets) + if r == Ok then 1 else 0
  {
    assert (rets + [r])[..|rets|] == rets;
  }

  /** A step of the waiter keeps place and count, and returns at most once, what it has earned. */
  lemma GoKeepsPlace(s: State)
    requires Place(s) && s.dones == s.taken + if s.status.DONE? then 1 else 0
    ensures var t := GoOn(s);
            t.doer == s.doer && t.dones == s.dones && t.doneRets == s.doneRets &&
            Place(t) && t.dones == t.taken + (if t.status.DONE? then 1 else 0) &&
            (t.waits == s.waits || t.waits == s.waits + [Ok] || t.waits == s.waits + [Timeout]) &&
            t.taken + (if s.waiter.Drains? then 1 else 0)
              == s.taken + (if t.waiter.Drains? then 1 else 0) + (if t.waits == s.waits + [Ok] then 1 else 0)
  {
    assert |s.waits + [Ok]| == |s.waits| + 1 && (s.waits + [Ok])[|s.waits|] == Ok;
    assert (s.waits + [Timeout])[|s.waits|] == Timeout;
  }

  lemma GoKeepsInv(s: State)
    requires Inv(s)
    ensures Inv(GoOn(s))
  {
    GoKeepsPlace(s);
    ReturnKeepsSettled(s, GoOn(s));
  }

  lemma ReturnKeepsSettled(s: State, t: State)
    requires Settled(s) && t.dones == s.dones && t.doneRets == s.doneRets
    requires t.waits == s.waits || t.waits == s.waits + [Ok] || t.waits == s.waits + [Timeout]
    requires t.taken + (if s.waiter.Drains? then 1 else 0)
          == s.taken + (if t.waiter.Drains? then 1 else 0) + (if t.waits == s.waits + [Ok] then 1 else 0)
    ensures Settled(t)
  {
    CountPush(s.waits, Ok);
    CountPush(s.waits, Timeout);
    assert |s.waits + [Ok]| == |s.waits| + 1 && (s.waits + [Ok])[|s.waits|] == Ok;
    assert (s.waits + [Timeout])[|s.waits|] == Timeout;
  }

  /** A whole done is refused if one stands; otherwise it makes the status DONE and leaves a token for a waiter that
      has announced itself. */
  lemma WholeDoneIs(s: State)
    requires s.doer.Idle?
    ensures var made := s.(status := DONE, dones := s.dones + 1);
            WholeDone(s) == if s.status.DONE? then DoneReturns(s, Busy)
                            else if s.status.INIT? then DoneReturns(made, Ok)
                            else if s.backend.Semaphore? then DoneReturns(made.(tokens := 1), Ok)
                            else DoneReturns(if s.waitThread then made.(tokens := s.tokens + 1) else made, Ok)
  {
    var t := FirstSwap(s);
    if t.doer.SwapsSecond? {
      assert NextPiece(t) == s.(status := DONE, dones := s.dones + 1,
                                doer := if s.backend.Semaphore? then Posts else LoadsThread);
    }
  }

  lemma DoneKeepsPlace(s: State)
    requires s.doer.Idle? && Place(s) && s.dones == s.taken + if s.status.DONE? then 1 else 0
    ensures var t := WholeDone(s);
            t.doer.Idle? && Place(t) && t.status.DONE? && t.dones == s.taken + 1 && t.taken == s.taken &&
            t.waits == s.waits && t.waiter == s.waiter &&
            t.doneRets == s.doneRets + [if s.status.DONE? then Busy else Ok]
  {
    WholeDoneIs(s);
  }

  lemma DoneKeepsInv(s: State)
    requires Inv(s)
    ensures Inv(WholeDone(s))
  {
    DoneKeepsPlace(s);
    CountPush(s.doneRets, Ok);
    CountPush(s.doneRets, Busy);
  }

  lemma StepKeepsInv(s: State, a: Action)
    requires Inv(s) && !a.DoneFirst? && !a.DoneNext?
    ensures Inv(Step(s, a))
  {
    match a
    case Go => GoKeepsInv(s);
    case Done => DoneKeepsInv(s);
    case _ =>
  }

  lemma {:induction false} RunKeepsInv(b: Backend, schedule: seq<Action>)
    requires DonesWhole(schedule)
    ensures Inv(Run(b, schedule))
  {
    if schedule != [] {
      var before, last := schedule[..|schedule| - 1], schedule[|schedule| - 1];
      assert forall i :: 0 <= i < |before| ==> before[i] == schedule[i];
      RunKeepsInv(b, before);
      StepKeepsInv(Run(b, before), last);
    }
  }

  // ----- the promises -----

  /** With one waiter and dones it cannot interrupt, on both backends and in every reachable state: successful dones
      lead the dones taken by at most one, a wait returns only OM_OK or a timeout and a done only OM_OK or
      OM_ERROR_BUSY, a blocked waiter whose status is DONE has its token, and no token outlives a wait. */
  lemma OneShot(b: Backend, schedule: seq<Action>)
    requires DonesWhole(schedule)
    ensures var s := Run(b, schedule);
            0 <= s.dones - s.taken <= 1 && (s.dones - s.taken == 1 <==> s.status.DONE?) &&
            (forall i :: 0 <= i < |s.waits| ==> s.waits[i] == Ok || s.waits[i] == Timeout) &&
            (forall i :: 0 <= i < |s.doneRets| ==> s.doneRets[i] == Ok || s.doneRets[i] == Busy) &&
            (s.waiter.Blocks? ==> (s.tokens > 0 <==> s.status.DONE?)) &&
            (s.waiter.Outside? ==> s.tokens == 0 && CountOk(s.waits) == s.taken)
  {
    RunKeepsInv(b, schedule);
  }

  /** The abstract one-shot: whether a done stands that no wait has taken. */
  ghost function Standing(s: State): bool {
    s.dones > s.taken
  }

  /** Every step is a step of the abstract one-shot: a done succeeds and stands exactly when none stood, and is
      refused otherwise; a wait takes a standing done, which then no longer stands; nothing else changes it. */
  lemma StepRefines(s: State, a: Action)
    requires Inv(s) && !a.DoneFirst? && !a.DoneNext?
    ensures var t := Step(s, a);
            if a.Done? then
              Standing(t) && t.taken == s.taken && t.doneRets == s.doneRets + [if Standing(s) then Busy else Ok]
            else if t.taken != s.taken then t.taken == s.taken + 1 && Standing(s) && !Standing(t) && t.dones == s.dones
            else Standing(t) == Standing(s) && t.dones == s.dones && t.doneRets == s.doneRets
  {
    if a.Done? { DoneKeepsPlace(s); }
  }

  /** A wait times out only if no done stands at its last look at the status. */
  lemma TimeoutOnlyWithoutDone(s: State)
    requires Inv(s) && GoOn(s).waits == s.waits + [Timeout]
    ensures !Standing(s)
  {
    assert GoOn(s).waits[|s.waits|] == Timeout;
  }

  /** A blocked waiter for whom a done stands gets away: its next steps return OM_OK. */
  lemma BlockedWaiterWakes(s: State)
    requires Inv(s) && s.waiter.Blocks? && Standing(s)
    ensures s.backend.Notification? ==> GoOn(GoOn(s)).waits == s.waits + [Ok]
    ensures s.backend.Semaphore? ==> GoOn(GoOn(GoOn(s))).waits == s.waits + [Ok]
  {
  }

  // ----- a done that can be interrupted -----

  lemma RunFromStep(s: State, schedule: seq<Action>, a: Action)
    ensures RunFrom(s, schedule + [a]) == Step(RunFrom(s, schedule), a)
  {
    assert (schedule + [a])[..|schedule|] == schedule;
  }

  lemma RunStep(b: Backend, schedule: seq<Action>, a: Action)
    ensures Run(b, schedule + [a]) == Step(Run(b, schedule), a)
  {
    RunFromStep(Fresh(b), schedule, a);
  }

  /** The waiter blocks, and a done is preempted before its post, or with the thread's handle already loaded. */
  lemma PreemptedDone(b: Backend) returns (schedule: seq<Action>)
    ensures Run(b, schedule)
         == Fresh(b).(status := DONE, waitThread := true, waiter := Blocks, dones := 1,
                      doer := if b.Semaphore? then Posts else Gives(true))
  {
    schedule := [];
    RunStep(b, schedule, Wait(false)); schedule := schedule + [Wait(false)];
    RunStep(b, schedule, Go); schedule := schedule + [Go];
    RunStep(b, schedule, Go); schedule := schedule + [Go];
    RunStep(b, schedule, Go); schedule := schedule + [Go];
    RunStep(b, schedule, DoneFirst); schedule := schedule + [DoneFirst];
    RunStep(b, schedule, DoneNext); schedule := schedule + [DoneNext];
    if b.Notification? {
      RunStep(b, schedule, DoneNext); schedule := schedule + [DoneNext];
    }
  }

  /** Meanwhile the waiter times out, takes the DONE, drains and returns; then comes the post. */
  lemma LatePost(b: Backend) returns (schedule: seq<Action>)
    ensures Run(b, schedule) == Fresh(b).(tokens := 1, dones := 1, taken := 1, waits := [Ok], doneRets := [Ok])
  {
    schedule := PreemptedDone(b);
    RunStep(b, schedule, Expire); schedule := schedule + [Expire];
    RunStep(b, schedule, Go); schedule := schedule + [Go];
    RunStep(b, schedule, Go); schedule := schedule + [Go];
    RunStep(b, schedule, Go); schedule := schedule + [Go];
    RunStep(b, schedule, DoneNext); schedule := schedule + [DoneNext];
  }

  /** A done called from a thread and preempted between its swap and its post, on notifications even after it has
      loaded the handle: the waiter times out, takes the DONE and returns OM_OK; the late post leaves a token, and the
      next wait returns OM_OK without a done.  On both backends, two waits succeed on one done. */
  lemma StaleToken(b: Backend) returns (schedule: seq<Action>)
    ensures var s := Run(b, schedule); s.dones == 1 && s.waits == [Ok, Ok] && s.waiter.Outside?
  {
    schedule := LatePost(b);
    RunStep(b, schedule, Wait(false)); schedule := schedule + [Wait(false)];
    RunStep(b, schedule, Go); schedule := schedule + [Go];
    RunStep(b, schedule, Go); schedule := schedule + [Go];
    RunStep(b, schedule, Go); schedule := schedule + [Go];
    RunStep(b, schedule, Go); schedule := schedule + [Go];
    RunStep(b, schedule, Go); schedule := schedule + [Go];
    if b.Semaphore? {
      RunStep(b, schedule, Go); schedule := schedule + [Go];
    }
  }

  /** A done called from a thread that reads WAIT and then loses to the waiter's swap of WAIT for WAITING returns
      OM_ERROR, and nothing is left of it: the waiter stays blocked. */
  lemma DoneLost() returns (schedule: seq<Action>)
    ensures var s := Run(Semaphore, schedule);
            s.doneRets == [Error] && s.dones == 0 && s.waiter.Blocks? && s.status.WAITING? && s.tokens == 0
  {
    var b := Semaphore;
    schedule := [];
    RunStep(b, schedule, Wait(false)); schedule := schedule + [Wait(false)];
    RunStep(b, schedule, Go); schedule := schedule + [Go];
    RunStep(b, schedule, Go); schedule := schedule + [Go];
    RunStep(b, schedule, DoneFirst); schedule := schedule + [DoneFirst];
    RunStep(b, schedule, Go); schedule := schedule + [Go];
    RunStep(b, schedule, DoneNext); schedule := schedule + [DoneNext];
  }
}
