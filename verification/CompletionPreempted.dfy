/** A done called from a thread, which the waiter may preempt between its two swaps, before it loads the waiting
    thread and before its post: when the late post is in order, and when it leaves a token that belongs to no done. */
module CompletionPreempted {
  import opened CompletionProtocol

  /** Status, tokens and count agree.  A waiter about to take a done it already sees needs no token for it. */
  ghost predicate InOrder(s: State) {
    (Place(s) || (s.status.DONE? && s.tokens == 0 && (s.waiter.TakesLate? || s.waiter.TakesTimedOut?))) &&
    s.dones == s.taken + if s.status.DONE? then 1 else 0
  }

  ghost predicate WaiterStep(a: Action) {
    a.Wait? || a.Go? || a.Expire?
  }

  /** Order is kept by the waiter, and a wait takes only a done that stands. */
  lemma WaiterKeepsOrder(s: State, a: Action)
    requires InOrder(s) && WaiterStep(a)
    ensures var t := Step(s, a);
            InOrder(t) && t.doer == s.doer && (t.taken != s.taken ==> t.taken == s.taken + 1 && Standing(s))
  {
  }

  /** Order is kept by a done the waiter cannot preempt. */
  lemma WholeDoneKeepsOrder(s: State)
    requires InOrder(s) && s.doer.Idle?
    ensures var t := Step(s, Done); InOrder(t) && t.doer.Idle? && t.status.DONE? && t.taken == s.taken
  {
    WholeDoneIs(s);
  }

  /** The post, or the load of the thread and the notification, is still to come. */
  ghost predicate Outstanding(s: State) {
    if s.backend.Semaphore? then s.doer.Posts? else s.doer.LoadsThread? || s.doer.Gives?
  }

  /** The done has been made and not taken; only its token is still missing.  No thread was found only if the waiter
      had seen the DONE and withdrawn. */
  ghost predicate Ahead(s: State) {
    Outstanding(s) && s.status.DONE? && s.tokens == 0 && s.dones == s.taken + 1 && Place(s.(tokens := 1)) &&
    (s.waiter.TakesLate? || s.waiter.TakesTimedOut? ||
     ((s.waiter.SwapsWaiting? || s.waiter.Blocks? || s.waiter.TimesOut?) && s.doer != Gives(false)))
  }

  /** The waiter has taken the done already, and gone on. */
  ghost predicate Overtaken(s: State) {
    Outstanding(s) && !s.status.DONE? && s.tokens == 0 && InOrder(s)
  }

  /** The first swap changes nothing the waiter sees, unless it is the whole done. */
  lemma FirstSwapInOrder(s: State)
    requires InOrder(s) && s.doer.Idle?
    ensures var t := Step(s, DoneFirst);
            InOrder(t) && (t.doer.Idle? || (t.doer == SwapsSecond(s.status) && (s.status.WAIT? || s.status.WAITING?)))
  {
  }

  /** The second swap makes the done if the status is as it was seen, and otherwise reports: OM_ERROR_BUSY if
      another done stands, OM_ERROR if the waiter has moved on. */
  lemma SecondSwapExact(s: State, seen: Status)
    requires InOrder(s) && s.doer == SwapsSecond(seen) && (seen.WAIT? || seen.WAITING?)
    ensures var t := Step(s, DoneNext);
            if s.status == seen then Ahead(t) && t.dones == s.dones + 1
            else InOrder(t) && t == s.(doer := Idle, doneRets := s.doneRets + [if s.status.DONE? then Busy else Error])
  {
  }

  /** While the post is outstanding, each step of the waiter leaves the done ahead or overtakes it; so does the load
      of the waiting thread. */
  lemma WaiterKeepsPosting(s: State, a: Action)
    requires (Ahead(s) || Overtaken(s)) && (WaiterStep(a) || (a.DoneNext? && s.doer.LoadsThread?))
    ensures Ahead(Step(s, a)) || Overtaken(Step(s, a))
    ensures Overtaken(s) ==> Overtaken(Step(s, a))
  {
  }

  /** The step that posts or notifies. */
  ghost predicate Posting(s: State) {
    s.doer.Posts? || s.doer.Gives?
  }

  /** The done still stands, or the waiter is still to drain, or done has found no thread to notify. */
  ghost predicate InTime(s: State) {
    s.status.DONE? || s.waiter.Drains? || s.doer == Gives(false)
  }

  /** The late post leaves everything in order exactly when it is in time; otherwise its token is left over. */
  lemma LatePostExact(s: State)
    requires (Ahead(s) || Overtaken(s)) && Posting(s)
    ensures var t := Step(s, DoneNext);
            if InTime(s) then InOrder(t) && t.doer.Idle? else Leftover(t) && !InOrder(t)
  {
  }

  // ----- a whole run -----

  ghost predicate Counted(s: State) {
    CountOk(s.waits) + (if s.waiter.Drains? then 1 else 0) == s.taken &&
    CountOk(s.doneRets) + (if Outstanding(s) then 1 else 0) == s.dones &&
    (forall i :: 0 <= i < |s.waits| ==> s.waits[i] == Ok || s.waits[i] == Timeout) &&
    NoTimeout(s.doneRets)
  }

  ghost predicate NoTimeout(rets: seq<Ret>) {
    forall i :: 0 <= i < |rets| ==> rets[i] != Timeout
  }

  lemma NoTimeoutPush(rets: seq<Ret>, r: Ret)
    requires NoTimeout(rets) && r != Timeout
    ensures NoTimeout(rets + [r]) && CountOk(rets + [r]) == CountOk(rets) + if r == Ok then 1 else 0
  {
    CountPush(rets, r);
  }

  ghost predicate Ordered(s: State) {
    match s.doer
    case Idle => InOrder(s)
    case SwapsSecond(seen) => InOrder(s) && (seen.WAIT? || seen.WAITING?)
    case _ => Ahead(s) || Overtaken(s)
  }

  lemma StepKeepsOrdered(s: State, a: Action)
    requires Ordered(s) && (a.DoneNext? && Posting(s) ==> InTime(s))
    ensures Ordered(Step(s, a))
  {
    match a
    case DoneFirst => if s.doer.Idle? { FirstSwapInOrder(s); }
    case Done => if s.doer.Idle? { WholeDoneKeepsOrder(s); }
    case DoneNext =>
      if s.doer.SwapsSecond? {
        SecondSwapExact(s, s.doer.seen);
      } else if Posting(s) {
        LatePostExact(s);
      } else if s.doer.LoadsThread? {
        WaiterKeepsPosting(s, a);
      }
    case _ =>
      if s.doer.Idle? || s.doer.SwapsSecond? { WaiterKeepsOrder(s, a); } else { WaiterKeepsPosting(s, a); }
  }

  /** A step of the waiter returns at most once, what it has earned. */
  lemma WaiterReturns(s: State, a: Action)
    requires (InOrder(s) || Ahead(s) || Overtaken(s)) && WaiterStep(a)
    ensures var t := Step(s, a);
            t.doneRets == s.doneRets && t.dones == s.dones && Outstanding(t) == Outstanding(s) &&
            (t.waits == s.waits || t.waits == s.waits + [Ok] || t.waits == s.waits + [Timeout]) &&
            t.taken + (if s.waiter.Drains? then 1 else 0)
              == s.taken + (if t.waiter.Drains? then 1 else 0) + (if t.waits == s.waits + [Ok] then 1 else 0)
  {
    assert |s.waits + [Ok]| == |s.waits| + 1 && (s.waits + [Ok])[|s.waits|] == Ok;
    assert (s.waits + [Timeout])[|s.waits|] == Timeout;
  }

  lemma WaiterKeepsCounted(s: State, a: Action)
    requires Ordered(s) && Counted(s) && WaiterStep(a)
    ensures Counted(Step(s, a))
  {
    WaiterReturns(s, a);
    CountPush(s.waits, Ok);
    CountPush(s.waits, Timeout);
  }

  /** A step of done returns at most once, and OM_OK for exactly the dones that were made. */
  lemma DoneReturnsOnce(s: State, a: Action)
    requires Ordered(s) && !WaiterStep(a)
    ensures var t := Step(s, a);
            t.waits == s.waits && t.taken == s.taken && t.waiter == s.waiter &&
            ((t.doneRets == s.doneRets && t.dones + (if Outstanding(s) then 1 else 0)
                                       == s.dones + if Outstanding(t) then 1 else 0) ||
             (t.doneRets == s.doneRets + [Ok] && !Outstanding(t) &&
              t.dones + (if Outstanding(s) then 1 else 0) == s.dones + 1) ||
             (t.doneRets == s.doneRets + [Busy] && !Outstanding(t) && !Outstanding(s) && t.dones == s.dones) ||
             (t.doneRets == s.doneRets + [Error] && !Outstanding(t) && !Outstanding(s) && t.dones == s.dones))
  {
    if a.Done? && s.doer.Idle? { WholeDoneIs(s); }
  }

  lemma DoneKeepsCounted(s: State, a: Action)
    requires Ordered(s) && Counted(s) && !WaiterStep(a)
    ensures Counted(Step(s, a))
  {
    DoneReturnsOnce(s, a);
    NoTimeoutPush(s.doneRets, Ok);
    NoTimeoutPush(s.doneRets, Busy);
    NoTimeoutPush(s.doneRets, Error);
  }

  /** Every post and every notification of the run is in time. */
  ghost predicate PostsInTime(b: Backend, schedule: seq<Action>) {
    forall k :: 0 <= k < |schedule| ==>
                  (schedule[k].DoneNext? && Posting(Run(b, schedule[..k])) ==> InTime(Run(b, schedule[..k])))
  }

  lemma {:induction false} RunKeepsOrdered(b: Backend, schedule: seq<Action>)
    requires PostsInTime(b, schedule)
    ensures Ordered(Run(b, schedule)) && Counted(Run(b, schedule))
  {
    if schedule != [] {
      var k := |schedule| - 1;
      var before, last := schedule[..k], schedule[k];
      assert forall i :: 0 <= i < k ==> before[..i] == schedule[..i];
      RunKeepsOrdered(b, before);
      var s := Run(b, before);
      StepKeepsOrdered(s, last);
      if WaiterStep(last) { WaiterKeepsCounted(s, last); } else { DoneKeepsCounted(s, last); }
    }
  }

  /** One waiter, and dones that it may preempt anywhere: in every run in which each post is in time, the one-shot
      promises hold on both backends.  Beside them only OM_ERROR appears, for a done that lost its second swap, and a
      blocked waiter whose done stands may have to wait for the token that is still outstanding. */
  lemma OneShotPreempted(b: Backend, schedule: seq<Action>)
    requires PostsInTime(b, schedule)
    ensures var s := Run(b, schedule);
            0 <= s.dones - s.taken <= 1 && (s.dones - s.taken == 1 <==> s.status.DONE?) &&
            (forall i :: 0 <= i < |s.waits| ==> s.waits[i] == Ok || s.waits[i] == Timeout) &&
            NoTimeout(s.doneRets) &&
            (s.waiter.Blocks? ==> (s.tokens > 0 || (Outstanding(s) && s.doer != Gives(false) && s.status.DONE?)
                                   <==> s.status.DONE?)) &&
            (s.waiter.Outside? ==> s.tokens == 0 && CountOk(s.waits) == s.taken) &&
            CountOk(s.waits) <= CountOk(s.doneRets) + if Outstanding(s) then 1 else 0
  {
    RunKeepsOrdered(b, schedule);
  }

  // ----- a post that is not in time -----

  ghost predicate WaiterOnly(schedule: seq<Action>) {
    forall i :: 0 <= i < |schedule| ==> WaiterStep(schedule[i])
  }

  /** The waiter left alone, one of its waits takes a done that nobody has made. */
  ghost predicate TakesUnmade(s: State, schedule: seq<Action>) {
    WaiterOnly(schedule) && RunFrom(s, schedule).taken > RunFrom(s, schedule).dones
  }

  /** No done stands and a token is there. */
  ghost predicate Leftover(s: State) {
    s.doer.Idle? && s.tokens == 1 && !s.status.DONE? && s.dones == s.taken && !s.waiter.Drains? &&
    InOrder(s.(tokens := 0))
  }

  lemma {:induction false} OrderTakesNothing(s: State, schedule: seq<Action>)
    requires InOrder(s) && WaiterOnly(schedule)
    ensures InOrder(RunFrom(s, schedule))
  {
    if schedule != [] {
      OrderTakesNothing(s, schedule[..|schedule| - 1]);
      WaiterKeepsOrder(RunFrom(s, schedule[..|schedule| - 1]), schedule[|schedule| - 1]);
    }
  }

  /** How far a waiter with a left over token is from taking it. */
  ghost function Distance(s: State): nat {
    match s.waiter
    case TimesOut => 9
    case Loads(noWait) => if noWait then 8 else 6
    case Outside => 7
    case SwapsWait => 5
    case SwapsWaiting => 4
    case Blocks => 3
    case Wakes => 2
    case _ => 0
  }

  /** The step that brings the waiter nearer to the left over token. */
  lemma LeftoverGoesOn(s: State) returns (a: Action)
    requires Leftover(s) && !s.waiter.Blocks?
    ensures WaiterStep(a) && Leftover(Step(s, a)) && Distance(Step(s, a)) < Distance(s)
  {
    a := if s.waiter.Outside? then Wait(false) else Go;
  }

  lemma {:induction false} LeftoverIsTaken(s: State, done: seq<Action>) returns (schedule: seq<Action>)
    requires Leftover(RunFrom(s, done)) && WaiterOnly(done)
    ensures TakesUnmade(s, schedule)
    decreases Distance(RunFrom(s, done))
  {
    var t := RunFrom(s, done);
    if t.waiter.Blocks? {
      RunFromStep(s, done, Go);
      RunFromStep(s, done + [Go], Go);
      schedule := done + [Go] + [Go];
    } else {
      var a := LeftoverGoesOn(t);
      RunFromStep(s, done, a);
      schedule := LeftoverIsTaken(s, done + [a]);
    }
  }

  /** What the condition is exact for: after the post the waiter, left alone, can take a done that nobody has made if
      and only if the post was not in time. */
  lemma LatePostHarms(s: State)
    requires (Ahead(s) || Overtaken(s)) && Posting(s)
    ensures (exists schedule :: TakesUnmade(Step(s, DoneNext), schedule)) <==> !InTime(s)
  {
    LatePostExact(s);
    var t := Step(s, DoneNext);
    if InTime(s) {
      forall schedule ensures !TakesUnmade(t, schedule) {
        if WaiterOnly(schedule) { OrderTakesNothing(t, schedule); }
      }
    } else {
      assert RunFrom(t, []) == t;
      var schedule := LeftoverIsTaken(t, []);
    }
  }
}
