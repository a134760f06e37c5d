/** What a call of wait comes to, whatever state it finds: a wait with timeout 0 under any interleaving, and every wait
    left alone, with and without a done. */
module CompletionCalls {
  import opened CompletionProtocol

  // ----- a wait with timeout 0 -----

  /** The call has not returned before the last step of the schedule. */
  ghost predicate InCall(s: State, schedule: seq<Action>) {
    forall k :: 0 <= k < |schedule| ==> !RunFrom(s, schedule[..k]).waiter.Outside?
  }

  predicate OnlyLooks(w: Waiter) {
    w.Outside? || w.Drains? || ((w.Loads? || w.TakesDone? || w.Reloads?) && w.noWait)
  }

  lemma StepOnlyLooks(s: State, a: Action)
    requires OnlyLooks(s.waiter) && !s.waiter.Outside?
    ensures OnlyLooks(Step(s, a).waiter) && (!s.waitThread ==> !Step(s, a).waitThread)
    ensures Step(s, a).status != s.status ==> Step(s, a).status.INIT? || Step(s, a).status.DONE?
  {
    if a.Done? && s.doer.Idle? { WholeDoneIs(s); }
  }

  /** A wait called with timeout 0 never announces itself and never blocks, whatever the dones do meanwhile: until it
      returns it looks at the status, takes a done that stands, or drains. */
  lemma {:induction false} NoWaitNeverBlocks(s: State, schedule: seq<Action>)
    requires s.waiter.Outside? && InCall(Step(s, Wait(true)), schedule)
    ensures var w := RunFrom(Step(s, Wait(true)), schedule).waiter;
            OnlyLooks(w) && !w.SwapsWait? && !w.SwapsWaiting? && !w.Blocks? && !w.TimesOut?
  {
    if schedule != [] {
      var k := |schedule| - 1;
      assert forall i :: 0 <= i < k ==> schedule[..k][..i] == schedule[..i];
      NoWaitNeverBlocks(s, schedule[..k]);
      StepOnlyLooks(RunFrom(Step(s, Wait(true)), schedule[..k]), schedule[k]);
    }
  }

  // ----- a wait left alone -----

  /** A wait that finds a done standing takes it and returns OM_OK, with or without a timeout. */
  lemma WaitTakesStandingDone(s: State, noWait: bool)
    requires Inv(s) && s.waiter.Outside? && Standing(s)
    ensures GoOn(GoOn(GoOn(Step(s, Wait(noWait)))))
         == s.(status := INIT, waitThread := false, taken := s.taken + 1, waits := s.waits + [Ok])
  {
    assert GoOn(Step(s, Wait(noWait))) == s.(waiter := TakesDone(noWait));
    TakesAndReturns(s, noWait);
  }

  lemma TakesAndReturns(s: State, noWait: bool)
    requires s.status.DONE? && s.tokens == 0 && s.waiter.Outside?
    ensures GoOn(GoOn(s.(waiter := TakesDone(noWait))))
         == s.(status := INIT, waitThread := false, taken := s.taken + 1, waits := s.waits + [Ok])
  {
    var t := s.(status := INIT, waitThread := false, taken := s.taken + 1, waiter := Drains);
    assert GoOn(s.(waiter := TakesDone(noWait))) == t;
  }

  /** Without a done, a wait with timeout 0 returns OM_ERROR_TIMEOUT and changes nothing. */
  lemma WaitNotWaiting(s: State)
    requires Inv(s) && s.waiter.Outside? && !Standing(s)
    ensures GoOn(Step(s, Wait(true))) == s.(waits := s.waits + [Timeout])
  {
  }

  /** Without a done, a wait with a timeout announces itself and blocks. */
  lemma WaitBlocks(s: State)
    requires Inv(s) && s.waiter.Outside? && !Standing(s)
    ensures GoOn(GoOn(GoOn(Step(s, Wait(false))))) == s.(status := WAITING, waitThread := true, waiter := Blocks)
  {
    var t := s.(waitThread := true, waiter := SwapsWait);
    assert GoOn(Step(s, Wait(false))) == t;
    assert GoOn(t) == t.(status := WAIT, waiter := SwapsWaiting);
  }

  /** From there a done makes it return OM_OK, and it leaves no status, token or registration behind. */
  lemma BlockedWaitIsDone(s: State)
    requires Inv(s) && s.waiter.Blocks? && !Standing(s)
    ensures (if s.backend.Semaphore? then GoOn(GoOn(GoOn(Step(s, Done)))) else GoOn(GoOn(Step(s, Done))))
         == s.(status := INIT, waitThread := false, waiter := Outside, dones := s.dones + 1, taken := s.taken + 1,
               waits := s.waits + [Ok], doneRets := s.doneRets + [Ok])
  {
    WholeDoneIs(s);
    var done := s.(status := DONE, tokens := 1, dones := s.dones + 1, doneRets := s.doneRets + [Ok]);
    assert Step(s, Done) == done;
    assert GoOn(done) == done.(tokens := 0, waiter := Wakes);
  }

  /** And the end of its time makes it return OM_ERROR_TIMEOUT, with nothing left behind either. */
  lemma BlockedWaitTimesOut(s: State)
    requires Inv(s) && s.waiter.Blocks? && !Standing(s)
    ensures GoOn(Step(s, Expire))
         == s.(status := INIT, waitThread := false, waiter := Outside, waits := s.waits + [Timeout])
  {
  }

  // ----- a wait that meets another waiter -----

  predicate Taken(status: Status) {
    status.WAIT? || status.WAITING?
  }

  /** A wait that finds the completion taken by another waiter returns OM_ERROR_BUSY, whatever its timeout, and leaves
      that waiter's status and registration alone. */
  lemma SecondWaiterIsRefused(s: State, noWait: bool)
    requires s.waiter.Outside? && Taken(s.status)
    ensures GoOn(Step(s, Wait(noWait))) == s.(waits := s.waits + [Busy])
  {
  }

  /** One that is overtaken after its own load, while the status becomes `now`, returns OM_ERROR_BUSY too if another
      waiter has taken the completion, and OM_ERROR if another took the done it had met. */
  lemma OvertakenWaiterIsRefused(s: State, now: Status)
    requires s.waiter.Outside? && s.status.INIT? && !now.INIT?
    ensures var registered := s.(waitThread := true, waiter := SwapsWait);
            GoOn(Step(s, Wait(false))) == registered &&
            if Taken(now) then
              GoOn(registered.(status := now)) == s.(status := now, waitThread := false, waits := s.waits + [Busy])
            else
              forall later: Status :: !later.DONE? ==>
                GoOn(GoOn(registered.(status := now)).(status := later))
                == s.(status := later, waitThread := false, waits := s.waits + [if Taken(later) then Busy else Error])
  {
  }

  /** A waiter that meets a status which no one waiter and its dones produce resets it and returns OM_ERROR. */
  lemma UnexpectedStatusIsReset(s: State)
    requires (s.waiter.SwapsWaiting? && !s.status.WAIT? && !s.status.DONE?) ||
             (s.waiter.TimesOut? && !s.status.WAITING? && !s.status.DONE?)
    ensures GoOn(GoOn(s)) == s.(status := INIT, waitThread := false, waiter := Outside, waits := s.waits + [Error])
  {
  }

  // ----- a done left alone -----

  /** A done is refused with OM_ERROR_BUSY if one stands, and succeeds otherwise, whatever the waiter is at; it gives a
      token to a waiter that has announced itself and to no other. */
  lemma DoneExact(s: State)
    requires Inv(s)
    ensures var t := Step(s, Done);
            if Standing(s) then t == s.(doneRets := s.doneRets + [Busy])
            else t == s.(status := DONE, dones := s.dones + 1, doneRets := s.doneRets + [Ok],
                         tokens := if s.waiter.SwapsWaiting? || s.waiter.Blocks? || s.waiter.TimesOut? then 1
                                   else s.tokens)
  {
    WholeDoneIs(s);
  }
}
