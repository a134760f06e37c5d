/** lib/services/src/log/ring.c and log_async.c: any number of contexts put messages into the ring inside a
    critical section, and the log thread drains it and sleeps on a doorbell semaphore of maximum 1.
    The ring is the bounded queue that SpscSafety.StepRefinesFifo refines to; a producer's critical section is one
    step, but it may fall between the consumer's load of writePos and its store of readPos. */
module LogRing {
  import opened RingArithmetic
  import opened RingSlots

  const DROP_WARN_INTERVAL_MS := 1000  // OM_LOG_DROP_WARN_INTERVAL_MS

  type Msg = Item

  /** Where the log thread is. */
  datatype Place =
    | NotStarted
    | Drains               // about to load writePos in ringbuf_out
    | Releases(msg: Msg)   // copied out, about to store readPos
    | Emits(msg: Msg)
    | TestsDropped         // ringbuf_out returned 0
    | Warns
    | Waits                // in osal_sem_wait

  /** One drop warning: the increment and the total it reported, and when. */
  datatype Report = Report(added: int, total: int, at: int)

  /** LogDropWarnState */
  datatype WarnState = WarnState(warnedUpto: int, lastWarnMs: int, ever: bool)

  /** `cap` is OM_LOG_RING_LEN; `lost` is the true number of messages dropped, of which the source keeps the low 32
      bits. */
  datatype State = State(
    cap: nat, queue: seq<Msg>, lost: nat, hasBell: bool, bell: nat, warn: WarnState, place: Place,
    offered: nat, accepted: seq<Msg>, emitted: seq<Msg>, reports: seq<Report>)

  datatype Action =
    | Produce(msg: Msg)
    | CreateBell
    | StartThread
    | Thread(now: int)  // one step of the log thread; `now` is what the clock says

  function Init(cap: nat): State {
    State(cap, [], 0, false, 0, WarnState(0, 0, false), NotStarted, 0, [], [], [])
  }

  /** `ring->dropped` */
  function Dropped(s: State): int {
    s.lost % U32
  }

  // ----- log_ring_produce, inside its critical section -----

  function StepProduce(s: State, msg: Msg): State {
    var wasEmpty := s.queue == [];
    if |s.queue| == s.cap then s.(offered := s.offered + 1, lost := s.lost + 1)
    else s.(offered := s.offered + 1, queue := s.queue + [msg], accepted := s.accepted + [msg],
            bell := if wasEmpty && s.hasBell then 1 else s.bell)
  }

  // ----- log_drop_warn -----

  function WarnDue(w: WarnState, dropped: int, now: int): bool {
    dropped > w.warnedUpto && !(w.ever && (now - w.lastWarnMs) % U32 < DROP_WARN_INTERVAL_MS)
  }

  function StepWarn(s: State, now: int): State {
    var dropped := Dropped(s);
    if WarnDue(s.warn, dropped, now) then
      s.(warn := WarnState(dropped, now, true),
         reports := s.reports + [Report((dropped - s.warn.warnedUpto) % U32, dropped, now)])
    else s
  }

  // ----- log_async_thread and log_ring_drain -----

  function StepThread(s: State, now: int): State {
    match s.place
    case NotStarted => s
    case Drains => if s.queue == [] then s.(place := TestsDropped) else s.(place := Releases(s.queue[0]))
    case Releases(msg) => if s.queue == [] then s else s.(place := Emits(msg), queue := s.queue[1..])
    case Emits(msg) => s.(place := Drains, emitted := s.emitted + [msg])
    case TestsDropped => s.(place := if Dropped(s) > 0 then Warns else Waits)
    case Warns => StepWarn(s, now).(place := Waits)
    case Waits => if s.bell > 0 then s.(bell := s.bell - 1, place := Drains) else s
  }

  function Step(s: State, a: Action): State {
    match a
    case Produce(msg) => StepProduce(s, msg)
    case CreateBell => if s.hasBell then s else s.(hasBell := true, bell := 0)
    case StartThread => if s.hasBell && s.place.NotStarted? then s.(place := Drains) else s
    case Thread(now) => StepThread(s, now)
  }

  function Run(s: State, schedule: seq<Action>): State {
    if schedule == [] then s
    else Step(Run(s, schedule[..|schedule| - 1]), schedule[|schedule| - 1])
  }

  // ----- what every run keeps -----

  function InHand(s: State): seq<Msg> {
    if s.place.Emits? then [s.place.msg] else []
  }

  /** Every message offered is emitted, in hand, in the ring or dropped, and order is kept. */
  ghost predicate Conserved(s: State) {
    s.accepted == s.emitted + InHand(s) + s.queue && s.offered == |s.accepted| + s.lost && |s.queue| <= s.cap &&
    (s.place.Releases? ==> s.queue != [] && s.queue[0] == s.place.msg)
  }

  /** A thread past its drain loop has not missed a message: if there is one, the doorbell is posted. */
  ghost predicate NoLostWakeup(s: State) {
    s.bell <= 1 && (!s.hasBell ==> s.place.NotStarted?) &&
    (s.queue != [] && (s.place.TestsDropped? || s.place.Warns? || s.place.Waits?) ==> s.bell == 1)
  }

  ghost predicate Inv(s: State) {
    Conserved(s) && NoLostWakeup(s)
  }

  lemma StepKeepsInv(s: State, a: Action)
    requires Inv(s)
    ensures Inv(Step(s, a))
  {
    match a
    case Produce(msg) => ProduceKeepsInv(s, msg);
    case Thread(now) => ThreadKeepsInv(s, now);
    case _ =>
  }

  lemma ProduceKeepsInv(s: State, msg: Msg)
    requires Inv(s)
    ensures Inv(StepProduce(s, msg))
  {
    assert s.accepted + [msg] == s.emitted + InHand(s) + (s.queue + [msg]);
  }

  lemma ThreadKeepsInv(s: State, now: int)
    requires Inv(s)
    ensures Inv(StepThread(s, now))
  {
    if s.place.Releases? { assert s.queue == [s.queue[0]] + s.queue[1..]; }
  }

  /** Conservation, order and no lost wake-up, in every interleaving. */
  lemma {:induction false} RunKeepsInv(cap: nat, schedule: seq<Action>)
    ensures Inv(Run(Init(cap), schedule))
  {
    if schedule != [] {
      RunKeepsInv(cap, schedule[..|schedule| - 1]);
      StepKeepsInv(Run(Init(cap), schedule[..|schedule| - 1]), schedule[|schedule| - 1]);
    }
  }

  /** The messages of the schedule that find room in the ring, in order. */
  function FindRoom(cap: nat, schedule: seq<Action>): seq<Msg> {
    if schedule == [] then []
    else
      var front, a := schedule[..|schedule| - 1], schedule[|schedule| - 1];
      FindRoom(cap, front) + if a.Produce? && |Run(Init(cap), front).queue| < cap then [a.msg] else []
  }

  function Offers(schedule: seq<Action>): nat {
    if schedule == [] then 0
    else Offers(schedule[..|schedule| - 1]) + if schedule[|schedule| - 1].Produce? then 1 else 0
  }

  lemma {:induction false} AcceptedFindRoom(cap: nat, schedule: seq<Action>)
    ensures var s := Run(Init(cap), schedule);
            s.cap == cap && s.accepted == FindRoom(cap, schedule) && s.offered == Offers(schedule)
  {
    if schedule != [] {
      AcceptedFindRoom(cap, schedule[..|schedule| - 1]);
      RunKeepsInv(cap, schedule[..|schedule| - 1]);
      StepAccepts(Run(Init(cap), schedule[..|schedule| - 1]), schedule[|schedule| - 1]);
    }
  }

  lemma StepAccepts(s: State, a: Action)
    requires |s.queue| <= s.cap
    ensures var t := Step(s, a);
            t.cap == s.cap && t.offered == s.offered + (if a.Produce? then 1 else 0) &&
            t.accepted == s.accepted + if a.Produce? && |s.queue| < s.cap then [a.msg] else []
  {
  }

  /** What is emitted is what the callers passed, unchanged and in order: at the end of every run it is a prefix of the
      messages that found room when they were produced, the rest of these are in hand or in the ring, and exactly the
      messages that found none were dropped. */
  lemma EmitsWhatWasProduced(cap: nat, schedule: seq<Action>)
    ensures var s := Run(Init(cap), schedule);
            FindRoom(cap, schedule) == s.emitted + InHand(s) + s.queue &&
            s.lost == Offers(schedule) - |FindRoom(cap, schedule)|
  {
    AcceptedFindRoom(cap, schedule);
    RunKeepsInv(cap, schedule);
  }

  // ----- the drop warnings -----

  function Added(reports: seq<Report>): int {
    if reports == [] then 0 else Added(reports[..|reports| - 1]) + reports[|reports| - 1].added
  }

  ghost predicate TotalOk(reports: seq<Report>, i: nat)
    requires i < |reports|
  {
    0 < reports[i].added && reports[i].total == Added(reports[..i + 1])
  }

  ghost predicate Spaced(a: Report, b: Report) {
    (b.at - a.at) % U32 >= DROP_WARN_INTERVAL_MS
  }

  /** Each report's total is what all reports up to it have added, and two reports are an interval apart. */
  ghost predicate ReportsOk(reports: seq<Report>) {
    (forall i: nat :: i < |reports| ==> TotalOk(reports, i)) &&
    (forall i: nat, j: nat :: i < j < |reports| && j == i + 1 ==> Spaced(reports[i], reports[j]))
  }

  ghost predicate Tallied(s: State) {
    var n := |s.reports|;
    s.warn.warnedUpto == Added(s.reports) && 0 <= s.warn.warnedUpto <= s.lost < U32 &&
    (s.warn.ever <==> n > 0) && (n > 0 ==> s.warn.lastWarnMs == s.reports[n - 1].at)
  }

  ghost predicate WarnInv(s: State) {
    ReportsOk(s.reports) && Tallied(s)
  }

  lemma AppendReport(reports: seq<Report>, r: Report)
    requires ReportsOk(reports) && 0 < r.added && r.total == Added(reports) + r.added
    requires |reports| > 0 ==> Spaced(reports[|reports| - 1], r)
    ensures ReportsOk(reports + [r]) && Added(reports + [r]) == Added(reports) + r.added
  {
    var more := reports + [r];
    AddedPush(reports, r);
    forall i: nat | i < |more| ensures TotalOk(more, i) { TotalKept(reports, r, i); }
  }

  lemma AddedPush(reports: seq<Report>, r: Report)
    ensures Added(reports + [r]) == Added(reports) + r.added
  {
    assert (reports + [r])[..|reports|] == reports;
  }

  lemma TotalKept(reports: seq<Report>, r: Report, i: nat)
    requires ReportsOk(reports) && 0 < r.added && r.total == Added(reports) + r.added && i <= |reports|
    ensures TotalOk(reports + [r], i)
  {
    var more := reports + [r];
    if i < |reports| {
      assert more[..i + 1] == reports[..i + 1] && TotalOk(reports, i);
    } else {
      AddedPush(reports, r);
      assert more[..i + 1] == more;
    }
  }

  lemma WarnKeepsWarnInv(s: State, now: int)
    requires WarnInv(s)
    ensures WarnInv(StepWarn(s, now))
  {
    var r := Report(s.lost - s.warn.warnedUpto, s.lost, now);
    WarnIs(s, now);
    if WarnDue(s.warn, s.lost, now) {
      DueIsSpaced(s.warn, s.lost, r, s.reports);
      AppendReport(s.reports, r);
    }
  }

  /** Before the counter comes round nothing is lost to the 32 bits. */
  lemma WarnIs(s: State, now: int)
    requires 0 <= s.warn.warnedUpto <= s.lost < U32
    ensures StepWarn(s, now) == if !WarnDue(s.warn, s.lost, now) then s
                                else s.(warn := WarnState(s.lost, now, true),
                                        reports := s.reports + [Report(s.lost - s.warn.warnedUpto, s.lost, now)])
  {
    assert s.lost % U32 == s.lost && (s.lost - s.warn.warnedUpto) % U32 == s.lost - s.warn.warnedUpto;
  }

  lemma DueIsSpaced(w: WarnState, dropped: int, r: Report, reports: seq<Report>)
    requires WarnDue(w, dropped, r.at) && (w.ever <==> |reports| > 0)
    requires |reports| > 0 ==> w.lastWarnMs == reports[|reports| - 1].at
    ensures |reports| > 0 ==> Spaced(reports[|reports| - 1], r)
  {
  }

  lemma StepKeepsWarnInv(s: State, a: Action)
    requires WarnInv(s) && Step(s, a).lost < U32
    ensures WarnInv(Step(s, a))
  {
    if a.Thread? && s.place.Warns? {
      WarnKeepsWarnInv(s, a.now);
      assert Step(s, a) == StepWarn(s, a.now).(place := Waits);
    } else {
      OthersWarnNot(s, a);
    }
  }

  lemma OthersWarnNot(s: State, a: Action)
    requires !(a.Thread? && s.place.Warns?)
    ensures Step(s, a).reports == s.reports && Step(s, a).warn == s.warn && s.lost <= Step(s, a).lost
  {
  }

  lemma LostNeverFalls(s: State, a: Action)
    ensures s.lost <= Step(s, a).lost
  {
  }

  /** While fewer than 2^32 messages were dropped, the reported increments add up to `warned_upto`, which never
      exceeds the number dropped, and no two warnings are closer than the interval. */
  lemma {:induction false} WarningsAddUp(cap: nat, schedule: seq<Action>)
    requires Run(Init(cap), schedule).lost < U32
    ensures WarnInv(Run(Init(cap), schedule))
  {
    if schedule != [] {
      var front := schedule[..|schedule| - 1];
      LostNeverFalls(Run(Init(cap), front), schedule[|schedule| - 1]);
      WarningsAddUp(cap, front);
      StepKeepsWarnInv(Run(Init(cap), front), schedule[|schedule| - 1]);
    }
  }

  /** The last warning was given less than an interval before `now`. */
  ghost predicate TooEarly(reports: seq<Report>, now: int) {
    reports != [] && (now - reports[|reports| - 1].at) % U32 < DROP_WARN_INTERVAL_MS
  }

  /** All drops reported so far, and one report more if there were any since the last. */
  function Caught(s: State, now: int): seq<Report> {
    if s.lost == Added(s.reports) then s.reports else s.reports + [Report(s.lost - Added(s.reports), s.lost, now)]
  }

  /** A drain that ends with drops not yet reported goes on to the warning, and the warning is given unless it is too
      early: then one report of exactly the drops since the last one brings the reported total to the number lost. */
  lemma WarningIsGiven(cap: nat, schedule: seq<Action>, now: int)
    requires Run(Init(cap), schedule).lost < U32
    ensures var s := Run(Init(cap), schedule);
            s.place.TestsDropped? && s.lost > Added(s.reports) ==> Step(s, Thread(now)) == s.(place := Warns)
    ensures var s := Run(Init(cap), schedule); var t := Step(s, Thread(now));
            s.place.Warns? ==>
              if TooEarly(s.reports, now) then t.reports == s.reports
              else t.reports == Caught(s, now) && Added(t.reports) == s.lost
  {
    WarningsAddUp(cap, schedule);
    var s := Run(Init(cap), schedule);
    CaughtUp(s, now);
    if s.place.Warns? { WarningGivenHere(s, now); } else { WarnsOfDrops(s, now); }
  }

  lemma WarnsOfDrops(s: State, now: int)
    requires Tallied(s)
    ensures s.place.TestsDropped? && s.lost > Added(s.reports) ==> Step(s, Thread(now)) == s.(place := Warns)
  {
  }

  lemma WarningGivenHere(s: State, now: int)
    requires Tallied(s) && s.place.Warns?
    ensures Step(s, Thread(now)).reports == if TooEarly(s.reports, now) then s.reports else Caught(s, now)
  {
    WarnIs(s, now);
    DueUnlessEarly(s, now);
    WarnsHere(s, now, StepWarn(s, now));
  }

  lemma WarnsHere(s: State, now: int, t: State)
    requires s.place.Warns? && t == StepWarn(s, now)
    ensures Step(s, Thread(now)).reports == t.reports
  {
  }

  lemma CaughtUp(s: State, now: int)
    ensures Added(Caught(s, now)) == s.lost
  {
    AddedPush(s.reports, Report(s.lost - Added(s.reports), s.lost, now));
  }

  lemma DueUnlessEarly(s: State, now: int)
    requires Tallied(s)
    ensures WarnDue(s.warn, s.lost, now) <==> s.lost > Added(s.reports) && !TooEarly(s.reports, now)
  {
  }

  /** Once 2^32 - 1 drops have been reported no drop is reported again, whatever happens. */
  lemma {:induction false} SilentForEver(s: State, schedule: seq<Action>)
    requires s.warn.warnedUpto == U32 - 1
    ensures Run(s, schedule).warn == s.warn && Run(s, schedule).reports == s.reports
  {
    if schedule != [] { SilentForEver(s, schedule[..|schedule| - 1]); }
  }

  lemma RunStep(s: State, schedule: seq<Action>, a: Action)
    ensures Run(s, schedule + [a]) == Step(Run(s, schedule), a)
  {
    assert (schedule + [a])[..|schedule|] == schedule;
  }

  /** Nothing has been reported yet, with k messages in the ring and n dropped. */
  ghost predicate Unreported(s: State, place: Place, k: nat, n: nat) {
    |s.queue| == k && s.lost == n && s.place == place && s.warn == WarnState(0, 0, false) && s.reports == []
  }

  lemma {:induction false} Fills(cap: nat, k: nat) returns (schedule: seq<Action>)
    requires k <= cap
    ensures Unreported(Run(Init(cap), schedule), NotStarted, k, 0) && Run(Init(cap), schedule).cap == cap
  {
    if k == 0 {
      schedule := [];
    } else {
      var before := Fills(cap, k - 1);
      RunStep(Init(cap), before, Produce([]));
      schedule := before + [Produce([])];
    }
  }

  lemma {:induction false} Drops(cap: nat, n: nat) returns (schedule: seq<Action>)
    ensures Unreported(Run(Init(cap), schedule), NotStarted, cap, n) && Run(Init(cap), schedule).cap == cap
  {
    if n == 0 {
      schedule := Fills(cap, cap);
    } else {
      var before := Drops(cap, n - 1);
      RunStep(Init(cap), before, Produce([]));
      schedule := before + [Produce([])];
    }
  }

  lemma {:induction false} DrainsAll(s: State, schedule: seq<Action>, k: nat, n: nat) returns (longer: seq<Action>)
    requires Unreported(Run(s, schedule), Drains, k, n)
    ensures Unreported(Run(s, longer), Drains, 0, n)
    decreases k
  {
    longer := schedule;
    if k > 0 {
      DrainsOne(Run(s, schedule), k, n);
      longer := ThreeOfThread(s, schedule);
      longer := DrainsAll(s, longer, k - 1, n);
    }
  }

  lemma OneOfThread(s: State, schedule: seq<Action>) returns (longer: seq<Action>)
    ensures Run(s, longer) == StepThread(Run(s, schedule), 0)
  {
    RunStep(s, schedule, Thread(0));
    longer := schedule + [Thread(0)];
  }

  lemma ThreeOfThread(s: State, schedule: seq<Action>) returns (longer: seq<Action>)
    ensures Run(s, longer) == StepThread(StepThread(StepThread(Run(s, schedule), 0), 0), 0)
  {
    var once := OneOfThread(s, schedule);
    var twice := OneOfThread(s, once);
    longer := OneOfThread(s, twice);
  }

  lemma DrainsOne(t: State, k: nat, n: nat)
    requires Unreported(t, Drains, k, n) && k > 0
    ensures Unreported(StepThread(StepThread(StepThread(t, 0), 0), 0), Drains, k - 1, n)
  {
  }

  /** The ring fills before the thread starts, 2^32 - 1 messages are dropped, and the thread drains. */
  lemma DrainsAfterDrops(cap: nat) returns (schedule: seq<Action>)
    ensures Unreported(Run(Init(cap), schedule), Drains, 0, U32 - 1)
  {
    schedule := Drops(cap, U32 - 1);
    var s := Run(Init(cap), schedule);
    RunStep(Init(cap), schedule, CreateBell); schedule := schedule + [CreateBell];
    RunStep(Init(cap), schedule, StartThread); schedule := schedule + [StartThread];
    assert Run(Init(cap), schedule) == Step(Step(s, CreateBell), StartThread);
    assert Unreported(Run(Init(cap), schedule), Drains, cap, U32 - 1);
    schedule := DrainsAll(Init(cap), schedule, cap, U32 - 1);
  }

  /** The bound is needed: on a ring of any length there is a run that has reported 2^32 - 1 drops, and after it no
      drop is ever reported, though the counter of drops goes on from 0. */
  lemma WrapHidesDrops(cap: nat) returns (schedule: seq<Action>)
    ensures var s := Run(Init(cap), schedule);
            s.lost == U32 - 1 && |s.reports| == 1 && s.place.Waits? &&
            forall more :: Run(s, more).reports == s.reports
  {
    schedule := DrainsAfterDrops(cap);
    ReportsAll(Run(Init(cap), schedule));
    schedule := ThreeOfThread(Init(cap), schedule);
    var s := Run(Init(cap), schedule);
    forall more ensures Run(s, more).reports == s.reports { SilentForEver(s, more); }
  }

  lemma ReportsAll(s: State)
    requires Unreported(s, Drains, 0, U32 - 1)
    ensures var t := StepThread(StepThread(StepThread(s, 0), 0), 0);
            t.lost == U32 - 1 == t.warn.warnedUpto && |t.reports| == 1 && t.place.Waits?
  {
    var t := StepThread(StepThread(s, 0), 0);
    assert Unreported(t, Warns, 0, U32 - 1);
    WarnIs(t, 0);
  }

  /** `dropped <= st->warned_upto` compares wrapped counters.  It sees that more were lost than were warned of exactly
      when both have wrapped equally often. */
  lemma NewDropsExact(lost: nat, warned: nat)
    requires warned <= lost < warned + U32
    ensures lost % U32 > warned % U32 <==> lost > warned && lost / U32 == warned / U32
  {
  }

  // ----- delivery -----

  ghost predicate Asleep(s: State) {
    s.place.Waits? && s.bell == 0
  }

  function Rank(p: Place): nat {
    match p
    case Emits(_) => 5
    case Drains => 4
    case Releases(_) => 3
    case TestsDropped => 2
    case Warns => 1
    case Waits => 0
    case NotStarted => 0
  }

  /** How many steps of its own the thread needs, at most, before it sleeps. */
  function StepsLeft(s: State): nat {
    3 * |s.queue| + Rank(s.place) + 5 * s.bell
  }

  /** The thread alone, the clock saying `clock[i]` at its i-th step. */
  function RunThread(s: State, clock: seq<int>): State
    decreases |clock|
  {
    if clock == [] then s else RunThread(StepThread(s, clock[0]), clock[1..])
  }

  lemma ThreadProgress(s: State, now: int)
    requires Inv(s) && !s.place.NotStarted? && !Asleep(s)
    ensures var t := StepThread(s, now);
            StepsLeft(t) < StepsLeft(s) && !t.place.NotStarted? && t.accepted == s.accepted && t.lost == s.lost
  {
  }

  /** From any reachable state the started thread, left alone for enough steps, emits every accepted message and
      only then sleeps.  So no message waits for a wake-up that never comes. */
  lemma {:induction false} ThreadDelivers(s: State, clock: seq<int>)
    requires Inv(s) && !s.place.NotStarted? && |clock| >= StepsLeft(s)
    ensures var t := RunThread(s, clock);
            Inv(t) && Asleep(t) && t.queue == [] && t.emitted == s.accepted && t.offered == |t.emitted| + s.lost
    decreases |clock|
  {
    if clock == [] {
      assert StepsLeft(s) == 0;
    } else {
      StepKeepsInv(s, Thread(clock[0]));
      if Asleep(s) {
        SleepsOn(s, clock);
      } else {
        ThreadProgress(s, clock[0]);
        ThreadDelivers(StepThread(s, clock[0]), clock[1..]);
      }
    }
  }

  lemma {:induction false} SleepsOn(s: State, clock: seq<int>)
    requires Asleep(s)
    ensures RunThread(s, clock) == s
    decreases |clock|
  {
    if clock != [] {
      SleepsOn(s, clock[1..]);
    }
  }

  // ----- the instance -----

  class LogRing {
    const cap: nat
    var queue: seq<Msg>
    var dropped: int
    var warn: WarnState
    var hasBell: bool
    var bell: nat
    var emitted: seq<Msg>      // what log_emit_args was given
    var reports: seq<Report>   // the warnings it was given
    ghost var lost: nat
    ghost var accepted: seq<Msg>

    ghost predicate Valid()
      reads this
    {
      dropped == lost % U32
    }

    ghost function View(place: Place): State
      reads this
    {
      State(cap, queue, lost, hasBell, bell, warn, place, |accepted| + lost, accepted, emitted, reports)
    }

    constructor (cap: nat)
      ensures Valid() && View(NotStarted) == Init(cap)
    {
      this.cap := cap;
      queue, dropped, warn, hasBell, bell, emitted, reports := [], 0, WarnState(0, 0, false), false, 0, [], [];
      lost, accepted := 0, [];
    }

    /** log_ring_produce, wherever the thread is. */
    method Produce(msg: Msg, ghost place: Place)
      requires Valid() && |queue| <= cap
      modifies this`queue, this`dropped, this`bell, this`lost, this`accepted
      ensures Valid() && View(place) == Step(old(View(place)), Action.Produce(msg))
    {
      var wasEmpty := queue == [];
      if |queue| == cap {
        dropped := (dropped + 1) % U32;
        lost := lost + 1;
        return;
      }
      queue, accepted := queue + [msg], accepted + [msg];
      if wasEmpty && hasBell {
        bell := 1;  // a post to a full binary semaphore changes nothing
      }
    }

    /** log_drop_warn */
    method DropWarn(now: int) returns (warned: bool)
      requires Valid()
      modifies this`warn, this`reports
      ensures warned == WarnDue(old(warn), dropped, now)
      ensures View(Waits) == Step(old(View(Warns)), Thread(now))
    {
      if dropped <= warn.warnedUpto {
        return false;
      }
      if warn.ever && (now - warn.lastWarnMs) % U32 < DROP_WARN_INTERVAL_MS {
        return false;
      }
      reports := reports + [Report((dropped - warn.warnedUpto) % U32, dropped, now)];
      warn := WarnState(dropped, now, true);
      return true;
    }

    /** log_ring_drain with no producer in between: it empties the ring in order and then warns of new drops. */
    method Drain(now: int)
      requires Valid()
      modifies this`queue, this`emitted, this`warn, this`reports
      ensures Valid() && queue == [] && emitted == old(emitted) + old(queue)
      ensures warn == old(if WarnDue(warn, dropped, now) && dropped > 0 then WarnState(dropped, now, true) else warn)
    {
      while queue != []
        invariant emitted + queue == old(emitted) + old(queue) && warn == old(warn)
        decreases |queue|
      {
        var msg := queue[0];
        queue := queue[1..];
        emitted := emitted + [msg];
      }
      if dropped > 0 {
        var _ := DropWarn(now);
      }
    }
  }
}
