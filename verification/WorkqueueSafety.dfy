/** What every run of the workqueue keeps. */
module WorkqueueSafety {
  import opened CoreList
  import opened WorkqueueProtocol

  // ----- custody: who may change the worker or the life state -----

  /** A live worker, the unconsumed completion, a start before its worker exists, or a stop past its wait. */
  datatype Holder = ByWorker(w: Id) | ByDone | ByCaller(id: Id)

  predicate HoldingCall(c: Caller) {
    c.StartDrains? || c.StartInits? || c.StartCreates? || c.StopCleans? || c.StopIdles?
  }

  ghost predicate Holds(s: State, h: Holder) {
    match h
    case ByWorker(w) => w in s.workers
    case ByDone => s.done
    case ByCaller(id) => id in s.callers && HoldingCall(s.callers[id])
  }

  /** At most one of them at any time, and none in the IDLE state; so there is never more than one worker. */
  ghost predicate Custody(s: State) {
    (forall g, h :: Holds(s, g) && Holds(s, h) ==> g == h) &&
    (s.life.IsIdle? ==> forall h :: !Holds(s, h))
  }

  // ----- the list, the flags and the fates -----

  datatype Option<+T> = None | Some(value: T)

  /** The entry a worker has claimed. */
  function Claimed(s: State, w: Id): Option<Entry> {
    if w !in s.workers then None
    else match s.workers[w].at
         case Runs(e) => Some(e)
         case Returns(e) => Some(e)
         case _ => None
  }

  ghost predicate OnList(p: seq<Entry>, w: Work) {
    exists i :: 0 <= i < |p| && p[i].work == w
  }

  ghost predicate TicketOnList(p: seq<Entry>, t: Ticket) {
    exists i :: 0 <= i < |p| && p[i].ticket == t
  }

  ghost predicate EntryOk(s: State, e: Entry) {
    e.ticket < |s.workOf| && s.workOf[e.ticket] == e.work && e.ticket !in s.fate
  }

  /** The list is in the order of the enqueues, and no work is on it twice. */
  ghost predicate Ordered(p: seq<Entry>) {
    forall i, j :: 0 <= i < j < |p| ==> p[i].ticket < p[j].ticket && p[i].work != p[j].work
  }

  ghost predicate Listed(s: State) {
    Ordered(s.pending) && (forall i :: 0 <= i < |s.pending| ==> EntryOk(s, s.pending[i])) &&
    (forall w :: FlagOf(s, w) == Pending <==> OnList(s.pending, w))
  }

  ghost predicate ClaimOk(s: State, k: Id) {
    Claimed(s, k).Some? ==>
      var e := Claimed(s, k).value;
      EntryOk(s, e) && FlagOf(s, e.work) == Running &&
      forall i :: 0 <= i < |s.pending| ==> e.ticket < s.pending[i].ticket
  }

  ghost predicate SomeClaims(s: State, w: Work) {
    exists k :: Claimed(s, k).Some? && Claimed(s, k).value.work == w
  }

  ghost predicate TicketClaimed(s: State, t: Ticket) {
    exists k :: Claimed(s, k).Some? && Claimed(s, k).value.ticket == t
  }

  ghost predicate Claims(s: State) {
    (forall k :: ClaimOk(s, k)) && (forall w :: FlagOf(s, w) == Running ==> SomeClaims(s, w))
  }

  ghost predicate Fates(s: State) {
    (forall t :: t in s.fate ==> t < |s.workOf|) &&
    (forall t :: 0 <= t < |s.workOf| ==> t in s.fate || TicketOnList(s.pending, t) || TicketClaimed(s, t)) &&
    (forall t :: t in s.fate && s.fate[t] != Cancelled ==> Below(s, t)) &&
    (forall t :: t in s.fate && s.fate[t] == Cancelled ==> s.workOf[t].User?)
  }

  /** Every earlier enqueue has its fate. */
  ghost predicate Below(s: State, t: Ticket) {
    forall u :: 0 <= u < t ==> u in s.fate
  }

  ghost predicate Core(s: State) {
    Custody(s) && Listed(s) && Claims(s) && Fates(s)
  }

  // ----- custody is kept -----

  lemma CustodyKept(s: State, a: Action)
    requires Custody(s)
    ensures Custody(Step(s, a))
  {
    if LifeAction(a) { LifeKeepsCustody(s, a); }
    else if WorkerAction(a) { WorkerKeepsCustody(s, a); }
    else { EnqueueKeepsCustody(s, a); }
  }

  lemma EnqueueKeepsCustody(s: State, a: Action)
    requires Custody(s)
    ensures Custody(StepEnqueue(s, a))
  {
    EnqueueKeepsHolders(s, a);
    assert forall h :: Holds(StepEnqueue(s, a), h) ==> Holds(s, h);
  }

  lemma EnqueueKeepsHolders(s: State, a: Action)
    ensures var t := StepEnqueue(s, a);
            t.life == s.life && t.done == s.done && t.workers == s.workers &&
            forall id :: id in t.callers && HoldingCall(t.callers[id]) ==>
                           id in s.callers && s.callers[id] == t.callers[id]
  {
    if a.EnqueueLink? {
      if a.id in s.callers && s.callers[a.id].Links? { LinkKeepsHolders(s, a.id, s.callers[a.id].work); }
    } else {
      PlainMovesNothing(s, a);
      PlainKeepsHolders(s, a);
    }
  }

  lemma PlainMovesNothing(s: State, a: Action)
    requires !a.EnqueueLink?
    ensures var t := StepEnqueue(s, a); t.life == s.life && t.done == s.done && t.workers == s.workers
  {
  }

  lemma PlainKeepsHolders(s: State, a: Action)
    requires !a.EnqueueLink?
    ensures var t := StepEnqueue(s, a);
            forall id :: id in t.callers && HoldingCall(t.callers[id]) ==>
                           id in s.callers && s.callers[id] == t.callers[id]
  {
  }

  lemma LinkKeepsHolders(s: State, id: Id, w: Work)
    requires id in s.callers
    ensures var t := Link(s, id, w);
            t.life == s.life && t.done == s.done && t.workers == s.workers &&
            forall k :: k in t.callers && HoldingCall(t.callers[k]) ==> k in s.callers && s.callers[k] == t.callers[k]
  {
  }

  lemma LifeKeepsCustody(s: State, a: Action)
    requires Custody(s)
    requires LifeAction(a)
    ensures Custody(StepLife(s, a))
  {
    var t, id := StepLife(s, a), a.id;
    if t == s {
    } else if a.StopTest? || a.StopPost? {
      assert forall h :: Holds(t, h) ==> Holds(s, h);
    } else if a.StartTest? {
      HandOver(s, t, ByCaller(id), ByCaller(id));
    } else if a.StopWait? {
      assert Holds(s, ByDone);
      HandOver(s, t, ByDone, ByCaller(id));
    } else if a.StartCreate? {
      assert Holds(s, ByCaller(id));
      HandOver(s, t, ByCaller(id), ByWorker(id));
    } else {
      assert Holds(s, ByCaller(id));
      HandOver(s, t, ByCaller(id), ByCaller(id));
    }
  }

  /** Custody passes from one holder to at most one other. */
  lemma HandOver(s: State, t: State, from: Holder, to: Holder)
    requires Custody(s) && (Holds(s, from) || s.life.IsIdle?)
    requires forall h :: Holds(t, h) ==> h == to || (Holds(s, h) && h != from)
    requires t.life.IsIdle? ==> !Holds(t, to)
    ensures Custody(t)
  {
  }

  lemma WorkerKeepsCustody(s: State, a: Action)
    requires Custody(s)
    requires WorkerAction(a)
    ensures Custody(StepWorker(s, a))
  {
    var t, w := StepWorker(s, a), a.w;
    assert Holds(s, ByDone) <==> s.done;
    assert Holds(s, ByWorker(w)) <==> w in s.workers;
    if t == s {
    } else if a.WorkerExit? {
      HandOver(s, t, ByWorker(w), ByDone);
    } else {
      assert forall h :: Holds(t, h) ==> Holds(s, h);
    }
  }

  /** While a worker lives no thread is in the middle of a start, or past the wait of stop. */
  lemma NoHoldingCall(s: State, w: Id)
    requires Custody(s) && w in s.workers
    ensures forall id :: id in s.callers ==> !HoldingCall(s.callers[id])
  {
    assert Holds(s, ByWorker(w));
    forall id | id in s.callers && HoldingCall(s.callers[id]) ensures false { assert Holds(s, ByCaller(id)); }
  }

  lemma NoWorker(s: State, id: Id)
    requires Custody(s) && id in s.callers && HoldingCall(s.callers[id])
    ensures forall w :: w !in s.workers
  {
    assert Holds(s, ByCaller(id));
    forall w ensures w !in s.workers { assert w in s.workers ==> Holds(s, ByWorker(w)); }
  }

  lemma SingleWorker(s: State, w: Id, v: Id)
    requires Custody(s) && w in s.workers && v in s.workers
    ensures w == v
  {
    assert Holds(s, ByWorker(w)) && Holds(s, ByWorker(v));
  }

  // ----- the core is kept by every critical section -----

  lemma CoreUnchanged(s: State, t: State)
    requires Core(s) && Custody(t)
    requires t.pending == s.pending && t.workOf == s.workOf && t.fate == s.fate
    requires forall w :: FlagOf(t, w) == FlagOf(s, w)
    requires forall k :: Claimed(t, k) == Claimed(s, k)
    ensures Core(t)
  {
    forall k ensures ClaimOk(t, k) { assert ClaimOk(s, k); }
    forall w | FlagOf(t, w) == Running ensures SomeClaims(t, w) { assert SomeClaims(s, w); }
    forall u | 0 <= u < |t.workOf| ensures u in t.fate || TicketOnList(t.pending, u) || TicketClaimed(t, u) {
      assert TicketClaimed(s, u) ==> TicketClaimed(t, u);
    }
    forall u | u in t.fate && t.fate[u] != Cancelled ensures Below(t, u) { assert Below(s, u); }
  }

  lemma LinkKeepsCore(s: State, id: Id, w: Work)
    requires Core(s) && id in s.callers && s.callers[id].Links?
    ensures Core(Link(s, id, w))
  {
    var t := Link(s, id, w);
    LinkKeepsCustody(s, id, w);
    if FlagOf(s, w) != Idle {
      CoreUnchanged(s, t);
    } else {
      LinkKeepsListed(s, id, w);
      forall k ensures ClaimOk(t, k) { assert ClaimOk(s, k); }
      forall v | FlagOf(t, v) == Running ensures SomeClaims(t, v) { ClaimStays(s, t, v); }
      forall u | 0 <= u < |t.workOf| ensures u in t.fate || TicketOnList(t.pending, u) || TicketClaimed(t, u) {
        LinkKeepsTicket(s, id, w, u);
      }
      forall u | u in t.fate && t.fate[u] != Cancelled ensures Below(t, u) { assert Below(s, u); }
    }
  }

  lemma LinkKeepsCustody(s: State, id: Id, w: Work)
    requires Custody(s) && id in s.callers && s.callers[id].Links?
    ensures Custody(Link(s, id, w))
  {
    LinkKeepsHolders(s, id, w);
    assert forall h :: Holds(Link(s, id, w), h) ==> Holds(s, h);
  }

  lemma ClaimStays(s: State, t: State, v: Work)
    requires SomeClaims(s, v) && forall k :: Claimed(t, k) == Claimed(s, k)
    ensures SomeClaims(t, v)
  {
  }

  lemma LinkKeepsListed(s: State, id: Id, w: Work)
    requires Listed(s) && FlagOf(s, w) == Idle && Fates(s)
    ensures Listed(Link(s, id, w))
  {
    var t := Link(s, id, w);
    var n := |s.pending|;
    assert !OnList(s.pending, w);
    assert t.pending[n] == Entry(w, |s.workOf|);
    forall i | 0 <= i < |t.pending| ensures EntryOk(t, t.pending[i]) { assert i < n ==> EntryOk(s, s.pending[i]); }
    forall v ensures FlagOf(t, v) == Pending <==> OnList(t.pending, v) {
      if OnList(s.pending, v) {
        var i :| 0 <= i < n && s.pending[i].work == v;
        assert t.pending[i].work == v;
      }
    }
  }

  lemma LinkKeepsTicket(s: State, id: Id, w: Work, u: Ticket)
    requires Core(s) && FlagOf(s, w) == Idle && u <= |s.workOf|
    ensures var t := Link(s, id, w); u in t.fate || TicketOnList(t.pending, u) || TicketClaimed(t, u)
  {
    var t := Link(s, id, w);
    if u == |s.workOf| {
      assert t.pending[|s.pending|].ticket == u;
    } else if TicketOnList(s.pending, u) {
      var i :| 0 <= i < |s.pending| && s.pending[i].ticket == u;
      assert t.pending[i].ticket == u;
    } else if TicketClaimed(s, u) {
      var k :| Claimed(s, k).Some? && Claimed(s, k).value.ticket == u;
      assert Claimed(t, k) == Claimed(s, k);
    }
  }

  lemma TakeKeepsCore(s: State, k: Id)
    requires Core(s) && k in s.workers && s.workers[k].at.Takes?
    ensures Core(Take(s, k))
  {
    var t := Take(s, k);
    assert Custody(t) by { assert forall h :: Holds(t, h) ==> Holds(s, h); }
    forall j ensures Claimed(s, j) == None { if j in s.workers { SingleWorker(s, j, k); } }
    if s.pending == [] {
      CoreUnchanged(s, t);
    } else {
      TakeKeepsListed(s, k);
      TakeKeepsClaims(s, k);
      TakeKeepsFates(s, k);
    }
  }

  lemma TakeKeepsClaims(s: State, k: Id)
    requires Listed(s) && Claims(s) && k in s.workers && s.pending != [] && forall j :: Claimed(s, j) == None
    ensures Claims(Take(s, k))
  {
    var t := Take(s, k);
    assert EntryOk(s, s.pending[0]) && Claimed(t, k) == Some(s.pending[0]);
    forall j ensures ClaimOk(t, j) { assert j != k ==> Claimed(t, j) == Claimed(s, j); }
    forall v | FlagOf(t, v) == Running ensures SomeClaims(t, v) { if v != s.pending[0].work { NoClaims(s, v); } }
  }

  lemma TakeKeepsFates(s: State, k: Id)
    requires Fates(s) && k in s.workers && s.pending != [] && forall j :: Claimed(s, j) == None
    ensures Fates(Take(s, k))
  {
    var t := Take(s, k);
    assert Claimed(t, k) == Some(s.pending[0]);
    forall u: Ticket | u < |t.workOf| ensures u in t.fate || TicketOnList(t.pending, u) || TicketClaimed(t, u) {
      OnListSplit(s.pending, s.pending[0].work, u);
      NoTicketClaimed(s, u);
    }
    forall u | u in t.fate && t.fate[u] != Cancelled ensures Below(t, u) { assert Below(s, u); }
  }

  lemma NoClaims(s: State, v: Work)
    requires Claims(s) && forall j :: Claimed(s, j) == None
    ensures FlagOf(s, v) != Running
  {
    assert !SomeClaims(s, v);
  }

  lemma NoTicketClaimed(s: State, u: Ticket)
    requires forall j :: Claimed(s, j) == None
    ensures !TicketClaimed(s, u)
  {
  }

  lemma TakeKeepsListed(s: State, k: Id)
    requires Listed(s) && k in s.workers && s.pending != []
    ensures Listed(Take(s, k))
  {
    var t, e := Take(s, k), s.pending[0];
    assert OnList(s.pending, e.work);
    forall i | 0 <= i < |t.pending| ensures EntryOk(t, t.pending[i]) { assert EntryOk(s, s.pending[i + 1]); }
    forall v ensures FlagOf(t, v) == Pending <==> OnList(t.pending, v) {
      if OnList(t.pending, v) {
        var i :| 0 <= i < |t.pending| && t.pending[i].work == v;
        assert s.pending[i + 1].work == v && s.pending[0].work != v;
        assert OnList(s.pending, v);
      } else if v != e.work {
        OnListSplit(s.pending, v, 0);
      }
    }
  }

  /** The write of IDLE after the function returned: everything enqueued earlier has its fate. */
  lemma ReturnKeepsCore(s: State, k: Id)
    requires Core(s) && k in s.workers && s.workers[k].at.Returns?
    ensures Core(StepWorker(s, WorkerReturn(k)))
  {
    var t, e := StepWorker(s, WorkerReturn(k)), s.workers[k].at.entry;
    assert Claimed(s, k) == Some(e) && ClaimOk(s, k);
    WorkerKeepsCustody(s, WorkerReturn(k));
    forall j | j in s.workers ensures j == k { SingleWorker(s, j, k); }
    assert Listed(t) by {
      forall i | 0 <= i < |t.pending| ensures EntryOk(t, t.pending[i]) { assert EntryOk(s, s.pending[i]); }
      assert FlagOf(s, e.work) == Running;
      assert forall v :: FlagOf(t, v) == Pending <==> FlagOf(s, v) == Pending;
    }
    forall v ensures FlagOf(t, v) != Running { if v != e.work { OnlyClaim(s, k, v); } }
    forall u | 0 <= u < |t.workOf| ensures u in t.fate || TicketOnList(t.pending, u) || TicketClaimed(t, u) {
      assert TicketClaimed(s, u) ==> u == e.ticket;
    }
    forall u | u in t.fate && t.fate[u] != Cancelled ensures Below(t, u) {
      if u == e.ticket { BelowClaim(s, k); } else { assert Below(s, u); }
    }
  }

  lemma OnlyClaim(s: State, k: Id, v: Work)
    requires Core(s) && Claimed(s, k).Some? && v != Claimed(s, k).value.work
    ensures FlagOf(s, v) != Running
  {
    if FlagOf(s, v) == Running {
      assert SomeClaims(s, v);
      var j :| Claimed(s, j).Some? && Claimed(s, j).value.work == v;
      SingleWorker(s, j, k);
    }
  }

  /** A pending ticket and a claimed ticket have no fate yet, and their work's flag says which they are. */
  lemma TicketFacts(s: State, t: Ticket)
    requires Core(s)
    ensures TicketOnList(s.pending, t) ==> t < |s.workOf| && t !in s.fate && FlagOf(s, s.workOf[t]) == Pending
    ensures TicketClaimed(s, t) ==> t < |s.workOf| && t !in s.fate && FlagOf(s, s.workOf[t]) == Running
    ensures t in s.fate ==> t < |s.workOf|
  {
    if TicketOnList(s.pending, t) {
      var i :| 0 <= i < |s.pending| && s.pending[i].ticket == t;
      assert EntryOk(s, s.pending[i]) && OnList(s.pending, s.pending[i].work);
    }
    if TicketClaimed(s, t) {
      var k :| Claimed(s, k).Some? && Claimed(s, k).value.ticket == t;
      assert ClaimOk(s, k);
    }
  }

  /** Whatever was enqueued before the work a worker has claimed already has its fate. */
  lemma BelowClaim(s: State, k: Id)
    requires Core(s) && Claimed(s, k).Some?
    ensures Below(s, Claimed(s, k).value.ticket)
  {
    var e := Claimed(s, k).value;
    assert ClaimOk(s, k);
    forall u | 0 <= u < e.ticket ensures u in s.fate {
      if TicketClaimed(s, u) {
        var j :| Claimed(s, j).Some? && Claimed(s, j).value.ticket == u;
        SingleWorker(s, j, k);
      }
    }
  }

  /** list_del of the node of w: the list is cut at one place. */
  lemma {:induction false} WithoutCuts(p: seq<Entry>, w: Work) returns (n: nat)
    requires OnList(p, w)
    ensures n < |p| && p[n].work == w && TicketIn(p, w) == p[n].ticket
    ensures Without(p, w) == Cut(p, n)
  {
    if p[0].work == w {
      n := 0;
    } else {
      OnListSplit(p, w, 0);
      var m := WithoutCuts(p[1..], w);
      n := m + 1;
      CutTail(p, m);
    }
  }

  lemma CutTail(p: seq<Entry>, m: nat)
    requires m < |p| - 1
    ensures [p[0]] + Cut(p[1..], m) == Cut(p, m + 1)
  {
  }

  lemma CutAt(p: seq<Entry>, n: nat, i: nat)
    requires n < |p| && i < |p| && i != n
    ensures |Cut(p, n)| == |p| - 1 && Cut(p, n)[if i < n then i else i - 1] == p[i]
  {
  }

  lemma CutKeepsOrdered(p: seq<Entry>, n: nat)
    requires Ordered(p) && n < |p|
    ensures Ordered(Cut(p, n))
    ensures forall i :: 0 <= i < |Cut(p, n)| ==> Cut(p, n)[i] == p[if i < n then i else i + 1]
  {
  }

  lemma CutMembers(p: seq<Entry>, n: nat, v: Work, u: Ticket)
    requires Ordered(p) && n < |p|
    ensures OnList(Cut(p, n), v) <==> OnList(p, v) && v != p[n].work
    ensures TicketOnList(p, u) ==> u == p[n].ticket || TicketOnList(Cut(p, n), u)
  {
    CutKeepsOrdered(p, n);
    if OnList(p, v) && v != p[n].work {
      var i :| 0 <= i < |p| && p[i].work == v;
      CutAt(p, n, i);
    }
    if TicketOnList(p, u) && u != p[n].ticket {
      var i :| 0 <= i < |p| && p[i].ticket == u;
      CutAt(p, n, i);
    }
  }

  lemma CancelKeepsCore(s: State, w: Work)
    requires Core(s) && w.User?
    ensures Core(CancelWork(s, w))
  {
    var t := CancelWork(s, w);
    assert forall h :: Holds(t, h) ==> Holds(s, h);
    if FlagOf(s, w) != Pending {
      CoreUnchanged(s, t);
    } else {
      var n := WithoutCuts(s.pending, w);
      CancelKeepsListed(s, w, n);
      CancelKeepsClaims(s, w, n);
      assert EntryOk(s, s.pending[n]);
      forall u: Ticket | 0 <= u < |t.workOf| ensures u in t.fate || TicketOnList(t.pending, u) || TicketClaimed(t, u) {
        CutMembers(s.pending, n, w, u);
        if TicketClaimed(s, u) { TicketClaimStays(s, t, u); }
      }
      forall u | u in t.fate && t.fate[u] != Cancelled ensures Below(t, u) { assert Below(s, u); }
    }
  }

  lemma TicketClaimStays(s: State, t: State, u: Ticket)
    requires TicketClaimed(s, u) && forall k :: Claimed(t, k) == Claimed(s, k)
    ensures TicketClaimed(t, u)
  {
  }

  lemma CancelKeepsListed(s: State, w: Work, n: nat)
    requires Core(s) && FlagOf(s, w) == Pending && n < |s.pending| && s.pending[n].work == w
    requires TicketIn(s.pending, w) == s.pending[n].ticket && Without(s.pending, w) == Cut(s.pending, n)
    ensures Listed(CancelWork(s, w))
  {
    var t := CancelWork(s, w);
    CutKeepsOrdered(s.pending, n);
    forall i | 0 <= i < |t.pending| ensures EntryOk(t, t.pending[i]) {
      assert EntryOk(s, s.pending[if i < n then i else i + 1]);
    }
    forall v ensures FlagOf(t, v) == Pending <==> OnList(t.pending, v) { CutMembers(s.pending, n, v, 0); }
  }

  lemma CancelKeepsClaims(s: State, w: Work, n: nat)
    requires Core(s) && FlagOf(s, w) == Pending && n < |s.pending| && s.pending[n].work == w
    requires TicketIn(s.pending, w) == s.pending[n].ticket && Without(s.pending, w) == Cut(s.pending, n)
    ensures Claims(CancelWork(s, w))
  {
    var t := CancelWork(s, w);
    CutKeepsOrdered(s.pending, n);
    forall k ensures ClaimOk(t, k) { assert ClaimOk(s, k) && Claimed(t, k) == Claimed(s, k); }
    forall v | FlagOf(t, v) == Running ensures SomeClaims(t, v) { ClaimStays(s, t, v); }
  }

  lemma {:induction false} AllIdleMeaning(flags: map<Work, Flag>, p: seq<Entry>, w: Work)
    ensures w in AllIdle(flags, p) <==> w in flags || OnList(p, w)
    ensures w in AllIdle(flags, p) ==> AllIdle(flags, p)[w] == if OnList(p, w) then Idle else flags[w]
    decreases p
  {
    if p != [] {
      AllIdleMeaning(flags[p[0].work := Idle], p[1..], w);
      OnListSplit(p, w, 0);
    }
  }

  lemma OnListSplit(p: seq<Entry>, w: Work, u: Ticket)
    requires p != []
    ensures OnList(p, w) <==> p[0].work == w || OnList(p[1..], w)
    ensures TicketOnList(p, u) <==> p[0].ticket == u || TicketOnList(p[1..], u)
  {
    if OnList(p[1..], w) {
      var i :| 0 <= i < |p| - 1 && p[1..][i].work == w;
      assert p[i + 1].work == w;
    }
    if OnList(p, w) && p[0].work != w {
      var i :| 0 <= i < |p| && p[i].work == w;
      assert p[1..][i - 1].work == w;
    }
    if TicketOnList(p[1..], u) {
      var i :| 0 <= i < |p| - 1 && p[1..][i].ticket == u;
      assert p[i + 1].ticket == u;
    }
    if TicketOnList(p, u) && p[0].ticket != u {
      var i :| 0 <= i < |p| && p[i].ticket == u;
      assert p[1..][i - 1].ticket == u;
    }
  }

  lemma {:induction false} AllDiscardedMeaning(fate: map<Ticket, Fate>, p: seq<Entry>, u: Ticket)
    ensures u in AllDiscarded(fate, p) <==> u in fate || TicketOnList(p, u)
    ensures u in AllDiscarded(fate, p) ==> AllDiscarded(fate, p)[u] == if TicketOnList(p, u) then Discarded else fate[u]
    decreases p
  {
    if p != [] {
      AllDiscardedMeaning(fate[p[0].ticket := Discarded], p[1..], u);
      OnListSplit(p, Barrier(0), u);
    }
  }

  /** When stop clears the list no worker is left, so every enqueue so far gets its fate. */
  lemma CleanKeepsCore(s: State, id: Id)
    requires Core(s) && id in s.callers && s.callers[id].StopCleans?
    ensures Core(Clean(s, id)) && Below(Clean(s, id), |s.workOf|) && forall w :: FlagOf(Clean(s, id), w) == Idle
  {
    var t := Clean(s, id);
    assert Holds(s, ByCaller(id));
    assert forall h :: Holds(t, h) ==> Holds(s, h);
    forall k ensures Claimed(s, k) == None { assert k in s.workers ==> Holds(s, ByWorker(k)); }
    forall k ensures Claimed(t, k) == None { assert Claimed(s, k) == None; }
    forall w ensures FlagOf(t, w) == Idle {
      AllIdleMeaning(s.flags, s.pending, w);
      assert !SomeClaims(s, w);
    }
    assert Listed(t);
    forall u: Ticket ensures u in t.fate <==> u < |s.workOf| {
      AllDiscardedMeaning(s.fate, s.pending, u);
      assert !TicketClaimed(s, u);
      if TicketOnList(s.pending, u) {
        var i :| 0 <= i < |s.pending| && s.pending[i].ticket == u;
        assert EntryOk(s, s.pending[i]);
      }
    }
    forall u | u in t.fate && t.fate[u] == Cancelled ensures t.workOf[u].User? {
      AllDiscardedMeaning(s.fate, s.pending, u);
    }
  }
}
