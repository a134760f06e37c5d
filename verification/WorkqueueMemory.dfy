/** The critical sections of lib/async/src/workqueue.c on the works and the intrusive list they hang on, each proved to
    be the step of WorkqueueProtocol: afterwards the list is well formed, and list and flags are those of the
    protocol's next state. */
module WorkqueueMemory {
  import opened CoreList
  import P = WorkqueueProtocol
  import S = WorkqueueSafety
  import T = WorkqueueThreads

  type Node = ListHead<Work?>

  /** Of all flags of the protocol, one is different. */
  ghost predicate Flips(s: P.State, t: P.State, v: P.Work, f: P.Flag) {
    forall u :: P.FlagOf(t, u) == if u == v then f else P.FlagOf(s, u)
  }

  lemma LinkFlips(s: P.State, id: P.Id, v: P.Work)
    requires P.InCall(s, id, P.Links(v))
    ensures var t := P.Step(s, P.EnqueueLink(id));
            if P.FlagOf(s, v) == P.Idle then
              t.pending == s.pending + [P.Entry(v, |s.workOf|)] && Flips(s, t, v, P.Pending)
            else t.pending == s.pending && t.flags == s.flags
  {
  }

  lemma TakeFlips(s: P.State, k: P.Id)
    requires k in s.workers && s.workers[k].at.Takes?
    ensures var t := P.Step(s, P.WorkerTake(k));
            if s.pending == [] then t.pending == [] && t.flags == s.flags
            else t.pending == Cut(s.pending, 0) && Flips(s, t, s.pending[0].work, P.Running)
  {
  }

  lemma CancelFlips(s: P.State, n: nat)
    ensures var t, v := P.Step(s, P.Cancel(n)), P.User(n);
            if P.FlagOf(s, v) == P.Pending then t.pending == P.Without(s.pending, v) && Flips(s, t, v, P.Idle)
            else t == s
  {
  }

  lemma ReturnFlips(s: P.State, k: P.Id)
    requires k in s.workers && s.workers[k].at.Returns?
    ensures var t := P.Step(s, P.WorkerReturn(k));
            t.pending == s.pending && Flips(s, t, s.workers[k].at.entry.work, P.Idle)
  {
  }

  /** The clearing of s leads through t. */
  ghost predicate Clears(s: P.State, t: P.State) {
    P.AllIdle(t.flags, t.pending) == P.AllIdle(s.flags, s.pending)
  }

  /** One turn: the first work of the list back to IDLE. */
  lemma ClearsNext(s: P.State, t: P.State) returns (t': P.State)
    requires Clears(s, t) && t.pending != []
    ensures t'.pending == Cut(t.pending, 0) && Flips(t, t', t.pending[0].work, P.Idle) && Clears(s, t')
  {
    t' := t.(pending := t.pending[1..], flags := t.flags[t.pending[0].work := P.Idle]);
  }

  lemma CleanIs(s: P.State, id: P.Id, t: P.State)
    requires P.InCall(s, id, P.StopCleans) && t.pending == [] && Clears(s, t)
    ensures P.Step(s, P.StopClean(id)).pending == [] && P.Step(s, P.StopClean(id)).flags == t.flags
  {
  }

  lemma BarrierFlips(s: P.State, id: P.Id)
    requires s.life.IsRunning? && id !in s.callers && P.FlagOf(s, P.Barrier(id)) == P.Idle
    ensures var t := P.Step(s, P.FlushTest(id)); t.pending == s.pending && forall v :: P.FlagOf(t, v) == P.FlagOf(s, v)
  {
  }

  class Work {
    const node: Node
    ghost const name: P.Work  // what the protocol calls it
    var flags: P.Flag

    /** work_init */
    constructor (ghost name: P.Work)
      ensures flags == P.Idle && node.owner == this && fresh(node) && this.name == name
    {
      node := new ListHead<Work?>(null);
      this.name := name;
      flags := P.Idle;
      new;
      node.owner := this;
    }
  }

  datatype Ret = Ok | Error | Busy

  class Workqueue {
    const pending: Node
    ghost var works: set<Work>       // every work in use, of which no two have the same name
    ghost var queue: seq<Work>       // the works on the list, oldest first
    ghost var nodes: seq<Node>       // their nodes
    ghost var entries: seq<P.Entry>  // and what the protocol says of them

    /** The list is well formed and holds the queue in order. */
    ghost predicate Linked()
      reads this, pending, nodes
    {
      IsList(pending, nodes) && pending.owner == null && |nodes| == |queue| == |entries| &&
      (forall i :: 0 <= i < |nodes| ==> nodes[i] == queue[i].node && nodes[i].owner == queue[i]) &&
      (forall i :: 0 <= i < |queue| ==> queue[i] in works && entries[i].work == queue[i].name)
    }

    ghost predicate Named()
      reads this
    {
      forall v, w :: v in works && w in works && v.name == w.name ==> v == w
    }

    /** A work is PENDING exactly when it is on the list. */
    ghost predicate Valid()
      reads this, pending, nodes, works
    {
      Linked() && Named() && forall w :: w in works ==> (w.flags == P.Pending <==> w in queue)
    }

    /** The list and the flags are those of the protocol's state. */
    ghost predicate Mirrors(s: P.State)
      reads this, pending, nodes, works
    {
      Valid() && entries == s.pending && forall w :: w in works ==> w.flags == P.FlagOf(s, w.name)
    }

    constructor ()
      ensures Mirrors(P.Fresh) && works == {} && fresh(pending)
    {
      pending := new ListHead<Work?>(null);
      works, queue, nodes, entries := {}, [], [], [];
    }

    /** A work that has just been initialised, and is in no call, comes into use. */
    ghost method Admit(w: Work, s: P.State)
      requires Mirrors(s) && w.flags == P.Idle && P.FlagOf(s, w.name) == P.Idle
      modifies this`works
      ensures Mirrors(s) && works == (set v | v in old(works) && v.name != w.name) + {w}
    {
      assert forall v :: v in queue ==> v in works && v.flags == P.Pending && v.name != w.name;
      works := (set v | v in works && v.name != w.name) + {w};
    }

    /** workqueue_flush initialises the barrier on its stack, 592-594, having seen RUNNING. */
    method FlushInit(ghost s: P.State, ghost id: P.Id) returns (bw: Work)
      requires Mirrors(s) && T.BarrierOk(s, id) && s.life.IsRunning? && id !in s.callers
      modifies this`works
      ensures Mirrors(P.Step(s, P.FlushTest(id))) && fresh(bw) && bw in works && bw.name == P.Barrier(id)
    {
      BarrierFlips(s, id);
      bw := new Work(P.Barrier(id));
      Admit(bw, s);
    }

    /** Enqueue, 472-487. */
    method Enqueue(w: Work, ghost s: P.State, ghost id: P.Id) returns (ok: bool)
      requires Mirrors(s) && w in works && w.node.owner == w && P.InCall(s, id, P.Links(w.name))
      modifies this`queue, this`nodes, this`entries, w`flags
      modifies w.node`prev, w.node`next, pending`prev, pending`next, nodes`prev, nodes`next
      ensures Mirrors(P.Step(s, P.EnqueueLink(id))) && ok == (old(w.flags) == P.Idle)
      ensures queue == if ok then old(queue) + [w] else old(queue)
    {
      LinkFlips(s, id, w.name);
      if w.flags != P.Idle { return false; }
      ghost var was := queue;
      w.flags := P.Pending;
      AddTail(w, P.Entry(w.name, |s.workOf|));
      RetiedLonger(was, w, s, P.Step(s, P.EnqueueLink(id)));
      ok := true;
    }

    /** The same when one work has come to the list. */
    lemma RetiedLonger(was: seq<Work>, w: Work, s: P.State, t: P.State)
      requires Linked() && Named() && queue == was + [w] && entries == t.pending && w in works
      requires forall x :: x in works ==> (P.FlagOf(s, x.name) == P.Pending <==> x in was)
      requires forall x :: x in works ==> x.flags == if x == w then P.Pending else P.FlagOf(s, x.name)
      requires Flips(s, t, w.name, P.Pending)
      ensures Mirrors(t)
    {
    }

    /** list_add_tail of the work's node. */
    method AddTail(w: Work, ghost e: P.Entry)
      requires Linked() && w in works && w.node.owner == w && w !in queue && e.work == w.name
      modifies this`queue, this`nodes, this`entries
      modifies w.node`prev, w.node`next, pending`prev, pending`next, nodes`prev, nodes`next
      ensures Linked() && queue == old(queue) + [w] && entries == old(entries) + [e]
    {
      ListAddTail(w.node, pending, nodes);
      queue, nodes, entries := queue + [w], nodes + [w.node], entries + [e];
    }

    /** What the protocol's state says of each work, and that none is on the list twice. */
    lemma Mirrored(s: P.State)
      requires Mirrors(s)
      ensures forall i, j :: 0 <= i < j < |queue| ==> queue[i] != queue[j]
      ensures forall x :: x in works ==> x.flags == P.FlagOf(s, x.name) && (x.flags == P.Pending <==> x in queue)
    {
      forall i, j | 0 <= i < j < |queue| ensures queue[i] != queue[j] { assert nodes[i] != nodes[j]; }
    }

    /** list_del of the k-th work's node. */
    static method Unlink(w: Work, ghost wq: Workqueue, ghost k: nat)
      requires wq.Linked() && k < |wq.queue| && wq.queue[k] == w
      modifies wq`queue, wq`nodes, wq`entries, wq.pending`prev, wq.pending`next, wq.nodes`prev, wq.nodes`next
      ensures wq.Linked() && wq.queue == Cut(old(wq.queue), k) && wq.entries == Cut(old(wq.entries), k)
      ensures wq.nodes == Cut(old(wq.nodes), k) && w.node.next == w.node
    {
      ListDel(w.node, wq.pending, wq.nodes, k);
      wq.queue, wq.nodes, wq.entries := Cut(wq.queue, k), Cut(wq.nodes, k), Cut(wq.entries, k);
    }

    /** The new flag of a work that has left the list makes it mirror the protocol's next state. */
    static method Retag(w: Work, flag: P.Flag, ghost wq: Workqueue, ghost was: seq<Work>, ghost k: nat,
                        ghost s: P.State, ghost t: P.State)
      requires wq.Linked() && wq.Named() && k < |was| && was[k] == w && wq.queue == Cut(was, k) && w in wq.works
      requires forall i, j :: 0 <= i < j < |was| ==> was[i] != was[j]
      requires forall x :: x in wq.works ==> x.flags == P.FlagOf(s, x.name) && (x.flags == P.Pending <==> x in was)
      requires wq.entries == t.pending && flag != P.Pending && Flips(s, t, w.name, flag)
      modifies w`flags
      ensures wq.Mirrors(t)
    {
      CutMembers(was, k);
      w.flags := flag;
    }

    /** `list_del(&w->node)` and the new flag, the common part of claim, cancel and clearing.  Only the node's own
        neighbours are touched, so the queue need not be known. */
    static method Detach(w: Work, flag: P.Flag, ghost wq: Workqueue, ghost k: nat, ghost s: P.State, ghost t: P.State)
      requires wq.Mirrors(s) && k < |wq.queue| && wq.queue[k] == w && flag != P.Pending
      requires t.pending == Cut(s.pending, k) && Flips(s, t, w.name, flag)
      modifies wq`queue, wq`nodes, wq`entries, w`flags
      modifies wq.pending`prev, wq.pending`next, wq.nodes`prev, wq.nodes`next
      ensures wq.Mirrors(t) && wq.queue == Cut(old(wq.queue), k) && wq.nodes == Cut(old(wq.nodes), k)
      ensures w.node.next == w.node
    {
      ghost var was := wq.queue;
      wq.Mirrored(s);
      Unlink(w, wq, k);
      Retag(w, flag, wq, was, k, s, t);
    }

    /** The worker's claim, 128-141: the oldest work, off the list and RUNNING, or none. */
    method Take(ghost s: P.State, ghost k: P.Id) returns (w: Work?)
      requires Mirrors(s) && k in s.workers && s.workers[k].at.Takes?
      modifies this`queue, this`nodes, this`entries, queue`flags, pending`prev, pending`next, nodes`prev, nodes`next
      ensures Mirrors(P.Step(s, P.WorkerTake(k)))
      ensures w == null <==> s.pending == []
      ensures w != null ==> w == old(queue)[0] && w.name == s.pending[0].work && queue == old(queue)[1..]
    {
      var empty := ListEmpty(pending, nodes);
      TakeFlips(s, k);
      if empty { return null; }
      w := pending.next.owner;
      Detach(w, P.Running, this, 0, s, P.Step(s, P.WorkerTake(k)));
    }

    /** The worker writes IDLE after the function has returned, 160-165. */
    method Finish(w: Work, ghost s: P.State, ghost k: P.Id)
      requires Mirrors(s) && S.ClaimOk(s, k) && w in works && k in s.workers
      requires s.workers[k].at.Returns? && s.workers[k].at.entry.work == w.name
      modifies w`flags
      ensures Mirrors(P.Step(s, P.WorkerReturn(k)))
    {
      assert S.Claimed(s, k).Some? && w !in queue;
      ReturnFlips(s, k);
      w.flags := P.Idle;
    }

    /** workqueue_cancel, 519-544.  The caller does not say which queue; `wq` is the one the work is used with. */
    static method Cancel(w: Work, ghost wq: Workqueue, ghost s: P.State, ghost n: nat) returns (ret: Ret)
      requires wq.Mirrors(s) && w in wq.works && w.name == P.User(n)
      modifies wq`queue, wq`nodes, wq`entries, w`flags
      modifies wq.pending`prev, wq.pending`next, wq.nodes`prev, wq.nodes`next
      ensures wq.Mirrors(P.Step(s, P.Cancel(n)))
      ensures ret == match old(w.flags) case Running => Busy case Idle => Error case Pending => Ok
      ensures ret == Ok ==> w.node.next == w.node
    {
      CancelFlips(s, n);
      if w.flags == P.Running { return Busy; }
      if w.flags != P.Pending { return Error; }
      ghost var k :| 0 <= k < |wq.queue| && wq.queue[k] == w;
      wq.PlaceOf(w, k);
      Detach(w, P.Idle, wq, k, s, P.Step(s, P.Cancel(n)));
      ret := Ok;
    }

    /** The one entry with the work's name is at the work's place. */
    lemma PlaceOf(w: Work, k: nat)
      requires Linked() && Named() && k < |queue| && queue[k] == w
      ensures P.Without(entries, w.name) == Cut(entries, k) && S.OnList(entries, w.name)
    {
      assert entries[k].work == w.name;
      var n := S.WithoutCuts(entries, w.name);
      assert queue[n] == queue[k];
      assert nodes[n] == nodes[k];
    }

    /** Where the safe iteration stands: at the first node left, with the one after it already fetched. */
    ghost predicate Iterating(pos: Node, n: Node)
      reads this
    {
      pos == (if nodes == [] then pending else nodes[0]) &&
      (nodes != [] ==> n == if |nodes| == 1 then pending else nodes[1])
    }

    lemma NodesLeft(was: seq<Node>, k: nat, all: set<Node>)
      requires k < |was| && nodes == Cut(was, k) && forall x :: x in was ==> x in all
      ensures forall x :: x in nodes ==> x in all
    {
      forall x | x in nodes ensures x in all {
        var i :| 0 <= i < |nodes| && nodes[i] == x;
        assert was[if i < k then i else i + 1] in was;
      }
    }

    /** One turn of the clearing by stop: `list_del(&w->node); w->flags = WORK_FLAG_IDLE`, then on to the next. */
    method ClearOne(pos: Node, n: Node, ghost t: P.State, ghost t': P.State, ghost all: set<Node>)
      returns (pos': Node, n': Node)
      requires Mirrors(t) && nodes != [] && Iterating(pos, n) && forall x :: x in nodes ==> x in all
      requires t'.pending == Cut(t.pending, 0) && Flips(t, t', t.pending[0].work, P.Idle)
      modifies this`queue, this`nodes, this`entries, works`flags, pending`prev, pending`next, all`prev, all`next
      ensures Mirrors(t') && Iterating(pos', n') && |nodes| == |old(nodes)| - 1
      ensures forall x :: x in nodes ==> x in all
    {
      var w := pos.owner;
      ghost var was := nodes;
      Detach(w, P.Idle, this, 0, t, t');
      NodesLeft(was, 0, all);
      pos', n' := n, n.next;
    }

    /** The clearing of the list by stop, 388-397: list_for_each_entry_safe over the pending list. */
    method Clear(ghost s: P.State, ghost id: P.Id)
      requires Mirrors(s) && P.InCall(s, id, P.StopCleans)
      modifies this`queue, this`nodes, this`entries, works`flags, pending`prev, pending`next, nodes`prev, nodes`next
      ensures Mirrors(P.Step(s, P.StopClean(id)))
    {
      var pos := pending.next;
      var n := pos.next;
      ghost var t, all := s, set x | x in nodes;
      while pos != pending
        invariant Mirrors(t) && Clears(s, t) && Iterating(pos, n)
        invariant forall x :: x in nodes ==> x in all
        decreases |nodes|
      {
        ghost var t' := ClearsNext(s, t);
        pos, n := ClearOne(pos, n, t, t', all);
        t := t';
      }
      Cleared(s, id, t);
    }

    lemma Cleared(s: P.State, id: P.Id, t: P.State)
      requires Mirrors(t) && nodes == [] && P.InCall(s, id, P.StopCleans) && Clears(s, t)
      ensures Mirrors(P.Step(s, P.StopClean(id)))
    {
      CleanIs(s, id, t);
    }
  }

  lemma CutMembers(q: seq<Work>, k: nat)
    requires k < |q| && forall i, j :: 0 <= i < j < |q| ==> q[i] != q[j]
    ensures forall v: Work :: v in Cut(q, k) <==> v in q && v != q[k]
  {
    forall v: Work ensures v in Cut(q, k) <==> v in q && v != q[k] {
      if v in q && v != q[k] {
        var i :| 0 <= i < |q| && q[i] == v;
        assert Cut(q, k)[if i < k then i else i - 1] == v;
      }
      if v in Cut(q, k) {
        var i :| 0 <= i < |q| - 1 && Cut(q, k)[i] == v;
        assert q[if i < k then i else i + 1] == v;
      }
    }
  }
}
