/** What holds of the pool in every reachable state. */
module PoolInvariant {
  import opened PoolModel

  // ---------------------------------------------------------------- the invariant

  predicate IsPreparing(phase: Phase) {
    phase.Booting? || phase.Initing?
  }

  predicate SamePrior(a: Phase, b: Phase) {
    IsPreparing(a) && IsPreparing(b) && a.prior == b.prior
  }

  /** The slots array, the draining set and the rotation latches agree with every slot's phase. */
  ghost predicate Shape(s: Pool) {
    && |s.slot| == |s.worker|
    && (forall k :: 0 <= k < |s.slots| ==> s.slots[k] < |s.slot| && s.slot[s.slots[k]].phase.Active?)
    && (forall x: nat :: x < |s.slot| && s.slot[x].phase.Active? ==> x in s.slots)
    && (forall j, k :: 0 <= j < k < |s.slots| ==> s.slots[j] != s.slots[k])
    && (forall x: nat :: x in s.draining ==> x < |s.slot|)
    && (forall x: nat :: x < |s.slot| ==> (x in s.draining <==> s.slot[x].phase.Draining? || s.slot[x].phase.Stopping?))
    && (forall x: nat :: x < |s.slot| && (s.slot[x].phase.Draining? || s.slot[x].phase.Stopping?) ==>
          s.slot[x].rotating)
    && (forall x: nat :: x < |s.slot| && IsPreparing(s.slot[x].phase) ==>
          var prior := s.slot[x].phase.prior;
          prior < |s.slot| && s.slot[prior].phase.Active? && s.slot[prior].rotating)
    && (forall x: nat, y: nat :: x < |s.slot| && y < |s.slot| && SamePrior(s.slot[x].phase, s.slot[y].phase) ==> x == y)
  }

  /** Request ids are fresh, pending in at most one slot, and settled at most once. */
  ghost predicate Ids(s: Pool) {
    && (forall x: nat, id: nat :: x < |s.slot| && id in s.slot[x].pending ==> id < s.nextReqId)
    && (forall x: nat, id: nat :: x < |s.slot| && id in s.slot[x].pending ==> id !in s.settled)
    && (forall x: nat, y: nat, id: nat :: x < |s.slot| && y < |s.slot| && id in s.slot[x].pending && id in s.slot[y].pending ==> x == y)
    && (forall id: nat :: id in s.settled ==> id < s.nextReqId)
    && (forall id: nat :: id < s.nextReqId ==> id in s.settled || PendingSomewhere(s, id))
  }

  ghost predicate PendingSomewhere(s: Pool, id: ReqId) {
    exists x: nat :: x < |s.slot| && id in s.slot[x].pending
  }

  predicate ServesClients(wait: Wait) {
    wait.WaitNewTx? || wait.WaitCall? || wait.WaitClose?
  }

  /** Which requests a slot can have pending in its phase. */
  ghost predicate WaitsOf(s: Pool, x: SlotId)
    requires x < |s.slot|
  {
    var sl := s.slot[x];
    && (sl.phase.Booting? || sl.phase.Gone? ==> sl.pending == map[])
    && (sl.phase.Initing? ==> forall id: nat :: id in sl.pending ==> sl.pending[id].wait.WaitInit?)
    && (sl.phase.Active? || sl.phase.Draining? ==> forall id: nat :: id in sl.pending ==> ServesClients(sl.pending[id].wait))
    && (sl.phase.Stopping? ==> forall id: nat :: id in sl.pending ==> sl.pending[id].wait.WaitShutdown?)
    && (sl.phase.Initing? || sl.phase.Stopping? ==> forall i: nat, j: nat :: i in sl.pending && j in sl.pending ==> i == j)
    && (!sl.phase.Active? && !sl.phase.Draining? ==> sl.busy == 0)
  }

  predicate SameClose(a: Wait, b: Wait) {
    a.WaitClose? && b.WaitClose? && a.handle == b.handle
  }

  predicate CallThenClose(a: Wait, b: Wait) {
    a.WaitCall? && b.WaitClose? && a.handle == b.handle
  }

  /** A handle is closed once, after its other calls; replies come in posting order. */
  ghost predicate Ordered(p: map<ReqId, Call>) {
    && (forall i: nat, j: nat :: i in p && j in p && SameClose(p[i].wait, p[j].wait) ==> i == j)
    && (forall i: nat, j: nat :: i in p && j in p && CallThenClose(p[i].wait, p[j].wait) ==> i < j)
    && (forall i: nat, j: nat :: i in p && j in p && p[i].stage.Answered? && p[j].stage.Posted? ==> i < j)
  }

  /** A pending call belongs to a handle of this slot; a pending close to one that is closing. */
  predicate Owned(s: Pool, x: SlotId, wait: Wait) {
    match wait
    case WaitCall(h) => h < |s.handles| && s.handles[h].slot == x
    case WaitClose(h) => h < |s.handles| && s.handles[h].slot == x && s.handles[h].closed && !s.handles[h].settled
    case _ => true
  }

  ghost predicate CallsOf(s: Pool, x: SlotId)
    requires x < |s.slot|
  {
    var p := s.slot[x].pending;
    (forall id: nat :: id in p ==> Owned(s, x, p[id].wait)) && Ordered(p)
  }

  /** A live worker holds the transaction of every handle that may still use it. */
  ghost predicate TxsOf(s: Pool, x: SlotId)
    requires x < |s.slot| == |s.worker|
  {
    ReadyOf(s, x) && HeldTxs(s, x) && AckedTxs(s, x)
  }

  /** A slot in service has an initialized worker. */
  ghost predicate ReadyOf(s: Pool, x: SlotId)
    requires x < |s.slot| == |s.worker|
  {
    var p := s.slot[x].pending;
    && (s.slot[x].phase.Active? || s.slot[x].phase.Draining? ==> s.worker[x].ready)
    && (forall id: nat :: id in p && p[id].wait.WaitInit? && p[id].stage.Answered? && p[id].stage.ok ==>
          s.worker[x].ready)
  }

  /** Transactions of open handles, and of posted calls, are in the worker's table. */
  ghost predicate HeldTxs(s: Pool, x: SlotId)
    requires x < |s.slot| == |s.worker|
  {
    var p := s.slot[x].pending;
    var w := s.worker[x];
    && (forall t: nat :: t in w.txs ==> t <= w.nextTx)
    && (forall h: nat :: h < |s.handles| && s.handles[h].slot == x ==> s.handles[h].tx <= w.nextTx)
    && (forall h: nat :: h < |s.handles| && s.handles[h].slot == x && !s.handles[h].closed ==> s.handles[h].tx in w.txs)
    && (forall id: nat :: id in p && p[id].stage.Posted? && (p[id].wait.WaitCall? || p[id].wait.WaitClose?) ==>
          TxOf(s, p[id].wait) in w.txs)
  }

  /** Transactions on their way back are in the worker's table, and nobody else's. */
  ghost predicate AckedTxs(s: Pool, x: SlotId)
    requires x < |s.slot| == |s.worker|
  {
    var p := s.slot[x].pending;
    && (forall id: nat :: id in p && IsOpening(p[id]) ==> p[id].stage.tx in s.worker[x].txs)
    && (forall id: nat, h: nat :: id in p && IsOpening(p[id]) && h < |s.handles| && s.handles[h].slot == x ==>
          s.handles[h].tx != p[id].stage.tx)
    && (forall i: nat, j: nat :: i in p && j in p && IsOpening(p[i]) && IsOpening(p[j]) && p[i].stage.tx == p[j].stage.tx ==> i == j)
  }

  /** A newTx ack on its way back, carrying a transaction. */
  predicate IsOpening(c: Call) {
    c.wait.WaitNewTx? && c.stage.Answered? && c.stage.ok
  }

  predicate IsClosing(c: Call) {
    c.wait.WaitClose? && c.stage.Answered?
  }

  /** A dead worker answers nothing. */
  ghost predicate DeadOf(s: Pool, x: SlotId)
    requires x < |s.slot|
  {
    forall id: nat :: id in s.slot[x].pending ==> s.slot[x].pending[id].stage.Posted?
  }

  ghost predicate HandlesOk(s: Pool) {
    && (forall h: nat :: h < |s.handles| ==> s.handles[h].slot < |s.slot| && (s.handles[h].settled ==>
          s.handles[h].closed))
    && (forall g: nat, h: nat :: g < |s.handles| && h < |s.handles| && g != h && s.handles[g].slot == s.handles[h].slot ==>
          s.handles[g].tx != s.handles[h].tx)
  }

  ghost function Unsettled(s: Pool, x: SlotId): set<HandleId> {
    set h: nat | h < |s.handles| && s.handles[h].slot == x && !s.handles[h].settled
  }

  ghost function Openings(s: Pool, x: SlotId): set<ReqId>
    requires x < |s.slot|
  {
    set id: nat | id in s.slot[x].pending && IsOpening(s.slot[x].pending[id])
  }

  ghost function Closings(s: Pool, x: SlotId): set<ReqId>
    requires x < |s.slot|
  {
    set id: nat | id in s.slot[x].pending && IsClosing(s.slot[x].pending[id])
  }

  /** busy counts the handles still to be closed; the worker's transactions are conserved across the channels. */
  ghost predicate CountsOf(s: Pool, x: SlotId)
    requires x < |s.slot| == |s.worker|
  {
    && s.slot[x].busy == |Unsettled(s, x)|
    && (s.worker[x].alive ==>
          |s.worker[x].txs| + |Closings(s, x)| == s.slot[x].busy + |Openings(s, x)| + s.worker[x].trapped)
  }

  ghost predicate SlotOk(s: Pool, x: SlotId)
    requires x < |s.slot| == |s.worker|
  {
    WaitsOf(s, x) && CallsOf(s, x) && (if s.worker[x].alive then TxsOf(s, x) else DeadOf(s, x))
  }

  ghost predicate Inv(s: Pool) {
    && Shape(s) && Ids(s) && HandlesOk(s)
    && (forall x: nat :: x < |s.slot| ==> SlotOk(s, x))
    && (forall x: nat :: x < |s.slot| ==> CountsOf(s, x))
  }

  // ---------------------------------------------------------------- frames

  /** From `s` to `t` nothing about slot `y`, its worker or its handles changed. */
  ghost predicate Untouched(s: Pool, t: Pool, y: SlotId) {
    && y < |s.slot| == |s.worker| && y < |t.slot| == |t.worker|
    && s.slot[y] == t.slot[y] && s.worker[y] == t.worker[y]
    && HandlesStay(s, t, y)
  }

  /** Handles keep slot and transaction; those of `y` are the same ones, unchanged. */
  ghost predicate HandlesStay(s: Pool, t: Pool, y: SlotId) {
    && |s.handles| <= |t.handles|
    && (forall h: nat :: h < |s.handles| ==>
          s.handles[h].slot == t.handles[h].slot && s.handles[h].tx == t.handles[h].tx &&
          (s.handles[h].slot == y ==> s.handles[h] == t.handles[h]))
    && (forall h: nat :: |s.handles| <= h < |t.handles| ==> t.handles[h].slot != y)
  }

  lemma UntouchedKeeps(s: Pool, t: Pool, y: SlotId)
    requires Untouched(s, t, y) && SlotOk(s, y) && CountsOf(s, y)
    ensures SlotOk(t, y) && CountsOf(t, y)
  {
    hide WaitsOf, CallsOf, TxsOf, DeadOf, CountsOf, HandlesStay;
    UntouchedWaits(s, t, y);
    UntouchedCalls(s, t, y);
    UntouchedTxs(s, t, y);
    UntouchedCounts(s, t, y);
  }

  lemma UntouchedWaits(s: Pool, t: Pool, y: SlotId)
    requires Untouched(s, t, y)
    ensures WaitsOf(s, y) ==> WaitsOf(t, y)
    ensures DeadOf(s, y) ==> DeadOf(t, y)
  {
  }

  lemma UntouchedCalls(s: Pool, t: Pool, y: SlotId)
    requires Untouched(s, t, y)
    ensures CallsOf(s, y) ==> CallsOf(t, y)
  {
    hide Ordered;
    var p := s.slot[y].pending;
    assert forall id: nat :: id in p && Owned(s, y, p[id].wait) ==> Owned(t, y, p[id].wait);
  }

  lemma UntouchedTxs(s: Pool, t: Pool, y: SlotId)
    requires Untouched(s, t, y)
    ensures CallsOf(s, y) && TxsOf(s, y) ==> TxsOf(t, y)
  {
    hide Ordered;
    var p := s.slot[y].pending;
    assert forall id: nat :: id in p && Owned(s, y, p[id].wait) ==> TxOf(t, p[id].wait) == TxOf(s, p[id].wait);
  }

  lemma UntouchedCounts(s: Pool, t: Pool, y: SlotId)
    requires Untouched(s, t, y)
    ensures CountsOf(s, y) ==> CountsOf(t, y)
  {
    assert Unsettled(s, y) == Unsettled(t, y);
    assert Openings(s, y) == Openings(t, y) && Closings(s, y) == Closings(t, y);
  }

  lemma SameHandlesOk(s: Pool, t: Pool)
    requires HandlesOk(s) && t.handles == s.handles && |s.slot| <= |t.slot|
    ensures HandlesOk(t)
  {
  }

  /** `t` has one more pending request, at slot `x`; slots may have been spawned. */
  ghost predicate OneMore(s: Pool, t: Pool, x: SlotId, c: Call) {
    && x < |s.slot| <= |t.slot|
    && (forall y: nat :: y < |s.slot| && y != x ==> t.slot[y].pending == s.slot[y].pending)
    && (forall y: nat :: |s.slot| <= y < |t.slot| ==> t.slot[y].pending == map[])
    && t.slot[x].pending == s.slot[x].pending[s.nextReqId := c]
    && t.nextReqId == s.nextReqId + 1 && t.settled == s.settled
  }

  lemma OneMoreIds(s: Pool, t: Pool, x: SlotId, c: Call)
    requires Ids(s) && OneMore(s, t, x, c)
    ensures Ids(t)
  {
    forall y: nat, id | y < |t.slot| && id in t.slot[y].pending
      ensures id < t.nextReqId && id !in t.settled
      ensures id == s.nextReqId ==> y == x
      ensures id != s.nextReqId ==> y < |s.slot| && id in s.slot[y].pending
    {
      if y < |s.slot| && y != x {
        assert id in s.slot[y].pending;
      }
    }
    forall id: nat | id < t.nextReqId ensures id in t.settled || PendingSomewhere(t, id) {
      if id == s.nextReqId {
        assert id in t.slot[x].pending;
      } else if id !in s.settled {
        assert PendingSomewhere(s, id);
        var y: nat :| y < |s.slot| && id in s.slot[y].pending;
        assert id in t.slot[y].pending;
      }
    }
  }

  /** Request `id` of slot `x` has left pending and is settled; slots may have been spawned. */
  ghost predicate OneLess(s: Pool, t: Pool, x: SlotId, id: ReqId) {
    && x < |s.slot| <= |t.slot| && id in s.slot[x].pending
    && (forall y: nat :: y < |s.slot| && y != x ==> t.slot[y].pending == s.slot[y].pending)
    && (forall y: nat :: |s.slot| <= y < |t.slot| ==> t.slot[y].pending == map[])
    && t.slot[x].pending == s.slot[x].pending - {id}
    && t.nextReqId == s.nextReqId && t.settled == s.settled + {id}
  }

  lemma OneLessIds(s: Pool, t: Pool, x: SlotId, id: ReqId)
    requires Ids(s) && OneLess(s, t, x, id)
    ensures Ids(t)
  {
    forall y: nat, i | y < |t.slot| && i in t.slot[y].pending
      ensures y < |s.slot| && i in s.slot[y].pending && i != id
    {
      if y < |s.slot| && y != x {
        assert i in s.slot[y].pending;
      }
    }
    forall i: nat | i < t.nextReqId ensures i in t.settled || PendingSomewhere(t, i) {
      if i !in t.settled {
        assert PendingSomewhere(s, i);
        var y: nat :| y < |s.slot| && i in s.slot[y].pending;
        assert i in t.slot[y].pending;
      }
    }
  }

  // ---------------------------------------------------------------- posting

  lemma {:induction false} PickIsMember(s: Pool, best: SlotId, k: nat)
    requires Known(s) && k <= |s.slots| && best < |s.slot| && best in s.slots
    ensures PickFrom(s, best, k) in s.slots
    decreases |s.slots| - k
  {
    if k < |s.slots| {
      PickIsMember(s, if s.slot[s.slots[k]].busy < s.slot[best].busy then s.slots[k] else best, k + 1);
    }
  }

  lemma PickIsActive(s: Pool)
    requires Shape(s) && s.slots != []
    ensures PickSlot(s) in s.slots && s.slot[PickSlot(s)].phase.Active?
  {
    PickIsMember(s, s.slots[s.rr % |s.slots|], 0);
  }

  /** A client may only use a handle it has not closed. */
  predicate MayPost(s: Pool, x: SlotId, wait: Wait) {
    match wait
    case WaitNewTx => true
    case WaitCall(h) => h < |s.handles| && s.handles[h].slot == x && !s.handles[h].closed
    case WaitClose(h) => h < |s.handles| && s.handles[h].slot == x && !s.handles[h].closed
    case _ => false
  }

  /** `t` is `s` after a client posted `wait` to slot `x`. */
  ghost predicate ClientPost(s: Pool, t: Pool, x: SlotId, wait: Wait) {
    && OneMore(s, t, x, Call(wait, Posted)) && MayPost(s, x, wait)
    && |s.slot| == |t.slot| == |s.worker| && t.worker == s.worker
    && t.slots == s.slots && t.draining == s.draining
    && (forall y: nat :: y < |s.slot| && y != x ==> t.slot[y] == s.slot[y])
    && t.slot[x] == s.slot[x].(requests := t.slot[x].requests, pending := t.slot[x].pending)
    && t.handles == (if wait.WaitClose? then s.handles[wait.handle := s.handles[wait.handle].(closed := true)] else s.handles)
  }

  lemma ClientPostWaits(s: Pool, t: Pool, x: SlotId, wait: Wait)
    requires ClientPost(s, t, x, wait) && WaitsOf(s, x)
    requires s.slot[x].phase.Active? || s.slot[x].phase.Draining?
    ensures WaitsOf(t, x)
  {
  }

  lemma OrderedGrows(p: map<ReqId, Call>, id: ReqId, wait: Wait)
    requires Ordered(p) && forall i: nat :: i in p ==> i < id
    requires forall i: nat :: i in p ==> !SameClose(p[i].wait, wait) && !CallThenClose(wait, p[i].wait)
    ensures Ordered(p[id := Call(wait, Posted)])
  {
  }

  lemma ClientPostCalls(s: Pool, t: Pool, x: SlotId, wait: Wait)
    requires ClientPost(s, t, x, wait) && Ids(s) && HandlesOk(s) && CallsOf(s, x)
    ensures CallsOf(t, x)
  {
    var p := s.slot[x].pending;
    forall i: nat | i in p
      ensures !SameClose(p[i].wait, wait) && !CallThenClose(wait, p[i].wait) && Owned(t, x, p[i].wait)
    {
      assert Owned(s, x, p[i].wait);
    }
    OrderedGrows(p, s.nextReqId, wait);
    var p' := t.slot[x].pending;
    forall i: nat | i in p' ensures Owned(t, x, p'[i].wait) {
      assert i in p ==> p'[i] == p[i];
    }
  }

  /** `t` shows the same handles of slot `x`, at most the same acks, and their transactions are still held. */
  ghost predicate SameAcks(s: Pool, t: Pool, x: SlotId) {
    && x < |s.slot| == |s.worker| && x < |t.slot| == |t.worker| && |t.handles| == |s.handles|
    && (forall h: nat :: h < |s.handles| ==>
          t.handles[h].slot == s.handles[h].slot && t.handles[h].tx == s.handles[h].tx)
    && var p, p' := s.slot[x].pending, t.slot[x].pending;
       forall i: nat :: i in p' && IsOpening(p'[i]) ==>
         i in p && p'[i] == p[i] && (p[i].stage.tx in s.worker[x].txs ==> p[i].stage.tx in t.worker[x].txs)
  }

  lemma AcksStay(s: Pool, t: Pool, x: SlotId)
    requires SameAcks(s, t, x)
    ensures AckedTxs(s, x) ==> AckedTxs(t, x)
  {
  }

  lemma ClientPostTxs(s: Pool, t: Pool, x: SlotId, wait: Wait)
    requires ClientPost(s, t, x, wait) && Ids(s)
    ensures s.worker[x].alive && TxsOf(s, x) ==> TxsOf(t, x)
  {
    var p, p' := s.slot[x].pending, t.slot[x].pending;
    assert s.nextReqId !in p && p'[s.nextReqId] == Call(wait, Posted);
    forall i: nat | i in p' && i != s.nextReqId
      ensures i in p && p'[i] == p[i] && TxOf(t, p'[i].wait) == TxOf(s, p[i].wait)
    {
    }
    ClientPostHandles(s, t, x, wait);
    hide OneMore, Ids, ClientPost, MayPost;
    assert HeldTxs(s, x) ==> HeldTxs(t, x) by { hide AckedTxs, ReadyOf; }
    assert ReadyOf(s, x) ==> ReadyOf(t, x) by { hide AckedTxs, HeldTxs; }
    assert SameAcks(s, t, x) by { hide AckedTxs, ReadyOf, HeldTxs; }
    hide AckedTxs, HeldTxs, ReadyOf, SameAcks;
    AcksStay(s, t, x);
  }

  lemma ClientPostHandles(s: Pool, t: Pool, x: SlotId, wait: Wait)
    requires ClientPost(s, t, x, wait)
    ensures |t.handles| == |s.handles| && t.worker == s.worker && t.slot[x].phase == s.slot[x].phase
    ensures forall h: nat :: h < |s.handles| ==> t.handles[h].slot == s.handles[h].slot && t.handles[h].tx == s.handles[h].tx
    ensures forall h: nat :: h < |s.handles| && !t.handles[h].closed ==> !s.handles[h].closed
    ensures wait.WaitCall? || wait.WaitClose? ==>
              wait.handle < |s.handles| && s.handles[wait.handle].slot == x && !s.handles[wait.handle].closed
  {
  }

  lemma ClientPostDead(s: Pool, t: Pool, x: SlotId, wait: Wait)
    requires ClientPost(s, t, x, wait)
    ensures DeadOf(s, x) ==> DeadOf(t, x)
  {
  }

  lemma ClientPostCounts(s: Pool, t: Pool, x: SlotId, wait: Wait)
    requires ClientPost(s, t, x, wait) && Ids(s) && CountsOf(s, x)
    ensures CountsOf(t, x)
  {
    assert Unsettled(s, x) == Unsettled(t, x);
    assert Openings(s, x) == Openings(t, x) && Closings(s, x) == Closings(t, x);
  }

  lemma ClientPostSlot(s: Pool, t: Pool, x: SlotId, wait: Wait)
    requires ClientPost(s, t, x, wait) && Ids(s) && HandlesOk(s) && SlotOk(s, x) && CountsOf(s, x)
    requires s.slot[x].phase.Active? || s.slot[x].phase.Draining?
    ensures SlotOk(t, x) && CountsOf(t, x)
  {
    hide WaitsOf, CallsOf, TxsOf, DeadOf, CountsOf, Ids, HandlesOk, OneMore;
    ClientPostWaits(s, t, x, wait);
    ClientPostCalls(s, t, x, wait);
    ClientPostTxs(s, t, x, wait);
    ClientPostDead(s, t, x, wait);
    ClientPostCounts(s, t, x, wait);
  }

  lemma ClientPostFrame(s: Pool, t: Pool, x: SlotId, wait: Wait)
    requires ClientPost(s, t, x, wait) && Shape(s) && HandlesOk(s)
    ensures Shape(t) && HandlesOk(t) && OthersStay(s, t, x, x)
    ensures forall y: nat :: y < |s.slot| && y != x ==> HandlesStay(s, t, y)
  {
    forall y: nat | y < |s.slot| ensures t.slot[y].phase == s.slot[y].phase && t.slot[y].rotating == s.slot[y].rotating {
    }
    ShapeStays(s, t);
  }

  lemma ClientPostKeeps(s: Pool, t: Pool, x: SlotId, wait: Wait)
    requires Inv(s) && ClientPost(s, t, x, wait)
    requires s.slot[x].phase.Active? || s.slot[x].phase.Draining?
    ensures Inv(t)
  {
    hide SlotOk, CountsOf, Shape, Ids, HandlesOk, HandlesStay;
    assert SlotOk(s, x) && CountsOf(s, x);
    OneMoreIds(s, t, x, Call(wait, Posted));
    ClientPostSlot(s, t, x, wait);
    ClientPostFrame(s, t, x, wait);
    OthersKeep(s, t, x, x);
  }

  lemma NewTxPosts(s: Pool)
    requires Known(s) && s.slots != []
    ensures ClientPost(s, NewTx(s), PickSlot(s), WaitNewTx)
  {
    hide PickSlot;
  }

  lemma CallPosts(s: Pool, h: HandleId)
    requires h < |s.handles| && !s.handles[h].closed && s.handles[h].slot < |s.slot| == |s.worker|
    ensures ClientPost(s, CallHandle(s, h), s.handles[h].slot, WaitCall(h))
  {
  }

  lemma ClosePosts(s: Pool, h: HandleId)
    requires h < |s.handles| && !s.handles[h].closed && s.handles[h].slot < |s.slot| == |s.worker|
    ensures ClientPost(s, CloseHandle(s, h), s.handles[h].slot, WaitClose(h))
  {
  }

  lemma NewTxKeeps(s: Pool)
    requires Inv(s) && s.slots != []
    ensures Inv(NewTx(s))
  {
    PickIsActive(s);
    NewTxPosts(s);
    hide SlotOk, CountsOf, Shape, Ids, HandlesOk, PickSlot, ClientPost;
    ClientPostKeeps(s, NewTx(s), PickSlot(s), WaitNewTx);
  }

  /** The slot of a handle that is still to be closed has not been shut down. */
  lemma HandleIsServed(s: Pool, h: HandleId)
    requires Inv(s) && h < |s.handles| && !s.handles[h].settled
    ensures var x := s.handles[h].slot; x < |s.slot| && (s.slot[x].phase.Active? || s.slot[x].phase.Draining?)
  {
    var x := s.handles[h].slot;
    assert SlotOk(s, x) && CountsOf(s, x);
    assert h in Unsettled(s, x);
  }

  lemma CallHandleKeeps(s: Pool, h: HandleId)
    requires Inv(s) && h < |s.handles| && !s.handles[h].closed
    ensures Inv(CallHandle(s, h))
  {
    HandleIsServed(s, h);
    CallPosts(s, h);
    hide SlotOk, CountsOf, Ids, HandlesOk, ClientPost;
    ClientPostKeeps(s, CallHandle(s, h), s.handles[h].slot, WaitCall(h));
  }

  lemma CloseHandleKeeps(s: Pool, h: HandleId)
    requires Inv(s) && h < |s.handles|
    ensures Inv(CloseHandle(s, h))
  {
    if !s.handles[h].closed {
      HandleIsServed(s, h);
      ClosePosts(s, h);
      hide SlotOk, CountsOf, Ids, HandlesOk, ClientPost;
      ClientPostKeeps(s, CloseHandle(s, h), s.handles[h].slot, WaitClose(h));
    }
  }

  // ---------------------------------------------------------------- the worker's turn

  lemma SameKeysIds(s: Pool, t: Pool)
    requires Ids(s) && |s.slot| == |t.slot| && t.nextReqId == s.nextReqId && t.settled == s.settled
    requires forall y: nat :: y < |s.slot| ==> t.slot[y].pending.Keys == s.slot[y].pending.Keys
    ensures Ids(t)
  {
    forall y: nat, id: nat | y < |t.slot| && id in t.slot[y].pending ensures id in s.slot[y].pending {
      assert id in t.slot[y].pending.Keys;
    }
    forall id: nat | id < t.nextReqId ensures id in t.settled || PendingSomewhere(t, id) {
      if id !in s.settled {
        assert PendingSomewhere(s, id);
        var y: nat :| y < |s.slot| && id in s.slot[y].pending;
        assert id in s.slot[y].pending.Keys;
        assert id in t.slot[y].pending;
      }
    }
  }

  lemma OrderedAnswers(p: map<ReqId, Call>, id: ReqId, stage: Stage)
    requires Ordered(p) && id in p && p[id].stage.Posted? && stage.Answered?
    requires forall i: nat :: i in p && p[i].stage.Posted? ==> id <= i
    ensures Ordered(p[id := Call(p[id].wait, stage)])
  {
  }

  /** `id` is next in line at the live worker of slot `x`. */
  ghost predicate NextToWork(s: Pool, x: SlotId, id: ReqId) {
    x < |s.slot| == |s.worker| && s.worker[x].alive && FirstPosted(s, x, id)
  }

  lemma WorkerCalls(s: Pool, x: SlotId, id: ReqId, outcome: Outcome)
    requires NextToWork(s, x, id) && WaitsOf(s, x) && CallsOf(s, x)
    ensures var t := WorkerStep(s, x, id, outcome); WaitsOf(t, x) && CallsOf(t, x)
  {
    var t := WorkerStep(s, x, id, outcome);
    var p, p' := s.slot[x].pending, t.slot[x].pending;
    OrderedAnswers(p, id, p'[id].stage);
    forall i: nat | i in p' ensures i in p && p'[i].wait == p[i].wait && Owned(t, x, p'[i].wait) {
      assert Owned(s, x, p[i].wait);
    }
  }

  /** A worker asked to stop has no handle left that may use it. */
  lemma StoppingIsIdle(s: Pool, x: SlotId)
    requires HandlesOk(s) && x < |s.slot| == |s.worker| && CountsOf(s, x) && s.slot[x].busy == 0
    ensures forall h: nat :: h < |s.handles| && s.handles[h].slot == x ==> s.handles[h].settled && s.handles[h].closed
  {
    assert Unsettled(s, x) == {};
    forall h: nat | h < |s.handles| && s.handles[h].slot == x ensures s.handles[h].settled {
      assert h !in Unsettled(s, x);
    }
  }

  /** `t` is `s` after the worker of `x` became `w` and answered request `id` with `stage`. */
  ghost predicate Worked(s: Pool, t: Pool, x: SlotId, id: ReqId, w: Worker, stage: Stage) {
    && x < |s.slot| == |s.worker| == |t.slot| == |t.worker| && id in s.slot[x].pending
    && s.slot[x].pending[id].stage.Posted? && stage.Answered?
    && t.handles == s.handles && t.worker[x] == w
    && t.slot[x] == s.slot[x].(pending := s.slot[x].pending[id := Call(s.slot[x].pending[id].wait, stage)])
  }

  /** The per-slot part of the invariant for a live worker. */
  ghost predicate LiveOk(s: Pool, x: SlotId) {
    && x < |s.slot| == |s.worker| && s.worker[x].alive && HandlesOk(s)
    && WaitsOf(s, x) && CallsOf(s, x) && TxsOf(s, x) && CountsOf(s, x)
  }

  /** The reply is not a newTx or close ack: no transaction appears or disappears. */
  ghost predicate Neutral(s: Pool, t: Pool, x: SlotId, id: ReqId, w: Worker, stage: Stage) {
    && Worked(s, t, x, id, w, stage)
    && w == s.worker[x].(ready := w.ready, nextTx := w.nextTx)
    && w.nextTx >= s.worker[x].nextTx && (s.worker[x].ready ==> w.ready)
    && (s.slot[x].pending[id].wait.WaitInit? && stage.ok ==> w.ready)
    && !IsOpening(t.slot[x].pending[id]) && !IsClosing(t.slot[x].pending[id])
  }

  /** The worker lost no transaction that an open handle or a call still in line may use. */
  ghost predicate SameHeld(s: Pool, t: Pool, x: SlotId) {
    && x < |s.slot| == |s.worker| && x < |t.slot| == |t.worker| && t.handles == s.handles
    && s.worker[x].nextTx <= t.worker[x].nextTx && t.worker[x].txs <= s.worker[x].txs
    && (forall h: nat :: h < |s.handles| && s.handles[h].slot == x && !s.handles[h].closed && s.handles[h].tx in s.worker[x].txs ==>
          s.handles[h].tx in t.worker[x].txs)
    && var p, p' := s.slot[x].pending, t.slot[x].pending;
       forall i: nat :: i in p' && p'[i].stage.Posted? && (p'[i].wait.WaitCall? || p'[i].wait.WaitClose?) ==>
         i in p && p'[i] == p[i] && (TxOf(s, p[i].wait) in s.worker[x].txs ==> TxOf(s, p[i].wait) in t.worker[x].txs)
  }

  lemma HeldStays(s: Pool, t: Pool, x: SlotId)
    requires SameHeld(s, t, x)
    ensures HeldTxs(s, x) ==> HeldTxs(t, x)
  {
  }

  lemma NeutralTxs(s: Pool, t: Pool, x: SlotId, id: ReqId, w: Worker, stage: Stage)
    requires x < |s.slot| == |s.worker| && TxsOf(s, x) && Neutral(s, t, x, id, w, stage)
    ensures TxsOf(t, x)
  {
    hide AckedTxs, HeldTxs;
    var p, p' := s.slot[x].pending, t.slot[x].pending;
    forall i: nat | i in p' && (p'[i].stage.Posted? || IsOpening(p'[i])) ensures i in p && p'[i] == p[i] {
    }
    AcksStay(s, t, x);
    HeldStays(s, t, x);
  }

  lemma NeutralCounts(s: Pool, t: Pool, x: SlotId, id: ReqId, w: Worker, stage: Stage)
    requires Neutral(s, t, x, id, w, stage) && CountsOf(s, x)
    ensures CountsOf(t, x)
  {
    assert Unsettled(s, x) == Unsettled(t, x);
    assert Openings(t, x) == Openings(s, x) && Closings(t, x) == Closings(s, x);
  }

  lemma OpeningTxs(s: Pool, t: Pool, x: SlotId, id: ReqId, w: Worker)
    requires x < |s.slot| == |s.worker| && HandlesOk(s) && TxsOf(s, x)
    requires var tx := s.worker[x].nextTx + 1;
             Worked(s, t, x, id, w, Answered(true, tx)) && w == s.worker[x].(nextTx := tx, txs := s.worker[x].txs + {tx})
    requires s.slot[x].pending[id].wait.WaitNewTx?
    ensures TxsOf(t, x)
  {
    var p, p' := s.slot[x].pending, t.slot[x].pending;
    forall i: nat | i in p' && i != id ensures i in p && p'[i] == p[i] && TxOf(t, p'[i].wait) == TxOf(s, p[i].wait) {
    }
    forall i: nat | i in p' && IsOpening(p'[i]) ensures p'[i].stage.tx in w.txs && (i != id ==> p'[i].stage.tx < w.nextTx) {
      assert i != id ==> p[i].stage.tx in s.worker[x].txs;
    }
  }

  lemma OpeningCounts(s: Pool, t: Pool, x: SlotId, id: ReqId, w: Worker)
    requires x < |s.slot| == |s.worker| && CountsOf(s, x) && s.worker[x].nextTx + 1 !in s.worker[x].txs
    requires var tx := s.worker[x].nextTx + 1;
             Worked(s, t, x, id, w, Answered(true, tx)) && w == s.worker[x].(nextTx := tx, txs := s.worker[x].txs + {tx})
    requires s.slot[x].pending[id].wait.WaitNewTx?
    ensures CountsOf(t, x)
  {
    assert Unsettled(s, x) == Unsettled(t, x);
    assert Openings(t, x) == Openings(s, x) + {id} && Closings(t, x) == Closings(s, x);
  }

  /** A handled close: the transaction leaves `txs`, or stays behind when its release traps. */
  ghost predicate Released(s: Pool, t: Pool, x: SlotId, id: ReqId, w: Worker, stage: Stage) {
    && Worked(s, t, x, id, w, stage) && s.slot[x].pending[id].wait.WaitClose?
    && var tx := TxOf(s, s.slot[x].pending[id].wait);
       w == s.worker[x].(txs := s.worker[x].txs - {tx}) || w == s.worker[x].(trapped := s.worker[x].trapped + 1)
  }

  /** The first message in line closes a transaction that no other message in line is about. */
  lemma OtherTx(s: Pool, x: SlotId, id: ReqId, i: ReqId)
    requires x < |s.slot| && HandlesOk(s) && CallsOf(s, x) && FirstPosted(s, x, id)
    requires s.slot[x].pending[id].wait.WaitClose? && i in s.slot[x].pending && i != id
    requires var c := s.slot[x].pending[i]; c.stage.Posted? && (c.wait.WaitCall? || c.wait.WaitClose?)
    ensures TxOf(s, s.slot[x].pending[i].wait) != TxOf(s, s.slot[x].pending[id].wait)
  {
    var p := s.slot[x].pending;
    assert Owned(s, x, p[i].wait) && Owned(s, x, p[id].wait);
    assert !SameClose(p[i].wait, p[id].wait) && !CallThenClose(p[i].wait, p[id].wait);
  }

  lemma ReleaseTxs(s: Pool, t: Pool, x: SlotId, id: ReqId, w: Worker, stage: Stage)
    requires x < |s.slot| == |s.worker| && HandlesOk(s) && TxsOf(s, x) && CallsOf(s, x)
    requires Released(s, t, x, id, w, stage) && FirstPosted(s, x, id)
    ensures TxsOf(t, x)
  {
    assert Owned(s, x, s.slot[x].pending[id].wait);
    hide AckedTxs, HeldTxs, CallsOf, HandlesOk, FirstPosted;
    ReleasedAcks(s, t, x, id, w, stage);
    AcksStay(s, t, x);
    ReleasedHeld(s, t, x, id, w, stage);
    HeldStays(s, t, x);
  }

  lemma ReleasedHeld(s: Pool, t: Pool, x: SlotId, id: ReqId, w: Worker, stage: Stage)
    requires x < |s.slot| == |s.worker| && HandlesOk(s) && CallsOf(s, x)
    requires Released(s, t, x, id, w, stage) && FirstPosted(s, x, id)
    ensures SameHeld(s, t, x)
  {
    var p, p' := s.slot[x].pending, t.slot[x].pending;
    assert Owned(s, x, p[id].wait);
    forall i: nat | i in p' && p'[i].stage.Posted? && (p'[i].wait.WaitCall? || p'[i].wait.WaitClose?)
      ensures i in p && p'[i] == p[i] && TxOf(s, p[i].wait) != TxOf(s, p[id].wait)
    {
      OtherTx(s, x, id, i);
    }
    hide CallsOf, FirstPosted;
  }

  lemma ReleasedAcks(s: Pool, t: Pool, x: SlotId, id: ReqId, w: Worker, stage: Stage)
    requires x < |s.slot| == |s.worker| && AckedTxs(s, x)
    requires Released(s, t, x, id, w, stage) && Owned(s, x, s.slot[x].pending[id].wait)
    ensures SameAcks(s, t, x)
  {
    var p, p' := s.slot[x].pending, t.slot[x].pending;
    forall i: nat | i in p' && IsOpening(p'[i]) ensures i in p && p'[i] == p[i] && p[i].stage.tx in w.txs {
      assert i != id;
      assert p[i].stage.tx != s.handles[p[id].wait.handle].tx;
    }
  }

  lemma ReleaseCounts(s: Pool, t: Pool, x: SlotId, id: ReqId, w: Worker, stage: Stage)
    requires Released(s, t, x, id, w, stage) && CountsOf(s, x)
    requires TxOf(s, s.slot[x].pending[id].wait) in s.worker[x].txs
    ensures CountsOf(t, x)
  {
    assert Unsettled(s, x) == Unsettled(t, x);
    assert Openings(t, x) == Openings(s, x) && Closings(t, x) == Closings(s, x) + {id};
  }

  lemma ShutdownWork(s: Pool, t: Pool, x: SlotId, id: ReqId, w: Worker, stage: Stage)
    requires LiveOk(s, x) && Worked(s, t, x, id, w, stage) && s.slot[x].phase.Stopping?
    requires w == s.worker[x].(txs := {}, trapped := 0)
    ensures TxsOf(t, x) && CountsOf(t, x)
  {
    StoppingIsIdle(s, x);
    assert Unsettled(s, x) == Unsettled(t, x);
    assert Openings(t, x) == {} && Closings(t, x) == {};
  }

  lemma TxFacts(s: Pool, x: SlotId, id: ReqId)
    requires LiveOk(s, x) && id in s.slot[x].pending && s.slot[x].pending[id].stage.Posted?
    ensures s.worker[x].nextTx + 1 !in s.worker[x].txs
    ensures var wait := s.slot[x].pending[id].wait; wait.WaitCall? || wait.WaitClose? ==> TxOf(s, wait) in s.worker[x].txs
  {
  }

  lemma WorkerSlot(s: Pool, x: SlotId, id: ReqId, outcome: Outcome)
    requires LiveOk(s, x) && NextToWork(s, x, id)
    ensures var t := WorkerStep(s, x, id, outcome); TxsOf(t, x) && CountsOf(t, x)
  {
    hide WaitsOf, CallsOf, TxsOf, CountsOf, HandlesOk, TxOf;
    var t := WorkerStep(s, x, id, outcome);
    var wait := s.slot[x].pending[id].wait;
    var (w, stage) := Work(s.worker[x], wait, TxOf(s, wait), outcome);
    TxFacts(s, x, id);
    assert Worked(s, t, x, id, w, stage);
    hide WorkerStep;
    match wait
    case WaitInit => NeutralWork(s, t, x, id, w, stage);
    case WaitNewTx =>
      if s.worker[x].ready && outcome.Fine? {
        OpeningTxs(s, t, x, id, w);
        OpeningCounts(s, t, x, id, w);
      } else {
        NeutralWork(s, t, x, id, w, stage);
      }
    case WaitCall(_) => NeutralWork(s, t, x, id, w, stage);
    case WaitClose(_) =>
      hide Worked;
      ReleaseTxs(s, t, x, id, w, stage);
      ReleaseCounts(s, t, x, id, w, stage);
    case WaitShutdown =>
      InitingHasOne(s, x, id);
      ShutdownWork(s, t, x, id, w, stage);
  }

  lemma NeutralWork(s: Pool, t: Pool, x: SlotId, id: ReqId, w: Worker, stage: Stage)
    requires LiveOk(s, x) && Neutral(s, t, x, id, w, stage)
    ensures TxsOf(t, x) && CountsOf(t, x)
  {
    hide TxsOf, CountsOf;
    NeutralTxs(s, t, x, id, w, stage);
    NeutralCounts(s, t, x, id, w, stage);
  }

  /** Everything but slot `x` and its worker is the same. */
  ghost predicate OnlySlot(s: Pool, t: Pool, x: SlotId) {
    && |s.slot| == |t.slot| && |s.worker| == |t.worker|
    && t.slots == s.slots && t.draining == s.draining && t.handles == s.handles
    && (forall y: nat :: y < |s.slot| && y != x ==> t.slot[y] == s.slot[y])
    && (forall y: nat :: y < |s.worker| && y != x ==> t.worker[y] == s.worker[y])
  }

  lemma OnlySlotKeeps(s: Pool, t: Pool, x: SlotId)
    requires Inv(s) && OnlySlot(s, t, x) && Shape(t) && Ids(t) && x < |s.slot|
    requires SlotOk(t, x) && CountsOf(t, x)
    ensures Inv(t)
  {
    SameHandlesOk(s, t);
    hide SlotOk, CountsOf, Shape, Ids, HandlesOk;
    forall y: nat | y < |t.slot| ensures SlotOk(t, y) && CountsOf(t, y) {
      if y != x {
        assert SlotOk(s, y) && CountsOf(s, y);
        UntouchedKeeps(s, t, y);
      }
    }
  }

  lemma WorkerShape(s: Pool, x: SlotId, id: ReqId, outcome: Outcome)
    requires Shape(s) && Ids(s) && NextToWork(s, x, id)
    ensures var t := WorkerStep(s, x, id, outcome); OnlySlot(s, t, x) && Shape(t) && Ids(t) && t.worker[x].alive
  {
    var t := WorkerStep(s, x, id, outcome);
    WorkerTouches(s, x, id, outcome);
    SameKeysIds(s, t);
    ShapeStays(s, t);
  }

  lemma WorkerTouches(s: Pool, x: SlotId, id: ReqId, outcome: Outcome)
    requires NextToWork(s, x, id)
    ensures var t := WorkerStep(s, x, id, outcome);
            && OnlySlot(s, t, x) && t.worker[x].alive && t.slot[x] == s.slot[x].(pending := t.slot[x].pending)
            && t.slot[x].pending.Keys == s.slot[x].pending.Keys && t.nextReqId == s.nextReqId && t.settled == s.settled
  {
  }

  lemma WorkerKeeps(s: Pool, x: SlotId, id: ReqId, outcome: Outcome)
    requires Inv(s) && NextToWork(s, x, id)
    ensures Inv(WorkerStep(s, x, id, outcome))
  {
    hide WaitsOf, CallsOf, TxsOf, CountsOf, Shape, Ids, HandlesOk, Work;
    assert SlotOk(s, x) && CountsOf(s, x);
    WorkerShape(s, x, id, outcome);
    WorkerCalls(s, x, id, outcome);
    WorkerSlot(s, x, id, outcome);
    OnlySlotKeeps(s, WorkerStep(s, x, id, outcome), x);
  }

  // ---------------------------------------------------------------- settling a request

  /** `t` is `s` with request `id` of slot `x` forgotten and settled; slot `x` may change its counters and phase. */
  ghost predicate Forgot(s: Pool, t: Pool, x: SlotId, id: ReqId) {
    && x < |s.slot| == |s.worker| && |t.slot| == |t.worker| && OneLess(s, t, x, id)
  }

  lemma OrderedShrinks(p: map<ReqId, Call>, id: ReqId)
    requires Ordered(p)
    ensures Ordered(p - {id})
  {
  }

  /** Shape speaks of phases and latches only. */
  lemma ShapeStays(s: Pool, t: Pool)
    requires Shape(s) && |t.slot| == |t.worker| == |s.slot| && t.slots == s.slots && t.draining == s.draining
    requires forall y: nat :: y < |s.slot| ==> t.slot[y].phase == s.slot[y].phase && (s.slot[y].rotating ==> t.slot[y].rotating)
    ensures Shape(t)
  {
  }

  /** A latched slot without a replacement gets one. */
  lemma ShapeSpawns(s: Pool, x: SlotId)
    requires Shape(s) && x < |s.slot| && s.slot[x].phase.Active? && s.slot[x].rotating
    requires forall y: nat :: y < |s.slot| ==> !SamePrior(s.slot[y].phase, Booting(x))
    ensures Shape(Spawn(s, x))
  {
    var t := Spawn(s, x);
    forall y: nat | y < |s.slot| ensures t.slot[y] == s.slot[y] {
    }
    SpawnPriors(s, t, x);
    hide SamePrior;
  }

  lemma SpawnPriors(s: Pool, t: Pool, x: SlotId)
    requires Shape(s) && t == Spawn(s, x) && forall y: nat :: y < |s.slot| ==> !SamePrior(s.slot[y].phase, Booting(x))
    ensures forall y: nat, z: nat :: y < |t.slot| && z < |t.slot| && SamePrior(t.slot[y].phase, t.slot[z].phase) ==> y == z
    ensures IsPreparing(t.slot[|s.slot|].phase)
  {
    assert forall y: nat :: y < |s.slot| ==> t.slot[y] == s.slot[y];
  }

  /** Forgetting a request that neither opens nor closes a transaction. */
  lemma ForgetCalls(s: Pool, t: Pool, x: SlotId, id: ReqId)
    requires Forgot(s, t, x, id) && WaitsOf(s, x) && CallsOf(s, x)
    requires t.slot[x] == s.slot[x].(pending := t.slot[x].pending) && t.handles == s.handles
    ensures WaitsOf(t, x) && CallsOf(t, x)
  {
    var p, p' := s.slot[x].pending, t.slot[x].pending;
    OrderedShrinks(p, id);
    forall i: nat | i in p' ensures i in p && p'[i] == p[i] && Owned(t, x, p'[i].wait) {
      assert Owned(s, x, p[i].wait);
    }
  }

  lemma ForgetTxs(s: Pool, t: Pool, x: SlotId, id: ReqId)
    requires Forgot(s, t, x, id)
    requires t.slot[x] == s.slot[x].(pending := t.slot[x].pending) && t.handles == s.handles && t.worker[x] == s.worker[x]
    ensures TxsOf(s, x) ==> TxsOf(t, x)
    ensures DeadOf(s, x) ==> DeadOf(t, x)
  {
    var p, p' := s.slot[x].pending, t.slot[x].pending;
    forall i: nat | i in p' ensures i in p && p'[i] == p[i] && TxOf(t, p'[i].wait) == TxOf(s, p[i].wait) {
    }
  }

  lemma ForgetCounts(s: Pool, t: Pool, x: SlotId, id: ReqId)
    requires Forgot(s, t, x, id) && CountsOf(s, x)
    requires t.slot[x] == s.slot[x].(pending := t.slot[x].pending) && t.handles == s.handles && t.worker[x] == s.worker[x]
    requires !IsOpening(s.slot[x].pending[id]) && !IsClosing(s.slot[x].pending[id])
    ensures CountsOf(t, x)
  {
    assert Unsettled(s, x) == Unsettled(t, x);
    assert Openings(t, x) == Openings(s, x) && Closings(t, x) == Closings(s, x);
  }

  /** `t` is `s` after close() of handle `h` came back. */
  ghost predicate CloseBack(s: Pool, t: Pool, x: SlotId, id: ReqId, h: HandleId) {
    && Forgot(s, t, x, id) && h < |s.handles| && s.slot[x].pending[id].wait == WaitClose(h)
    && t.slot[x] == s.slot[x].(pending := t.slot[x].pending,
                               busy := if s.slot[x].busy == 0 then 0 else s.slot[x].busy - 1)
    && t.worker[x] == s.worker[x] && t.handles == s.handles[h := s.handles[h].(settled := true)]
  }

  lemma CloseBackCalls(s: Pool, t: Pool, x: SlotId, id: ReqId, h: HandleId)
    requires CloseBack(s, t, x, id, h) && WaitsOf(s, x) && CallsOf(s, x)
    ensures WaitsOf(t, x) && CallsOf(t, x)
  {
    var p, p' := s.slot[x].pending, t.slot[x].pending;
    OrderedShrinks(p, id);
    forall i: nat | i in p' ensures i in p && p'[i] == p[i] && Owned(t, x, p'[i].wait) {
      assert Owned(s, x, p[i].wait) && !SameClose(p[i].wait, p[id].wait);
    }
  }

  lemma CloseBackTxs(s: Pool, t: Pool, x: SlotId, id: ReqId, h: HandleId)
    requires CloseBack(s, t, x, id, h)
    ensures TxsOf(s, x) ==> TxsOf(t, x)
    ensures DeadOf(s, x) ==> DeadOf(t, x)
  {
    var p, p' := s.slot[x].pending, t.slot[x].pending;
    forall i: nat | i in p' ensures i in p && p'[i] == p[i] && TxOf(t, p'[i].wait) == TxOf(s, p[i].wait) {
    }
  }

  /** The clamp at zero never bites: the closing handle was still counted. */
  lemma CloseBackCounts(s: Pool, t: Pool, x: SlotId, id: ReqId, h: HandleId)
    requires CloseBack(s, t, x, id, h) && CallsOf(s, x) && CountsOf(s, x)
    requires s.worker[x].alive ==> s.slot[x].pending[id].stage.Answered?
    ensures s.slot[x].busy > 0 && CountsOf(t, x)
  {
    assert Owned(s, x, s.slot[x].pending[id].wait);
    assert h in Unsettled(s, x);
    assert Unsettled(t, x) == Unsettled(s, x) - {h};
    assert Openings(t, x) == Openings(s, x);
    assert Closings(t, x) == Closings(s, x) - {id};
    if s.worker[x].alive {
      assert id in Closings(s, x);
    }
  }

  /** `t` is `s` after newTransaction got transaction `tx`; a replacement may have been spawned at the end. */
  ghost predicate OpenBack(s: Pool, t: Pool, x: SlotId, id: ReqId, tx: TxId) {
    && Forgot(s, t, x, id) && s.slot[x].pending[id] == Call(WaitNewTx, Answered(true, tx))
    && t.slot[x] == s.slot[x].(pending := t.slot[x].pending, busy := s.slot[x].busy + 1, rotating := t.slot[x].rotating)
    && t.worker[x] == s.worker[x] && t.handles == s.handles + [Handle(x, tx, false, false)]
  }

  lemma OpenBackCalls(s: Pool, t: Pool, x: SlotId, id: ReqId, tx: TxId)
    requires OpenBack(s, t, x, id, tx) && WaitsOf(s, x) && CallsOf(s, x)
    ensures WaitsOf(t, x) && CallsOf(t, x)
  {
    var p, p' := s.slot[x].pending, t.slot[x].pending;
    OrderedShrinks(p, id);
    assert ServesClients(p[id].wait);
    forall i: nat | i in p' ensures i in p && p'[i] == p[i] && Owned(t, x, p'[i].wait) {
      assert Owned(s, x, p[i].wait);
    }
  }

  lemma OpenBackTxs(s: Pool, t: Pool, x: SlotId, id: ReqId, tx: TxId)
    requires OpenBack(s, t, x, id, tx) && CallsOf(s, x) && TxsOf(s, x)
    ensures TxsOf(t, x)
  {
    var p, p' := s.slot[x].pending, t.slot[x].pending;
    assert IsOpening(p[id]);
    forall i: nat | i in p' ensures i in p && i != id && p'[i] == p[i] && TxOf(t, p'[i].wait) == TxOf(s, p[i].wait) {
      assert Owned(s, x, p[i].wait);
    }
    hide CallsOf;
    assert HeldTxs(t, x) by { assert tx in s.worker[x].txs; hide AckedTxs, ReadyOf; }
    assert AckedTxs(t, x) by { hide HeldTxs, ReadyOf; }
    hide AckedTxs, HeldTxs;
  }

  lemma OpenBackCounts(s: Pool, t: Pool, x: SlotId, id: ReqId, tx: TxId)
    requires OpenBack(s, t, x, id, tx) && CountsOf(s, x)
    ensures CountsOf(t, x)
  {
    var g := |s.handles|;
    assert Unsettled(t, x) == Unsettled(s, x) + {g};
    assert g !in Unsettled(s, x);
    assert Openings(t, x) == Openings(s, x) - {id};
    assert id in Openings(s, x);
    assert Closings(t, x) == Closings(s, x);
  }

  lemma OpenBackHandles(s: Pool, t: Pool, x: SlotId, id: ReqId, tx: TxId)
    requires OpenBack(s, t, x, id, tx) && HandlesOk(s) && TxsOf(s, x) && |s.slot| <= |t.slot|
    ensures HandlesOk(t)
  {
    assert IsOpening(s.slot[x].pending[id]);
    forall h: nat | h < |s.handles| && s.handles[h].slot == x ensures s.handles[h].tx != tx {
    }
  }

  // ---------------------------------------------------------------- replies, by what was awaited

  /** All slots but `x` and `z` kept their record and worker; slots may have been spawned. */
  ghost predicate OthersStay(s: Pool, t: Pool, x: SlotId, z: SlotId) {
    && |s.slot| == |s.worker| <= |t.slot| == |t.worker|
    && (forall y: nat :: y < |s.slot| && y != x && y != z ==> t.slot[y] == s.slot[y] && t.worker[y] == s.worker[y])
  }

  lemma OthersKeep(s: Pool, t: Pool, x: SlotId, z: SlotId)
    requires Inv(s) && OthersStay(s, t, x, z) && x < |s.slot| && z < |s.slot|
    requires Shape(t) && Ids(t) && HandlesOk(t)
    requires forall y: nat :: y < |s.slot| && y != x && y != z ==> HandlesStay(s, t, y)
    requires SlotOk(t, x) && CountsOf(t, x) && SlotOk(t, z) && CountsOf(t, z)
    requires forall y: nat :: |s.slot| <= y < |t.slot| ==> SlotOk(t, y) && CountsOf(t, y)
    ensures Inv(t)
  {
    hide SlotOk, CountsOf;
    forall y: nat | y < |t.slot| ensures SlotOk(t, y) && CountsOf(t, y) {
      if y < |s.slot| && y != x && y != z {
        assert SlotOk(s, y) && CountsOf(s, y);
        UntouchedKeeps(s, t, y);
      }
    }
  }

  /** A reply that only resolves its promise. */
  lemma PlainReplyKeeps(s: Pool, x: SlotId, id: ReqId)
    requires Inv(s) && x < |s.slot| && id in s.slot[x].pending
    requires !IsOpening(s.slot[x].pending[id]) && !s.slot[x].pending[id].wait.WaitClose?
    ensures Inv(Forget(s, x, id))
  {
    assert SlotOk(s, x) && CountsOf(s, x);
    hide SlotOk, CountsOf, Shape, Ids, HandlesOk;
    var t := Forget(s, x, id);
    ForgetFacts(s, x, id);
    ShapeStays(s, t);
    OneLessIds(s, t, x, id);
    ForgetSlot(s, t, x, id);
    SameHandlesOk(s, t);
    OthersKeep(s, t, x, x);
  }

  lemma ForgetFacts(s: Pool, x: SlotId, id: ReqId)
    requires x < |s.slot| == |s.worker| && id in s.slot[x].pending
    ensures var t := Forget(s, x, id);
            && Forgot(s, t, x, id) && OthersStay(s, t, x, x) && |t.slot| == |s.slot|
            && t.slot[x] == s.slot[x].(pending := t.slot[x].pending) && t.handles == s.handles && t.worker == s.worker
            && (forall y: nat :: y < |s.slot| ==>
                  t.slot[y].phase == s.slot[y].phase && t.slot[y].rotating == s.slot[y].rotating)
            && (forall y: nat :: y < |s.slot| && y != x ==> HandlesStay(s, t, y))
  {
  }

  lemma ForgetSlot(s: Pool, t: Pool, x: SlotId, id: ReqId)
    requires Forgot(s, t, x, id) && SlotOk(s, x) && CountsOf(s, x)
    requires t.slot[x] == s.slot[x].(pending := t.slot[x].pending) && t.handles == s.handles && t.worker[x] == s.worker[x]
    requires !IsOpening(s.slot[x].pending[id]) && !IsClosing(s.slot[x].pending[id])
    ensures SlotOk(t, x) && CountsOf(t, x)
  {
    hide WaitsOf, CallsOf, TxsOf, DeadOf, CountsOf, OneLess;
    ForgetCalls(s, t, x, id);
    ForgetTxs(s, t, x, id);
    ForgetCounts(s, t, x, id);
  }

  lemma ClosedIsCloseBack(s: Pool, x: SlotId, id: ReqId, h: HandleId)
    requires x < |s.slot| == |s.worker| && h < |s.handles| && s.handles[h].slot == x
    requires id in s.slot[x].pending && s.slot[x].pending[id].wait == WaitClose(h)
    ensures var t := Closed(Forget(s, x, id), x, h);
            CloseBack(s, t, x, id, h) && OthersStay(s, t, x, x) && |t.slot| == |s.slot| &&
            (forall y: nat :: y < |s.slot| && y != x ==> HandlesStay(s, t, y)) &&
            t.slots == s.slots && t.draining == s.draining
  {
  }

  lemma CloseBackKeeps(s: Pool, t: Pool, x: SlotId, id: ReqId, h: HandleId)
    requires Inv(s) && CloseBack(s, t, x, id, h) && OthersStay(s, t, x, x) && |t.slot| == |s.slot|
    requires forall y: nat :: y < |s.slot| && y != x ==> HandlesStay(s, t, y)
    requires t.slots == s.slots && t.draining == s.draining && s.handles[h].closed
    requires s.worker[x].alive ==> s.slot[x].pending[id].stage.Answered?
    ensures s.slot[x].busy > 0 && Inv(t)
  {
    hide SlotOk, CountsOf, Shape, Ids, HandlesOk, HandlesStay;
    assert SlotOk(s, x) && CountsOf(s, x);
    ShapeStays(s, t);
    OneLessIds(s, t, x, id);
    CloseBackSlot(s, t, x, id, h);
    CloseBackHandles(s, t, x, id, h);
    OthersKeep(s, t, x, x);
  }

  lemma CloseBackHandles(s: Pool, t: Pool, x: SlotId, id: ReqId, h: HandleId)
    requires HandlesOk(s) && CloseBack(s, t, x, id, h) && |t.slot| == |s.slot| && s.handles[h].closed
    ensures HandlesOk(t)
  {
  }

  lemma CloseBackSlot(s: Pool, t: Pool, x: SlotId, id: ReqId, h: HandleId)
    requires CloseBack(s, t, x, id, h) && SlotOk(s, x) && CountsOf(s, x)
    requires s.worker[x].alive ==> s.slot[x].pending[id].stage.Answered?
    ensures s.slot[x].busy > 0 && SlotOk(t, x) && CountsOf(t, x)
  {
    hide WaitsOf, CallsOf, TxsOf, DeadOf, CountsOf, OneLess;
    CloseBackCalls(s, t, x, id, h);
    CloseBackTxs(s, t, x, id, h);
    CloseBackCounts(s, t, x, id, h);
  }

  lemma CloseReplyKeeps(s: Pool, x: SlotId, id: ReqId, h: HandleId)
    requires Inv(s) && x < |s.slot| && id in s.slot[x].pending && s.slot[x].pending[id].wait == WaitClose(h)
    requires s.worker[x].alive ==> s.slot[x].pending[id].stage.Answered?
    ensures h < |s.handles| && s.slot[x].busy > 0 && Inv(Closed(Forget(s, x, id), x, h))
  {
    assert Owned(s, x, s.slot[x].pending[id].wait) by { assert SlotOk(s, x); }
    ClosedIsCloseBack(s, x, id, h);
    CloseBackKeeps(s, Closed(Forget(s, x, id), x, h), x, id, h);
  }

  lemma FreshSlotOk(t: Pool, r: SlotId)
    requires r < |t.slot| == |t.worker| && t.slot[r].phase.Booting? && t.slot[r].busy == 0 && t.slot[r].pending == map[]
    requires t.worker[r] == Worker(true, false, {}, 0, 0)
    requires forall h: nat :: h < |t.handles| ==> t.handles[h].slot != r
    ensures SlotOk(t, r) && CountsOf(t, r)
  {
    assert Unsettled(t, r) == {} && Openings(t, r) == {} && Closings(t, r) == {};
  }

  /** The counters, the latch and the handle list after newTransaction, before any replacement is spawned. */
  function Counted(s: Pool, x: SlotId, id: ReqId, tx: TxId): Pool
    requires x < |s.slot| && id in s.slot[x].pending
  {
    var s1 := Forget(s, x, id);
    var sl := s1.slot[x];
    s1.(slot := s1.slot[x := sl.(busy := sl.busy + 1, rotating := sl.rotating || (s.max != 0 && sl.requests >= s.max))],
        handles := s1.handles + [Handle(x, tx, false, false)])
  }

  lemma CountedIsOpenBack(s: Pool, x: SlotId, id: ReqId, tx: TxId)
    requires x < |s.slot| == |s.worker|
    requires id in s.slot[x].pending && s.slot[x].pending[id] == Call(WaitNewTx, Answered(true, tx))
    ensures var t := Counted(s, x, id, tx);
            OpenBack(s, t, x, id, tx) && OthersStay(s, t, x, x) && |t.slot| == |s.slot| &&
            (forall y: nat :: y < |s.slot| ==> t.slot[y].phase == s.slot[y].phase) &&
            (forall y: nat :: y < |s.slot| && s.slot[y].rotating ==> t.slot[y].rotating) &&
            (forall y: nat :: y < |s.slot| && y != x ==> HandlesStay(s, t, y)) &&
            t.slots == s.slots && t.draining == s.draining && (s.slot[x].rotating ==> t.slot[x].rotating)
  {
  }

  lemma CountedSlot(s: Pool, t: Pool, x: SlotId, id: ReqId, tx: TxId)
    requires OpenBack(s, t, x, id, tx) && s.worker[x].alive && SlotOk(s, x) && CountsOf(s, x)
    ensures SlotOk(t, x) && CountsOf(t, x)
  {
    hide WaitsOf, CallsOf, TxsOf, DeadOf, CountsOf, OneLess;
    OpenBackCalls(s, t, x, id, tx);
    OpenBackTxs(s, t, x, id, tx);
    OpenBackCounts(s, t, x, id, tx);
  }

  lemma CountedKeeps(s: Pool, x: SlotId, id: ReqId, tx: TxId)
    requires Inv(s) && x < |s.slot| && s.worker[x].alive
    requires id in s.slot[x].pending && s.slot[x].pending[id] == Call(WaitNewTx, Answered(true, tx))
    ensures Inv(Counted(s, x, id, tx))
  {
    assert SlotOk(s, x) && CountsOf(s, x);
    assert TxsOf(s, x);
    hide SlotOk, CountsOf, TxsOf, Shape, Ids, HandlesOk, HandlesStay;
    var t := Counted(s, x, id, tx);
    CountedIsOpenBack(s, x, id, tx);
    ShapeStays(s, t);
    OneLessIds(s, t, x, id);
    CountedSlot(s, t, x, id, tx);
    OpenBackHandles(s, t, x, id, tx);
    OthersKeep(s, t, x, x);
  }

  lemma SpawnIds(s: Pool, x: SlotId)
    requires Ids(s)
    ensures Ids(Spawn(s, x))
  {
    var t := Spawn(s, x);
    forall id: nat | id < t.nextReqId && id !in t.settled ensures PendingSomewhere(t, id) {
      assert PendingSomewhere(s, id);
      var y: nat :| y < |s.slot| && id in s.slot[y].pending;
      assert id in t.slot[y].pending;
    }
  }

  lemma SpawnKeeps(s: Pool, x: SlotId)
    requires Inv(s) && x < |s.slot| && s.slot[x].phase.Active? && s.slot[x].rotating
    requires forall y: nat :: y < |s.slot| ==> !SamePrior(s.slot[y].phase, Booting(x))
    ensures Inv(Spawn(s, x))
  {
    hide SlotOk, CountsOf, Ids, HandlesOk, HandlesStay, Untouched, SamePrior;
    assert |s.slot| == |s.worker|;
    assert SlotOk(s, x) && CountsOf(s, x);
    hide Shape;
    var t := Spawn(s, x);
    ShapeSpawns(s, x);
    SpawnIds(s, x);
    SpawnFacts(s, x);
    FreshSlotOk(t, |s.slot|);
    UntouchedKeeps(s, t, x);
    hide Spawn;
    OthersKeep(s, t, x, x);
  }

  lemma SpawnFacts(s: Pool, x: SlotId)
    requires HandlesOk(s) && x < |s.slot| == |s.worker|
    ensures var t := Spawn(s, x);
            && OthersStay(s, t, x, x) && HandlesOk(t) && Untouched(s, t, x) && |t.slot| == |s.slot| + 1
            && (forall y: nat :: y < |s.slot| && y != x ==> HandlesStay(s, t, y))
            && (forall h: nat :: h < |t.handles| ==> t.handles[h].slot != |s.slot|)
  {
  }

  lemma OpenedInTwoSteps(s: Pool, x: SlotId, id: ReqId, tx: TxId)
    requires x < |s.slot| == |s.worker| && id in s.slot[x].pending
    ensures var sl := s.slot[x];
            var due := !sl.rotating && s.max != 0 && sl.requests >= s.max;
            var c := Counted(s, x, id, tx);
            Opened(Forget(s, x, id), x, tx) == if due then Spawn(c, x) else c
  {
  }

  lemma NoReplacementYet(s: Pool, x: SlotId)
    requires Shape(s) && x < |s.slot| && !s.slot[x].rotating
    ensures forall y: nat :: y < |s.slot| ==> !SamePrior(s.slot[y].phase, Booting(x))
  {
  }

  lemma LatchIsActive(s: Pool, x: SlotId, id: ReqId)
    requires Shape(s) && x < |s.slot| && WaitsOf(s, x) && id in s.slot[x].pending
    requires ServesClients(s.slot[x].pending[id].wait) && !s.slot[x].rotating
    ensures s.slot[x].phase.Active?
  {
  }

  /** newTransaction() comes back; when its worker is due, exactly one replacement is spawned for it. */
  lemma OpenReplyKeeps(s: Pool, x: SlotId, id: ReqId, tx: TxId)
    requires Inv(s) && x < |s.slot| && s.worker[x].alive
    requires id in s.slot[x].pending && s.slot[x].pending[id] == Call(WaitNewTx, Answered(true, tx))
    ensures Inv(Opened(Forget(s, x, id), x, tx))
  {
    var sl := s.slot[x];
    var c := Counted(s, x, id, tx);
    CountedKeeps(s, x, id, tx);
    CountedIsOpenBack(s, x, id, tx);
    OpenedInTwoSteps(s, x, id, tx);
    if !sl.rotating && s.max != 0 && sl.requests >= s.max {
      assert WaitsOf(s, x) by { assert SlotOk(s, x); }
      LatchIsActive(s, x, id);
      hide SlotOk, CountsOf, Shape, Ids, HandlesOk, HandlesStay, WaitsOf;
      NoReplacementYet(s, x);
      SpawnKeeps(c, x);
    }
  }

  // ---------------------------------------------------------------- the life of a replaced worker

  /** No client request is pending: at most an init or a shutdown of the pool's own. */
  predicate OwnWait(wait: Wait) {
    wait.WaitInit? || wait.WaitShutdown?
  }

  ghost predicate Quiet(p: map<ReqId, Call>) {
    forall id: nat :: id in p ==> OwnWait(p[id].wait)
  }

  /** Slot `x` moves on in its life cycle with no client involved. */
  ghost predicate Moves(s: Pool, t: Pool, x: SlotId) {
    && x < |s.slot| == |s.worker| && x < |t.slot| == |t.worker| && t.handles == s.handles
    && t.slot[x].busy == s.slot[x].busy && Quiet(s.slot[x].pending) && Quiet(t.slot[x].pending)
    && (t.worker[x] == s.worker[x] || t.worker[x] == s.worker[x].(alive := false))
  }

  lemma MovesCounts(s: Pool, t: Pool, x: SlotId)
    requires Moves(s, t, x) && CountsOf(s, x)
    ensures CountsOf(t, x)
  {
    assert Unsettled(s, x) == Unsettled(t, x);
    assert Openings(s, x) == {} && Closings(s, x) == {} && Openings(t, x) == {} && Closings(t, x) == {};
  }

  lemma MovesTxs(s: Pool, t: Pool, x: SlotId)
    requires Moves(s, t, x) && TxsOf(s, x)
    requires t.slot[x].phase.Active? || t.slot[x].phase.Draining? ==> t.worker[x].ready
    requires forall id: nat :: id in t.slot[x].pending ==> t.slot[x].pending[id].stage.Posted?
    ensures TxsOf(t, x)
  {
  }

  lemma MovesCalls(s: Pool, t: Pool, x: SlotId)
    requires Moves(s, t, x)
    requires forall id: nat :: id in t.slot[x].pending ==> t.slot[x].pending[id].stage.Posted?
    ensures CallsOf(t, x)
  {
  }

  /** Slot `x` settles in its new phase. */
  lemma MovedSlot(s: Pool, t: Pool, x: SlotId)
    requires Moves(s, t, x) && SlotOk(s, x) && CountsOf(s, x) && WaitsOf(t, x)
    requires t.slot[x].phase.Active? || t.slot[x].phase.Draining? ==> t.worker[x].ready || !t.worker[x].alive
    requires forall id: nat :: id in t.slot[x].pending ==> t.slot[x].pending[id].stage.Posted?
    ensures SlotOk(t, x) && CountsOf(t, x)
  {
    hide WaitsOf, CallsOf, TxsOf, CountsOf;
    MovesCounts(s, t, x);
    MovesCalls(s, t, x);
    if t.worker[x].alive {
      MovesTxs(s, t, x);
    }
  }

  /** The old worker keeps serving its clients, whatever its phase and latch become. */
  lemma PriorSlot(s: Pool, t: Pool, z: SlotId)
    requires z < |s.slot| == |s.worker| && z < |t.slot| == |t.worker| && t.handles == s.handles
    requires SlotOk(s, z) && CountsOf(s, z) && s.slot[z].phase.Active? && t.worker[z] == s.worker[z]
    requires t.slot[z] == s.slot[z].(phase := t.slot[z].phase, rotating := t.slot[z].rotating)
    requires t.slot[z].phase.Active? || t.slot[z].phase.Draining?
    ensures SlotOk(t, z) && CountsOf(t, z)
  {
    hide CallsOf, TxsOf, CountsOf;
    PriorCalls(s, t, z);
    PriorTxs(s, t, z);
    PriorCounts(s, t, z);
  }

  /** `z` keeps its handles, worker and requests. */
  ghost predicate KeepsServing(s: Pool, t: Pool, z: SlotId) {
    && z < |s.slot| == |s.worker| && z < |t.slot| == |t.worker| && t.handles == s.handles && t.worker[z] == s.worker[z]
    && t.slot[z].pending == s.slot[z].pending && t.slot[z].busy == s.slot[z].busy && s.slot[z].phase.Active?
  }

  lemma PriorCalls(s: Pool, t: Pool, z: SlotId)
    requires KeepsServing(s, t, z)
    ensures CallsOf(s, z) ==> CallsOf(t, z)
  {
    hide Ordered;
    var p := s.slot[z].pending;
    assert forall id: nat :: id in p && Owned(s, z, p[id].wait) ==> Owned(t, z, p[id].wait);
  }

  lemma PriorTxs(s: Pool, t: Pool, z: SlotId)
    requires KeepsServing(s, t, z)
    ensures TxsOf(s, z) ==> TxsOf(t, z)
  {
    assert forall w: Wait :: TxOf(t, w) == TxOf(s, w);
  }

  lemma PriorCounts(s: Pool, t: Pool, z: SlotId)
    requires KeepsServing(s, t, z)
    ensures CountsOf(s, z) ==> CountsOf(t, z)
  {
    assert Unsettled(s, z) == Unsettled(t, z);
    assert Openings(s, z) == Openings(t, z) && Closings(s, z) == Closings(t, z);
  }

  lemma InitingHasOne(s: Pool, x: SlotId, id: ReqId)
    requires x < |s.slot| == |s.worker| && WaitsOf(s, x) && id in s.slot[x].pending && !ServesClients(s.slot[x].pending[id].wait)
    ensures Quiet(s.slot[x].pending) && s.slot[x].pending - {id} == map[]
    ensures s.slot[x].pending[id].wait.WaitInit? <==> s.slot[x].phase.Initing?
    ensures s.slot[x].pending[id].wait.WaitShutdown? <==> s.slot[x].phase.Stopping?
  {
    forall i: nat | i in s.slot[x].pending ensures i == id {
    }
  }

  /** Slot `x` moved on, and `z` (if it is another slot) may have started draining or lost its latch. */
  ghost predicate MovesOn(s: Pool, t: Pool, x: SlotId, z: SlotId) {
    && OthersStay(s, t, x, z) && x < |s.slot| == |t.slot| && z < |s.slot| && t.handles == s.handles
    && Moves(s, t, x) && WaitsOf(t, x)
    && (t.slot[x].phase.Active? || t.slot[x].phase.Draining? ==> t.worker[x].ready || !t.worker[x].alive)
    && (forall id: nat :: id in t.slot[x].pending ==> t.slot[x].pending[id].stage.Posted?)
    && (z != x ==>
          && s.slot[z].phase.Active? && t.worker[z] == s.worker[z]
          && t.slot[z] == s.slot[z].(phase := t.slot[z].phase, rotating := t.slot[z].rotating)
          && (t.slot[z].phase.Active? || t.slot[z].phase.Draining?))
  }

  lemma MoveKeeps(s: Pool, t: Pool, x: SlotId, z: SlotId)
    requires Inv(s) && MovesOn(s, t, x, z) && Shape(t) && Ids(t)
    ensures Inv(t)
  {
    hide SlotOk, CountsOf, Shape, Ids, HandlesOk, Moves, WaitsOf;
    assert SlotOk(s, x) && CountsOf(s, x) && SlotOk(s, z) && CountsOf(s, z);
    SameHandlesOk(s, t);
    MovedSlot(s, t, x);
    if z != x {
      PriorSlot(s, t, z);
    }
    OthersKeep(s, t, x, z);
  }

  /** Every slot keeps its role: serving, prepared for the same worker, or on its way out. */
  ghost predicate SameRoles(s: Pool, t: Pool) {
    && |s.slot| == |t.slot|
    && (forall y: nat :: y < |s.slot| ==> t.slot[y].phase.Active? == s.slot[y].phase.Active?)
    && (forall y: nat :: y < |s.slot| ==> IsPreparing(t.slot[y].phase) == IsPreparing(s.slot[y].phase))
    && (forall y: nat :: y < |s.slot| && IsPreparing(t.slot[y].phase) ==>
          t.slot[y].phase.prior == s.slot[y].phase.prior)
    && (forall y: nat :: y < |s.slot| ==>
          (t.slot[y].phase.Draining? || t.slot[y].phase.Stopping?) == (s.slot[y].phase.Draining? || s.slot[y].phase.Stopping?))
    && (forall y: nat :: y < |s.slot| ==> t.slot[y].rotating == s.slot[y].rotating)
  }

  lemma RolesShape(s: Pool, t: Pool)
    requires Shape(s) && SameRoles(s, t) && |t.slot| == |t.worker| && t.slots == s.slots && t.draining == s.draining
    ensures Shape(t)
  {
    forall y: nat, z: nat | y < |t.slot| && z < |t.slot| && SamePrior(t.slot[y].phase, t.slot[z].phase) ensures y == z {
      assert SamePrior(s.slot[y].phase, s.slot[z].phase);
    }
  }

  /** A phase change among the states the array and the draining set do not tell apart. */
  lemma ShapeMoves(s: Pool, t: Pool, x: SlotId)
    requires Shape(s) && x < |s.slot| == |t.slot| == |t.worker| && t.slots == s.slots && t.draining == s.draining
    requires forall y: nat :: y < |s.slot| && y != x ==> t.slot[y].phase == s.slot[y].phase && t.slot[y].rotating == s.slot[y].rotating
    requires t.slot[x].rotating == s.slot[x].rotating
    requires (s.slot[x].phase.Booting? && t.slot[x].phase == Initing(s.slot[x].phase.prior)) ||
             (s.slot[x].phase.Draining? && t.slot[x].phase.Stopping?)
    ensures Shape(t)
  {
    assert SameRoles(s, t);
    RolesShape(s, t);
  }

  /** Slot `x` has nothing pending and no client, and posts a request of the pool's own in its new phase. */
  ghost predicate PostsOwn(s: Pool, t: Pool, x: SlotId, phase: Phase, wait: Wait) {
    && x < |s.slot| == |s.worker| && s.slot[x].pending == map[] && s.slot[x].busy == 0
    && t == Post(s.(slot := s.slot[x := s.slot[x].(phase := phase)]), x, wait)
    && ((phase.Initing? && wait.WaitInit?) || (phase.Stopping? && wait.WaitShutdown?))
  }

  lemma OwnPostMoves(s: Pool, t: Pool, x: SlotId, phase: Phase, wait: Wait)
    requires PostsOwn(s, t, x, phase, wait)
    ensures OneMore(s, t, x, Call(wait, Posted)) && OthersStay(s, t, x, x) && Moves(s, t, x) && WaitsOf(t, x)
    ensures t.slot[x].phase == phase && t.handles == s.handles && |t.slot| == |s.slot|
    ensures forall id: nat :: id in t.slot[x].pending ==> t.slot[x].pending[id].stage.Posted?
    ensures t.slots == s.slots && t.draining == s.draining && t.slot[x].rotating == s.slot[x].rotating
  {
    var own: map<ReqId, Call> := map[s.nextReqId := Call(wait, Posted)];
    assert t.slot[x].pending == own;
  }

  lemma OnlineKeeps(s: Pool, x: SlotId)
    requires Inv(s) && x < |s.slot| && s.slot[x].phase.Booting?
    ensures Inv(Online(s, x))
  {
    var t := Online(s, x);
    var phase := Initing(s.slot[x].phase.prior);
    assert PostsOwn(s, t, x, phase, WaitInit) by { assert SlotOk(s, x); }
    OwnPostMoves(s, t, x, phase, WaitInit);
    hide SlotOk, CountsOf, Shape, Ids, HandlesOk, Moves, WaitsOf, PostsOwn, Online;
    ShapeMoves(s, t, x);
    OneMoreIds(s, t, x, Call(WaitInit, Posted));
    MoveKeeps(s, t, x, x);
  }

  lemma DrainDoneKeeps(s: Pool, x: SlotId)
    requires Inv(s) && x < |s.slot| && s.slot[x].phase.Draining? && s.slot[x].busy == 0 && s.slot[x].pending == map[]
    ensures Inv(DrainDone(s, x))
  {
    var t := DrainDone(s, x);
    assert PostsOwn(s, t, x, Stopping, WaitShutdown);
    OwnPostMoves(s, t, x, Stopping, WaitShutdown);
    hide SlotOk, CountsOf, Shape, Ids, HandlesOk, Moves, WaitsOf, PostsOwn, DrainDone;
    ShapeMoves(s, t, x);
    OneMoreIds(s, t, x, Call(WaitShutdown, Posted));
    MoveKeeps(s, t, x, x);
  }

  lemma StopShape(s: Pool, t: Pool, x: SlotId)
    requires Shape(s) && x < |s.slot| == |t.slot| == |t.worker| && s.slot[x].phase.Stopping? && t.slot[x].phase.Gone?
    requires t.slots == s.slots && t.draining == s.draining - {x}
    requires forall y: nat :: y < |s.slot| ==> t.slot[y].rotating == s.slot[y].rotating
    requires forall y: nat :: y < |s.slot| && y != x ==> t.slot[y].phase == s.slot[y].phase
    ensures Shape(t)
  {
    forall y: nat, z: nat | y < |t.slot| && z < |t.slot| && SamePrior(t.slot[y].phase, t.slot[z].phase) ensures y == z {
      assert SamePrior(s.slot[y].phase, s.slot[z].phase);
    }
    hide SamePrior;
  }

  /** The shutdown of slot `x` is over: its worker is gone with nothing left to answer. */
  lemma StoppedMoves(s: Pool, x: SlotId, id: ReqId)
    requires x < |s.slot| == |s.worker| && id in s.slot[x].pending && s.slot[x].pending - {id} == map[]
    requires Quiet(s.slot[x].pending) && s.slot[x].busy == 0
    ensures var t := Stopped(Forget(s, x, id), x);
            && OneLess(s, t, x, id) && MovesOn(s, t, x, x) && t.slot[x].phase.Gone?
            && |t.slot| == |t.worker| == |s.slot| && t.slots == s.slots && t.draining == s.draining - {x}
            && (forall y: nat :: y < |s.slot| ==> t.slot[y].rotating == s.slot[y].rotating)
            && (forall y: nat :: y < |s.slot| && y != x ==> t.slot[y].phase == s.slot[y].phase)
  {
  }

  lemma StopKeeps(s: Pool, x: SlotId, id: ReqId)
    requires Inv(s) && x < |s.slot| && id in s.slot[x].pending && s.slot[x].pending[id].wait.WaitShutdown?
    ensures Inv(Stopped(Forget(s, x, id), x))
  {
    assert WaitsOf(s, x) by { assert SlotOk(s, x); }
    InitingHasOne(s, x, id);
    assert |s.slot| == |s.worker|;
    hide SlotOk, CountsOf, Shape, Ids, HandlesOk, MovesOn;
    var t := Stopped(Forget(s, x, id), x);
    StoppedMoves(s, x, id);
    StopShape(s, t, x);
    OneLessIds(s, t, x, id);
    MoveKeeps(s, t, x, x);
  }

  lemma FailShape(s: Pool, x: SlotId, prior: SlotId)
    requires Shape(s) && x < |s.slot| && IsPreparing(s.slot[x].phase) && s.slot[x].phase.prior == prior
    ensures prior < |s.slot| && prior != x && Shape(RotationFailed(s, x, prior))
    ensures s.slot[prior].phase.Active?
  {
    var t := RotationFailed(s, x, prior);
    assert GoneShape(s, t, x, prior);
    OthersPrepare(s, t, x, prior);
    GoneKeepsShape(s, t, x, prior);
  }

  /** `x` is gone and `prior` may rotate again; nothing else about phases, slots or latches changed. */
  ghost predicate GoneShape(s: Pool, t: Pool, x: SlotId, prior: SlotId) {
    && |s.slot| == |s.worker| == |t.slot| == |t.worker| && x < |s.slot| && prior < |s.slot| && x != prior
    && t.slots == s.slots && t.draining == s.draining && t.slot[x].phase.Gone?
    && (forall y: nat :: y < |s.slot| && y != x ==> t.slot[y].phase == s.slot[y].phase)
    && (forall y: nat :: y < |s.slot| && y != prior ==> t.slot[y].rotating == s.slot[y].rotating)
  }

  lemma OthersPrepare(s: Pool, t: Pool, x: SlotId, prior: SlotId)
    requires Shape(s) && GoneShape(s, t, x, prior) && IsPreparing(s.slot[x].phase) && s.slot[x].phase.prior == prior
    ensures forall y: nat :: y < |t.slot| && IsPreparing(t.slot[y].phase) ==>
              var p := t.slot[y].phase.prior; p < |t.slot| && t.slot[p].phase.Active? && t.slot[p].rotating
  {
    forall y: nat | y < |t.slot| && IsPreparing(t.slot[y].phase)
      ensures var p := t.slot[y].phase.prior; p < |t.slot| && t.slot[p].phase.Active? && t.slot[p].rotating
    {
      assert !SamePrior(s.slot[x].phase, s.slot[y].phase);
    }
  }

  lemma GoneKeepsShape(s: Pool, t: Pool, x: SlotId, prior: SlotId)
    requires Shape(s) && GoneShape(s, t, x, prior) && IsPreparing(s.slot[x].phase) && s.slot[prior].phase.Active?
    requires forall y: nat :: y < |t.slot| && IsPreparing(t.slot[y].phase) ==>
               var p := t.slot[y].phase.prior; p < |t.slot| && t.slot[p].phase.Active? && t.slot[p].rotating
    ensures Shape(t)
  {
    forall y: nat, z: nat | y < |t.slot| && z < |t.slot| && SamePrior(t.slot[y].phase, t.slot[z].phase) ensures y == z {
      assert SamePrior(s.slot[y].phase, s.slot[z].phase);
    }
    hide SamePrior, IsPreparing;
    assert s.slot[x].phase.Active? || s.slot[x].phase.Draining? || s.slot[x].phase.Stopping? || IsPreparing(s.slot[x].phase);
  }

  lemma FailedFacts(s: Pool, x: SlotId, id: ReqId, prior: SlotId)
    requires x < |s.slot| == |s.worker| && prior < |s.slot| && prior != x && id in s.slot[x].pending
    requires s.slot[x].pending - {id} == map[]
    ensures var t := RotationFailed(Forget(s, x, id), x, prior);
            && OneLess(s, t, x, id) && t.handles == s.handles && OthersStay(s, t, x, prior)
            && t.worker[prior] == s.worker[prior] && t.worker[x] == s.worker[x].(alive := false)
            && t.slot[x] == s.slot[x].(phase := Gone, pending := map[])
            && t.slot[prior] == s.slot[prior].(rotating := false)
  {
  }

  lemma FailKeeps(s: Pool, x: SlotId, id: ReqId)
    requires Inv(s) && x < |s.slot| && id in s.slot[x].pending && s.slot[x].pending[id].wait.WaitInit?
    ensures s.slot[x].phase.Initing? && s.slot[x].phase.prior < |s.slot|
    ensures Inv(RotationFailed(Forget(s, x, id), x, s.slot[x].phase.prior))
  {
    assert WaitsOf(s, x) by { assert SlotOk(s, x); }
    InitingHasOne(s, x, id);
    assert |s.slot| == |s.worker|;
    hide SlotOk, CountsOf, Shape, Ids, HandlesOk;
    var prior := s.slot[x].phase.prior;
    ShapeStays(s, Forget(s, x, id));
    FailShape(Forget(s, x, id), x, prior);
    FailedFacts(s, x, id, prior);
    FailFinish(s, RotationFailed(Forget(s, x, id), x, prior), x, id, prior);
  }

  lemma FailFinish(s: Pool, t: Pool, x: SlotId, id: ReqId, prior: SlotId)
    requires Inv(s) && Shape(t) && OneLess(s, t, x, id) && x < |s.slot| == |t.slot| && prior < |s.slot| && prior != x
    requires s.slot[prior].phase.Active? && Quiet(s.slot[x].pending) && s.slot[x].busy == 0
    requires t.handles == s.handles && OthersStay(s, t, x, prior) && t.worker[prior] == s.worker[prior]
    requires t.slot[x] == s.slot[x].(phase := Gone, pending := map[]) && t.worker[x] == s.worker[x].(alive := false)
    requires t.slot[prior] == s.slot[prior].(rotating := false)
    ensures Inv(t)
  {
    assert MovesOn(s, t, x, prior);
    hide SlotOk, CountsOf, Shape, Ids, HandlesOk, MovesOn;
    OneLessIds(s, t, x, id);
    MoveKeeps(s, t, x, prior);
  }

  /** The replacement takes exactly the old worker's place in the array. */
  ghost predicate TookPlace(s: Pool, t: Pool, x: SlotId, prior: SlotId, idx: int) {
    && x < |s.slot| == |s.worker| == |t.slot| == |t.worker| && prior < |s.slot| && prior != x
    && 0 <= idx < |s.slots| && s.slots[idx] == prior && t.slots == s.slots[idx := x]
    && t.draining == s.draining + {prior}
    && (forall y: nat :: y < |s.slot| && y != x && y != prior ==> t.slot[y] == s.slot[y])
    && t.slot[x] == s.slot[x].(phase := Active) && t.slot[prior] == s.slot[prior].(phase := Draining)
    && t.handles == s.handles && t.worker == s.worker && t.nextReqId == s.nextReqId && t.settled == s.settled
  }

  lemma SwapTakesPlace(s: Pool, x: SlotId, prior: SlotId)
    requires Shape(s) && x < |s.slot| && s.slot[x].phase == Initing(prior)
    ensures prior < |s.slot| && s.slot[prior].phase.Active? && s.slot[prior].rotating && prior in s.slots
    ensures 0 <= IndexOf(s.slots, prior) < |s.slots|
    ensures TookPlace(s, Swapped(s, x, prior), x, prior, IndexOf(s.slots, prior))
  {
    assert IsPreparing(s.slot[x].phase);
    IndexOfFinds(s.slots, prior);
  }

  /** Overwriting the one entry that holds `prior` puts `x` in its place. */
  lemma ReplacedEntry(slots: seq<SlotId>, now: seq<SlotId>, idx: int, x: SlotId, prior: SlotId)
    requires 0 <= idx < |slots| && slots[idx] == prior && x !in slots && now == slots[idx := x]
    requires forall j, k :: 0 <= j < k < |slots| ==> slots[j] != slots[k]
    ensures forall y: nat :: y in now <==> y == x || (y in slots && y != prior)
    ensures forall j, k :: 0 <= j < k < |now| ==> now[j] != now[k]
  {
    forall y: nat ensures y in now <==> y == x || (y in slots && y != prior) {
      if y == x {
        assert now[idx] == x;
      } else if y in slots && y != prior {
        var k :| 0 <= k < |slots| && slots[k] == y;
        assert now[k] == y;
      }
    }
  }

  lemma PlaceSlots(s: Pool, t: Pool, x: SlotId, prior: SlotId, idx: int)
    requires Shape(s) && TookPlace(s, t, x, prior, idx) && s.slot[x].phase == Initing(prior)
    ensures forall k :: 0 <= k < |t.slots| ==> t.slots[k] < |t.slot| && t.slot[t.slots[k]].phase.Active?
    ensures forall y: nat :: y < |t.slot| && t.slot[y].phase.Active? ==> y in t.slots
    ensures forall j, k :: 0 <= j < k < |t.slots| ==> t.slots[j] != t.slots[k]
  {
    assert x !in s.slots;
    assert forall y: nat :: y in s.slots <==> y < |s.slot| && s.slot[y].phase.Active?;
    ReplacedEntry(s.slots, t.slots, idx, x, prior);
    hide Shape;
    assert forall k :: 0 <= k < |t.slots| ==> t.slots[k] in t.slots;
  }

  lemma PlacePriors(s: Pool, t: Pool, x: SlotId, prior: SlotId, idx: int)
    requires Shape(s) && TookPlace(s, t, x, prior, idx) && s.slot[x].phase == Initing(prior)
    ensures forall y: nat :: y < |t.slot| && IsPreparing(t.slot[y].phase) ==>
              var p := t.slot[y].phase.prior; p < |t.slot| && t.slot[p].phase.Active? && t.slot[p].rotating
  {
    forall y: nat | y < |t.slot| && IsPreparing(t.slot[y].phase)
      ensures var p := t.slot[y].phase.prior; p < |t.slot| && t.slot[p].phase.Active? && t.slot[p].rotating
    {
      assert t.slot[y].phase == s.slot[y].phase && !SamePrior(s.slot[x].phase, s.slot[y].phase);
    }
  }

  lemma PlaceDraining(s: Pool, t: Pool, x: SlotId, prior: SlotId, idx: int)
    requires Shape(s) && TookPlace(s, t, x, prior, idx) && s.slot[x].phase == Initing(prior)
    ensures forall y: nat :: y in t.draining ==> y < |t.slot|
    ensures forall y: nat :: y < |t.slot| ==> (y in t.draining <==> t.slot[y].phase.Draining? || t.slot[y].phase.Stopping?)
    ensures forall y: nat :: y < |t.slot| && (t.slot[y].phase.Draining? || t.slot[y].phase.Stopping?) ==> t.slot[y].rotating
    ensures forall y: nat, z: nat :: y < |t.slot| && z < |t.slot| && SamePrior(t.slot[y].phase, t.slot[z].phase) ==> y == z
  {
    assert IsPreparing(s.slot[x].phase);
  }

  lemma PlaceShape(s: Pool, t: Pool, x: SlotId, prior: SlotId, idx: int)
    requires Shape(s) && TookPlace(s, t, x, prior, idx) && s.slot[x].phase == Initing(prior)
    ensures Shape(t)
  {
    PlaceSlots(s, t, x, prior, idx);
    PlacePriors(s, t, x, prior, idx);
    PlaceDraining(s, t, x, prior, idx);
  }

  lemma SwapKeeps(s: Pool, x: SlotId, id: ReqId)
    requires Inv(s) && x < |s.slot| && id in s.slot[x].pending && s.worker[x].alive
    requires s.slot[x].pending[id].wait.WaitInit? && s.slot[x].pending[id].stage.Answered? && s.slot[x].pending[id].stage.ok
    ensures s.slot[x].phase.Initing? && s.slot[x].phase.prior in s.slots && s.slot[x].phase.prior < |s.slot|
    ensures 0 <= IndexOf(s.slots, s.slot[x].phase.prior) < |s.slots|
    ensures Inv(Swapped(Forget(s, x, id), x, s.slot[x].phase.prior))
  {
    assert WaitsOf(s, x) && s.worker[x].ready by { assert SlotOk(s, x); }
    InitingHasOne(s, x, id);
    var prior := s.slot[x].phase.prior;
    var f := Forget(s, x, id);
    ShapeStays(s, f);
    SwapTakesPlace(f, x, prior);
    var t := Swapped(f, x, prior);
    PlaceShape(f, t, x, prior, IndexOf(s.slots, prior));
    SwapFinish(s, f, t, x, id, prior);
  }

  lemma SwapFinish(s: Pool, f: Pool, t: Pool, x: SlotId, id: ReqId, prior: SlotId)
    requires Inv(s) && x < |s.slot| && id in s.slot[x].pending && f == Forget(s, x, id) && Shape(t)
    requires TookPlace(f, t, x, prior, IndexOf(s.slots, prior)) && s.slot[prior].phase.Active?
    requires s.worker[x].ready && s.slot[x].phase.Initing? && Quiet(s.slot[x].pending) && s.slot[x].pending - {id} == map[]
    ensures Inv(t)
  {
    assert s.slot[x].busy == 0 by { assert SlotOk(s, x); }
    assert |s.slot| == |s.worker|;
    hide SlotOk, CountsOf, Shape, Ids, HandlesOk, IndexOf;
    SwapMoves(s, f, t, x, id, prior, IndexOf(s.slots, prior));
    hide MovesOn, TookPlace;
    OneLessIds(s, t, x, id);
    MoveKeeps(s, t, x, prior);
  }

  lemma SwapMoves(s: Pool, f: Pool, t: Pool, x: SlotId, id: ReqId, prior: SlotId, idx: int)
    requires x < |s.slot| == |s.worker| && id in s.slot[x].pending && f == Forget(s, x, id)
    requires TookPlace(f, t, x, prior, idx) && s.slot[prior].phase.Active? && s.slot[x].busy == 0
    requires s.worker[x].ready && Quiet(s.slot[x].pending) && s.slot[x].pending - {id} == map[]
    ensures OneLess(s, t, x, id) && MovesOn(s, t, x, prior)
  {
  }
}
