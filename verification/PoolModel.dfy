/** The worker pool as a state machine: least-busy dispatch, pinned transactions, worker rotation.
    One step is one event-loop turn of the main thread, or one message handled by a worker. */
module PoolModel {
  type SlotId = nat
  type ReqId = nat
  type HandleId = nat
  type TxId = nat

  /** What the caller of a posted request is waiting for. */
  datatype Wait =
    | WaitInit                    // rotation: the replacement's init ack
    | WaitNewTx                   // newTransaction()
    | WaitCall(handle: HandleId)  // process*(), predicates, reset() of a transaction handle
    | WaitClose(handle: HandleId) // close() of a transaction handle
    | WaitShutdown                // rotation: the old worker's shutdown ack

  /** Where a pending request is: on its way to the worker, or its reply on the way back. */
  datatype Stage = Posted | Answered(ok: bool, tx: TxId)

  datatype Call = Call(wait: Wait, stage: Stage)

  datatype Phase =
    | Booting(prior: SlotId)  // spawned to replace `prior`, not online yet
    | Initing(prior: SlotId)  // init posted
    | Active                // a member of the pool's slots
    | Draining              // swapped out, waiting for its transactions
    | Stopping              // shutdown posted
    | Gone                  // terminated

  /** The main thread's record of one worker. */
  datatype Slot = Slot(busy: nat, requests: nat, rotating: bool, pending: map<ReqId, Call>, phase: Phase)

  /** The worker's own state; `trapped` counts transactions whose release trapped and left them in `txs`. */
  datatype Worker = Worker(alive: bool, ready: bool, txs: set<TxId>, nextTx: TxId, trapped: nat)

  /** A WorkerTransaction; `settled` once close()'s reply has been seen. */
  datatype Handle = Handle(slot: SlotId, tx: TxId, closed: bool, settled: bool)

  datatype Pool = Pool(
    slots: seq<SlotId>,
    rr: nat,
    draining: set<SlotId>,
    slot: seq<Slot>,         // every slot ever spawned, by id
    worker: seq<Worker>,     // its worker
    handles: seq<Handle>,    // every handle ever returned, by id
    nextReqId: ReqId,
    settled: set<ReqId>,     // requests resolved or rejected
    max: nat)                // rotation threshold; 0 is Infinity

  // ---------------------------------------------------------------- dispatch

  /** The least busy slot, the round-robin candidate winning ties against everyone and earlier slots against later. */
  function PickFrom(s: Pool, best: SlotId, k: nat): (x: SlotId)
    requires Known(s) && k <= |s.slots| && best < |s.slot|
    ensures x < |s.slot|
    decreases |s.slots| - k
  {
    if k == |s.slots| then best
    else
      var x := s.slots[k];
      PickFrom(s, if s.slot[x].busy < s.slot[best].busy then x else best, k + 1)
  }

  predicate Known(s: Pool) {
    |s.slot| == |s.worker| && forall k :: 0 <= k < |s.slots| ==> s.slots[k] < |s.slot|
  }

  function PickSlot(s: Pool): (x: SlotId)
    requires Known(s) && s.slots != []
    ensures x < |s.slot|
  {
    PickFrom(s, s.slots[s.rr % |s.slots|], 0)
  }

  // ---------------------------------------------------------------- requests

  /** callSlot: a fresh id, an entry in pending, a message to the worker. */
  function Post(s: Pool, x: SlotId, wait: Wait): Pool
    requires x < |s.slot|
  {
    var sl := s.slot[x];
    s.(slot := s.slot[x := sl.(pending := sl.pending[s.nextReqId := Call(wait, Posted)])],
       nextReqId := s.nextReqId + 1)
  }

  /** A slot with a worker that is not online yet. */
  function Spawn(s: Pool, prior: SlotId): Pool {
    s.(slot := s.slot + [Slot(0, 0, false, map[], Booting(prior))],
       worker := s.worker + [Worker(true, false, {}, 0, 0)])
  }

  /** newTransaction up to its await. */
  function NewTx(s: Pool): Pool
    requires Known(s) && s.slots != []
  {
    var x := PickSlot(s);
    var s1 := s.(rr := s.rr + 1, slot := s.slot[x := s.slot[x].(requests := s.slot[x].requests + 1)]);
    Post(s1, x, WaitNewTx)
  }

  function CallHandle(s: Pool, h: HandleId): Pool
    requires h < |s.handles| && s.handles[h].slot < |s.slot|
  {
    Post(s, s.handles[h].slot, WaitCall(h))
  }

  function CloseHandle(s: Pool, h: HandleId): Pool
    requires h < |s.handles| && s.handles[h].slot < |s.slot|
  {
    if s.handles[h].closed then s
    else Post(s.(handles := s.handles[h := s.handles[h].(closed := true)]), s.handles[h].slot, WaitClose(h))
  }

  // ---------------------------------------------------------------- replies and their continuations

  /** The pending entry is gone and its promise is settled. */
  function Forget(s: Pool, x: SlotId, id: ReqId): Pool
    requires x < |s.slot|
  {
    var sl := s.slot[x];
    s.(slot := s.slot[x := sl.(pending := sl.pending - {id})], settled := s.settled + {id})
  }

  function IndexOf(slots: seq<SlotId>, x: SlotId): int {
    if slots == [] then -1
    else if slots[0] == x then 0
    else if IndexOf(slots[1..], x) < 0 then -1
    else IndexOf(slots[1..], x) + 1
  }

  function Terminate(s: Pool, x: SlotId): Pool
    requires x < |s.slot| && |s.slot| == |s.worker|
  {
    s.(slot := s.slot[x := s.slot[x].(phase := Gone)],
       worker := s.worker[x := s.worker[x].(alive := false)])
  }

  /** newTx came back with a transaction: count it, rotate the worker if it is due, hand out the handle. */
  function Opened(s: Pool, x: SlotId, tx: TxId): Pool
    requires x < |s.slot| == |s.worker|
  {
    var sl := s.slot[x];
    var due := !sl.rotating && s.max != 0 && sl.requests >= s.max;
    var s1 := s.(slot := s.slot[x := sl.(busy := sl.busy + 1, rotating := sl.rotating || due)],
                 handles := s.handles + [Handle(x, tx, false, false)]);
    if due then Spawn(s1, x) else s1
  }

  function Closed(s: Pool, x: SlotId, h: HandleId): Pool
    requires x < |s.slot| && h < |s.handles|
  {
    var busy := s.slot[x].busy;
    s.(slot := s.slot[x := s.slot[x].(busy := if busy == 0 then 0 else busy - 1)],
       handles := s.handles[h := s.handles[h].(settled := true)])
  }

  /** The replacement is ready: it takes the old worker's place, which starts draining. */
  function Swapped(s: Pool, x: SlotId, prior: SlotId): Pool
    requires x < |s.slot| == |s.worker| && prior < |s.slot|
    requires IndexOf(s.slots, prior) < |s.slots|
  {
    var idx := IndexOf(s.slots, prior);
    if idx >= 0 then
      s.(slots := s.slots[idx := x],
         draining := s.draining + {prior},
         slot := s.slot[x := s.slot[x].(phase := Active)][prior := s.slot[prior].(phase := Draining)])
    else
      Post(s.(slot := s.slot[x := s.slot[x].(phase := Stopping)]), x, WaitShutdown)
  }

  function RotationFailed(s: Pool, x: SlotId, prior: SlotId): Pool
    requires x < |s.slot| == |s.worker| && prior < |s.slot|
  {
    Terminate(s.(slot := s.slot[prior := s.slot[prior].(rotating := false)]), x)
  }

  /** Rotation complete. */
  function Stopped(s: Pool, x: SlotId): Pool
    requires x < |s.slot| == |s.worker|
  {
    Terminate(s, x).(draining := s.draining - {x})
  }

  /** The pending entry names things that exist. */
  predicate WaitKnown(s: Pool, x: SlotId, wait: Wait)
    requires x < |s.slot|
  {
    match wait
    case WaitInit => (s.slot[x].phase.Initing? || s.slot[x].phase.Booting?) && s.slot[x].phase.prior < |s.slot|
    case WaitCall(h) => h < |s.handles|
    case WaitClose(h) => h < |s.handles|
    case _ => true
  }

  /** Request `id` of slot `x` is settled, and the code awaiting it runs. */
  function Settle(s: Pool, x: SlotId, id: ReqId, ok: bool, tx: TxId): Pool
    requires Known(s) && x < |s.slot| && id in s.slot[x].pending && WaitKnown(s, x, s.slot[x].pending[id].wait)
  {
    var s1 := Forget(s, x, id);
    IndexOfInRange(s.slots, s.slot[x].phase);
    match s.slot[x].pending[id].wait
    case WaitInit => if ok then Swapped(s1, x, s.slot[x].phase.prior) else RotationFailed(s1, x, s.slot[x].phase.prior)
    case WaitNewTx => if ok then Opened(s1, x, tx) else s1
    case WaitCall(h) => s1
    case WaitClose(h) => Closed(s1, x, h)
    case WaitShutdown => Stopped(s1, x)
  }

  lemma IndexOfInRange(slots: seq<SlotId>, phase: Phase)
    ensures forall x :: IndexOf(slots, x) < |slots|
    ensures forall x :: IndexOf(slots, x) >= 0 ==> slots[IndexOf(slots, x)] == x
    ensures forall x :: IndexOf(slots, x) >= 0 <==> x in slots
  {
    forall x
      ensures IndexOf(slots, x) < |slots| && (IndexOf(slots, x) >= 0 ==> slots[IndexOf(slots, x)] == x)
      ensures IndexOf(slots, x) >= 0 <==> x in slots
    {
      IndexOfFinds(slots, x);
    }
  }

  lemma {:induction false} IndexOfFinds(slots: seq<SlotId>, x: SlotId)
    ensures IndexOf(slots, x) < |slots| && (IndexOf(slots, x) >= 0 ==> slots[IndexOf(slots, x)] == x)
    ensures IndexOf(slots, x) >= 0 <==> x in slots
  {
    if slots != [] {
      IndexOfFinds(slots[1..], x);
    }
  }

  // ---------------------------------------------------------------- the worker

  /** How the wrapped WAF behaves on one message: succeeds, throws, or traps while releasing. */
  datatype Outcome = Fine | Throws | Traps

  /** The worker handles one message; the reply goes back over the same port. */
  function Work(w: Worker, wait: Wait, tx: TxId, outcome: Outcome): (Worker, Stage) {
    match wait
    case WaitInit => if outcome.Fine? then (w.(ready := true), Answered(true, 0)) else (w, Answered(false, 0))
    case WaitNewTx =>
      if !w.ready then (w, Answered(false, 0))
      else
        var id := w.nextTx + 1;
        if outcome.Fine? then (w.(nextTx := id, txs := w.txs + {id}), Answered(true, id))
        else (w.(nextTx := id), Answered(false, 0))
    case WaitCall(_) => (w, Answered(tx in w.txs && outcome.Fine?, 0))
    case WaitClose(_) =>
      if tx !in w.txs then (w, Answered(true, 0))
      else if outcome.Traps? then (w.(trapped := w.trapped + 1), Answered(false, 0))
      else (w.(txs := w.txs - {tx}), Answered(outcome.Fine?, 0))
    case WaitShutdown => (w.(txs := {}, trapped := 0), Answered(outcome.Fine?, 0))
  }

  function TxOf(s: Pool, wait: Wait): TxId {
    if (wait.WaitCall? || wait.WaitClose?) && wait.handle < |s.handles| then s.handles[wait.handle].tx else 0
  }

  /** Messages are handled in the order they were posted. */
  predicate FirstPosted(s: Pool, x: SlotId, id: ReqId)
    requires x < |s.slot|
  {
    var p := s.slot[x].pending;
    id in p && p[id].stage.Posted? && forall i: nat :: i in p && p[i].stage.Posted? ==> id <= i
  }

  predicate FirstAnswered(s: Pool, x: SlotId, id: ReqId)
    requires x < |s.slot|
  {
    var p := s.slot[x].pending;
    id in p && p[id].stage.Answered? && forall i: nat :: i in p && p[i].stage.Answered? ==> id <= i
  }

  function WorkerStep(s: Pool, x: SlotId, id: ReqId, outcome: Outcome): Pool
    requires x < |s.slot| == |s.worker| && id in s.slot[x].pending
  {
    var sl := s.slot[x];
    var wait := sl.pending[id].wait;
    var (w, stage) := Work(s.worker[x], wait, TxOf(s, wait), outcome);
    s.(slot := s.slot[x := sl.(pending := sl.pending[id := Call(wait, stage)])], worker := s.worker[x := w])
  }

  function Deliver(s: Pool, x: SlotId, id: ReqId): Pool
    requires Known(s) && x < |s.slot| && id in s.slot[x].pending && s.slot[x].pending[id].stage.Answered?
    requires WaitKnown(s, x, s.slot[x].pending[id].wait)
  {
    var stage := s.slot[x].pending[id].stage;
    Settle(s, x, id, stage.ok, stage.tx)
  }

  // ---------------------------------------------------------------- rotation and crashes

  /** The replacement's `online` event. */
  function Online(s: Pool, x: SlotId): Pool
    requires x < |s.slot| && s.slot[x].phase.Booting?
  {
    Post(s.(slot := s.slot[x := s.slot[x].(phase := Initing(s.slot[x].phase.prior))]), x, WaitInit)
  }

  /** One look of waitForDrain that finds the old worker idle. */
  function DrainDone(s: Pool, x: SlotId): Pool
    requires x < |s.slot|
  {
    Post(s.(slot := s.slot[x := s.slot[x].(phase := Stopping)]), x, WaitShutdown)
  }

  /** The worker dies; replies under way are lost. */
  function Killed(s: Pool, x: SlotId): Pool
    requires x < |s.slot| == |s.worker|
  {
    var p := s.slot[x].pending;
    s.(worker := s.worker[x := s.worker[x].(alive := false)],
       slot := s.slot[x := s.slot[x].(pending := map id: nat | id in p :: Call(p[id].wait, Posted))])
  }
}
