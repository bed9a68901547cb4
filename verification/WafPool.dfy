/** The pool and its worker as the objects they are: fields updated by calls and event handlers. */
module WafPool {
  import opened PoolModel
  import opened PoolInvariant
  import opened PoolRuns

  class WAFPool {
    var slots: seq<SlotId>
    var rr: nat
    var draining: set<SlotId>
    var slot: seq<Slot>
    var handles: seq<Handle>
    var nextReqId: ReqId
    const max: nat
    ghost var worker: seq<Worker>
    ghost var settled: set<ReqId>

    ghost function State(): Pool
      reads this
    {
      Pool(slots, rr, draining, slot, worker, handles, nextReqId, settled, max)
    }

    constructor (size: nat, max: nat)
      ensures State() == Initial(size, max) && Inv(State())
    {
      this.slots := seq(size, k requires 0 <= k < size => k);
      this.rr, this.draining, this.handles := 0, {}, [];
      this.slot := seq(size, _ => Slot(0, 0, false, map[], Active));
      this.worker := seq(size, _ => Worker(true, true, {}, 0, 0));
      this.nextReqId, this.settled, this.max := 1, {0}, max;
      InitialOk(size, max);
    }

    /** The least busy slot, starting from the round-robin candidate. */
    method ChooseSlot() returns (best: SlotId)
      requires Known(State()) && slots != []
      modifies `rr
      ensures best == PickSlot(old(State())) && rr == old(rr) + 1
    {
      best := slots[rr % |slots|];
      var k := 0;
      while k < |slots|
        invariant 0 <= k <= |slots| && best < |slot|
        invariant PickFrom(State(), best, k) == PickSlot(State())
      {
        if slot[slots[k]].busy < slot[best].busy {
          best := slots[k];
        }
        k := k + 1;
      }
      rr := rr + 1;
    }

    /** Posts a request and records who waits for its reply. */
    method CallSlot(x: SlotId, wait: Wait)
      requires x < |slot|
      modifies this
      ensures State() == Post(old(State()), x, wait)
    {
      var id := nextReqId;
      nextReqId := nextReqId + 1;
      slot := slot[x := slot[x].(pending := slot[x].pending[id := Call(wait, Posted)])];
    }

    method NewTransaction()
      requires Inv(State()) && slots != []
      modifies this
      ensures State() == NewTx(old(State())) && Inv(State())
    {
      hide SlotOk, CountsOf, Ids, HandlesOk, PickSlot;
      assert Known(State());
      hide Shape;
      NewTxKeeps(State());
      hide Inv;
      var x := ChooseSlot();
      slot := slot[x := slot[x].(requests := slot[x].requests + 1)];
      CallSlot(x, WaitNewTx);
    }

    /** A process, predicate or reset call on an open handle. */
    method UseHandle(h: HandleId)
      requires Inv(State()) && h < |handles| && !handles[h].closed
      modifies this
      ensures State() == CallHandle(old(State()), h) && Inv(State())
    {
      CallHandleKeeps(State(), h);
      CallSlot(handles[h].slot, WaitCall(h));
    }

    method Close(h: HandleId)
      requires Inv(State()) && h < |handles|
      modifies this
      ensures State() == CloseHandle(old(State()), h) && Inv(State())
    {
      CloseHandleKeeps(State(), h);
      if handles[h].closed {
        return;
      }
      handles := handles[h := handles[h].(closed := true)];
      CallSlot(handles[h].slot, WaitClose(h));
    }

    /** The message handler of slot `x`: settles the pending request the reply names, ignores an unknown one. */
    method OnMessage(x: SlotId, id: ReqId, ok: bool, tx: TxId)
      requires Inv(State()) && x < |slot|
      requires id in slot[x].pending ==>
                 if worker[x].alive then slot[x].pending[id].stage == Answered(ok, tx) else !ok
      modifies this
      ensures id !in old(slot[x].pending) ==> State() == old(State())
      ensures id in old(slot[x].pending) ==>
                && Known(old(State())) && WaitKnown(old(State()), x, old(slot[x].pending[id].wait))
                && State() == Settle(old(State()), x, id, ok, tx)
      ensures Inv(State())
    {
      if id !in slot[x].pending {
        return;
      }
      SettleKeeps(State(), x, id, ok, tx);
      IndexOfInRange(slots, slot[x].phase);
      var call := slot[x].pending[id];
      Settled(x, id);
      match call.wait
      case WaitInit =>
        if ok {
          SwapIn(x, slot[x].phase.prior);
        } else {
          GiveUpRotation(x, slot[x].phase.prior);
        }
      case WaitNewTx =>
        if ok {
          TransactionOpened(x, tx);
        }
      case WaitCall(_) =>
      case WaitClose(h) => TransactionClosed(x, h);
      case WaitShutdown => RotationDone(x);
    }

    /** The request's promise is resolved or rejected, and its entry goes. */
    method Settled(x: SlotId, id: ReqId)
      requires x < |slot|
      modifies `slot, `settled
      ensures State() == Forget(old(State()), x, id)
    {
      slot := slot[x := slot[x].(pending := slot[x].pending - {id})];
      settled := settled + {id};
    }

    method TransactionClosed(x: SlotId, h: HandleId)
      requires x < |slot| && h < |handles|
      modifies `slot, `handles
      ensures State() == Closed(old(State()), x, h)
    {
      slot := slot[x := slot[x].(busy := if slot[x].busy == 0 then 0 else slot[x].busy - 1)];
      handles := handles[h := handles[h].(settled := true)];
    }

    /** The replacement did not come up: the old worker stays, and may rotate again. */
    method GiveUpRotation(x: SlotId, prior: SlotId)
      requires x < |slot| == |worker| && prior < |slot|
      modifies `slot, `worker
      ensures State() == RotationFailed(old(State()), x, prior)
    {
      slot := slot[prior := slot[prior].(rotating := false)];
      TerminateWorker(x);
    }

    method RotationDone(x: SlotId)
      requires x < |slot| == |worker|
      modifies `slot, `worker, `draining
      ensures State() == Stopped(old(State()), x)
    {
      TerminateWorker(x);
      draining := draining - {x};
    }

    /** Counts the transaction, latches and starts a rotation when the worker is due, hands out the handle. */
    method TransactionOpened(x: SlotId, tx: TxId)
      requires x < |slot| == |worker|
      modifies this
      ensures State() == Opened(old(State()), x, tx)
    {
      slot := slot[x := slot[x].(busy := slot[x].busy + 1)];
      if !slot[x].rotating && max != 0 && slot[x].requests >= max {
        slot := slot[x := slot[x].(rotating := true)];
        slot := slot + [Slot(0, 0, false, map[], Booting(x))];
        worker := worker + [Worker(true, false, {}, 0, 0)];
      }
      handles := handles + [Handle(x, tx, false, false)];
    }

    /** Swaps a ready replacement in at the old worker's index and lets the old worker drain. */
    method SwapIn(x: SlotId, prior: SlotId)
      requires x < |slot| == |worker| && prior < |slot| && IndexOf(slots, prior) < |slots|
      modifies this
      ensures State() == Swapped(old(State()), x, prior)
    {
      var idx := FindSlot(prior);
      if idx >= 0 {
        slots := slots[idx := x];
        draining := draining + {prior};
        slot := slot[x := slot[x].(phase := Active)];
        slot := slot[prior := slot[prior].(phase := Draining)];
      } else {
        slot := slot[x := slot[x].(phase := Stopping)];
        CallSlot(x, WaitShutdown);
      }
    }

    method FindSlot(x: SlotId) returns (idx: int)
      ensures idx == IndexOf(slots, x)
    {
      var k := 0;
      while k < |slots|
        invariant 0 <= k <= |slots|
        invariant IndexOf(slots, x) == if IndexOf(slots[k..], x) < 0 then -1 else IndexOf(slots[k..], x) + k
      {
        assert slots[k..][1..] == slots[k + 1..];
        if slots[k] == x {
          return k;
        }
        k := k + 1;
      }
      return -1;
    }

    method TerminateWorker(x: SlotId)
      requires x < |slot| == |worker|
      modifies `slot, `worker
      ensures State() == Terminate(old(State()), x)
    {
      slot := slot[x := slot[x].(phase := Gone)];
      worker := worker[x := worker[x].(alive := false)];
    }

    /** The replacement's `online` event. */
    method OnOnline(x: SlotId)
      requires Inv(State()) && x < |slot| && slot[x].phase.Booting?
      modifies this
      ensures State() == Online(old(State()), x) && Inv(State())
    {
      OnlineKeeps(State(), x);
      slot := slot[x := slot[x].(phase := Initing(slot[x].phase.prior))];
      CallSlot(x, WaitInit);
    }

    /** One look of waitForDrain: shuts the old worker down once nothing keeps it. */
    method PollDrain(x: SlotId) returns (idle: bool)
      requires Inv(State()) && x < |slot| && slot[x].phase.Draining?
      modifies this
      ensures idle <==> old(slot[x].busy) == 0 && old(slot[x].pending) == map[]
      ensures State() == if idle then DrainDone(old(State()), x) else old(State())
      ensures Inv(State())
    {
      if slot[x].busy > 0 || |slot[x].pending| > 0 {
        return false;
      }
      DrainDoneKeeps(State(), x);
      slot := slot[x := slot[x].(phase := Stopping)];
      CallSlot(x, WaitShutdown);
      return true;
    }
  }

  /** The worker thread's side: one handler over its WAF and its transactions. */
  class PoolWorker {
    var waf: bool
    var txs: set<TxId>
    var nextTxId: TxId
    ghost var trapped: nat

    ghost function State(): Worker
      reads this
    {
      Worker(true, waf, txs, nextTxId, trapped)
    }

    constructor ()
      ensures State() == Worker(true, false, {}, 0, 0)
    {
      waf, txs, nextTxId, trapped := false, {}, 0, 0;
    }

    /** Handles one message; `outcome` is how the wrapped WAF call ends. */
    method OnMessage(wait: Wait, tx: TxId, outcome: Outcome) returns (ok: bool, replyTx: TxId)
      modifies this
      ensures (State(), Answered(ok, replyTx)) == Work(old(State()), wait, tx, outcome)
    {
      ok, replyTx := outcome.Fine?, 0;
      match wait
      case WaitInit =>
        if ok {
          waf := true;
        }
      case WaitNewTx =>
        if !waf {
          return false, 0;
        }
        nextTxId := nextTxId + 1;
        if ok {
          txs := txs + {nextTxId};
          replyTx := nextTxId;
        }
      case WaitCall(_) =>
        if tx !in txs {
          return false, 0;
        }
      case WaitClose(_) =>
        if tx !in txs {
          return true, 0;
        }
        if outcome.Traps? {
          trapped := trapped + 1;
        } else {
          txs := txs - {tx};
        }
      case WaitShutdown =>
        txs, trapped := {}, 0;
    }
  }
}
