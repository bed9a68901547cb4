/** Releases that trap: how many transactions a live worker holds beyond what the pool accounts for. */
module PoolReleases {
  import opened PoolModel
  import PoolInvariant
  import opened PoolRuns

  /** The worker of `x` handles the close of a transaction it holds, and releasing it traps. */
  ghost predicate TrapsAt(s: Pool, e: Event, x: SlotId) {
    e.EWork? && e.slot == x && e.outcome.Traps? && x < |s.slot| == |s.worker| && e.id in s.slot[x].pending &&
    s.slot[x].pending[e.id].wait.WaitClose? && TxOf(s, s.slot[x].pending[e.id].wait) in s.worker[x].txs
  }

  /** The worker of `x` handles a shutdown, which forgets every transaction. */
  ghost predicate ShutsDownAt(s: Pool, e: Event, x: SlotId) {
    e.EWork? && e.slot == x && x < |s.slot| && e.id in s.slot[x].pending && s.slot[x].pending[e.id].wait.WaitShutdown?
  }

  /** How many releases trapped at the worker of `x` in the first `k` events, since it last handled a shutdown. */
  ghost function TrappedReleases(run: seq<Pool>, events: seq<Event>, k: nat, x: SlotId): nat
    requires k <= |events| < |run|
  {
    if k == 0 || ShutsDownAt(run[k - 1], events[k - 1], x) then 0
    else TrappedReleases(run, events, k - 1, x) + Trap(run[k - 1], events[k - 1], x)
  }

  ghost function Trap(s: Pool, e: Event, x: SlotId): nat {
    if TrapsAt(s, e, x) then 1 else 0
  }

  /** The model's counter; 0 for a slot not spawned yet. */
  function TrappedAt(s: Pool, x: SlotId): nat {
    if x < |s.worker| then s.worker[x].trapped else 0
  }

  // ---------------------------------------------------------------- one step

  /** Workers keep their count of trapped releases, and new ones start without any. */
  ghost predicate SameTrapped(s: Pool, t: Pool) {
    && |s.worker| <= |t.worker|
    && (forall x: nat :: x < |s.worker| ==> t.worker[x].trapped == s.worker[x].trapped)
    && (forall x: nat :: |s.worker| <= x < |t.worker| ==> t.worker[x].trapped == 0)
  }

  lemma SettleTraps(s: Pool, z: SlotId, id: ReqId, ok: bool, tx: TxId)
    requires Known(s) && z < |s.slot| && id in s.slot[z].pending && WaitKnown(s, z, s.slot[z].pending[id].wait)
    ensures SameTrapped(s, Settle(s, z, id, ok, tx))
    ensures !ok ==> |Settle(s, z, id, ok, tx).worker| == |s.worker|
  {
    IndexOfInRange(s.slots, s.slot[z].phase);
    hide IndexOf;
  }

  lemma {:induction false} RejectAllTraps(s: Pool, z: SlotId)
    requires Known(s) && z < |s.slot|
    ensures SameTrapped(s, RejectAll(s, z)) && |RejectAll(s, z).worker| == |s.worker|
    decreases |s.slot[z].pending|
  {
    var p := s.slot[z].pending;
    if p != map[] && WaitKnown(s, z, p[Oldest(p)].wait) {
      var m := Settle(s, z, Oldest(p), false, 0);
      SettleShrinks(s, z, Oldest(p));
      SettleTraps(s, z, Oldest(p), false, 0);
      RejectAllTraps(m, z);
      hide Settle;
      assert forall x: nat :: x < |s.worker| ==> m.worker[x].trapped == s.worker[x].trapped;
    }
  }

  lemma EndTraps(s: Pool, z: SlotId)
    requires Known(s) && z < |s.slot|
    ensures SameTrapped(s, Crash(s, z)) && SameTrapped(s, Exit(s, z))
  {
    var m := Killed(s, z);
    assert forall x: nat :: x < |s.worker| ==> m.worker[x].trapped == s.worker[x].trapped;
    RejectAllTraps(m, z);
  }

  /** Work changes the count of one worker, as the message says. */
  lemma WorkTraps(s: Pool, e: Event, t: Pool, x: SlotId)
    requires Next(s, e, t) && e.EWork? && x < |s.worker|
    ensures |t.worker| == |s.worker|
    ensures t.worker[x].trapped == if ShutsDownAt(s, e, x) then 0 else s.worker[x].trapped + Trap(s, e, x)
  {
  }

  lemma StepTraps(s: Pool, e: Event, t: Pool, x: SlotId)
    requires Next(s, e, t)
    ensures |s.worker| <= |t.worker| && TrappedAt(t, x) == if ShutsDownAt(s, e, x) then 0 else TrappedAt(s, x) + Trap(s, e, x)
  {
    match e
    case EDeliver(z, id) => SettleTraps(s, z, id, s.slot[z].pending[id].stage.ok, s.slot[z].pending[id].stage.tx);
    case ECrash(z) => EndTraps(s, z);
    case EExit(z) => EndTraps(s, z);
    case EWork(_, _, _) =>
      if x < |s.worker| {
        WorkTraps(s, e, t, x);
      }
    case _ => assert SameTrapped(s, t);
  }

  // ---------------------------------------------------------------- over runs

  /** The model's counter is the number of releases that trapped in the run. */
  lemma {:induction false} CounterIsHistory(run: seq<Pool>, events: seq<Event>, size: nat, max: nat, k: nat, x: SlotId)
    requires IsRun(run, events, size, max) && k < |run|
    ensures TrappedAt(run[k], x) == TrappedReleases(run, events, k, x)
  {
    hide Next, TrapsAt, ShutsDownAt;
    if k > 0 {
      CounterIsHistory(run, events, size, max, k - 1, x);
      StepTraps(run[k - 1], events[k - 1], run[k], x);
    }
  }

  /** Some release trapped at the worker of `x` before event `k`, and no shutdown was handled after it. */
  ghost predicate SomeReleaseTrapped(run: seq<Pool>, events: seq<Event>, k: nat, x: SlotId)
    requires k <= |events| < |run|
  {
    exists j: nat :: j < k && TrapsAt(run[j], events[j], x) && NoShutdown(run, events, j, k, x)
  }

  ghost predicate NoShutdown(run: seq<Pool>, events: seq<Event>, j: nat, k: nat, x: SlotId)
    requires j <= k <= |events| < |run|
  {
    forall i: nat :: j <= i < k ==> !ShutsDownAt(run[i], events[i], x)
  }

  lemma {:induction false} SomeTrapped(run: seq<Pool>, events: seq<Event>, k: nat, x: SlotId)
    requires k <= |events| < |run|
    ensures TrappedReleases(run, events, k, x) > 0 <==> SomeReleaseTrapped(run, events, k, x)
  {
    if k > 0 {
      SomeTrapped(run, events, k - 1, x);
      if ShutsDownAt(run[k - 1], events[k - 1], x) {
        assert forall j: nat :: j < k ==> !NoShutdown(run, events, j, k, x);
      } else {
        forall j: nat | j < k ensures NoShutdown(run, events, j, k, x) <==> NoShutdown(run, events, j, k - 1, x) {
        }
        assert NoShutdown(run, events, k - 1, k, x);
      }
    }
  }

  /** The equation between the worker's transactions and the pool's account of them holds, without a correction,
      if and only if no release has trapped at that worker since it last handled a shutdown. */
  lemma ConservationExact(run: seq<Pool>, events: seq<Event>, size: nat, max: nat, k: nat, x: SlotId)
    requires IsRun(run, events, size, max) && k < |run| && x < |run[k].slot| <= |run[k].worker| && run[k].worker[x].alive
    ensures |run[k].worker[x].txs|
              == run[k].slot[x].busy + |PoolInvariant.Openings(run[k], x)| - |PoolInvariant.Closings(run[k], x)|
            <==> !SomeReleaseTrapped(run, events, k, x)
  {
    Conservation(run, events, size, max, k, x);
    CounterIsHistory(run, events, size, max, k, x);
    SomeTrapped(run, events, k, x);
  }

  // ---------------------------------------------------------------- a run in which it fails

  function OneWorker(sl: Slot, w: Worker, handles: seq<Handle>, rr: nat, next: ReqId, settled: set<ReqId>): Pool {
    Pool([0], rr, {}, [sl], [w], handles, next, settled, 0)
  }

  function Busy(requests: nat, busy: nat, pending: map<ReqId, Call>): Slot {
    Slot(busy, requests, false, pending, Active)
  }

  /** One worker opens a transaction; closing it traps. */
  function TrappingRun(): seq<Pool> {
    var idle, held := Worker(true, true, {}, 0, 0), Worker(true, true, {1}, 1, 0);
    [Initial(1, 0),
     OneWorker(Busy(1, 0, map[1 := Call(WaitNewTx, Posted)]), idle, [], 1, 2, {0}),
     OneWorker(Busy(1, 0, map[1 := Call(WaitNewTx, Answered(true, 1))]), held, [], 1, 2, {0}),
     OneWorker(Busy(1, 1, map[]), held, [Handle(0, 1, false, false)], 1, 2, {0, 1}),
     OneWorker(Busy(1, 1, map[2 := Call(WaitClose(0), Posted)]), held, [Handle(0, 1, true, false)], 1, 3, {0, 1}),
     OneWorker(Busy(1, 1, map[2 := Call(WaitClose(0), Answered(false, 0))]), held.(trapped := 1),
               [Handle(0, 1, true, false)], 1, 3, {0, 1})]
  }

  function TrappingEvents(): seq<Event> {
    [ENewTx, EWork(0, 1, Fine), EDeliver(0, 1), EClose(0), EWork(0, 2, Traps)]
  }

  lemma TrappingOpens()
    ensures var run, events := TrappingRun(), TrappingEvents();
            Next(run[0], events[0], run[1]) && Next(run[1], events[1], run[2])
  {
    var run := TrappingRun();
    assert Initial(1, 0).slot == [Busy(0, 0, map[])];
    assert Initial(1, 0).worker == [Worker(true, true, {}, 0, 0)] && Initial(1, 0).slots == [0];
    assert run[1].slot[0].pending == map[][1 := Call(WaitNewTx, Posted)];
    assert {} + {1} == {1};
    assert run[2].slot[0].pending == run[1].slot[0].pending[1 := Call(WaitNewTx, Answered(true, 1))];
  }

  lemma TrappingDelivers()
    ensures Next(TrappingRun()[2], TrappingEvents()[2], TrappingRun()[3])
  {
    var run := TrappingRun();
    assert run[2].slot[0].pending - {1} == map[] && [] + [Handle(0, 1, false, false)] == [Handle(0, 1, false, false)];
  }

  lemma TrappingCloses()
    ensures var run, events := TrappingRun(), TrappingEvents();
            Next(run[3], events[3], run[4]) && Next(run[4], events[4], run[5])
  {
    var run := TrappingRun();
    assert run[4].slot[0].pending == run[3].slot[0].pending[2 := Call(WaitClose(0), Posted)];
    assert run[5].slot[0].pending == run[4].slot[0].pending[2 := Call(WaitClose(0), Answered(false, 0))];
  }

  /** The equation does fail: after this run the worker holds a transaction that nothing accounts for. */
  lemma ConservationFails()
    ensures var run, events := TrappingRun(), TrappingEvents();
            && IsRun(run, events, 1, 0) && SomeReleaseTrapped(run, events, 5, 0) && run[5].worker[0].txs == {1}
            && |run[5].worker[0].txs|
                 != run[5].slot[0].busy + |PoolInvariant.Openings(run[5], 0)| - |PoolInvariant.Closings(run[5], 0)|
  {
    var run, events := TrappingRun(), TrappingEvents();
    TrappingIsRun();
    assert TrapsAt(run[4], events[4], 0) && NoShutdown(run, events, 4, 5, 0);
    ConservationExact(run, events, 1, 0, 5, 0);
  }

  lemma TrappingIsRun()
    ensures IsRun(TrappingRun(), TrappingEvents(), 1, 0)
  {
    TrappingOpens();
    TrappingDelivers();
    TrappingCloses();
    hide Next;
  }
}
