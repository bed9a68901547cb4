/** Replacements spawned for a worker against replacements that failed, and the rotation that never ends. */
module PoolBalance {
  import opened PoolModel
  import PoolInvariant
  import opened PoolRuns
  import opened PoolRotation
  import opened PoolLatch

  // ---------------------------------------------------------------- one step

  lemma CrashReleases(s: Pool, z: SlotId)
    requires PoolInvariant.Inv(s) && Known(s) && z < |s.slot| && s.worker[z].alive
    ensures ReleasesBy(s, Crash(s, z), z)
  {
    if s.slot[z].phase.Booting? {
      hide PoolInvariant.SlotOk, PoolInvariant.CountsOf, PoolInvariant.Ids;
      PriorIsActive(s, z);
      assert Prepares(s, z, s.slot[z].phase.prior);
    } else {
      ExitReleases(s, z);
    }
  }

  lemma ExitReleases(s: Pool, z: SlotId)
    requires PoolInvariant.Inv(s) && Known(s) && z < |s.slot| && s.worker[z].alive
    ensures ReleasesBy(s, Exit(s, z), z)
  {
    hide PoolInvariant.Inv;
    KilledKeeps(s, z);
    RejectAllReleases(Killed(s, z), z);
    ForgetReleases(s, Killed(s, z), Exit(s, z), z);
  }

  lemma DeliverReleases(s: Pool, z: SlotId, id: ReqId, t: Pool)
    requires PoolInvariant.Inv(s) && Next(s, EDeliver(z, id), t)
    ensures ReleasesBy(s, t, z)
  {
    assert PoolInvariant.WaitsOf(s, z) by { assert PoolInvariant.SlotOk(s, z); }
    SettleReleases(s, z, id, s.slot[z].pending[id].stage.ok, s.slot[z].pending[id].stage.tx);
  }

  lemma OnlyHeReleases(s: Pool, t: Pool, z: SlotId, x: SlotId)
    requires PoolInvariant.Shape(s) && z < |s.slot| && ReleasesBy(s, t, z)
    ensures FailedFor(s, t, x) <==> x < |s.slot| && s.slot[x].rotating && !t.slot[x].rotating
  {
    if y: nat :| Prepares(s, y, x) && y < |t.slot| && t.slot[y].phase.Gone? {
      PriorIsActive(s, y);
      assert y == z && FailsFor(s, t, z, x);
    }
  }

  lemma NobodyReleases(s: Pool, t: Pool, x: SlotId)
    requires PoolInvariant.Shape(s) && RolesStay(s, t)
    ensures !FailedFor(s, t, x) && (x < |s.slot| ==> t.slot[x].rotating == s.slot[x].rotating)
  {
    forall y: nat | Prepares(s, y, x) ensures !t.slot[y].phase.Gone? {
      assert Prepares(t, y, x);
    }
  }

  /** A latch is released in a step if and only if the replacement on its way is given up in it. */
  lemma ReleasedByFailure(s: Pool, e: Event, t: Pool, x: SlotId)
    requires PoolInvariant.Inv(s) && Next(s, e, t)
    ensures |s.slot| <= |t.slot|
    ensures FailedFor(s, t, x) <==> x < |s.slot| && s.slot[x].rotating && !t.slot[x].rotating
  {
    hide PoolInvariant.SlotOk, PoolInvariant.CountsOf, PoolInvariant.Ids, PoolInvariant.Shape, ReleasesBy, RolesStay,
         FailedFor;
    StepCounts(s, e, t);
    match e
    case EDeliver(z, id) =>
      DeliverReleases(s, z, id, t);
      OnlyHeReleases(s, t, z, x);
    case ECrash(z) =>
      CrashReleases(s, z);
      OnlyHeReleases(s, t, z, x);
    case EExit(z) =>
      ExitReleases(s, z);
      OnlyHeReleases(s, t, z, x);
    case _ =>
      QuietStep(s, e, t);
      NobodyReleases(s, t, x);
  }

  /** A latch is set in a step if and only if a replacement is due for its worker. */
  lemma SetWhenDue(s: Pool, e: Event, t: Pool, x: SlotId)
    requires Next(s, e, t) && x < |s.slot| && !s.slot[x].rotating
    ensures |s.slot| <= |t.slot| && (t.slot[x].rotating <==> RotationDue(s, e) && e.slot == x)
  {
    match e
    case ENewTx => NewTxCounts(s, t);
    case EDeliver(y, id) =>
      DeliverRotates(s, e, t);
      if RotationDue(s, e) {
        OpenedRotates(s, y, id, s.slot[y].pending[id].stage.tx);
      }
    case _ => OtherSteady(s, e, t);
  }

  // ---------------------------------------------------------------- over runs

  /** How many replacements were spawned for slot `x` on the way to state `k`. */
  function Spawned(run: seq<Pool>, k: nat, x: SlotId): nat
    requires k < |run|
  {
    if k == 0 then 0
    else Spawned(run, k - 1, x) + if SpawnedFor(run[k - 1], run[k], x) then 1 else 0
  }

  /** How many of them were given up by then. */
  ghost function Failed(run: seq<Pool>, k: nat, x: SlotId): nat
    requires k < |run|
  {
    if k == 0 then 0 else Failed(run, k - 1, x) + if FailedFor(run[k - 1], run[k], x) then 1 else 0
  }

  function LatchOf(s: Pool, x: SlotId): nat {
    if x < |s.slot| && s.slot[x].rotating then 1 else 0
  }

  lemma BalanceStep(s: Pool, e: Event, t: Pool, x: SlotId)
    requires PoolInvariant.Inv(s) && Next(s, e, t)
    ensures LatchOf(s, x) + (if SpawnedFor(s, t, x) then 1 else 0)
         == LatchOf(t, x) + (if FailedFor(s, t, x) then 1 else 0)
  {
    hide PoolInvariant.Inv, FailedFor;
    ReleasedByFailure(s, e, t, x);
    StepCounts(s, e, t);
    SpawnsExactlyWhenDue(s, e, t, x);
    if x < |s.slot| && !s.slot[x].rotating {
      SetWhenDue(s, e, t, x);
    }
  }

  /** Over all runs: the replacements ever spawned for a slot are those that failed, and one more while it is
      latched. */
  lemma {:induction false} SpawnsBalanceFailures(run: seq<Pool>, events: seq<Event>, size: nat, max: nat, k: nat,
                                                 x: SlotId)
    requires IsRun(run, events, size, max) && k < |run|
    ensures Spawned(run, k, x) == Failed(run, k, x) + LatchOf(run[k], x)
  {
    hide PoolInvariant.Inv, SpawnedFor, FailedFor, Next, Initial;
    if k == 0 {
      InitialUnlatched(size, max, x);
    } else {
      RunKeeps(run, events, size, max, k - 1);
      SpawnsBalanceFailures(run, events, size, max, k - 1, x);
      BalanceStep(run[k - 1], events[k - 1], run[k], x);
    }
  }

  lemma InitialUnlatched(size: nat, max: nat, x: SlotId)
    ensures LatchOf(Initial(size, max), x) == 0
  {
  }

  // ---------------------------------------------------------------- a replacement that exits unheard

  /** The replacement of `x` is dead and its end was not heard: it never came online and never failed. */
  ghost predicate Hung(s: Pool, y: SlotId, x: SlotId) {
    y < |s.slot| == |s.worker| && s.slot[y].phase == Booting(x) && !s.worker[y].alive
  }

  /** An error before a replacement is online releases the old worker's latch; an exit alone leaves it hanging. */
  lemma BootingEndings(s: Pool, y: SlotId)
    requires PoolInvariant.Inv(s) && Known(s) && y < |s.slot| && s.slot[y].phase.Booting? && s.worker[y].alive
    ensures var x := s.slot[y].phase.prior;
            && x < |s.slot| && s.slot[x].rotating
            && !Crash(s, y).slot[x].rotating && Crash(s, y).slot[y].phase.Gone?
            && Exit(s, y).slot[x].rotating && Hung(Exit(s, y), y, x)
  {
    PriorIsActive(s, y);
    assert s.slot[y].pending == map[] by { assert PoolInvariant.SlotOk(s, y); }
    hide PoolInvariant.Inv;
    assert Exit(s, y) == Killed(s, y);
  }

  /** `y` has the same record and worker in `t`. */
  ghost predicate Leaves(s: Pool, t: Pool, y: SlotId) {
    && y < |s.slot| == |s.worker| && y < |t.slot| == |t.worker|
    && t.slot[y] == s.slot[y] && t.worker[y] == s.worker[y]
  }

  /** A reply to another slot leaves a replacement that is not online alone. */
  lemma SettleLeaves(s: Pool, z: SlotId, id: ReqId, ok: bool, tx: TxId, y: SlotId)
    requires PoolInvariant.Shape(s) && Known(s) && z < |s.slot| && PoolInvariant.WaitsOf(s, z)
    requires y < |s.slot| && y != z && s.slot[y].phase.Booting?
    requires id in s.slot[z].pending && WaitKnown(s, z, s.slot[z].pending[id].wait)
    ensures Leaves(s, Settle(s, z, id, ok, tx), y)
  {
    var f := Forget(s, z, id);
    if s.slot[z].pending[id].wait.WaitInit? {
      PoolInvariant.InitingHasOne(s, z, id);
      PriorIsActive(s, z);
    }
    assert Leaves(s, f, y) && |f.slot| == |s.slot|;
    hide PoolInvariant.Shape, PoolInvariant.WaitsOf, Leaves;
    IndexOfInRange(s.slots, s.slot[z].phase);
    match s.slot[z].pending[id].wait
    case WaitInit =>
      SwappedLeaves(f, z, s.slot[z].phase.prior, y);
      FailedLeaves(f, z, s.slot[z].phase.prior, y);
      LeavesTwice(s, f, if ok then Swapped(f, z, s.slot[z].phase.prior) else RotationFailed(f, z, s.slot[z].phase.prior), y);
    case WaitNewTx =>
      OpenedLeaves(f, z, tx, y);
      LeavesTwice(s, f, Opened(f, z, tx), y);
    case WaitCall(_) =>
    case WaitClose(h) =>
      ClosedLeaves(f, z, h, y);
      LeavesTwice(s, f, Closed(f, z, h), y);
    case WaitShutdown =>
      StoppedLeaves(f, z, y);
      LeavesTwice(s, f, Stopped(f, z), y);
  }

  lemma LeavesTwice(s: Pool, f: Pool, t: Pool, y: SlotId)
    requires Leaves(s, f, y) && Leaves(f, t, y)
    ensures Leaves(s, t, y)
  {
  }

  lemma SwappedLeaves(s: Pool, z: SlotId, prior: SlotId, y: SlotId)
    requires z < |s.slot| == |s.worker| && prior < |s.slot| && IndexOf(s.slots, prior) < |s.slots|
    requires y < |s.slot| && y != z && y != prior
    ensures Leaves(s, Swapped(s, z, prior), y)
  {
  }

  lemma FailedLeaves(s: Pool, z: SlotId, prior: SlotId, y: SlotId)
    requires z < |s.slot| == |s.worker| && prior < |s.slot| && y < |s.slot| && y != z && y != prior
    ensures Leaves(s, RotationFailed(s, z, prior), y)
  {
  }

  lemma OpenedLeaves(s: Pool, z: SlotId, tx: TxId, y: SlotId)
    requires z < |s.slot| == |s.worker| && y < |s.slot| && y != z
    ensures Leaves(s, Opened(s, z, tx), y)
  {
  }

  lemma ClosedLeaves(s: Pool, z: SlotId, h: HandleId, y: SlotId)
    requires z < |s.slot| == |s.worker| && h < |s.handles| && y < |s.slot| && y != z
    ensures Leaves(s, Closed(s, z, h), y)
  {
  }

  lemma StoppedLeaves(s: Pool, z: SlotId, y: SlotId)
    requires z < |s.slot| == |s.worker| && y < |s.slot| && y != z
    ensures Leaves(s, Stopped(s, z), y)
  {
  }

  lemma {:induction false} RejectAllLeaves(s: Pool, z: SlotId, y: SlotId)
    requires PoolInvariant.Inv(s) && Known(s) && z < |s.slot| && !s.worker[z].alive
    requires y < |s.slot| && y != z && s.slot[y].phase.Booting?
    ensures Leaves(s, RejectAll(s, z), y)
    decreases |s.slot[z].pending|
  {
    var p := s.slot[z].pending;
    if p != map[] && WaitKnown(s, z, p[Oldest(p)].wait) {
      assert PoolInvariant.WaitsOf(s, z) by { assert PoolInvariant.SlotOk(s, z); }
      hide PoolInvariant.SlotOk, PoolInvariant.CountsOf, PoolInvariant.Ids, PoolInvariant.Shape,
         PoolInvariant.HandlesOk;
      SettleShrinks(s, z, Oldest(p));
      SettleKeeps(s, z, Oldest(p), false, 0);
      SettleLeaves(s, z, Oldest(p), false, 0, y);
      RejectAllLeaves(Settle(s, z, Oldest(p), false, 0), z, y);
    }
  }

  lemma EndLeaves(s: Pool, z: SlotId, y: SlotId)
    requires PoolInvariant.Inv(s) && Known(s) && z < |s.slot| && s.worker[z].alive
    requires y < |s.slot| && y != z && s.slot[y].phase.Booting?
    ensures Leaves(s, Crash(s, z), y) && Leaves(s, Exit(s, z), y)
  {
    hide PoolInvariant.SlotOk, PoolInvariant.CountsOf, PoolInvariant.Ids, PoolInvariant.HandlesOk;
    var k := Killed(s, z);
    KilledKeeps(s, z);
    RejectAllLeaves(k, z, y);
    LeavesTwice(s, k, RejectAll(k, z), y);
    if s.slot[z].phase.Booting? {
      PriorIsActive(s, z);
      var prior := s.slot[z].phase.prior;
      FailedLeaves(k, z, prior, y);
      LeavesTwice(s, k, RotationFailed(k, z, prior), y);
    }
    hide PoolInvariant.Inv, RotationFailed;
  }

  lemma QuietLeaves(s: Pool, e: Event, t: Pool, y: SlotId)
    requires PoolInvariant.Inv(s) && Next(s, e, t) && !e.EDeliver? && !e.ECrash? && !e.EExit?
    requires y < |s.slot| && s.slot[y].phase.Booting? && !s.worker[y].alive
    ensures Leaves(s, t, y)
  {
    hide PoolInvariant.SlotOk, PoolInvariant.CountsOf, PoolInvariant.Ids, PickSlot, Work, Leaves;
    LeavesItself(s, y);
    match e
    case ENewTx =>
      PoolInvariant.PickIsActive(s);
      PoolInvariant.NewTxPosts(s);
      PostedLeaves(s, t, PickSlot(s), WaitNewTx, y);
    case ECall(h) =>
      PoolInvariant.HandleIsServed(s, h);
      PoolInvariant.CallPosts(s, h);
      PostedLeaves(s, t, s.handles[h].slot, WaitCall(h), y);
    case EClose(h) =>
      if !s.handles[h].closed {
        PoolInvariant.HandleIsServed(s, h);
        PoolInvariant.ClosePosts(s, h);
        PostedLeaves(s, t, s.handles[h].slot, WaitClose(h), y);
      }
    case EWork(x, id, outcome) => WorkLeaves(s, x, id, outcome, y);
    case EOnline(x) => OnlineLeaves(s, x, y);
    case EDrained(x) => DrainLeaves(s, x, y);
  }

  lemma LeavesItself(s: Pool, y: SlotId)
    requires y < |s.slot| == |s.worker|
    ensures Leaves(s, s, y)
  {
  }

  lemma PostedLeaves(s: Pool, t: Pool, x: SlotId, wait: Wait, y: SlotId)
    requires PoolInvariant.ClientPost(s, t, x, wait) && y < |s.slot| && y != x
    ensures Leaves(s, t, y)
  {
  }

  lemma WorkLeaves(s: Pool, x: SlotId, id: ReqId, outcome: Outcome, y: SlotId)
    requires x < |s.slot| == |s.worker| && id in s.slot[x].pending && y < |s.slot| && y != x
    ensures Leaves(s, WorkerStep(s, x, id, outcome), y)
  {
    hide Work;
  }

  lemma OnlineLeaves(s: Pool, x: SlotId, y: SlotId)
    requires x < |s.slot| == |s.worker| && s.slot[x].phase.Booting? && y < |s.slot| && y != x
    ensures Leaves(s, Online(s, x), y)
  {
  }

  lemma DrainLeaves(s: Pool, x: SlotId, y: SlotId)
    requires x < |s.slot| == |s.worker| && y < |s.slot| && y != x
    ensures Leaves(s, DrainDone(s, x), y)
  {
  }

  lemma HungStays(s: Pool, e: Event, t: Pool, y: SlotId, x: SlotId)
    requires PoolInvariant.Inv(s) && Next(s, e, t) && Hung(s, y, x)
    ensures Hung(t, y, x)
  {
    match e
    case EDeliver(z, id) =>
      assert PoolInvariant.WaitsOf(s, z) by { assert PoolInvariant.SlotOk(s, z); }
      SettleLeaves(s, z, id, s.slot[z].pending[id].stage.ok, s.slot[z].pending[id].stage.tx, y);
    case ECrash(z) => EndLeaves(s, z, y);
    case EExit(z) => EndLeaves(s, z, y);
    case _ => QuietLeaves(s, e, t, y);
  }

  /** Once a replacement has exited unheard, its worker is latched in every later state, so it is never replaced. */
  lemma {:induction false} HungForever(run: seq<Pool>, events: seq<Event>, size: nat, max: nat, j: nat, k: nat,
                                       y: SlotId, x: SlotId)
    requires IsRun(run, events, size, max) && j <= k < |run| && Hung(run[j], y, x)
    ensures Hung(run[k], y, x) && x < |run[k].slot| && run[k].slot[x].phase.Active? && run[k].slot[x].rotating
    ensures k < |events| ==> !SpawnedFor(run[k], run[k + 1], x)
    decreases k
  {
    hide PoolInvariant.Inv, Hung, Next, Initial, SpawnedFor;
    RunKeeps(run, events, size, max, k);
    if j < k {
      HungForever(run, events, size, max, j, k - 1, y, x);
      RunKeeps(run, events, size, max, k - 1);
      HungStays(run[k - 1], events[k - 1], run[k], y, x);
    }
    HungIsLatched(run[k], y, x);
    if k < |events| {
      SpawnsExactlyWhenDue(run[k], events[k], run[k + 1], x);
    }
  }

  lemma HungIsLatched(s: Pool, y: SlotId, x: SlotId)
    requires PoolInvariant.Inv(s) && Hung(s, y, x)
    ensures x < |s.slot| && s.slot[x].phase.Active? && s.slot[x].rotating
  {
    PriorIsActive(s, y);
  }
}
