/** The rotation latch over whole runs: an active latched worker has exactly one replacement on its way, the latch is
    released by exactly the failures of that replacement, and a replacement that exits unheard keeps it set for good. */
module PoolLatch {
  import opened PoolModel
  import PoolInvariant
  import opened PoolRuns

  /** `y` is being prepared to replace `x`. */
  predicate Prepares(s: Pool, y: SlotId, x: SlotId) {
    y < |s.slot| && PoolInvariant.IsPreparing(s.slot[y].phase) && s.slot[y].phase.prior == x
  }

  ghost predicate HasReplacement(s: Pool, x: SlotId) {
    exists y: nat :: Prepares(s, y, x)
  }

  /** Active latched slots have a replacement on its way, and replacements on their way are not latched. */
  ghost predicate Latched(s: Pool) {
    && (forall x: nat :: x < |s.slot| && s.slot[x].phase.Active? && s.slot[x].rotating ==> HasReplacement(s, x))
    && (forall y: nat :: y < |s.slot| && PoolInvariant.IsPreparing(s.slot[y].phase) ==> !s.slot[y].rotating)
  }

  // ---------------------------------------------------------------- steps that change no role

  /** No slot changes phase or latch, except that a replacement may come online and a drained worker may stop. */
  ghost predicate RolesStay(s: Pool, t: Pool) {
    && |s.slot| == |t.slot|
    && (forall y: nat :: y < |s.slot| ==> t.slot[y].rotating == s.slot[y].rotating)
    && (forall y: nat :: y < |s.slot| ==> t.slot[y].phase.Active? == s.slot[y].phase.Active?)
    && (forall y: nat, x: nat :: y < |s.slot| ==> (Prepares(t, y, x) <==> Prepares(s, y, x)))
  }

  lemma RolesKeep(s: Pool, t: Pool)
    requires Latched(s) && RolesStay(s, t)
    ensures Latched(t)
  {
    forall x: nat | x < |t.slot| && t.slot[x].phase.Active? && t.slot[x].rotating ensures HasReplacement(t, x) {
      assert HasReplacement(s, x);
      var y: nat :| Prepares(s, y, x);
      assert Prepares(t, y, x);
    }
    forall y: nat | y < |t.slot| && PoolInvariant.IsPreparing(t.slot[y].phase) ensures !t.slot[y].rotating {
      assert Prepares(t, y, t.slot[y].phase.prior);
      assert Prepares(s, y, t.slot[y].phase.prior);
    }
  }

  lemma QuietStep(s: Pool, e: Event, t: Pool)
    requires Next(s, e, t) && (e.ENewTx? || e.ECall? || e.EClose? || e.EWork? || e.EOnline? || e.EDrained?)
    ensures RolesStay(s, t)
  {
    match e
    case ENewTx => NewTxRoles(s);
    case ECall(h) => PostRoles(s, s.handles[h].slot, WaitCall(h));
    case EClose(h) => CloseRoles(s, h);
    case EWork(x, id, outcome) => WorkRoles(s, x, id, outcome);
    case EOnline(x) => OnlineRoles(s, x);
    case EDrained(x) => DrainRoles(s, x);
  }

  lemma PostRoles(s: Pool, x: SlotId, wait: Wait)
    requires x < |s.slot|
    ensures RolesStay(s, Post(s, x, wait))
  {
  }

  lemma NewTxRoles(s: Pool)
    requires Known(s) && s.slots != []
    ensures RolesStay(s, NewTx(s))
  {
    hide PickSlot;
  }

  lemma CloseRoles(s: Pool, h: HandleId)
    requires h < |s.handles| && s.handles[h].slot < |s.slot|
    ensures RolesStay(s, CloseHandle(s, h))
  {
  }

  lemma WorkRoles(s: Pool, x: SlotId, id: ReqId, outcome: Outcome)
    requires x < |s.slot| == |s.worker| && id in s.slot[x].pending
    ensures RolesStay(s, WorkerStep(s, x, id, outcome))
  {
    hide Work;
  }

  lemma OnlineRoles(s: Pool, x: SlotId)
    requires x < |s.slot| && s.slot[x].phase.Booting?
    ensures RolesStay(s, Online(s, x))
  {
  }

  lemma DrainRoles(s: Pool, x: SlotId)
    requires x < |s.slot| && s.slot[x].phase.Draining?
    ensures RolesStay(s, DrainDone(s, x))
  {
  }

  // ---------------------------------------------------------------- replies and failures

  /** Slots `x` and `z` apart, everything keeps phase and latch; slot `x` only ever ends its preparation. */
  lemma SwapLatched(s: Pool, x: SlotId, prior: SlotId)
    requires Latched(s) && PoolInvariant.Shape(s) && x < |s.slot| && s.slot[x].phase == Initing(prior)
    ensures prior < |s.slot| && IndexOf(s.slots, prior) < |s.slots| && Latched(Swapped(s, x, prior))
  {
    PoolInvariant.SwapTakesPlace(s, x, prior);
    var t := Swapped(s, x, prior);
    assert Prepares(s, x, prior);
    assert forall y: nat :: y < |s.slot| && y != x && y != prior ==> t.slot[y] == s.slot[y];
    OthersPrepared(s, t, x, prior);
  }

  lemma FailLatched(s: Pool, x: SlotId, prior: SlotId)
    requires Latched(s) && PoolInvariant.Shape(s) && Prepares(s, x, prior)
    ensures prior < |s.slot| && Latched(RotationFailed(s, x, prior))
  {
    var t := RotationFailed(s, x, prior);
    assert forall y: nat :: y < |s.slot| && y != x && y != prior ==> t.slot[y] == s.slot[y];
    OthersPrepared(s, t, x, prior);
  }

  /** Slot `x` stops being prepared for `z`; the replacements of all other slots are still on their way. */
  lemma OthersPrepared(s: Pool, t: Pool, x: SlotId, z: SlotId)
    requires Latched(s) && Prepares(s, x, z) && z < |s.slot| == |t.slot|
    requires forall y: nat :: y < |s.slot| && y != x && y != z ==> t.slot[y] == s.slot[y]
    requires s.slot[z].phase.Active? && !PoolInvariant.IsPreparing(t.slot[z].phase)
    requires t.slot[z].phase.Active? ==> !t.slot[z].rotating
    requires t.slot[x].rotating == s.slot[x].rotating && !PoolInvariant.IsPreparing(t.slot[x].phase)
    ensures Latched(t)
  {
    forall y: nat | y < |t.slot| && t.slot[y].phase.Active? && t.slot[y].rotating ensures HasReplacement(t, y) {
      assert y != x && y != z;
      assert HasReplacement(s, y);
      var r: nat :| Prepares(s, r, y);
      assert Prepares(t, r, y);
    }
  }

  lemma ForgetRoles(s: Pool, x: SlotId, id: ReqId)
    requires x < |s.slot|
    ensures RolesStay(s, Forget(s, x, id))
  {
  }

  lemma OpenedLatched(s: Pool, x: SlotId, tx: TxId)
    requires Latched(s) && x < |s.slot| == |s.worker| && !PoolInvariant.IsPreparing(s.slot[x].phase)
    ensures Latched(Opened(s, x, tx))
  {
    var t := Opened(s, x, tx);
    forall y: nat | y < |t.slot| && t.slot[y].phase.Active? && t.slot[y].rotating ensures HasReplacement(t, y) {
      if s.slot[y].rotating {
        assert HasReplacement(s, y);
        var r: nat :| Prepares(s, r, y);
        assert Prepares(t, r, y);
      } else {
        assert Prepares(t, |s.slot|, y);
      }
    }
  }

  lemma ClosedRoles(s: Pool, x: SlotId, h: HandleId)
    requires x < |s.slot| && h < |s.handles|
    ensures RolesStay(s, Closed(s, x, h))
  {
  }

  lemma StoppedLatched(s: Pool, x: SlotId)
    requires Latched(s) && x < |s.slot| == |s.worker| && s.slot[x].phase.Stopping?
    ensures Latched(Stopped(s, x))
  {
    assert RolesStay(s, Stopped(s, x));
    RolesKeep(s, Stopped(s, x));
  }

  lemma SettleLatched(s: Pool, x: SlotId, id: ReqId, ok: bool, tx: TxId)
    requires PoolInvariant.Inv(s) && Latched(s) && x < |s.slot| && id in s.slot[x].pending
    requires Known(s) && WaitKnown(s, x, s.slot[x].pending[id].wait)
    ensures Latched(Settle(s, x, id, ok, tx))
  {
    hide PoolInvariant.CallsOf, PoolInvariant.TxsOf, PoolInvariant.DeadOf, PoolInvariant.CountsOf;
    assert PoolInvariant.WaitsOf(s, x) by { assert PoolInvariant.SlotOk(s, x); }
    var f := Forget(s, x, id);
    ForgetRoles(s, x, id);
    RolesKeep(s, f);
    PoolInvariant.ShapeStays(s, f);
    match s.slot[x].pending[id].wait
    case WaitInit =>
      PoolInvariant.InitingHasOne(s, x, id);
      assert Prepares(f, x, f.slot[x].phase.prior);
      if ok {
        SwapLatched(f, x, f.slot[x].phase.prior);
      } else {
        FailLatched(f, x, f.slot[x].phase.prior);
      }
    case WaitNewTx =>
      assert PoolInvariant.ServesClients(s.slot[x].pending[id].wait);
      if ok {
        OpenedLatched(f, x, tx);
      }
    case WaitCall(_) =>
    case WaitClose(h) =>
      ClosedRoles(f, x, h);
      RolesKeep(f, Closed(f, x, h));
    case WaitShutdown =>
      PoolInvariant.InitingHasOne(s, x, id);
      StoppedLatched(f, x);
  }

  lemma {:induction false} RejectAllLatched(s: Pool, x: SlotId)
    requires PoolInvariant.Inv(s) && Latched(s) && Known(s) && x < |s.slot| && !s.worker[x].alive
    ensures Latched(RejectAll(s, x))
    decreases |s.slot[x].pending|
  {
    hide PoolInvariant.Inv, Latched;
    var p := s.slot[x].pending;
    if p != map[] && WaitKnown(s, x, p[Oldest(p)].wait) {
      SettleShrinks(s, x, Oldest(p));
      SettleKeeps(s, x, Oldest(p), false, 0);
      SettleLatched(s, x, Oldest(p), false, 0);
      RejectAllLatched(Settle(s, x, Oldest(p), false, 0), x);
    }
  }

  lemma ExitLatched(s: Pool, x: SlotId)
    requires PoolInvariant.Inv(s) && Latched(s) && Known(s) && x < |s.slot| && s.worker[x].alive
    ensures Latched(Exit(s, x))
  {
    hide PoolInvariant.Inv;
    KilledKeeps(s, x);
    KilledRoles(s, x);
    RolesKeep(s, Killed(s, x));
    RejectAllLatched(Killed(s, x), x);
  }

  lemma CrashLatched(s: Pool, x: SlotId)
    requires PoolInvariant.Inv(s) && Latched(s) && Known(s) && x < |s.slot| && s.worker[x].alive
    ensures Latched(Crash(s, x))
  {
    hide PoolInvariant.SlotOk, PoolInvariant.CountsOf, PoolInvariant.Ids, PoolInvariant.Shape, Latched;
    if s.slot[x].phase.Booting? {
      KilledKeeps(s, x);
      KilledRoles(s, x);
      RolesKeep(s, Killed(s, x));
      FailLatched(Killed(s, x), x, s.slot[x].phase.prior);
    } else {
      ExitLatched(s, x);
    }
  }

  lemma KilledRoles(s: Pool, x: SlotId)
    requires x < |s.slot| == |s.worker|
    ensures RolesStay(s, Killed(s, x))
  {
  }

  lemma StepLatched(s: Pool, e: Event, t: Pool)
    requires PoolInvariant.Inv(s) && Latched(s) && Next(s, e, t)
    ensures Latched(t)
  {
    hide PoolInvariant.Inv, Latched;
    match e
    case EDeliver(x, id) => SettleLatched(s, x, id, s.slot[x].pending[id].stage.ok, s.slot[x].pending[id].stage.tx);
    case ECrash(x) => CrashLatched(s, x);
    case EExit(x) => ExitLatched(s, x);
    case _ =>
      QuietStep(s, e, t);
      RolesKeep(s, t);
  }

  /** Over all runs, an active worker is latched if and only if a replacement for it is on its way, and then exactly
      one. */
  lemma LatchMeansReplacement(run: seq<Pool>, events: seq<Event>, size: nat, max: nat, k: nat, x: SlotId)
    requires IsRun(run, events, size, max) && k < |run| && x < |run[k].slot| && run[k].slot[x].phase.Active?
    ensures run[k].slot[x].rotating <==> HasReplacement(run[k], x)
    ensures forall y: nat, z: nat :: Prepares(run[k], y, x) && Prepares(run[k], z, x) ==> y == z
  {
    RunKeeps(run, events, size, max, k);
    RunLatched(run, events, size, max, k);
    var s := run[k];
    forall y: nat, z: nat | Prepares(s, y, x) && Prepares(s, z, x) ensures y == z {
      assert PoolInvariant.SamePrior(s.slot[y].phase, s.slot[z].phase);
    }
  }

  lemma {:induction false} RunLatched(run: seq<Pool>, events: seq<Event>, size: nat, max: nat, k: nat)
    requires IsRun(run, events, size, max) && k < |run|
    ensures Latched(run[k])
  {
    hide Latched, PoolInvariant.Inv, Next;
    if k == 0 {
      InitialLatched(size, max);
    } else {
      RunKeeps(run, events, size, max, k - 1);
      RunLatched(run, events, size, max, k - 1);
      StepLatched(run[k - 1], events[k - 1], run[k]);
    }
  }

  lemma InitialLatched(size: nat, max: nat)
    ensures Latched(Initial(size, max))
  {
    var idle := Slot(0, 0, false, map[], Active);
    assert forall x: nat :: x < |Initial(size, max).slot| ==> Initial(size, max).slot[x] == idle;
  }

  // ---------------------------------------------------------------- how the latch is released

  /** A replacement for `x` is given up in the step from `s` to `t`. */
  ghost predicate FailedFor(s: Pool, t: Pool, x: SlotId) {
    exists y: nat :: Prepares(s, y, x) && y < |t.slot| && t.slot[y].phase.Gone?
  }

  /** Between `s` and `t` a latch is released only by slot `z` being given up as its replacement, and then it is;
      every other replacement is still on its way. */
  ghost predicate ReleasesBy(s: Pool, t: Pool, z: SlotId) {
    && |s.slot| <= |t.slot|
    && (forall x: nat :: x < |s.slot| && s.slot[x].rotating && !t.slot[x].rotating ==> FailsFor(s, t, z, x))
    && (forall x: nat :: x < |s.slot| && FailsFor(s, t, z, x) ==> !t.slot[x].rotating)
    && (forall y: nat :: y < |s.slot| && y != z && PoolInvariant.IsPreparing(s.slot[y].phase) ==>
          PoolInvariant.IsPreparing(t.slot[y].phase))
  }

  /** Slot `z` was being prepared to replace `x`, and is given up. */
  predicate FailsFor(s: Pool, t: Pool, z: SlotId, x: SlotId) {
    Prepares(s, z, x) && z < |t.slot| && t.slot[z].phase.Gone?
  }

  /** Settling touches latches only when a replacement's init or a newTx is answered. */
  lemma SettleReleases(s: Pool, z: SlotId, id: ReqId, ok: bool, tx: TxId)
    requires PoolInvariant.Shape(s) && z < |s.slot| && PoolInvariant.WaitsOf(s, z) && id in s.slot[z].pending
    requires Known(s) && WaitKnown(s, z, s.slot[z].pending[id].wait)
    ensures ReleasesBy(s, Settle(s, z, id, ok, tx), z)
    ensures !s.slot[z].phase.Initing? && !ok ==>
              var t := Settle(s, z, id, ok, tx);
              |t.slot| == |s.slot| && !PoolInvariant.IsPreparing(t.slot[z].phase) &&
              forall x: nat :: x < |s.slot| ==> t.slot[x].rotating == s.slot[x].rotating
  {
    hide PoolInvariant.Shape, ReleasesBy;
    var (f, t) := (Forget(s, z, id), Settle(s, z, id, ok, tx));
    if !PoolInvariant.ServesClients(s.slot[z].pending[id].wait) {
      PoolInvariant.InitingHasOne(s, z, id);
    }
    if s.slot[z].pending[id].wait.WaitInit? {
      InitReleases(s, z, id, ok, tx);
    } else {
      ServedReleases(f, t, z);
    }
    ForgetReleases(s, f, t, z);
  }

  lemma InitReleases(s: Pool, z: SlotId, id: ReqId, ok: bool, tx: TxId)
    requires PoolInvariant.Shape(s) && z < |s.slot| && s.slot[z].phase.Initing? && id in s.slot[z].pending
    requires Known(s) && s.slot[z].pending[id].wait.WaitInit? && s.slot[z].phase.prior < |s.slot|
    ensures ReleasesBy(Forget(s, z, id), Settle(s, z, id, ok, tx), z)
  {
    IndexOfInRange(s.slots, s.slot[z].phase);
    PriorIsActive(s, z);
    hide PoolInvariant.Shape, PoolInvariant.SamePrior, IndexOf;
    assert Prepares(Forget(s, z, id), z, s.slot[z].phase.prior);
  }

  /** No replacement is concerned: no latch is released, and none on its way changes phase. */
  lemma ServedReleases(f: Pool, t: Pool, z: SlotId)
    requires z < |f.slot| <= |t.slot| && !PoolInvariant.IsPreparing(f.slot[z].phase)
    requires forall y: nat :: y < |f.slot| && y != z ==> t.slot[y].phase == f.slot[y].phase
    requires forall y: nat :: y < |f.slot| && f.slot[y].rotating ==> t.slot[y].rotating
    ensures ReleasesBy(f, t, z)
  {
  }

  lemma ForgetReleases(s: Pool, f: Pool, t: Pool, z: SlotId)
    requires z < |s.slot| == |f.slot| && ReleasesBy(f, t, z)
    requires forall y: nat :: y < |s.slot| ==> f.slot[y].phase == s.slot[y].phase && f.slot[y].rotating == s.slot[y].rotating
    ensures ReleasesBy(s, t, z)
  {
    assert forall x: nat :: FailsFor(s, t, z, x) <==> FailsFor(f, t, z, x);
  }

  lemma PriorIsActive(s: Pool, z: SlotId)
    requires PoolInvariant.Shape(s) && z < |s.slot| && PoolInvariant.IsPreparing(s.slot[z].phase)
    ensures var x := s.slot[z].phase.prior; x < |s.slot| && s.slot[x].phase.Active? && s.slot[x].rotating
  {
  }

  lemma {:induction false} RejectAllReleases(s: Pool, z: SlotId)
    requires PoolInvariant.Inv(s) && Known(s) && z < |s.slot| && !s.worker[z].alive
    ensures ReleasesBy(s, RejectAll(s, z), z)
    decreases |s.slot[z].pending|
  {
    hide PoolInvariant.CallsOf, PoolInvariant.TxsOf, PoolInvariant.DeadOf, PoolInvariant.CountsOf, PoolInvariant.Shape;
    var p := s.slot[z].pending;
    if p != map[] && WaitKnown(s, z, p[Oldest(p)].wait) {
      var id := Oldest(p);
      var m := Settle(s, z, id, false, 0);
      assert PoolInvariant.WaitsOf(s, z) by { assert PoolInvariant.SlotOk(s, z); }
      SettleShrinks(s, z, id);
      SettleKeeps(s, z, id, false, 0);
      SettleReleases(s, z, id, false, 0);
      if s.slot[z].phase.Initing? {
        PoolInvariant.InitingHasOne(s, z, id);
        assert RejectAll(m, z) == m;
      } else {
        RejectAllReleases(m, z);
        ReleasesOn(s, m, RejectAll(m, z), z);
      }
    }
  }

  lemma ReleasesOn(s: Pool, m: Pool, t: Pool, z: SlotId)
    requires z < |s.slot| == |m.slot| && !PoolInvariant.IsPreparing(s.slot[z].phase) && !PoolInvariant.IsPreparing(m.slot[z].phase)
    requires forall x: nat :: x < |s.slot| ==> m.slot[x].rotating == s.slot[x].rotating
    requires ReleasesBy(s, m, z) && ReleasesBy(m, t, z)
    ensures ReleasesBy(s, t, z)
  {
    forall y: nat | y < |s.slot| && y != z && PoolInvariant.IsPreparing(s.slot[y].phase)
      ensures PoolInvariant.IsPreparing(t.slot[y].phase)
    {
      assert PoolInvariant.IsPreparing(m.slot[y].phase);
    }
    forall x: nat | x < |s.slot| && s.slot[x].rotating ensures t.slot[x].rotating {
      assert m.slot[x].rotating && !FailsFor(m, t, z, x);
    }
  }
}
