/** When workers are replaced: the request counter, the latch and the spawning of replacements over whole runs. */
module PoolRotation {
  import opened PoolModel
  import opened PoolRuns

  /** A successful newTx reply arrives for slot `x`, which has had its share of requests and is not being replaced. */
  ghost predicate RotationDue(s: Pool, e: Event) {
    e.EDeliver? && e.slot < |s.slot| && e.id in s.slot[e.slot].pending &&
    s.slot[e.slot].pending[e.id].wait.WaitNewTx? &&
    s.slot[e.slot].pending[e.id].stage.Answered? && s.slot[e.slot].pending[e.id].stage.ok &&
    !s.slot[e.slot].rotating && s.max != 0 && s.slot[e.slot].requests >= s.max
  }

  /** Counters stay, no latch is set, no slot is added. */
  ghost predicate Steady(s: Pool, t: Pool) {
    && t.max == s.max && |t.slot| == |s.slot|
    && (forall x: nat :: x < |s.slot| ==> t.slot[x].requests == s.slot[x].requests)
    && (forall x: nat :: x < |s.slot| && t.slot[x].rotating ==> s.slot[x].rotating)
  }

  lemma SteadyTwice(s: Pool, t: Pool, v: Pool)
    requires Steady(s, t) && Steady(t, v)
    ensures Steady(s, v)
  {
    forall x: nat | x < |s.slot| && v.slot[x].rotating ensures s.slot[x].rotating {
      assert t.slot[x].rotating;
    }
    forall x: nat | x < |s.slot| ensures v.slot[x].requests == s.slot[x].requests {
      assert t.slot[x].requests == s.slot[x].requests;
    }
  }

  lemma ForgetSteady(s: Pool, x: SlotId, id: ReqId)
    requires x < |s.slot|
    ensures Steady(s, Forget(s, x, id))
  {
  }

  /** No reply but a successful newTx one touches counters, or sets a latch. */
  lemma SettleSteady(s: Pool, x: SlotId, id: ReqId, ok: bool, tx: TxId)
    requires Known(s) && x < |s.slot| && id in s.slot[x].pending && WaitKnown(s, x, s.slot[x].pending[id].wait)
    requires ok ==> !s.slot[x].pending[id].wait.WaitNewTx?
    ensures Steady(s, Settle(s, x, id, ok, tx))
  {
    var f := Forget(s, x, id);
    ForgetSteady(s, x, id);
    IndexOfInRange(s.slots, s.slot[x].phase);
    assert Steady(f, Settle(s, x, id, ok, tx));
    SteadyTwice(s, f, Settle(s, x, id, ok, tx));
  }

  lemma {:induction false} RejectAllSteady(s: Pool, x: SlotId)
    requires Known(s) && x < |s.slot|
    ensures Steady(s, RejectAll(s, x))
    decreases |s.slot[x].pending|
  {
    var p := s.slot[x].pending;
    if p != map[] && WaitKnown(s, x, p[Oldest(p)].wait) {
      var t := Settle(s, x, Oldest(p), false, 0);
      SettleShrinks(s, x, Oldest(p));
      SettleSteady(s, x, Oldest(p), false, 0);
      RejectAllSteady(t, x);
      SteadyTwice(s, t, RejectAll(t, x));
    }
  }

  lemma ExitSteady(s: Pool, x: SlotId)
    requires Known(s) && x < |s.slot|
    ensures Steady(s, Exit(s, x))
  {
    assert Steady(s, Killed(s, x));
    RejectAllSteady(Killed(s, x), x);
    SteadyTwice(s, Killed(s, x), Exit(s, x));
  }

  lemma CrashSteady(s: Pool, x: SlotId)
    requires Known(s) && x < |s.slot|
    ensures Steady(s, Crash(s, x))
  {
    if s.slot[x].phase.Booting? && s.slot[x].phase.prior < |s.slot| {
      assert Steady(s, Crash(s, x));
    } else {
      ExitSteady(s, x);
    }
  }

  /** A transaction opened: the counter stays; the latch is set, and a replacement spawned, exactly when due. */
  lemma OpenedRotates(s: Pool, x: SlotId, id: ReqId, tx: TxId)
    requires x < |s.slot| == |s.worker|
    ensures var t := Opened(Forget(s, x, id), x, tx);
            var due := !s.slot[x].rotating && s.max != 0 && s.slot[x].requests >= s.max;
            && t.max == s.max && |t.slot| == |s.slot| + (if due then 1 else 0)
            && (forall y: nat :: y < |s.slot| ==> t.slot[y].requests == s.slot[y].requests)
            && (forall y: nat :: y < |s.slot| && y != x ==> t.slot[y].rotating == s.slot[y].rotating)
            && (t.slot[x].rotating <==> s.slot[x].rotating || due)
            && (due ==> t.slot[|s.slot|] == Slot(0, 0, false, map[], Booting(x)))
  {
  }

  lemma DeliverRotates(s: Pool, e: Event, t: Pool)
    requires Next(s, e, t) && e.EDeliver?
    ensures RotationDue(s, e) ==>
              |t.slot| == |s.slot| + 1 && t.slot[e.slot].rotating && t.slot[|s.slot|].phase == Booting(e.slot)
    ensures Counts(s, e, t)
    ensures !RotationDue(s, e) ==> Steady(s, t)
  {
    var (x, id) := (e.slot, e.id);
    var c := s.slot[x].pending[id];
    if c.wait.WaitNewTx? && c.stage.ok {
      OpenedRotates(s, x, id, c.stage.tx);
    } else {
      SettleSteady(s, x, id, c.stage.ok, c.stage.tx);
    }
  }

  /** What one step does to the counters and latches of the slots there were. */
  ghost predicate Counts(s: Pool, e: Event, t: Pool) {
    && t.max == s.max && |s.slot| <= |t.slot|
    && (forall x: nat :: x < |s.slot| ==> t.slot[x].requests == s.slot[x].requests + (if Picks(s, e, x) then 1 else 0))
    && (forall x: nat :: |s.slot| <= x < |t.slot| ==> t.slot[x].requests == 0 && !t.slot[x].rotating)
    && (forall x: nat :: x < |s.slot| && t.slot[x].rotating ==>
          s.slot[x].rotating || (s.max != 0 && s.slot[x].requests >= s.max))
  }

  /** The step is a newTransaction() call that goes to `x`. */
  ghost predicate Picks(s: Pool, e: Event, x: SlotId) {
    e.ENewTx? && Known(s) && s.slots != [] && PickSlot(s) == x
  }

  lemma NewTxCounts(s: Pool, t: Pool)
    requires Next(s, ENewTx, t)
    ensures Counts(s, ENewTx, t) && |t.slot| == |s.slot|
  {
  }

  lemma OtherSteady(s: Pool, e: Event, t: Pool)
    requires Next(s, e, t) && !e.ENewTx? && !e.EDeliver?
    ensures Steady(s, t)
  {
    match e
    case ECrash(x) => CrashSteady(s, x);
    case EExit(x) => ExitSteady(s, x);
    case _ =>
  }

  lemma StepCounts(s: Pool, e: Event, t: Pool)
    requires Next(s, e, t)
    ensures Counts(s, e, t)
  {
    match e
    case ENewTx => NewTxCounts(s, t);
    case EDeliver(_, _) => DeliverRotates(s, e, t);
    case _ => OtherSteady(s, e, t);
  }

  /** The step added one slot, a replacement for `x`. */
  predicate SpawnedFor(s: Pool, t: Pool, x: SlotId) {
    |t.slot| == |s.slot| + 1 && t.slot[|s.slot|].phase == Booting(x)
  }

  /** A replacement is spawned by exactly those steps in which its worker is due. */
  lemma SpawnsExactlyWhenDue(s: Pool, e: Event, t: Pool, x: SlotId)
    requires Next(s, e, t)
    ensures SpawnedFor(s, t, x) <==> RotationDue(s, e) && e.slot == x
  {
    match e
    case ENewTx => NewTxCounts(s, t);
    case EDeliver(_, _) => DeliverRotates(s, e, t);
    case _ => OtherSteady(s, e, t);
  }

  /** How many of the first `k` events were newTransaction() calls that went to slot `x`. */
  ghost function Dispatched(run: seq<Pool>, events: seq<Event>, k: nat, x: SlotId): nat
    requires k <= |events| < |run|
  {
    if k == 0 then 0
    else Dispatched(run, events, k - 1, x) + if Picks(run[k - 1], events[k - 1], x) then 1 else 0
  }

  lemma PicksKnown(s: Pool, e: Event, x: SlotId)
    requires Picks(s, e, x)
    ensures x < |s.slot|
  {
  }

  /** A slot's counter is the number of transactions ever dispatched to it, and its latch is set only once that
      number has reached the threshold. */
  lemma {:induction false} CountersAreExact(run: seq<Pool>, events: seq<Event>, size: nat, max: nat, k: nat, x: SlotId)
    requires IsRun(run, events, size, max) && k < |run|
    ensures run[k].max == max
    ensures x < |run[k].slot| ==> run[k].slot[x].requests == Dispatched(run, events, k, x)
    ensures x >= |run[k].slot| ==> Dispatched(run, events, k, x) == 0
    ensures x < |run[k].slot| && run[k].slot[x].rotating ==> max != 0 && Dispatched(run, events, k, x) >= max
  {
    if k > 0 {
      CountersAreExact(run, events, size, max, k - 1, x);
      CounterStep(run[k - 1], events[k - 1], run[k], x, Dispatched(run, events, k - 1, x));
    }
  }

  lemma CounterStep(s: Pool, e: Event, t: Pool, x: SlotId, n: nat)
    requires Next(s, e, t)
    requires x < |s.slot| ==> s.slot[x].requests == n && (s.slot[x].rotating ==> s.max != 0 && n >= s.max)
    requires x >= |s.slot| ==> n == 0
    ensures var n' := n + (if Picks(s, e, x) then 1 else 0);
            && t.max == s.max
            && (x < |t.slot| ==> t.slot[x].requests == n' && (t.slot[x].rotating ==> t.max != 0 && n' >= t.max))
            && (x >= |t.slot| ==> n' == 0)
  {
    StepCounts(s, e, t);
    if Picks(s, e, x) {
      PicksKnown(s, e, x);
    }
  }
}
