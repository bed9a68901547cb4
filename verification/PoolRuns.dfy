/** Whole runs of the pool: every reachable state, and what clients can rely on in it. */
module PoolRuns {
  import opened PoolModel
  import opened PoolInvariant

  // ---------------------------------------------------------------- crashes

  ghost predicate IsLeast(id: ReqId, ids: set<ReqId>) {
    id in ids && forall i: nat :: i in ids ==> id <= i
  }

  lemma {:induction false} LeastOf(ids: set<ReqId>) returns (id: ReqId)
    requires ids != {}
    ensures IsLeast(id, ids)
  {
    var a: nat :| a in ids;
    var rest := ids - {a};
    assert ids == rest + {a};
    if rest == {} {
      id := a;
    } else {
      var b := LeastOf(rest);
      id := if a <= b then a else b;
    }
  }

  lemma HasLeast(p: map<ReqId, Call>)
    requires p != map[]
    ensures exists id: nat :: IsLeast(id, p.Keys)
  {
    assert exists k: nat :: k in p;
    var id := LeastOf(p.Keys);
  }

  ghost function Oldest(p: map<ReqId, Call>): (id: ReqId)
    requires p != map[]
    ensures id in p && forall i: nat :: i in p ==> id <= i
  {
    HasLeast(p);
    var id: nat :| IsLeast(id, p.Keys);
    assert forall i: nat :: i in p ==> i in p.Keys;
    id
  }

  lemma SettleShrinks(s: Pool, x: SlotId, id: ReqId)
    requires Known(s) && x < |s.slot| && id in s.slot[x].pending && WaitKnown(s, x, s.slot[x].pending[id].wait)
    ensures var t := Settle(s, x, id, false, 0);
            Known(t) && |t.slot| == |s.slot| && |t.slot[x].pending| < |s.slot[x].pending| &&
            t.slot[x].pending == s.slot[x].pending - {id} && t.settled == s.settled + {id} &&
            t.worker[x].alive == (s.worker[x].alive && t.worker[x].alive)
  {
    var p := s.slot[x].pending;
    assert p.Keys == (p - {id}).Keys + {id};
    assert |p.Keys| == |(p - {id}).Keys| + 1;
  }

  /** The worker's `error` or `exit` handler: rejects what is pending, oldest first. */
  ghost function RejectAll(s: Pool, x: SlotId): (t: Pool)
    requires Known(s) && x < |s.slot|
    ensures Known(t) && |t.slot| == |s.slot|
    decreases |s.slot[x].pending|
  {
    var p := s.slot[x].pending;
    if p == map[] || !WaitKnown(s, x, p[Oldest(p)].wait) then s
    else
      SettleShrinks(s, x, Oldest(p));
      RejectAll(Settle(s, x, Oldest(p), false, 0), x)
  }

  /** The worker of `x` is gone with an `exit` event alone: what is pending is rejected. A replacement that is not
      online yet has nothing pending, and the rotation awaiting it never hears of its end. */
  ghost function Exit(s: Pool, x: SlotId): (t: Pool)
    requires Known(s) && x < |s.slot|
    ensures Known(t) && |t.slot| == |s.slot|
  {
    RejectAll(Killed(s, x), x)
  }

  /** The worker of `x` dies of an error, which also fails the rotation awaiting a replacement not online yet. */
  ghost function Crash(s: Pool, x: SlotId): (t: Pool)
    requires Known(s) && x < |s.slot|
    ensures Known(t) && |t.slot| == |s.slot|
  {
    if s.slot[x].phase.Booting? && s.slot[x].phase.prior < |s.slot|
    then RotationFailed(Killed(s, x), x, s.slot[x].phase.prior)
    else Exit(s, x)
  }

  // ---------------------------------------------------------------- runs

  datatype Event =
    | ENewTx                                          // a client calls newTransaction()
    | ECall(handle: HandleId)                         // a client uses a handle it has not closed
    | EClose(handle: HandleId)                        // a client calls close(), perhaps again
    | EWork(slot: SlotId, id: ReqId, outcome: Outcome) // a worker handles its next message
    | EDeliver(slot: SlotId, id: ReqId)               // the next reply arrives and its continuation runs
    | EOnline(slot: SlotId)                           // a replacement comes online
    | EDrained(slot: SlotId)                          // waitForDrain finds a draining slot idle
    | ECrash(slot: SlotId)                            // a worker dies of an error
    | EExit(slot: SlotId)                             // a worker exits without an error event

  ghost predicate Next(s: Pool, e: Event, t: Pool) {
    && Known(s)
    && match e
       case ENewTx => s.slots != [] && t == NewTx(s)
       case ECall(h) => h < |s.handles| && s.handles[h].slot < |s.slot| && !s.handles[h].closed && t == CallHandle(s, h)
       case EClose(h) => h < |s.handles| && s.handles[h].slot < |s.slot| && t == CloseHandle(s, h)
       case EWork(x, id, outcome) =>
         x < |s.slot| && s.worker[x].alive && FirstPosted(s, x, id) && t == WorkerStep(s, x, id, outcome)
       case EDeliver(x, id) =>
         x < |s.slot| && s.worker[x].alive && FirstAnswered(s, x, id) &&
         WaitKnown(s, x, s.slot[x].pending[id].wait) && t == Deliver(s, x, id)
       case EOnline(x) => x < |s.slot| && s.worker[x].alive && s.slot[x].phase.Booting? && t == Online(s, x)
       case EDrained(x) =>
         x < |s.slot| && s.slot[x].phase.Draining? && s.slot[x].busy == 0 && s.slot[x].pending == map[] && t == DrainDone(s, x)
       case ECrash(x) => x < |s.slot| && s.worker[x].alive && t == Crash(s, x)
       case EExit(x) => x < |s.slot| && s.worker[x].alive && t == Exit(s, x)
  }

  /** A pool as create() leaves it before prewarming: every worker initialized and idle. */
  function Initial(size: nat, max: nat): Pool {
    Pool(seq(size, k requires 0 <= k < size => k), 0, {},
         seq(size, _ => Slot(0, 0, false, map[], Active)),
         seq(size, _ => Worker(true, true, {}, 0, 0)), [], 1, {0}, max)
  }

  /** States `run[0..]` linked by `events`, from the initial state on. */
  ghost predicate IsRun(run: seq<Pool>, events: seq<Event>, size: nat, max: nat) {
    && |run| == |events| + 1 && run[0] == Initial(size, max)
    && forall k :: 0 <= k < |events| ==> Next(run[k], events[k], run[k + 1])
  }

  // ---------------------------------------------------------------- every step keeps the invariant

  lemma InitialShape(size: nat, max: nat)
    ensures Shape(Initial(size, max))
  {
    var s := Initial(size, max);
    var idle := Slot(0, 0, false, map[], Active);
    assert forall x: nat :: x < |s.slot| ==> s.slot[x] == idle;
    assert forall k :: 0 <= k < |s.slots| ==> s.slots[k] == k;
    assert |s.slots| == |s.slot| == |s.worker| && s.draining == {};
    hide Initial;
    forall x: nat | x < |s.slot| ensures x in s.slots {
      assert s.slots[x] == x;
    }
  }

  lemma InitialIds(size: nat, max: nat)
    ensures Ids(Initial(size, max)) && HandlesOk(Initial(size, max))
  {
  }

  lemma InitialOk(size: nat, max: nat)
    ensures Inv(Initial(size, max))
  {
    var s := Initial(size, max);
    InitialShape(size, max);
    InitialIds(size, max);
    forall x: nat | x < |s.slot| ensures SlotOk(s, x) && CountsOf(s, x) {
      assert Unsettled(s, x) == {} && Openings(s, x) == {} && Closings(s, x) == {};
    }
  }

  lemma InvGivesKnown(s: Pool, x: SlotId)
    requires Inv(s) && x < |s.slot|
    ensures Known(s) && forall id: nat :: id in s.slot[x].pending ==> WaitKnown(s, x, s.slot[x].pending[id].wait)
  {
    assert SlotOk(s, x);
    forall id: nat | id in s.slot[x].pending ensures WaitKnown(s, x, s.slot[x].pending[id].wait) {
      assert Owned(s, x, s.slot[x].pending[id].wait);
      if s.slot[x].pending[id].wait.WaitInit? {
        InitingHasOne(s, x, id);
        assert IsPreparing(s.slot[x].phase);
      }
    }
  }

  /** Settling by the reply itself, or by rejection once the worker is dead. */
  lemma SettleKeeps(s: Pool, x: SlotId, id: ReqId, ok: bool, tx: TxId)
    requires Inv(s) && x < |s.slot| && id in s.slot[x].pending
    requires if s.worker[x].alive then s.slot[x].pending[id].stage == Answered(ok, tx) else !ok
    ensures Known(s) && WaitKnown(s, x, s.slot[x].pending[id].wait) && Inv(Settle(s, x, id, ok, tx))
  {
    InvGivesKnown(s, x);
    var c := s.slot[x].pending[id];
    assert !s.worker[x].alive ==> c.stage.Posted? by { assert SlotOk(s, x); }
    match c.wait
    case WaitInit =>
      if ok {
        SwapKeeps(s, x, id);
      } else {
        FailKeeps(s, x, id);
      }
    case WaitNewTx =>
      if ok {
        OpenReplyKeeps(s, x, id, tx);
      } else {
        PlainReplyKeeps(s, x, id);
      }
    case WaitCall(_) => PlainReplyKeeps(s, x, id);
    case WaitClose(h) => CloseReplyKeeps(s, x, id, h);
    case WaitShutdown => StopKeeps(s, x, id);
  }

  lemma {:induction false} RejectAllKeeps(s: Pool, x: SlotId)
    requires Inv(s) && x < |s.slot| && !s.worker[x].alive
    ensures Known(s) && Inv(RejectAll(s, x))
    ensures RejectAll(s, x).slot[x].pending == map[]
    ensures forall id: nat :: id in s.slot[x].pending ==> id in RejectAll(s, x).settled
    decreases |s.slot[x].pending|
  {
    InvGivesKnown(s, x);
    var p := s.slot[x].pending;
    if p != map[] {
      var id := Oldest(p);
      SettleShrinks(s, x, id);
      SettleKeeps(s, x, id, false, 0);
      var t := Settle(s, x, id, false, 0);
      RejectAllKeeps(t, x);
      RejectKeepsSettled(t, x);
    }
  }

  lemma {:induction false} RejectKeepsSettled(s: Pool, x: SlotId)
    requires Known(s) && x < |s.slot|
    ensures s.settled <= RejectAll(s, x).settled && |RejectAll(s, x).slot| == |s.slot|
    decreases |s.slot[x].pending|
  {
    var p := s.slot[x].pending;
    if p != map[] && WaitKnown(s, x, p[Oldest(p)].wait) {
      SettleShrinks(s, x, Oldest(p));
      RejectKeepsSettled(Settle(s, x, Oldest(p), false, 0), x);
    }
  }

  lemma KilledSlot(s: Pool, x: SlotId)
    requires x < |s.slot| == |s.worker| && SlotOk(s, x) && CountsOf(s, x)
    ensures var t := Killed(s, x); SlotOk(t, x) && CountsOf(t, x)
  {
    var t := Killed(s, x);
    var p, p' := s.slot[x].pending, t.slot[x].pending;
    forall i: nat | i in p' ensures i in p && p'[i] == Call(p[i].wait, Posted) && Owned(t, x, p'[i].wait) {
      assert Owned(s, x, p[i].wait);
    }
    assert p == map[] ==> p' == map[];
    assert Unsettled(s, x) == Unsettled(t, x);
  }

  lemma KilledKeeps(s: Pool, x: SlotId)
    requires Inv(s) && x < |s.slot|
    ensures Inv(Killed(s, x))
  {
    hide SlotOk, CountsOf, Ids, HandlesOk, HandlesStay;
    assert |s.slot| == |s.worker|;
    assert SlotOk(s, x) && CountsOf(s, x);
    hide Shape;
    var t := Killed(s, x);
    KilledSlot(s, x);
    KilledFacts(s, x);
    ShapeStays(s, t);
    SameKeysIds(s, t);
    SameHandlesOk(s, t);
    OthersKeep(s, t, x, x);
  }

  lemma KilledFacts(s: Pool, x: SlotId)
    requires x < |s.slot| == |s.worker|
    ensures var t := Killed(s, x);
            && OthersStay(s, t, x, x) && |t.slot| == |s.slot| && t.handles == s.handles
            && t.slots == s.slots && t.draining == s.draining && t.nextReqId == s.nextReqId && t.settled == s.settled
            && (forall y: nat :: y < |s.slot| ==>
                  t.slot[y].phase == s.slot[y].phase && t.slot[y].rotating == s.slot[y].rotating)
            && (forall y: nat :: y < |s.slot| ==> t.slot[y].pending.Keys == s.slot[y].pending.Keys)
            && (forall y: nat :: y < |s.slot| && y != x ==> HandlesStay(s, t, y))
  {
  }

  lemma ExitKeeps(s: Pool, x: SlotId)
    requires Inv(s) && x < |s.slot| && s.worker[x].alive
    ensures Known(s) && Inv(Exit(s, x))
    ensures Exit(s, x).slot[x].pending == map[]
    ensures forall id: nat :: id in s.slot[x].pending ==> id in Exit(s, x).settled
  {
    KilledKeeps(s, x);
    RejectAllKeeps(Killed(s, x), x);
  }

  lemma CrashKeeps(s: Pool, x: SlotId)
    requires Inv(s) && x < |s.slot| && s.worker[x].alive
    ensures Known(s) && Inv(Crash(s, x))
    ensures Crash(s, x).slot[x].pending == map[]
    ensures forall id: nat :: id in s.slot[x].pending ==> id in Crash(s, x).settled
  {
    InvGivesKnown(s, x);
    if s.slot[x].phase.Booting? {
      assert WaitsOf(s, x) by { assert SlotOk(s, x); }
      hide SlotOk, CountsOf, Ids, HandlesOk, Shape;
      KilledKeeps(s, x);
      BootingFails(Killed(s, x), x);
    } else {
      ExitKeeps(s, x);
    }
  }

  lemma BootingFails(s: Pool, x: SlotId)
    requires Inv(s) && x < |s.slot| && s.slot[x].phase.Booting?
    ensures s.slot[x].phase.prior < |s.slot| && Inv(RotationFailed(s, x, s.slot[x].phase.prior))
    ensures RotationFailed(s, x, s.slot[x].phase.prior).slot[x].pending == map[]
  {
    assert WaitsOf(s, x) by { assert SlotOk(s, x); }
    hide SlotOk, CountsOf, Ids, HandlesOk;
    var prior := s.slot[x].phase.prior;
    var t := RotationFailed(s, x, prior);
    assert |s.slot| == |s.worker|;
    FailShape(s, x, prior);
    BootingFailed(s, x, prior);
    hide Shape, MovesOn;
    SameKeysIds(s, t);
    MoveKeeps(s, t, x, prior);
  }

  lemma BootingFailed(s: Pool, x: SlotId, prior: SlotId)
    requires x < |s.slot| == |s.worker| && prior < |s.slot| && prior != x && s.slot[prior].phase.Active?
    requires WaitsOf(s, x) && s.slot[x].phase.Booting?
    ensures var t := RotationFailed(s, x, prior);
            && MovesOn(s, t, x, prior) && t.nextReqId == s.nextReqId && t.settled == s.settled
            && t.slot[x].pending == map[]
            && (forall y: nat :: y < |s.slot| ==> t.slot[y].pending.Keys == s.slot[y].pending.Keys)
  {
  }

  lemma StepKeeps(s: Pool, e: Event, t: Pool)
    requires Inv(s) && Next(s, e, t)
    ensures Inv(t)
  {
    match e
    case ENewTx => NewTxKeeps(s);
    case ECall(h) => CallHandleKeeps(s, h);
    case EClose(h) => CloseHandleKeeps(s, h);
    case EWork(x, id, outcome) => WorkerKeeps(s, x, id, outcome);
    case EDeliver(x, id) => SettleKeeps(s, x, id, s.slot[x].pending[id].stage.ok, s.slot[x].pending[id].stage.tx);
    case EOnline(x) => OnlineKeeps(s, x);
    case EDrained(x) => DrainDoneKeeps(s, x);
    case ECrash(x) => CrashKeeps(s, x);
    case EExit(x) => ExitKeeps(s, x);
  }

  /** The invariant holds in every state of every run. */
  lemma {:induction false} RunKeeps(run: seq<Pool>, events: seq<Event>, size: nat, max: nat, k: nat)
    requires IsRun(run, events, size, max) && k < |run|
    ensures Inv(run[k])
  {
    if k == 0 {
      InitialOk(size, max);
    } else {
      RunKeeps(run, events, size, max, k - 1);
      StepKeeps(run[k - 1], events[k - 1], run[k]);
    }
  }

  // ---------------------------------------------------------------- phases only move forward

  function Rank(phase: Phase): nat {
    match phase
    case Booting(_) => 0
    case Initing(_) => 1
    case Active => 2
    case Draining => 3
    case Stopping => 4
    case Gone => 5
  }

  /** Slots stay, with phases moving forward; handles stay where they are; settled requests stay settled. */
  ghost predicate Forward(s: Pool, t: Pool) {
    && |s.slot| <= |t.slot| && |s.handles| <= |t.handles| && |s.slots| == |t.slots|
    && (forall x: nat :: x < |s.slot| ==> Rank(s.slot[x].phase) <= Rank(t.slot[x].phase))
    && (forall h: nat :: h < |s.handles| ==>
          t.handles[h].slot == s.handles[h].slot && t.handles[h].tx == s.handles[h].tx &&
          (s.handles[h].closed ==> t.handles[h].closed))
    && s.settled <= t.settled && s.nextReqId <= t.nextReqId
  }

  lemma SwapForward(s: Pool, x: SlotId, prior: SlotId)
    requires Shape(s) && x < |s.slot| && s.slot[x].phase == Initing(prior)
    ensures prior < |s.slot| && IndexOf(s.slots, prior) < |s.slots| && Forward(s, Swapped(s, x, prior))
    ensures Forward(s, RotationFailed(s, x, prior))
  {
    SwapTakesPlace(s, x, prior);
    hide Shape, Swapped;
    TookPlaceForward(s, Swapped(s, x, prior), x, prior, IndexOf(s.slots, prior));
    FailedForward(s, x, prior);
  }

  lemma TookPlaceForward(s: Pool, t: Pool, x: SlotId, prior: SlotId, idx: int)
    requires TookPlace(s, t, x, prior, idx) && s.slot[x].phase == Initing(prior) && s.slot[prior].phase.Active?
    ensures Forward(s, t)
  {
  }

  lemma ForgetForward(s: Pool, t: Pool, x: SlotId, id: ReqId)
    requires x < |s.slot| && Forward(Forget(s, x, id), t)
    ensures Forward(s, t)
  {
    var f := Forget(s, x, id);
    assert forall y: nat :: y < |s.slot| ==> f.slot[y].phase == s.slot[y].phase;
  }

  lemma SettleForward(s: Pool, x: SlotId, id: ReqId, ok: bool, tx: TxId)
    requires Inv(s) && x < |s.slot| && id in s.slot[x].pending
    requires if s.worker[x].alive then s.slot[x].pending[id].stage == Answered(ok, tx) else !ok
    requires Known(s) && WaitKnown(s, x, s.slot[x].pending[id].wait)
    ensures Forward(s, Settle(s, x, id, ok, tx))
  {
    assert WaitsOf(s, x) by { assert SlotOk(s, x); }
    hide SlotOk, CountsOf, Ids, HandlesOk, Forward;
    var f := Forget(s, x, id);
    if !ServesClients(s.slot[x].pending[id].wait) {
      InitingHasOne(s, x, id);
    }
    ShapeStays(s, f);
    match s.slot[x].pending[id].wait {
      case WaitInit => SwapForward(f, x, s.slot[x].phase.prior);
      case WaitNewTx => OpenedForward(f, x, tx);
      case WaitCall(_) =>
      case WaitClose(h) => ClosedForward(f, x, h);
      case WaitShutdown => StoppedForward(f, x);
    }
    ForwardSame(f);
    ForgetForward(s, Settle(s, x, id, ok, tx), x, id);
  }

  lemma OpenedForward(s: Pool, x: SlotId, tx: TxId)
    requires x < |s.slot| == |s.worker|
    ensures Forward(s, Opened(s, x, tx))
  {
  }

  lemma ClosedForward(s: Pool, x: SlotId, h: HandleId)
    requires x < |s.slot| && h < |s.handles|
    ensures Forward(s, Closed(s, x, h))
  {
  }

  lemma StoppedForward(s: Pool, x: SlotId)
    requires x < |s.slot| == |s.worker|
    ensures Forward(s, Stopped(s, x))
  {
  }

  lemma {:induction false} RejectAllForward(s: Pool, x: SlotId)
    requires Inv(s) && Known(s) && x < |s.slot| && !s.worker[x].alive
    ensures Forward(s, RejectAll(s, x))
    decreases |s.slot[x].pending|
  {
    hide Inv, Forward;
    var p := s.slot[x].pending;
    if p != map[] && WaitKnown(s, x, p[Oldest(p)].wait) {
      var id := Oldest(p);
      var t := Settle(s, x, id, false, 0);
      SettleShrinks(s, x, id);
      SettleKeeps(s, x, id, false, 0);
      SettleForward(s, x, id, false, 0);
      RejectAllForward(t, x);
      ForwardTwice(s, t, RejectAll(t, x));
    } else {
      ForwardSame(s);
    }
  }

  lemma ExitForward(s: Pool, x: SlotId)
    requires Inv(s) && Known(s) && x < |s.slot| && s.worker[x].alive
    ensures Forward(s, Exit(s, x))
  {
    KilledKeeps(s, x);
    KilledForward(s, x);
    RejectAllForward(Killed(s, x), x);
    ForwardTwice(s, Killed(s, x), Exit(s, x));
  }

  lemma KilledForward(s: Pool, x: SlotId)
    requires x < |s.slot| == |s.worker|
    ensures Forward(s, Killed(s, x))
  {
  }

  lemma CrashForward(s: Pool, x: SlotId)
    requires Inv(s) && Known(s) && x < |s.slot| && s.worker[x].alive
    ensures Forward(s, Crash(s, x))
  {
    if s.slot[x].phase.Booting? {
      assert IsPreparing(s.slot[x].phase);
      KilledForward(s, x);
      FailedForward(Killed(s, x), x, s.slot[x].phase.prior);
      ForwardTwice(s, Killed(s, x), Crash(s, x));
    } else {
      ExitForward(s, x);
    }
  }

  lemma FailedForward(s: Pool, x: SlotId, prior: SlotId)
    requires x < |s.slot| == |s.worker| && prior < |s.slot|
    ensures Forward(s, RotationFailed(s, x, prior))
  {
  }

  lemma PostForward(s: Pool, t: Pool, x: SlotId, wait: Wait)
    requires ClientPost(s, t, x, wait)
    ensures Forward(s, t)
  {
  }

  lemma ClientForward(s: Pool, e: Event, t: Pool)
    requires Inv(s) && Next(s, e, t) && (e.ENewTx? || e.ECall? || e.EClose?)
    ensures Forward(s, t)
  {
    assert |s.slot| == |s.worker|;
    hide SlotOk, CountsOf, Shape, Ids, HandlesOk, PickSlot, ClientPost, Forward;
    match e
    case ENewTx =>
      NewTxPosts(s);
      PostForward(s, t, PickSlot(s), WaitNewTx);
    case ECall(h) =>
      CallPosts(s, h);
      PostForward(s, t, s.handles[h].slot, WaitCall(h));
    case EClose(h) =>
      if !s.handles[h].closed {
        ClosePosts(s, h);
        PostForward(s, t, s.handles[h].slot, WaitClose(h));
      } else {
        ForwardSame(s);
      }
  }

  lemma PoolForward(s: Pool, e: Event, t: Pool)
    requires Next(s, e, t) && |s.slot| == |s.worker| && (e.EWork? || e.EOnline? || e.EDrained?)
    ensures Forward(s, t)
  {
    forall x: nat | x < |s.slot| ensures Rank(s.slot[x].phase) <= Rank(t.slot[x].phase) {
    }
  }

  lemma StepForward(s: Pool, e: Event, t: Pool)
    requires Inv(s) && Next(s, e, t)
    ensures Forward(s, t)
  {
    match e
    case EDeliver(x, id) => SettleForward(s, x, id, s.slot[x].pending[id].stage.ok, s.slot[x].pending[id].stage.tx);
    case ECrash(x) => CrashForward(s, x);
    case EExit(x) => ExitForward(s, x);
    case EWork(_, _, _) => PoolForward(s, e, t);
    case EOnline(_) => PoolForward(s, e, t);
    case EDrained(_) => PoolForward(s, e, t);
    case _ => ClientForward(s, e, t);
  }

  lemma ForwardTwice(s: Pool, t: Pool, v: Pool)
    requires Forward(s, t) && Forward(t, v)
    ensures Forward(s, v)
  {
    forall x: nat | x < |s.slot| ensures Rank(s.slot[x].phase) <= Rank(v.slot[x].phase) {
      assert Rank(s.slot[x].phase) <= Rank(t.slot[x].phase);
    }
  }

  lemma RunForward(run: seq<Pool>, events: seq<Event>, size: nat, max: nat, j: nat, k: nat)
    requires IsRun(run, events, size, max) && j <= k < |run|
    ensures Forward(run[j], run[k])
  {
    forall i: nat | i < |events| ensures Forward(run[i], run[i + 1]) {
      RunStepForward(run, events, size, max, i);
    }
    ForwardChain(run, j, k);
  }

  lemma {:induction false} ForwardChain(run: seq<Pool>, j: nat, k: nat)
    requires j <= k < |run| && forall i: nat :: i < |run| - 1 ==> Forward(run[i], run[i + 1])
    ensures Forward(run[j], run[k])
    decreases k
  {
    if j == k {
      ForwardSame(run[j]);
    } else {
      ForwardChain(run, j, k - 1);
      ForwardTwice(run[j], run[k - 1], run[k]);
    }
  }

  lemma RunStepForward(run: seq<Pool>, events: seq<Event>, size: nat, max: nat, k: nat)
    requires IsRun(run, events, size, max) && k < |events|
    ensures Forward(run[k], run[k + 1])
  {
    RunKeeps(run, events, size, max, k);
    StepForward(run[k], events[k], run[k + 1]);
  }

  lemma ForwardSame(s: Pool)
    ensures Forward(s, s)
  {
  }

  // ---------------------------------------------------------------- what clients rely on

  /** Rotation never drops a pinned transaction: while a handle is not closed, its slot is serving or draining,
      and unless that worker crashed it still holds the transaction. */
  lemma PinnedIsNeverDropped(run: seq<Pool>, events: seq<Event>, size: nat, max: nat, k: nat, h: HandleId)
    requires IsRun(run, events, size, max) && k < |run| && h < |run[k].handles| && !run[k].handles[h].closed
    ensures var s := run[k]; var x := s.handles[h].slot;
            && x < |s.slot| == |s.worker| && (s.slot[x].phase.Active? || s.slot[x].phase.Draining?)
            && s.slot[x].busy > 0
            && (s.worker[x].alive ==> s.worker[x].ready && s.handles[h].tx in s.worker[x].txs)
  {
    RunKeeps(run, events, size, max, k);
    var s := run[k];
    var x := s.handles[h].slot;
    assert SlotOk(s, x) && CountsOf(s, x);
    assert h in Unsettled(s, x);
  }

  /** From the shutdown message on, a slot has no handle to be closed and no client request, and never gets one
      again. */
  lemma ShutDownForGood(run: seq<Pool>, events: seq<Event>, size: nat, max: nat, j: nat, k: nat, x: SlotId)
    requires IsRun(run, events, size, max) && j <= k < |run| && x < |run[j].slot|
    requires run[j].slot[x].phase.Stopping? || run[j].slot[x].phase.Gone?
    ensures var t := run[k];
            && x < |t.slot| && x !in t.slots && Unsettled(t, x) == {}
            && (forall id: nat :: id in t.slot[x].pending ==> t.slot[x].pending[id].wait.WaitShutdown?)
  {
    RunForward(run, events, size, max, j, k);
    RunKeeps(run, events, size, max, k);
    var t := run[k];
    assert SlotOk(t, x) && CountsOf(t, x);
    assert t.slot[x].phase.Stopping? || t.slot[x].phase.Gone?;
    assert t.slot[x].phase.Gone? ==> t.slot[x].pending == map[];
  }

  /** A call posted on an open handle reaches a worker that still knows the transaction: it never fails as unknown. */
  lemma CallFindsItsTransaction(run: seq<Pool>, events: seq<Event>, size: nat, max: nat, k: nat)
    requires IsRun(run, events, size, max) && k < |events| && events[k].EWork?
    requires var (x, id) := (events[k].slot, events[k].id);
             x < |run[k].slot| && id in run[k].slot[x].pending && run[k].slot[x].pending[id].wait.WaitCall?
    ensures var (x, id) := (events[k].slot, events[k].id);
            && x < |run[k].worker| && TxOf(run[k], run[k].slot[x].pending[id].wait) in run[k].worker[x].txs
            && x < |run[k + 1].slot| && id in run[k + 1].slot[x].pending
            && run[k + 1].slot[x].pending[id].stage == Answered(events[k].outcome.Fine?, 0)
  {
    RunKeeps(run, events, size, max, k);
    assert Next(run[k], events[k], run[k + 1]);
    assert SlotOk(run[k], events[k].slot);
  }

  /** What the reply to each kind of message says, and what has become of the worker's transactions. */
  ghost predicate Replied(s: Pool, t: Pool, x: SlotId, wait: Wait, outcome: Outcome, stage: Stage)
    requires x < |s.worker| && x < |t.worker|
  {
    var was, now := s.worker[x], t.worker[x];
    && stage.Answered? && (stage.ok <==> outcome == Fine) && now.alive == was.alive
    && match wait
       case WaitInit => now.txs == was.txs && (now.ready <==> was.ready || outcome == Fine)
       case WaitNewTx =>
         if outcome == Fine then
           && stage.tx !in was.txs && now.txs == was.txs + {stage.tx}
           && forall h: nat :: h < |s.handles| && s.handles[h].slot == x ==> s.handles[h].tx != stage.tx
         else now.txs == was.txs
       case WaitCall(_) => now.txs == was.txs
       case WaitClose(h) =>
         h < |s.handles| && now.txs == if outcome == Traps then was.txs else was.txs - {s.handles[h].tx}
       case WaitShutdown => now.txs == {}
  }

  /** Over all runs, whatever the message: the reply is ok exactly when the wrapped call succeeds. A newTx makes a
      transaction nobody has had, a close takes its own away unless it traps, a shutdown all of them. */
  lemma RepliesTellOutcomes(run: seq<Pool>, events: seq<Event>, size: nat, max: nat, k: nat)
    requires IsRun(run, events, size, max) && k < |events| && events[k].EWork?
    ensures var (s, t, x, id) := (run[k], run[k + 1], events[k].slot, events[k].id);
            && x < |s.slot| == |s.worker| == |t.slot| == |t.worker| && id in s.slot[x].pending && id in t.slot[x].pending
            && t.slot[x].pending[id].wait == s.slot[x].pending[id].wait
            && Replied(s, t, x, s.slot[x].pending[id].wait, events[k].outcome, t.slot[x].pending[id].stage)
            && (forall y: nat :: y < |s.worker| && y != x ==> t.worker[y] == s.worker[y])
  {
    var (s, t, x, id) := (run[k], run[k + 1], events[k].slot, events[k].id);
    RunKeeps(run, events, size, max, k);
    assert Next(s, events[k], t);
    WorkReplies(s, x, id, events[k].outcome);
  }

  lemma WorkReplies(s: Pool, x: SlotId, id: ReqId, outcome: Outcome)
    requires Inv(s) && x < |s.slot| == |s.worker| && s.worker[x].alive && FirstPosted(s, x, id)
    ensures var t := WorkerStep(s, x, id, outcome);
            Replied(s, t, x, s.slot[x].pending[id].wait, outcome, t.slot[x].pending[id].stage)
  {
    hide Shape, Ids, CountsOf, HandlesOk, AckedTxs, DeadOf, Ordered;
    assert SlotOk(s, x);
    assert Owned(s, x, s.slot[x].pending[id].wait);
    NewTxFresh(s, x, id);
    hide Inv, SlotOk, CallsOf, HeldTxs, ReadyOf, WaitsOf, FirstPosted;
  }

  lemma NewTxFresh(s: Pool, x: SlotId, id: ReqId)
    requires x < |s.slot| == |s.worker| && s.worker[x].alive && SlotOk(s, x)
    requires id in s.slot[x].pending && s.slot[x].pending[id].stage.Posted?
    ensures var wait, w := s.slot[x].pending[id].wait, s.worker[x];
            && (wait.WaitNewTx? ==> w.ready)
            && w.nextTx + 1 !in w.txs
            && (forall h: nat :: h < |s.handles| && s.handles[h].slot == x ==> s.handles[h].tx != w.nextTx + 1)
            && (wait.WaitCall? || wait.WaitClose? ==> TxOf(s, wait) in w.txs)
  {
    hide AckedTxs, DeadOf, Ordered;
  }

  /** New transactions are only ever opened on initialized members of slots. */
  lemma NewTransactionsReachSlots(run: seq<Pool>, events: seq<Event>, size: nat, max: nat, k: nat)
    requires IsRun(run, events, size, max) && k < |events| && events[k].ENewTx?
    ensures var s := run[k];
            && Known(s) && s.slots != [] && PickSlot(s) in s.slots && s.slot[PickSlot(s)].phase.Active?
            && (s.worker[PickSlot(s)].alive ==> s.worker[PickSlot(s)].ready)
            && run[k + 1] == NewTx(s)
  {
    RunKeeps(run, events, size, max, k);
    assert Next(run[k], events[k], run[k + 1]);
    PickIsActive(run[k]);
    assert SlotOk(run[k], PickSlot(run[k]));
  }

  /** Conservation across the channels: what a live worker holds is what its main-thread record and the acks
      in flight account for, plus the releases that trapped. */
  lemma Conservation(run: seq<Pool>, events: seq<Event>, size: nat, max: nat, k: nat, x: SlotId)
    requires IsRun(run, events, size, max) && k < |run| && x < |run[k].slot|
    ensures var s := run[k];
            && |s.slot| == |s.worker| && s.slot[x].busy == |Unsettled(s, x)|
            && (s.worker[x].alive ==>
                  |s.worker[x].txs| == s.slot[x].busy + |Openings(s, x)| - |Closings(s, x)| + s.worker[x].trapped)
  {
    RunKeeps(run, events, size, max, k);
    assert CountsOf(run[k], x);
  }

  /** The array keeps its length; members are distinct, serving, and not draining; one replacement per worker. */
  lemma Structure(run: seq<Pool>, events: seq<Event>, size: nat, max: nat, k: nat)
    requires IsRun(run, events, size, max) && k < |run|
    ensures var s := run[k];
            && |s.slots| == size
            && (forall i, j :: 0 <= i < j < size ==> s.slots[i] != s.slots[j])
            && (forall i :: 0 <= i < size ==> s.slots[i] < |s.slot| && s.slots[i] !in s.draining)
            && (forall x: nat, y: nat :: x < |s.slot| && y < |s.slot| && SamePrior(s.slot[x].phase, s.slot[y].phase) ==> x == y)
  {
    RunKeeps(run, events, size, max, k);
    RunForward(run, events, size, max, 0, k);
  }

  ghost predicate PendingIn(s: Pool, x: SlotId, id: ReqId) {
    x < |s.slot| && id in s.slot[x].pending
  }

  /** Every request ever issued is settled, or pending in exactly one slot; once settled it is never pending again. */
  lemma RequestsSettleOnce(run: seq<Pool>, events: seq<Event>, size: nat, max: nat, j: nat, k: nat, id: ReqId)
    requires IsRun(run, events, size, max) && j <= k < |run| && id < run[j].nextReqId
    ensures id in run[k].settled <==> !PendingSomewhere(run[k], id)
    ensures forall x: nat, y: nat :: PendingIn(run[k], x, id) && PendingIn(run[k], y, id) ==> x == y
    ensures id in run[j].settled ==> id in run[k].settled
  {
    RunKeeps(run, events, size, max, k);
    RunForward(run, events, size, max, j, k);
  }

  /** Everything pending when a worker dies is rejected there and then. */
  lemma CrashRejectsPending(run: seq<Pool>, events: seq<Event>, size: nat, max: nat, k: nat, id: ReqId)
    requires IsRun(run, events, size, max) && k < |events| && (events[k].ECrash? || events[k].EExit?)
    requires events[k].slot < |run[k].slot| && id in run[k].slot[events[k].slot].pending
    ensures id in run[k + 1].settled && !PendingSomewhere(run[k + 1], id)
  {
    RunKeeps(run, events, size, max, k);
    assert Next(run[k], events[k], run[k + 1]);
    if events[k].ECrash? {
      CrashKeeps(run[k], events[k].slot);
    } else {
      ExitKeeps(run[k], events[k].slot);
    }
    RunKeeps(run, events, size, max, k + 1);
  }

  /** A ready replacement always finds the old worker in the array, and only that entry changes. */
  lemma SwapInPlace(run: seq<Pool>, events: seq<Event>, size: nat, max: nat, k: nat)
    requires IsRun(run, events, size, max) && k < |events| && events[k].EDeliver?
    requires var (x, id) := (events[k].slot, events[k].id);
             x < |run[k].slot| && id in run[k].slot[x].pending && run[k].slot[x].pending[id].wait.WaitInit? &&
             run[k].slot[x].pending[id].stage.Answered? && run[k].slot[x].pending[id].stage.ok
    ensures var x := events[k].slot;
            && run[k].slot[x].phase.Initing?
            && exists i :: 0 <= i < |run[k].slots| && run[k].slots[i] == run[k].slot[x].phase.prior &&
                           run[k + 1].slots == run[k].slots[i := x]
    ensures run[k + 1].handles == run[k].handles && run[k + 1].worker == run[k].worker
  {
    var (s, x, id) := (run[k], events[k].slot, events[k].id);
    RunKeeps(run, events, size, max, k);
    assert Next(s, events[k], run[k + 1]);
    SwapKeeps(s, x, id);
    var prior := s.slot[x].phase.prior;
    IndexOfFinds(s.slots, prior);
    assert s.slots[IndexOf(s.slots, prior)] == prior;
  }
}
