/** Least-busy dispatch with round-robin ties. */
module PoolDispatch {
  import opened PoolModel

  lemma {:induction false} PickFromIsLeast(s: Pool, best: SlotId, k: nat)
    requires Known(s) && k <= |s.slots| && best < |s.slot|
    ensures var x := PickFrom(s, best, k);
            s.slot[x].busy <= s.slot[best].busy &&
            (forall i :: k <= i < |s.slots| ==> s.slot[x].busy <= s.slot[s.slots[i]].busy) &&
            (s.slot[x].busy == s.slot[best].busy ==> x == best)
    decreases |s.slots| - k
  {
    if k < |s.slots| {
      PickFromIsLeast(s, if s.slot[s.slots[k]].busy < s.slot[best].busy then s.slots[k] else best, k + 1);
    }
  }

  /** The picked slot is a member of minimum busy; the round-robin candidate wins when it is among the least busy. */
  lemma PickIsLeastBusy(s: Pool)
    requires Known(s) && s.slots != []
    ensures forall i :: 0 <= i < |s.slots| ==> s.slot[PickSlot(s)].busy <= s.slot[s.slots[i]].busy
    ensures var c := s.slots[s.rr % |s.slots|]; s.slot[PickSlot(s)].busy == s.slot[c].busy ==> PickSlot(s) == c
  {
    PickFromIsLeast(s, s.slots[s.rr % |s.slots|], 0);
  }

  ghost predicate EquallyBusy(s: Pool)
    requires Known(s)
  {
    forall i, j :: 0 <= i < |s.slots| && 0 <= j < |s.slots| ==> s.slot[s.slots[i]].busy == s.slot[s.slots[j]].busy
  }

  /** The pool after `n` newTransaction() calls with no reply in between. */
  function NewTxTimes(s: Pool, n: nat): (t: Pool)
    requires Known(s) && s.slots != []
    ensures Known(t) && t.slots == s.slots
  {
    if n == 0 then s else NewTx(NewTxTimes(s, n - 1))
  }

  ghost predicate SameBusy(s: Pool, t: Pool) {
    |t.slot| == |s.slot| && forall x: nat :: x < |s.slot| ==> t.slot[x].busy == s.slot[x].busy
  }

  lemma NewTxKeepsBusy(s: Pool)
    requires Known(s) && s.slots != []
    ensures NewTx(s).rr == s.rr + 1 && SameBusy(s, NewTx(s))
  {
  }

  lemma {:induction false} NewTxTimesKeepsBusy(s: Pool, n: nat)
    requires Known(s) && s.slots != []
    ensures NewTxTimes(s, n).rr == s.rr + n && SameBusy(s, NewTxTimes(s, n))
  {
    hide NewTx;
    if n > 0 {
      NewTxTimesKeepsBusy(s, n - 1);
      NewTxKeepsBusy(NewTxTimes(s, n - 1));
    }
  }

  lemma MultiplesAreFar(n: int, q: int)
    requires n > 0
    ensures q >= 1 ==> n * q >= n
    ensures q <= -1 ==> n * q <= 0 - n
  {
    if q >= 1 {
      assert n * q == n + n * (q - 1);
    } else if q <= -1 {
      assert n * q == 0 - n + n * (q + 1);
    }
  }

  lemma SameRemainder(a: nat, b: nat, n: nat)
    requires n > 0 && a <= b < a + n && a % n == b % n
    ensures a == b
  {
    var q := b / n - a / n;
    assert b - a == n * q;
    MultiplesAreFar(n, q);
  }

  lemma Remainder(q: nat, i: nat, n: nat)
    requires i < n
    ensures (n * q + i) % n == i
  {
    var m := n * q + i;
    var d := q - m / n;
    assert m == n * (m / n) + m % n;
    assert n * d == m % n - i;
    MultiplesAreFar(n, d);
  }

  lemma RemainderReached(a: nat, i: nat, n: nat) returns (j: nat)
    requires i < n
    ensures j < n && (a + j) % n == i
  {
    var r := a % n;
    j := if i >= r then i - r else i - r + n;
    var q := a / n;
    assert a == n * q + r;
    if i >= r {
      Remainder(q, i, n);
    } else {
      assert a + j == n * (q + 1) + i;
      Remainder(q + 1, i, n);
    }
  }

  /** With equal busy counts, n calls in a row go to the n slots in turn. */
  lemma TurnByTurn(s: Pool, k: nat)
    requires Known(s) && s.slots != [] && EquallyBusy(s)
    ensures PickSlot(NewTxTimes(s, k)) == s.slots[(s.rr + k) % |s.slots|]
  {
    hide NewTxTimes, PickFrom;
    var t := NewTxTimes(s, k);
    NewTxTimesKeepsBusy(s, k);
    PickFromStays(t, t.slots[t.rr % |t.slots|], 0);
  }

  lemma {:induction false} PickFromStays(s: Pool, best: SlotId, k: nat)
    requires Known(s) && k <= |s.slots| && best < |s.slot|
    requires forall i :: 0 <= i < |s.slots| ==> s.slot[s.slots[i]].busy >= s.slot[best].busy
    ensures PickFrom(s, best, k) == best
    decreases |s.slots| - k
  {
    if k < |s.slots| {
      PickFromStays(s, best, k + 1);
    }
  }

  ghost predicate Distinct(slots: seq<SlotId>) {
    forall a, b :: 0 <= a < b < |slots| ==> slots[a] != slots[b]
  }

  lemma DistinctIndex(slots: seq<SlotId>, a: nat, b: nat)
    requires Distinct(slots) && a < |slots| && b < |slots| && slots[a] == slots[b]
    ensures a == b
  {
  }

  lemma TurnsDiffer(s: Pool, k: nat, l: nat)
    requires Known(s) && s.slots != [] && EquallyBusy(s) && k <= l < |s.slots| && Distinct(s.slots)
    requires PickSlot(NewTxTimes(s, k)) == PickSlot(NewTxTimes(s, l))
    ensures k == l
  {
    hide NewTxTimes, PickSlot, EquallyBusy, Distinct;
    TurnByTurn(s, k);
    TurnByTurn(s, l);
    var n := |s.slots|;
    DistinctIndex(s.slots, (s.rr + k) % n, (s.rr + l) % n);
    SameRemainder(s.rr + k, s.rr + l, n);
  }

  /** So the prewarm calls, made in one turn on an idle pool, reach every worker exactly once. */
  lemma EachSlotExactlyOnce(s: Pool, i: nat) returns (k: nat)
    requires Known(s) && s.slots != [] && EquallyBusy(s) && i < |s.slots| && Distinct(s.slots)
    ensures k < |s.slots| && PickSlot(NewTxTimes(s, k)) == s.slots[i]
    ensures forall l: nat :: l < |s.slots| && PickSlot(NewTxTimes(s, l)) == s.slots[i] ==> l == k
  {
    k := RemainderReached(s.rr, i, |s.slots|);
    TurnByTurn(s, k);
    forall l: nat | l < |s.slots| && PickSlot(NewTxTimes(s, l)) == s.slots[i] ensures l == k {
      if l < k {
        TurnsDiffer(s, l, k);
      } else {
        TurnsDiffer(s, k, l);
      }
    }
  }
}
