/** What the transactional plan guarantees, proved from the pool and the
    planner: every object id gets exactly one data worker, in input order;
    every opened transaction gets exactly one CREATE_TX worker before any
    other worker bound to it and exactly one finalize worker after all of
    them; and a bounded transaction never takes more than its capacity.

    These need `actionsPerTx != 1`; with a capacity of one the pool keeps a
    transaction live after it filled up and the plan finalizes it twice
    (see `CapacityOneFinalizesTwice`). */
module PlanProofs {
  import opened Wrappers
  import opened Actions
  import opened TxStates
  import opened TxManager
  import opened Planner

  /** No worker of a transaction precedes its CREATE_TX worker. */
  ghost predicate BeginFirst(items: seq<PlanItem>) {
    forall i, j :: 0 <= i < j < |items| && IsKind(items[j], Begin) ==> items[i].tx != items[j].tx
  }

  /** No worker of a transaction follows its finalize worker. */
  ghost predicate FinishLast(items: seq<PlanItem>) {
    forall i, j :: 0 <= i < j < |items| && IsKind(items[i], Finish) ==> items[j].tx != items[i].tx
  }

  /** Every worker is bound to one of the first `n` transactions. */
  ghost predicate InRange(items: seq<PlanItem>, n: nat) {
    forall i :: 0 <= i < |items| ==> items[i].tx.Some? && items[i].tx.value < n
  }

  /** Data workers run the benchmarked action; the others create or
      finalize a transaction the way the mode says. */
  ghost predicate Shapes(items: seq<PlanItem>, action: Action, mode: TransactionMode) {
    forall i :: 0 <= i < |items| ==>
      || (items[i].pid.Some? && items[i].action == action)
      || (items[i].pid.None? && items[i].action == CreateTx)
      || (items[i].pid.None? && items[i].action == FinalizeAction(mode))
  }

  /** The state of transaction `h` between two object ids: untouched by
      workers, at least one action assigned, one CREATE_TX worker, one data
      worker per assignment, and a finalize worker iff it has left the live
      list, which happens exactly when it took its full capacity. */
  ghost predicate TxInv(s: PlanState, h: nat)
    requires h < |s.heap|
  {
    var t := s.heap[h];
    var k := s.pool.actionsPerTx;
    && t == TransactionState(None, t.actionsAssigned, 0, k, false)
    && t.actionsAssigned >= 1
    && Count(s.items, h, Begin) == 1
    && Count(s.items, h, Work) == t.actionsAssigned
    && Count(s.items, h, Finish) == (if h in s.pool.live then 0 else 1)
    && (k > 0 && h in s.pool.live ==> t.actionsAssigned < k)
    && (k > 0 && h !in s.pool.live ==> t.actionsAssigned == k)
    && (k <= 0 ==> h in s.pool.live)
  }

  ghost predicate LoopInv(s: PlanState, action: Action, done: seq<string>) {
    && WellFormed(s.pool, s.heap)
    && s.pool.parallelTx >= 1
    && s.pool.actionsPerTx != 1
    && Works(s.items) == done
    && InRange(s.items, |s.heap|)
    && (forall h :: 0 <= h < |s.heap| ==> TxInv(s, h))
    && BeginFirst(s.items)
    && FinishLast(s.items)
    && Shapes(s.items, action, s.pool.mode)
  }

  lemma {:induction false} CountZero(items: seq<PlanItem>, h: nat, k: Kind)
    requires forall i :: 0 <= i < |items| ==> items[i].tx != Some(h)
    ensures Count(items, h, k) == 0
    decreases |items|
  {
    if items != [] {
      CountZero(items[..|items| - 1], h, k);
    }
  }

  lemma {:induction false} CountPositive(items: seq<PlanItem>, i: nat, h: nat, k: Kind)
    requires i < |items| && items[i].tx == Some(h) && IsKind(items[i], k)
    ensures Count(items, h, k) >= 1
    decreases |items|
  {
    if i < |items| - 1 {
      CountPositive(items[..|items| - 1], i, h, k);
    }
  }

  /** Removing the entry at `i` of a list of distinct handles drops that
      handle and keeps every other one. */
  lemma RemoveAtMembership(s: seq<nat>, i: nat, h: nat)
    requires i < |s|
    requires forall a, b :: 0 <= a < b < |s| ==> s[a] != s[b]
    ensures h in RemoveAt(s, i) <==> h in s && h != s[i]
  {
    var r := RemoveAt(s, i);
    if h in r {
      var k :| 0 <= k < |r| && r[k] == h;
      if k < i { assert s[k] == h; } else { assert s[k + 1] == h; }
    }
    if h in s && h != s[i] {
      var m :| 0 <= m < |s| && s[m] == h;
      if m < i { assert r[m] == h; } else { assert r[m - 1] == h; }
    }
  }

  lemma StepLive(s: PlanState, g: Grant, h: nat)
    requires WellFormed(s.pool, s.heap)
    requires GetTransaction(s.pool, s.heap) == Success(g)
    requires h != g.tx
    ensures h in g.pool.live <==> h in s.pool.live
  {
    var p := s.pool;
    if |p.live| >= p.parallelTx && AtCapacity(p, s.heap[g.tx]) {
      RemoveAtMembership(p.live, p.cursor, h);
    }
  }

  /** In a full pool the handle handed out is a live one, and it leaves
      the live list exactly when it is evicted; otherwise it is fresh. */
  lemma StepGrantLive(s: PlanState, g: Grant)
    requires WellFormed(s.pool, s.heap)
    requires GetTransaction(s.pool, s.heap) == Success(g)
    ensures |s.pool.live| < s.pool.parallelTx ==> g.tx == |s.heap| && g.tx in g.pool.live
    ensures |s.pool.live| >= s.pool.parallelTx ==>
      && g.tx < |s.heap| && g.tx in s.pool.live
      && (g.tx in g.pool.live <==> !AtCapacity(s.pool, s.heap[g.tx]))
  {
    var p := s.pool;
    if |p.live| < p.parallelTx {
      assert g.pool.live[|p.live|] == g.tx;
    } else {
      RemoveAtMembership(p.live, p.cursor, g.tx);
    }
  }

  /** The per-transaction invariant survives one iteration. */
  lemma StepTxInv(s: PlanState, action: Action, pid: string, done: seq<string>, h: nat)
    requires LoopInv(s, action, done)
    requires PlanStep(s, action, pid).Success?
    requires h < |PlanStep(s, action, pid).value.heap|
    ensures TxInv(PlanStep(s, action, pid).value, h)
  {
    var g := GetTransaction(s.pool, s.heap).value;
    var t := g.heap[g.tx];
    var s' := PlanStep(s, action, pid).value;
    var d := StepItems(t, g.tx, action, pid, s.pool.mode);
    StepGrantLive(s, g);
    CountAppend(s.items, d, h, Begin);
    CountAppend(s.items, d, h, Work);
    CountAppend(s.items, d, h, Finish);
    if h != g.tx {
      assert h < |s.heap|;
      assert TxInv(s, h);
      CountZero(d, h, Begin);
      CountZero(d, h, Work);
      CountZero(d, h, Finish);
      StepLive(s, g, h);
    } else if |s.pool.live| < s.pool.parallelTx {
      CountZero(s.items, h, Begin);
      CountZero(s.items, h, Work);
      CountZero(s.items, h, Finish);
    } else {
      assert TxInv(s, h);
    }
  }

  /** The plan-order properties survive one iteration. */
  lemma StepOrder(s: PlanState, action: Action, pid: string, done: seq<string>)
    requires LoopInv(s, action, done)
    requires PlanStep(s, action, pid).Success?
    ensures BeginFirst(PlanStep(s, action, pid).value.items)
    ensures FinishLast(PlanStep(s, action, pid).value.items)
  {
    var g := GetTransaction(s.pool, s.heap).value;
    var t := g.heap[g.tx];
    var items' := PlanStep(s, action, pid).value.items;
    var d := StepItems(t, g.tx, action, pid, s.pool.mode);
    var n := |s.items|;
    var full := |s.pool.live| >= s.pool.parallelTx;
    StepGrantLive(s, g);
    assert items' == s.items + d;
    assert full ==> HasAssignments(t) && Count(s.items, g.tx, Finish) == 0 by {
      if full { assert TxInv(s, g.tx); }
    }
    // A CREATE_TX worker is only added for a fresh transaction.
    forall i, j | 0 <= i < j < |items'| && IsKind(items'[j], Begin)
      ensures items'[i].tx != items'[j].tx
    {
      if j >= n {
        assert j == n && !HasAssignments(t);
        assert items'[i] == s.items[i];
      }
    }
    // No finalize worker exists yet for the transaction handed out.
    forall i, j | 0 <= i < j < |items'| && IsKind(items'[i], Finish)
      ensures items'[j].tx != items'[i].tx
    {
      if i < n && j >= n {
        var h := items'[i].tx.value;
        assert items'[i] == s.items[i];
        CountPositive(s.items, i, h, Finish);
      }
    }
  }

  /** The workers added by one iteration are bound to a known transaction
      and have one of the three shapes. */
  lemma StepShapes(s: PlanState, action: Action, pid: string, done: seq<string>)
    requires LoopInv(s, action, done)
    requires PlanStep(s, action, pid).Success?
    ensures Works(PlanStep(s, action, pid).value.items) == done + [pid]
    ensures InRange(PlanStep(s, action, pid).value.items, |PlanStep(s, action, pid).value.heap|)
    ensures Shapes(PlanStep(s, action, pid).value.items, action, s.pool.mode)
  {
    var g := GetTransaction(s.pool, s.heap).value;
    var t := g.heap[g.tx];
    var s' := PlanStep(s, action, pid).value;
    var d := StepItems(t, g.tx, action, pid, s.pool.mode);
    WorksAppend(s.items, d);
    StepItemsLayout(t, g.tx, action, pid, s.pool.mode);
    AppendShapes(s.items, d, |s.heap|, |s'.heap|, g.tx, action, pid, s.pool.mode);
  }

  /** Appending workers of one known transaction keeps the items bound and
      shaped. */
  lemma AppendShapes(a: seq<PlanItem>, d: seq<PlanItem>, n: nat, n': nat, h: nat,
                     action: Action, pid: string, mode: TransactionMode)
    requires InRange(a, n) && Shapes(a, action, mode)
    requires n <= n' && h < n'
    requires forall i :: 0 <= i < |d| ==>
      || d[i] == PlanItem(action, Some(pid), Some(h))
      || d[i] == PlanItem(CreateTx, None, Some(h))
      || d[i] == PlanItem(FinalizeAction(mode), None, Some(h))
    ensures InRange(a + d, n') && Shapes(a + d, action, mode)
  {
    assert forall i :: |a| <= i < |a + d| ==> (a + d)[i] == d[i - |a|];
  }

  /** One iteration keeps the whole loop invariant. */
  lemma StepPreserves(s: PlanState, action: Action, pid: string, done: seq<string>)
    requires LoopInv(s, action, done)
    ensures PlanStep(s, action, pid).Success?
    ensures LoopInv(PlanStep(s, action, pid).value, action, done + [pid])
  {
    var s' := PlanStep(s, action, pid).value;
    forall h | 0 <= h < |s'.heap| ensures TxInv(s', h) {
      StepTxInv(s, action, pid, done, h);
    }
    StepOrder(s, action, pid, done);
    StepShapes(s, action, pid, done);
  }

  /** The first iteration of the loop, named: the state it leaves keeps the
      invariant, and the rest of the loop runs from it. */
  lemma Advance(s: PlanState, action: Action, done: seq<string>, pids: seq<string>)
    returns (s1: PlanState)
    requires LoopInv(s, action, done)
    requires pids != []
    ensures LoopInv(s1, action, done + [pids[0]])
    ensures PlanLoop(s, action, pids) == PlanLoop(s1, action, pids[1..])
  {
    StepPreserves(s, action, pids[0], done);
    s1 := PlanStep(s, action, pids[0]).value;
  }

  lemma {:induction false} LoopPreserves(s: PlanState, action: Action, done: seq<string>, pids: seq<string>)
    requires LoopInv(s, action, done)
    ensures PlanLoop(s, action, pids).Success?
    ensures LoopInv(PlanLoop(s, action, pids).value, action, done + pids)
    decreases |pids|
  {
    if pids == [] {
      assert done + pids == done;
    } else {
      var s1 := Advance(s, action, done, pids);
      LoopPreserves(s1, action, done + [pids[0]], pids[1..]);
      ConsAppend(done, pids);
    }
  }

  lemma ConsAppend(done: seq<string>, pids: seq<string>)
    requires pids != []
    ensures done + [pids[0]] + pids[1..] == done + pids
  {
    assert [pids[0]] + pids[1..] == pids;
  }

  /** The finalize workers of the end-of-run pass, one per handle. */
  function FinishItems(hs: seq<nat>, mode: TransactionMode): (items: seq<PlanItem>)
    ensures |items| == |hs|
    decreases |hs|
  {
    if hs == [] then []
    else [PlanItem(FinalizeAction(mode), None, Some(hs[0]))] + FinishItems(hs[1..], mode)
  }

  lemma {:induction false} FinishItemsAt(hs: seq<nat>, mode: TransactionMode, k: nat)
    requires k < |hs|
    ensures FinishItems(hs, mode)[k] == PlanItem(FinalizeAction(mode), None, Some(hs[k]))
    decreases k
  {
    if k > 0 {
      FinishItemsAt(hs[1..], mode, k - 1);
    }
  }

  ghost predicate Distinct(hs: seq<nat>) {
    forall i, j :: 0 <= i < j < |hs| ==> hs[i] != hs[j]
  }

  /** Finalizing the first transaction of the pass leaves the others as
      they were, so the pass can go on with the rest. */
  lemma TrimOneKeeps(s: PlanState, hs: seq<nat>)
    requires hs != []
    requires forall i :: 0 <= i < |hs| ==> hs[i] < |s.heap|
    requires Distinct(hs)
    requires forall i :: 0 <= i < |hs| ==> !AllActionsAssigned(s.heap[hs[i]])
    ensures var s1 := TrimOne(s, hs[0]);
      && s1.pool == s.pool
      && (forall i :: 0 <= i < |hs[1..]| ==> hs[1..][i] < |s1.heap|)
      && Distinct(hs[1..])
      && (forall i :: 0 <= i < |hs[1..]| ==> !AllActionsAssigned(s1.heap[hs[1..][i]]))
  {
    var s1 := TrimOne(s, hs[0]);
    var rest := hs[1..];
    forall i | 0 <= i < |rest| ensures !AllActionsAssigned(s1.heap[rest[i]]) {
      assert rest[i] == hs[i + 1] != hs[0];
    }
  }

  /** The end-of-run pass over distinct transactions none of which is full
      appends one finalize worker per transaction, in list order. */
  lemma {:induction false} TrimItems(s: PlanState, hs: seq<nat>)
    requires forall i :: 0 <= i < |hs| ==> hs[i] < |s.heap|
    requires Distinct(hs)
    requires forall i :: 0 <= i < |hs| ==> !AllActionsAssigned(s.heap[hs[i]])
    ensures Trim(s, hs).items == s.items + FinishItems(hs, s.pool.mode)
    decreases |hs|
  {
    if hs == [] {
      assert s.items + FinishItems(hs, s.pool.mode) == s.items;
    } else {
      var s1 := TrimOne(s, hs[0]);
      var rest := hs[1..];
      TrimOneKeeps(s, hs);
      TrimItems(s1, rest);
      var x := PlanItem(FinalizeAction(s.pool.mode), None, Some(hs[0]));
      assert s1.items == s.items + [x];
      assert Trim(s, hs).items == Trim(s1, rest).items;
      calc {
        Trim(s, hs).items;
        s1.items + FinishItems(rest, s.pool.mode);
        s.items + ([x] + FinishItems(rest, s.pool.mode));
        s.items + FinishItems(hs, s.pool.mode);
      }
    }
  }

  /** ... and lowers each such transaction's capacity to its assignments,
      leaving the other transactions alone. */
  lemma {:induction false} TrimHeap(s: PlanState, hs: seq<nat>, h: nat)
    requires forall i :: 0 <= i < |hs| ==> hs[i] < |s.heap|
    requires Distinct(hs)
    requires forall i :: 0 <= i < |hs| ==> !AllActionsAssigned(s.heap[hs[i]])
    requires h < |s.heap|
    ensures h in hs ==> Trim(s, hs).heap[h] == SetMaxActions(s.heap[h], s.heap[h].actionsAssigned)
    ensures h !in hs ==> Trim(s, hs).heap[h] == s.heap[h]
    decreases |hs|
  {
    if hs != [] {
      var s1 := TrimOne(s, hs[0]);
      var rest := hs[1..];
      TrimOneKeeps(s, hs);
      TrimHeap(s1, rest, h);
      assert h in hs <==> h == hs[0] || h in rest;
      if h == hs[0] {
        assert h !in rest by {
          forall i | 0 <= i < |rest| ensures rest[i] != h {
            assert rest[i] == hs[i + 1];
          }
        }
      }
    }
  }

  lemma {:induction false} FinishItemsCount(hs: seq<nat>, mode: TransactionMode, h: nat)
    requires Distinct(hs)
    ensures Count(FinishItems(hs, mode), h, Finish) == (if h in hs then 1 else 0)
    ensures Count(FinishItems(hs, mode), h, Begin) == 0
    ensures Count(FinishItems(hs, mode), h, Work) == 0
    ensures Works(FinishItems(hs, mode)) == []
    decreases |hs|
  {
    if hs != [] {
      var x := PlanItem(FinalizeAction(mode), None, Some(hs[0]));
      var rest := hs[1..];
      assert [x][..0] == [];
      FinishItemsCount(rest, mode, h);
      CountAppend([x], FinishItems(rest, mode), h, Finish);
      CountAppend([x], FinishItems(rest, mode), h, Begin);
      CountAppend([x], FinishItems(rest, mode), h, Work);
      WorksAppend([x], FinishItems(rest, mode));
      assert h in hs <==> h == hs[0] || h in rest;
      assert hs[0] !in rest by {
        forall i | 0 <= i < |rest| ensures rest[i] != hs[0] {
          assert rest[i] == hs[i + 1];
        }
      }
    }
  }

  /** Everything the transactional plan promises. */
  ghost predicate PlanCorrect(s: PlanState, k: int, mode: TransactionMode,
                              action: Action, pids: seq<string>) {
    && Works(s.items) == pids
    && InRange(s.items, |s.heap|)
    && BeginFirst(s.items)
    && FinishLast(s.items)
    && Shapes(s.items, action, mode)
    && forall h :: 0 <= h < |s.heap| ==>
         && Count(s.items, h, Begin) == 1
         && Count(s.items, h, Finish) == 1
         && Count(s.items, h, Work) == s.heap[h].actionsAssigned
         && s.heap[h].actionsAssigned >= 1
         && (k > 0 ==> s.heap[h].actionsAssigned <= k)
         && AllActionsAssigned(s.heap[h])
  }

  /** Every live transaction is below its capacity, so the end-of-run
      pass finalizes each of them. */
  lemma LiveNotFull(s: PlanState, action: Action, pids: seq<string>)
    requires LoopInv(s, action, pids)
    ensures forall i :: 0 <= i < |s.pool.live| ==> !AllActionsAssigned(s.heap[s.pool.live[i]])
  {
    forall i | 0 <= i < |s.pool.live| ensures !AllActionsAssigned(s.heap[s.pool.live[i]]) {
      assert TxInv(s, s.pool.live[i]);
    }
  }

  /** The per-transaction counts after the end-of-run pass. */
  lemma TrimCounts(s: PlanState, action: Action, pids: seq<string>, h: nat)
    requires LoopInv(s, action, pids)
    requires h < |s.heap|
    ensures var r := Trim(s, s.pool.live);
      && Count(r.items, h, Begin) == 1
      && Count(r.items, h, Finish) == 1
      && Count(r.items, h, Work) == r.heap[h].actionsAssigned
      && r.heap[h].actionsAssigned >= 1
      && (s.pool.actionsPerTx > 0 ==> r.heap[h].actionsAssigned <= s.pool.actionsPerTx)
      && AllActionsAssigned(r.heap[h])
  {
    var hs := s.pool.live;
    var f := FinishItems(hs, s.pool.mode);
    LiveNotFull(s, action, pids);
    TrimItems(s, hs);
    TrimHeap(s, hs, h);
    assert TxInv(s, h);
    FinishItemsCount(hs, s.pool.mode, h);
    CountAppend(s.items, f, h, Begin);
    CountAppend(s.items, f, h, Work);
    CountAppend(s.items, f, h, Finish);
  }

  /** The plan-order properties after the end-of-run pass. */
  lemma TrimOrder(s: PlanState, action: Action, pids: seq<string>)
    requires LoopInv(s, action, pids)
    ensures var r := Trim(s, s.pool.live);
      && Works(r.items) == pids
      && InRange(r.items, |r.heap|)
      && BeginFirst(r.items)
      && FinishLast(r.items)
      && Shapes(r.items, action, s.pool.mode)
  {
    var hs := s.pool.live;
    var f := FinishItems(hs, s.pool.mode);
    LiveNotFull(s, action, pids);
    TrimItems(s, hs);
    var r := Trim(s, hs);
    assert r.items == s.items + f;
    FinishItemsCount(hs, s.pool.mode, 0);
    WorksAppend(s.items, f);
    forall k | 0 <= k < |f|
      ensures f[k] == PlanItem(FinalizeAction(s.pool.mode), None, Some(hs[k]))
    {
      FinishItemsAt(hs, s.pool.mode, k);
    }
    FinishPassLast(s, action, pids, f);
  }

  /** The finalize pass appended after the loop's workers keeps every
      finalize worker last for its transaction. */
  lemma FinishPassLast(s: PlanState, action: Action, pids: seq<string>, f: seq<PlanItem>)
    requires LoopInv(s, action, pids)
    requires |f| == |s.pool.live|
    requires forall k :: 0 <= k < |f| ==>
      f[k] == PlanItem(FinalizeAction(s.pool.mode), None, Some(s.pool.live[k]))
    ensures FinishLast(s.items + f)
  {
    var items := s.items + f;
    forall i, j | 0 <= i < j < |items| && IsKind(items[i], Finish)
      ensures items[j].tx != items[i].tx
    {
      if i < |s.items| && j >= |s.items| {
        var h := s.items[i].tx.value;
        assert items[i] == s.items[i];
        CountPositive(s.items, i, h, Finish);
        assert TxInv(s, h);
        assert items[j] == f[j - |s.items|];
      }
    }
  }

  /** The end-of-run pass turns the loop invariant into the plan guarantee. */
  lemma TrimCompletes(s: PlanState, action: Action, pids: seq<string>)
    requires LoopInv(s, action, pids)
    ensures PlanCorrect(Trim(s, s.pool.live), s.pool.actionsPerTx, s.pool.mode, action, pids)
  {
    TrimOrder(s, action, pids);
    var r := Trim(s, s.pool.live);
    forall h | 0 <= h < |r.heap|
      ensures && Count(r.items, h, Begin) == 1
              && Count(r.items, h, Finish) == 1
              && Count(r.items, h, Work) == r.heap[h].actionsAssigned
              && r.heap[h].actionsAssigned >= 1
              && (s.pool.actionsPerTx > 0 ==> r.heap[h].actionsAssigned <= s.pool.actionsPerTx)
              && AllActionsAssigned(r.heap[h])
    {
      TrimCounts(s, action, pids, h);
    }
  }

  /** The plan `getTransactionalActionFutures` builds from a new pool with
      at least one parallel transaction and a capacity other than one:
      the data workers are the object ids in input order, and every
      transaction it opens has one CREATE_TX worker first, one finalize
      worker last, no more data workers than its capacity, and ends sealed
      (all actions assigned). */
  lemma PlanTheorem(mode: TransactionMode, k: int, p: int, action: Action, pids: seq<string>)
    requires p >= 1 && k != 1
    ensures TransactionalPlan(NewPool(mode, k, p), [], action, pids).Success?
    ensures PlanCorrect(TransactionalPlan(NewPool(mode, k, p), [], action, pids).value,
                        k, mode, action, pids)
  {
    var s0 := PlanState(NewPool(mode, k, p), [], []);
    assert LoopInv(s0, action, []);
    LoopPreserves(s0, action, [], pids);
    var s := PlanLoop(s0, action, pids).value;
    assert [] + pids == pids;
    TrimCompletes(s, action, pids);
  }

  /** Every worker without an object id creates or finalizes a
      transaction. Unlike the invariants above, this holds for every
      capacity. */
  ghost predicate ControlOnly(items: seq<PlanItem>, mode: TransactionMode) {
    forall i :: 0 <= i < |items| && items[i].pid.None? ==>
      items[i].action == CreateTx || items[i].action == FinalizeAction(mode)
  }

  lemma ControlAppend(a: seq<PlanItem>, d: seq<PlanItem>, mode: TransactionMode)
    requires ControlOnly(a, mode) && ControlOnly(d, mode)
    ensures ControlOnly(a + d, mode)
  {
    assert forall i :: |a| <= i < |a + d| ==> (a + d)[i] == d[i - |a|];
  }

  /** One iteration appends only control workers of the two kinds. */
  lemma StepControl(s: PlanState, action: Action, pid: string)
    requires WellFormed(s.pool, s.heap) && ControlOnly(s.items, s.pool.mode)
    requires PlanStep(s, action, pid).Success?
    ensures PlanStep(s, action, pid).value.pool.mode == s.pool.mode
    ensures ControlOnly(PlanStep(s, action, pid).value.items, s.pool.mode)
  {
    var g := GetTransaction(s.pool, s.heap).value;
    var d := StepItems(g.heap[g.tx], g.tx, action, pid, s.pool.mode);
    StepItemsLayout(g.heap[g.tx], g.tx, action, pid, s.pool.mode);
    ControlAppend(s.items, d, s.pool.mode);
  }

  lemma {:induction false} LoopControl(s: PlanState, action: Action, pids: seq<string>)
    requires WellFormed(s.pool, s.heap) && ControlOnly(s.items, s.pool.mode)
    requires PlanLoop(s, action, pids).Success?
    ensures ControlOnly(PlanLoop(s, action, pids).value.items, s.pool.mode)
    decreases |pids|
  {
    if pids != [] {
      StepControl(s, action, pids[0]);
      var s1 := PlanStep(s, action, pids[0]).value;
      LoopControl(s1, action, pids[1..]);
    }
  }

  lemma {:induction false} TrimControl(s: PlanState, hs: seq<nat>)
    requires forall i :: 0 <= i < |hs| ==> hs[i] < |s.heap|
    requires ControlOnly(s.items, s.pool.mode)
    ensures ControlOnly(Trim(s, hs).items, s.pool.mode)
    decreases |hs|
  {
    if hs != [] {
      if !AllActionsAssigned(s.heap[hs[0]]) {
        ControlAppend(s.items, [PlanItem(FinalizeAction(s.pool.mode), None, Some(hs[0]))], s.pool.mode);
      }
      TrimControl(TrimOne(s, hs[0]), hs[1..]);
    }
  }

  /** For every capacity and parallelism, every worker of a transactional
      plan that has no object id is a CREATE_TX worker or the pool's
      finalize worker. */
  lemma PlanControl(pool: Pool, heap: Heap, action: Action, pids: seq<string>)
    requires WellFormed(pool, heap)
    requires TransactionalPlan(pool, heap, action, pids).Success?
    ensures ControlOnly(TransactionalPlan(pool, heap, action, pids).value.items, pool.mode)
  {
    var s0 := PlanState(pool, heap, []);
    LoopControl(s0, action, pids);
    var s := PlanLoop(s0, action, pids).value;
    TrimControl(s, s.pool.live);
  }

  /** One iteration appends exactly one data worker, for the id it was given. */
  lemma StepWorks(s: PlanState, action: Action, pid: string)
    requires WellFormed(s.pool, s.heap)
    requires PlanStep(s, action, pid).Success?
    ensures Works(PlanStep(s, action, pid).value.items) == Works(s.items) + [pid]
  {
    var g := GetTransaction(s.pool, s.heap).value;
    WorksAppend(s.items, StepItems(g.heap[g.tx], g.tx, action, pid, s.pool.mode));
  }

  lemma {:induction false} LoopWorks(s: PlanState, action: Action, pids: seq<string>)
    requires WellFormed(s.pool, s.heap)
    requires PlanLoop(s, action, pids).Success?
    ensures Works(PlanLoop(s, action, pids).value.items) == Works(s.items) + pids
    decreases |pids|
  {
    if pids == [] {
      assert Works(s.items) + pids == Works(s.items);
    } else {
      StepWorks(s, action, pids[0]);
      var s1 := PlanStep(s, action, pids[0]).value;
      LoopWorks(s1, action, pids[1..]);
      ConsAppend(Works(s.items), pids);
    }
  }

  /** Closing the unfilled transactions adds no data worker. */
  lemma {:induction false} TrimWorks(s: PlanState, hs: seq<nat>)
    requires forall i :: 0 <= i < |hs| ==> hs[i] < |s.heap|
    ensures Works(Trim(s, hs).items) == Works(s.items)
    decreases |hs|
  {
    if hs != [] {
      var fin := [PlanItem(FinalizeAction(s.pool.mode), None, Some(hs[0]))];
      if !AllActionsAssigned(s.heap[hs[0]]) {
        WorksAppend(s.items, fin);
        assert Works(fin) == Works([]) + [];
      }
      TrimWorks(TrimOne(s, hs[0]), hs[1..]);
    }
  }

  /** For every capacity and parallelism, the data workers of a successful
      transactional plan are exactly the object ids, in input order. */
  lemma PlanWorks(pool: Pool, heap: Heap, action: Action, pids: seq<string>)
    requires WellFormed(pool, heap)
    requires TransactionalPlan(pool, heap, action, pids).Success?
    ensures Works(TransactionalPlan(pool, heap, action, pids).value.items) == pids
  {
    var s0 := PlanState(pool, heap, []);
    LoopWorks(s0, action, pids);
    var s := PlanLoop(s0, action, pids).value;
    TrimWorks(s, s.pool.live);
  }
}
