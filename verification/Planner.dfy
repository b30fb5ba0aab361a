/** The runner's plan builders, restated as pure functions: the list of
    workers it submits, in submission order, for a list of object ids.

    The Java runner submits each worker to the executor as soon as it is
    built; the model only records the order. Planning is sequential and no
    worker completes while the plan is being built, so the readiness flags
    seen by the pool are the ones planning itself leaves behind. */
module Planner {
  import opened Wrappers
  import opened Actions
  import opened TxStates
  import opened TxManager

  /** One submitted worker: its action, its object id (absent for the
      transaction-control workers) and the handle of its transaction. */
  datatype PlanItem = PlanItem(action: Action, pid: Option<string>, tx: Option<nat>)

  /** The planner's state between two object ids. */
  datatype PlanState = PlanState(pool: Pool, heap: Heap, items: seq<PlanItem>)

  /** The three roles a worker of a transactional plan can have. */
  datatype Kind = Begin | Work | Finish

  predicate IsKind(x: PlanItem, k: Kind) {
    match k
    case Begin => x.pid.None? && x.action == CreateTx
    case Work => x.pid.Some?
    case Finish => x.pid.None? && IsFinalize(x.action)
  }

  /** How many workers of role `k` are bound to transaction `h`. */
  function Count(items: seq<PlanItem>, h: nat, k: Kind): nat {
    if items == [] then 0
    else
      var x := items[|items| - 1];
      Count(items[..|items| - 1], h, k) + (if x.tx == Some(h) && IsKind(x, k) then 1 else 0)
  }

  /** The object ids of the data workers, in plan order. */
  function Works(items: seq<PlanItem>): seq<string> {
    if items == [] then []
    else
      var x := items[|items| - 1];
      Works(items[..|items| - 1]) + (if x.pid.Some? then [x.pid.value] else [])
  }

  lemma {:induction false} CountAppend(a: seq<PlanItem>, b: seq<PlanItem>, h: nat, k: Kind)
    ensures Count(a + b, h, k) == Count(a, h, k) + Count(b, h, k)
    decreases |b|
  {
    if b != [] {
      var b' := b[..|b| - 1];
      assert (a + b)[..|a + b| - 1] == a + b';
      CountAppend(a, b', h, k);
    } else {
      assert a + b == a;
    }
  }

  lemma {:induction false} WorksAppend(a: seq<PlanItem>, b: seq<PlanItem>)
    ensures Works(a + b) == Works(a) + Works(b)
    decreases |b|
  {
    if b != [] {
      var b' := b[..|b| - 1];
      assert (a + b)[..|a + b| - 1] == a + b';
      WorksAppend(a, b');
    } else {
      assert a + b == a;
    }
  }

  /** `getActionFutures`: one worker per object id, in input order, outside
      any transaction. */
  function ActionPlan(action: Action, pids: seq<string>): (items: seq<PlanItem>)
    ensures |items| == |pids|
    ensures forall i :: 0 <= i < |pids| ==> items[i] == PlanItem(action, Some(pids[i]), None)
    decreases |pids|
  {
    if pids == [] then []
    else ActionPlan(action, pids[..|pids| - 1]) + [PlanItem(action, Some(pids[|pids| - 1]), None)]
  }

  /** The workers one object id adds to a transactional plan, given the
      transaction `t` the pool handed out (before the assignment) under
      handle `h`: a CREATE_TX worker if nothing was assigned to it yet, the
      data worker, and the finalize worker if the assignment filled it. */
  function StepItems(t: TransactionState, h: nat, action: Action, pid: string,
                     mode: TransactionMode): (items: seq<PlanItem>)
    ensures Works(items) == [pid]
    ensures Count(items, h, Begin) == (if HasAssignments(t) then 0 else 1)
    ensures Count(items, h, Work) == 1
    ensures Count(items, h, Finish) == (if AllActionsAssigned(AssignAction(t)) then 1 else 0)
    ensures forall i :: 0 <= i < |items| ==> items[i].tx == Some(h)
  {
    var begin := if !HasAssignments(t) then [PlanItem(CreateTx, None, Some(h))] else [];
    var fin := if AllActionsAssigned(AssignAction(t))
               then [PlanItem(FinalizeAction(mode), None, Some(h))] else [];
    var work := PlanItem(action, Some(pid), Some(h));
    CountAppend(begin, [work], h, Begin);
    CountAppend(begin + [work], fin, h, Begin);
    CountAppend(begin, [work], h, Work);
    CountAppend(begin + [work], fin, h, Work);
    CountAppend(begin, [work], h, Finish);
    CountAppend(begin + [work], fin, h, Finish);
    WorksAppend(begin, [work]);
    WorksAppend(begin + [work], fin);
    begin + [work] + fin
  }

  /** The order of one iteration's workers: the CREATE_TX worker first
      when the transaction had no assignments, then the data worker, then,
      directly after it, the finalize worker when the assignment filled the
      transaction; nothing else. */
  lemma StepItemsLayout(t: TransactionState, h: nat, action: Action, pid: string,
                        mode: TransactionMode)
    ensures var items := StepItems(t, h, action, pid, mode);
      var w := if HasAssignments(t) then 0 else 1;
      && |items| == w + 1 + (if AllActionsAssigned(AssignAction(t)) then 1 else 0)
      && (!HasAssignments(t) ==> items[0] == PlanItem(CreateTx, None, Some(h)))
      && items[w] == PlanItem(action, Some(pid), Some(h))
      && (AllActionsAssigned(AssignAction(t)) ==>
            items[w + 1] == PlanItem(FinalizeAction(mode), None, Some(h)))
    ensures var items := StepItems(t, h, action, pid, mode);
      forall i :: 0 <= i < |items| ==>
        || items[i] == PlanItem(action, Some(pid), Some(h))
        || items[i] == PlanItem(CreateTx, None, Some(h))
        || items[i] == PlanItem(FinalizeAction(mode), None, Some(h))
  {
    var begin := if !HasAssignments(t) then [PlanItem(CreateTx, None, Some(h))] else [];
    var fin := if AllActionsAssigned(AssignAction(t))
               then [PlanItem(FinalizeAction(mode), None, Some(h))] else [];
    var work := PlanItem(action, Some(pid), Some(h));
    assert StepItems(t, h, action, pid, mode) == begin + [work] + fin;
  }

  /** One iteration of the loop of `getTransactionalActionFutures`. */
  function PlanStep(s: PlanState, action: Action, pid: string): (r: Result<PlanState, PoolError>)
    requires WellFormed(s.pool, s.heap)
    ensures r.Failure? <==> s.pool.parallelTx <= 0
    ensures r.Success? ==>
      var g := GetTransaction(s.pool, s.heap).value;
      && r.value.pool == g.pool
      && r.value.heap == g.heap[g.tx := AssignAction(g.heap[g.tx])]
      && r.value.items == s.items + StepItems(g.heap[g.tx], g.tx, action, pid, s.pool.mode)
      && WellFormed(r.value.pool, r.value.heap)
  {
    match GetTransaction(s.pool, s.heap)
    case Failure(e) => Failure(e)
    case Success(g) =>
      var t := g.heap[g.tx];
      Success(PlanState(g.pool, g.heap[g.tx := AssignAction(t)],
                        s.items + StepItems(t, g.tx, action, pid, s.pool.mode)))
  }

  /** The main loop: every object id in input order. */
  function PlanLoop(s: PlanState, action: Action, pids: seq<string>): (r: Result<PlanState, PoolError>)
    requires WellFormed(s.pool, s.heap)
    ensures r.Failure? <==> pids != [] && s.pool.parallelTx <= 0
    ensures r.Success? ==> WellFormed(r.value.pool, r.value.heap)
    ensures r.Success? ==> r.value.pool.(live := s.pool.live, cursor := s.pool.cursor) == s.pool
    ensures r.Success? ==> |r.value.heap| >= |s.heap| && s.items <= r.value.items
    decreases |pids|
  {
    if pids == [] then Success(s)
    else
      match PlanStep(s, action, pids[0])
      case Failure(e) => Failure(e)
      case Success(s1) => PlanLoop(s1, action, pids[1..])
  }

  /** The finalize worker for a live transaction that did not fill up: its
      capacity is lowered to what it was given. */
  function TrimOne(s: PlanState, h: nat): (r: PlanState)
    requires h < |s.heap|
    ensures |r.heap| == |s.heap| && r.pool == s.pool
    ensures AllActionsAssigned(s.heap[h]) ==> r == s
    ensures !AllActionsAssigned(s.heap[h]) ==>
      && r.heap == s.heap[h := SetMaxActions(s.heap[h], s.heap[h].actionsAssigned)]
      && r.items == s.items + [PlanItem(FinalizeAction(s.pool.mode), None, Some(h))]
  {
    var t := s.heap[h];
    if AllActionsAssigned(t) then s
    else
      PlanState(s.pool, s.heap[h := SetMaxActions(t, t.actionsAssigned)],
                s.items + [PlanItem(FinalizeAction(s.pool.mode), None, Some(h))])
  }

  /** The end-of-run pass over the live transactions, in list order. */
  function Trim(s: PlanState, hs: seq<nat>): (r: PlanState)
    requires forall i :: 0 <= i < |hs| ==> hs[i] < |s.heap|
    ensures |r.heap| == |s.heap| && r.pool == s.pool
    decreases |hs|
  {
    if hs == [] then s else Trim(TrimOne(s, hs[0]), hs[1..])
  }

  /** `getTransactionalActionFutures`, from a pool and the transactions it
      refers to. */
  function TransactionalPlan(pool: Pool, heap: Heap, action: Action, pids: seq<string>)
    : (r: Result<PlanState, PoolError>)
    requires WellFormed(pool, heap)
    ensures r.Failure? <==> pids != [] && pool.parallelTx <= 0
    ensures r.Success? ==> |r.value.heap| >= |heap|
  {
    match PlanLoop(PlanState(pool, heap, []), action, pids)
    case Failure(e) => Failure(e)
    case Success(s) => Success(Trim(s, s.pool.live))
  }
}
