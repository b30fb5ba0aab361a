/** One server-side transaction as the scheduler tracks it: an optional id,
    how many actions were assigned to it while planning, how many of them
    completed, its capacity and whether it may be finalized.

    The Java object is shared by reference between the planner and the
    workers; here it is an immutable value and every mutator returns the
    updated record. */
module TxStates {
  import opened Wrappers
  import opened Actions

  datatype TransactionState = TransactionState(
    transactionId: Option<string>,
    actionsAssigned: int,
    actionsCompleted: int,
    maxActions: int,      // capacity; zero or less means unbounded
    readyForCommit: bool)

  /** A transaction that has not been created on the server yet. */
  function Fresh(actionsPerTx: int): (t: TransactionState)
    ensures t.transactionId == None && !TransactionCreated(t)
    ensures t.actionsAssigned == 0 && !HasAssignments(t)
    ensures t.actionsCompleted == 0
    ensures !t.readyForCommit
    ensures t.maxActions == actionsPerTx
  {
    TransactionState(None, 0, 0, actionsPerTx, false)
  }

  function SetTransactionId(t: TransactionState, id: Option<string>): (r: TransactionState)
    ensures r.transactionId == id
    ensures TransactionCreated(r) <==> id.Some?
    ensures r.(transactionId := t.transactionId) == t
  {
    t.(transactionId := id)
  }

  /** Records that a worker bound to this transaction finished. Control
      kinds are ignored; a data kind bumps the completion count, and the
      transaction becomes ready once the count reaches the capacity. */
  function ActionCompleted(t: TransactionState, a: Action): (r: TransactionState)
    ensures IsControl(a) ==> r == t
    ensures !IsControl(a) ==> r.actionsCompleted == t.actionsCompleted + 1
    ensures !IsControl(a) ==>
      r.(actionsCompleted := t.actionsCompleted, readyForCommit := t.readyForCommit) == t
    ensures !IsControl(a) ==>
      (r.readyForCommit <==> t.readyForCommit || t.actionsCompleted + 1 >= t.maxActions)
    ensures t.readyForCommit ==> r.readyForCommit
  {
    if IsControl(a) then t
    else
      var completed := t.actionsCompleted + 1;
      t.(actionsCompleted := completed,
         readyForCommit := if completed >= t.maxActions then true else t.readyForCommit)
  }

  function SetMaxActions(t: TransactionState, n: int): (r: TransactionState)
    ensures r.maxActions == n
    ensures r.(maxActions := t.maxActions) == t
    ensures n == t.actionsAssigned && n > 0 ==> AllActionsAssigned(r)
  {
    t.(maxActions := n)
  }

  function AssignAction(t: TransactionState): (r: TransactionState)
    ensures r.actionsAssigned == t.actionsAssigned + 1
    ensures r.(actionsAssigned := t.actionsAssigned) == t
    ensures t.actionsAssigned >= 0 ==> HasAssignments(r)
  {
    t.(actionsAssigned := t.actionsAssigned + 1)
  }

  function SetReadyForCommit(t: TransactionState, ready: bool): (r: TransactionState)
    ensures r.readyForCommit == ready
    ensures r.(readyForCommit := t.readyForCommit) == t
  {
    t.(readyForCommit := ready)
  }

  /** `actionsAssigned()` in the source: some action has been assigned. */
  predicate HasAssignments(t: TransactionState) {
    t.actionsAssigned > 0
  }

  /** The transaction has taken exactly its capacity; never true when the
      capacity is unbounded. */
  predicate AllActionsAssigned(t: TransactionState) {
    t.actionsAssigned == t.maxActions && t.maxActions > 0
  }

  /** `transactionCreated()`: the server has handed out an id. */
  predicate TransactionCreated(t: TransactionState) {
    t.transactionId.Some?
  }

  /** `n` assignments in a row. */
  function AssignTimes(t: TransactionState, n: nat): (r: TransactionState)
    ensures r.actionsAssigned == t.actionsAssigned + n
    ensures r.(actionsAssigned := t.actionsAssigned) == t
    decreases n
  {
    if n == 0 then t else AssignAction(AssignTimes(t, n - 1))
  }

  /** What the planner's two queries answer for a fresh transaction after
      `n` assignments: it has assignments iff `n >= 1`, and it is
      all-assigned iff its capacity is bounded and `n` is exactly that
      capacity, so one more assignment makes it not all-assigned again and
      an unbounded transaction never is. */
  lemma AssignmentQueries(k: int, n: nat)
    ensures HasAssignments(AssignTimes(Fresh(k), n)) <==> n >= 1
    ensures AllActionsAssigned(AssignTimes(Fresh(k), n)) <==> k > 0 && n == k
    ensures AllActionsAssigned(AssignTimes(Fresh(k), n)) ==>
      !AllActionsAssigned(AssignTimes(Fresh(k), n + 1))
    ensures k <= 0 ==> !AllActionsAssigned(AssignTimes(Fresh(k), n))
  {
  }

  /** Only setting the id changes whether a transaction counts as created:
      a fresh one is not, and assignment, completion, a new capacity and
      the ready flag leave the answer as it was. */
  lemma CreatedOnlyBySettingId(t: TransactionState, k: int, a: Action, n: int, ready: bool)
    ensures !TransactionCreated(Fresh(k))
    ensures TransactionCreated(AssignAction(t)) == TransactionCreated(t)
    ensures TransactionCreated(ActionCompleted(t, a)) == TransactionCreated(t)
    ensures TransactionCreated(SetMaxActions(t, n)) == TransactionCreated(t)
    ensures TransactionCreated(SetReadyForCommit(t, ready)) == TransactionCreated(t)
  {
  }

  /** The number of data (non-control) actions in `acts`. */
  function DataCount(acts: seq<Action>): (n: nat)
    ensures n <= |acts|
  {
    if acts == [] then 0
    else (if IsControl(acts[0]) then 0 else 1) + DataCount(acts[1..])
  }

  /** Completions reported one after another, in the order of `acts`. */
  function CompleteAll(t: TransactionState, acts: seq<Action>): TransactionState
    decreases |acts|
  {
    if acts == [] then t else CompleteAll(ActionCompleted(t, acts[0]), acts[1..])
  }

  /** After a run of completions, exactly the data completions were counted,
      nothing but the count and the flag changed, and the transaction is
      ready iff it was ready before or at least one data completion brought
      the count to the capacity. With an unbounded capacity the first data
      completion already makes it ready. */
  lemma {:induction false} CompletionsReachReady(t: TransactionState, acts: seq<Action>)
    ensures CompleteAll(t, acts).actionsCompleted == t.actionsCompleted + DataCount(acts)
    ensures CompleteAll(t, acts).(actionsCompleted := t.actionsCompleted,
                                readyForCommit := t.readyForCommit) == t
    ensures CompleteAll(t, acts).readyForCommit <==>
      t.readyForCommit
      || (DataCount(acts) > 0 && t.actionsCompleted + DataCount(acts) >= t.maxActions)
    decreases |acts|
  {
    if acts != [] {
      var t1 := ActionCompleted(t, acts[0]);
      CompletionsReachReady(t1, acts[1..]);
    }
  }

  /** Readiness is never withdrawn by completions. */
  lemma {:induction false} ReadyIsSticky(t: TransactionState, acts: seq<Action>)
    requires t.readyForCommit
    ensures CompleteAll(t, acts).readyForCommit
    decreases |acts|
  {
    if acts != [] {
      ReadyIsSticky(ActionCompleted(t, acts[0]), acts[1..]);
    }
  }
}
