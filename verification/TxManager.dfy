/** The bounded round-robin transaction pool.

    The Java manager keeps a list of references to live transaction objects.
    The model keeps every transaction ever opened in an arena (`Heap`) and
    the pool's live list holds handles, i.e. indices into that arena, so a
    caller that updates a transaction through its handle sees the update
    wherever the transaction is referenced, as in the source. */
module TxManager {
  import opened Wrappers
  import opened Actions
  import opened TxStates

  /** All transactions opened so far, indexed by handle. */
  type Heap = seq<TransactionState>

  datatype Pool = Pool(
    mode: TransactionMode,
    actionsPerTx: int,      // capacity given to fresh transactions
    parallelTx: int,        // how many transactions may be live at once
    live: seq<nat>,         // handles of the live transactions, in list order
    cursor: int,            // `nextTxIndex`
    createTime: int,
    commitTime: int)

  /** `transactions.get(nextTxIndex)` on an index outside the list, and the
      `IllegalArgumentException` the constructor's `new ArrayList<>(parallelTx)`
      throws for a negative initial capacity. */
  datatype PoolError = IndexOutOfBounds | IllegalCapacity

  /** What `getTransaction` returns together with the updated pool and heap. */
  datatype Grant = Grant(pool: Pool, heap: Heap, tx: nat)

  /** The pool a successful construction leaves. */
  function NewPool(mode: TransactionMode, actionsPerTx: int, parallelTx: int): (p: Pool)
    ensures p.live == [] && p.cursor == 0
    ensures p.createTime == 0 && p.commitTime == 0
    ensures WellFormed(p, [])
  {
    Pool(mode, actionsPerTx, parallelTx, [], 0, 0, 0)
  }

  /** The constructor: it fails exactly when the list's initial capacity
      `parallelTx` is negative; zero is accepted, and such a pool fails
      only later, on its first request. */
  function OpenPool(mode: TransactionMode, actionsPerTx: int, parallelTx: int)
    : (r: Result<Pool, PoolError>)
    ensures r.Failure? <==> parallelTx < 0
    ensures r.Failure? ==> r.error == IllegalCapacity
    ensures r.Success? ==>
      && r.value.mode == mode && r.value.actionsPerTx == actionsPerTx
      && r.value.parallelTx == parallelTx
      && r.value.live == [] && r.value.cursor == 0
      && r.value.createTime == 0 && r.value.commitTime == 0
      && WellFormed(r.value, [])
  {
    if parallelTx < 0 then Failure(IllegalCapacity)
    else Success(NewPool(mode, actionsPerTx, parallelTx))
  }

  /** The live handles are distinct valid handles, the list never holds more
      than `parallelTx` entries, and the cursor stays in `[0, parallelTx)`. */
  ghost predicate WellFormed(p: Pool, heap: Heap) {
    && (forall i :: 0 <= i < |p.live| ==> p.live[i] < |heap|)
    && (forall i, j :: 0 <= i < j < |p.live| ==> p.live[i] != p.live[j])
    && (|p.live| <= p.parallelTx || p.live == [])
    && 0 <= p.cursor
    && (p.parallelTx >= 1 ==> p.cursor < p.parallelTx)
  }

  /** The live list without its entry at `i`, the others in their order. */
  function RemoveAt(s: seq<nat>, i: nat): (r: seq<nat>)
    requires i < |s|
    ensures |r| == |s| - 1
    ensures forall k :: 0 <= k < i ==> r[k] == s[k]
    ensures forall k :: i <= k < |r| ==> r[k] == s[k + 1]
    ensures multiset(r) + multiset{s[i]} == multiset(s)
  {
    assert s == s[..i] + [s[i]] + s[i + 1..];
    s[..i] + s[i + 1..]
  }

  /** Eviction test for the entry at the cursor: it is ready, or the
      request being served is its last free slot. */
  predicate AtCapacity(p: Pool, t: TransactionState) {
    t.readyForCommit || (p.actionsPerTx > 0 && t.actionsAssigned == p.actionsPerTx - 1)
  }

  /** `getTransaction`: open a fresh transaction while the list has room,
      otherwise hand out the entry at the cursor, evicting it when it is at
      capacity and advancing the cursor when it is not. */
  function GetTransaction(p: Pool, heap: Heap): (r: Result<Grant, PoolError>)
    requires WellFormed(p, heap)
    ensures r.Failure? <==> p.parallelTx <= 0
    ensures r.Success? ==> WellFormed(r.value.pool, r.value.heap) && r.value.tx < |r.value.heap|
    ensures r.Success? ==>
      r.value.pool.(live := p.live, cursor := p.cursor) == p
    // room left: a fresh transaction is appended and returned
    ensures r.Success? && |p.live| < p.parallelTx ==>
      && r.value.tx == |heap|
      && r.value.heap == heap + [Fresh(p.actionsPerTx)]
      && r.value.pool.live == p.live + [r.value.tx]
      && r.value.pool.cursor == p.cursor
    // list full: the entry at the cursor is returned
    ensures r.Success? && |p.live| >= p.parallelTx ==>
      && r.value.heap == heap
      && p.cursor < |p.live|
      && r.value.tx == p.live[p.cursor]
      && (AtCapacity(p, heap[r.value.tx]) ==>
            r.value.pool.live == RemoveAt(p.live, p.cursor) && r.value.pool.cursor == p.cursor)
      && (!AtCapacity(p, heap[r.value.tx]) ==>
            r.value.pool.live == p.live && r.value.pool.cursor == (p.cursor + 1) % p.parallelTx)
  {
    if |p.live| < p.parallelTx then
      var h := |heap|;
      var heap' := heap + [Fresh(p.actionsPerTx)];
      var p' := p.(live := p.live + [h]);
      assert forall i :: 0 <= i < |p.live| ==> p.live[i] < h;
      Success(Grant(p', heap', h))
    else if p.live == [] then
      Failure(IndexOutOfBounds)
    else
      var h := p.live[p.cursor];
      if AtCapacity(p, heap[h]) then
        var live' := RemoveAt(p.live, p.cursor);
        assert forall i :: 0 <= i < |live'| ==> live'[i] in multiset(p.live);
        Success(Grant(p.(live := live'), heap, h))
      else
        Success(Grant(p.(cursor := (p.cursor + 1) % p.parallelTx), heap, h))
  }

  /** `getFinalizeAction`: commit in COMMIT mode, roll back otherwise. */
  function FinalizeAction(mode: TransactionMode): (a: Action)
    ensures IsFinalize(a)
    ensures a == CommitTx <==> mode == Commit
    ensures a == RollbackTx <==> mode.NoTx? || mode.Rollback?
  {
    if mode == Commit then CommitTx else RollbackTx
  }

  /** `clearTransactions`: drop every live transaction. The cursor and the
      timers are left as they are. */
  function ClearTransactions(p: Pool): (r: Pool)
    ensures r.live == []
    ensures r.(live := p.live) == p
    ensures forall heap: Heap :: WellFormed(p, heap) ==> WellFormed(r, heap)
  {
    p.(live := [])
  }

  function AddToCreateTime(p: Pool, time: int): (r: Pool)
    ensures r.createTime == p.createTime + time
    ensures r.(createTime := p.createTime) == p
  {
    p.(createTime := p.createTime + time)
  }

  function AddToCommitTime(p: Pool, time: int): (r: Pool)
    ensures r.commitTime == p.commitTime + time
    ensures r.(commitTime := p.commitTime) == p
  {
    p.(commitTime := p.commitTime + time)
  }

  /** Timings reported one after another accumulate: two reports amount to
      one report of their sum, and the order in which the create and commit
      timers are fed does not matter. */
  lemma TimersAccumulate(p: Pool, a: int, b: int)
    ensures AddToCreateTime(AddToCreateTime(p, a), b) == AddToCreateTime(p, a + b)
    ensures AddToCommitTime(AddToCommitTime(p, a), b) == AddToCommitTime(p, a + b)
    ensures AddToCommitTime(AddToCreateTime(p, a), b) == AddToCreateTime(AddToCommitTime(p, b), a)
  {
  }
}
