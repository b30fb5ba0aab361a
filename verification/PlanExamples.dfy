/** Two small plans traced through the pool: why the plan theorem excludes
    a capacity of one, and why the number of transactions is not the
    number of ids divided by the capacity. */
module PlanExamples {
  import opened Wrappers
  import opened Actions
  import opened TxStates
  import opened TxManager
  import opened Planner
  import opened PlanProofs

  /** With one transaction at a time and a capacity of one, the pool keeps a
      transaction live after it filled up (the eviction test looks for
      `actionsAssigned == 0` on an entry that already has one), so the
      second object id joins the committed transaction and the plan
      commits it twice, with a data worker after the first commit. */
  lemma CapacityOneFinalizesTwice()
    ensures var r := TransactionalPlan(NewPool(Commit, 1, 1), [], Ingest, ["a", "b"]);
      && r.Success?
      && r.value.items == [PlanItem(CreateTx, None, Some(0)), PlanItem(Ingest, Some("a"), Some(0)),
                           PlanItem(CommitTx, None, Some(0)), PlanItem(Ingest, Some("b"), Some(0)),
                           PlanItem(CommitTx, None, Some(0))]
      && Count(r.value.items, 0, Finish) == 2
      && !FinishLast(r.value.items)
  {
    var r := TransactionalPlan(NewPool(Commit, 1, 1), [], Ingest, ["a", "b"]);
    var items := r.value.items;
    assert IsKind(items[2], Finish) && items[3].tx == items[2].tx;
    assert items[..1][..0] == [];
    assert Count(items[..1], 0, Finish) == 0;
    assert items[..2][..1] == items[..1];
    assert Count(items[..2], 0, Finish) == 0;
    assert items[..3][..2] == items[..2];
    assert Count(items[..3], 0, Finish) == 1;
    assert items[..4][..3] == items[..3];
    assert Count(items[..4], 0, Finish) == 1;
    assert items[..4] == items[..|items| - 1];
  }

  /** Two ids, two parallel transactions of capacity two: the pool opens a
      fresh transaction for each id before it reuses any, so the plan opens
      two transactions where one would hold both ids, and the end-of-run
      pass finalizes both. */
  lemma TwoIdsOpenTwoTransactions()
    ensures var r := TransactionalPlan(NewPool(Commit, 2, 2), [], Ingest, ["a", "b"]);
      && r.Success?
      && |r.value.heap| == 2
      && r.value.items == [PlanItem(CreateTx, None, Some(0)), PlanItem(Ingest, Some("a"), Some(0)),
                           PlanItem(CreateTx, None, Some(1)), PlanItem(Ingest, Some("b"), Some(1)),
                           PlanItem(CommitTx, None, Some(0)), PlanItem(CommitTx, None, Some(1))]
  {
  }
}
