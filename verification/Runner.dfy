/** The benchmark runner's decisions: which transaction pools exist, which
    plan is built, whether datastreams are prepared and objects purged, and
    how the workers' results are collected and summed.

    Network calls (object creation and purge, the preparation
    transaction's server requests) and the executor are not modelled. */
module Runner {
  import opened Wrappers
  import opened Actions
  import opened TxStates
  import opened TxManager
  import opened Planner
  import opened PlanProofs
  import opened Worker

  /** The runner's constructor arguments that drive its decisions. */
  datatype Config = Config(
    version: FedoraVersion,
    action: Action,
    txMode: TransactionMode,
    actionsPerTx: int,
    parallelTx: int,
    preparationAsTx: bool,
    size: int)

  /** Transactions are used: the mode is not NONE and the server is not a
      Fedora 3, which has no transactions. */
  predicate UsesTransactions(c: Config) {
    c.txMode != NoTx && c.version != Fcrepo3
  }

  /** The benchmark transaction pool: none when transactions are not used;
      otherwise the pool's constructor runs, and its failure for a negative
      `parallelTx` makes the runner's constructor fail. */
  function TxManagerFor(c: Config): (m: Result<Option<Pool>, PoolError>)
    ensures m.Failure? <==> UsesTransactions(c) && c.parallelTx < 0
    ensures m.Failure? ==> m.error == IllegalCapacity
    ensures m.Success? ==> (m.value.Some? <==> UsesTransactions(c))
    ensures m.Success? && m.value.Some? ==>
      m.value.value == NewPool(c.txMode, c.actionsPerTx, c.parallelTx)
  {
    if !UsesTransactions(c) then Success(None)
    else
      match OpenPool(c.txMode, c.actionsPerTx, c.parallelTx)
      case Failure(e) => Failure(e)
      case Success(p) => Success(Some(p))
  }

  /** The preparation pool: one unbounded committing transaction at a
      time, when preparation in a transaction is asked for on a server that
      has transactions. Its constructor cannot fail. */
  function PrepManagerFor(c: Config): (m: Option<Pool>)
    ensures m.Some? <==> c.preparationAsTx && c.version != Fcrepo3
    ensures m.Some? ==> OpenPool(Commit, 0, 1) == Success(m.value)
    ensures m.Some? ==> m.value.mode == Commit && m.value.actionsPerTx == 0 && m.value.parallelTx == 1
  {
    if c.preparationAsTx && c.version != Fcrepo3 then Some(NewPool(Commit, 0, 1)) else None
  }

  /** The purge step runs unless the benchmark's transactions roll back,
      which leaves nothing behind. */
  predicate PurgeRuns(txManager: Option<Pool>) {
    txManager.None? || txManager.value.mode != Rollback
  }

  /** Datastreams are created during preparation for the kinds that act on
      an existing datastream. */
  predicate PreparesDatastreams(a: Action) {
    a == Update || a == Read || a == Delete
  }

  /** The prepared datastreams are exactly what the benchmarked kinds
      other than ingest need: every kind the worker accepts, except the one
      that creates the datastream itself. */
  lemma PreparationDecision(a: Action)
    ensures PreparesDatastreams(a) <==> Supported(a) && a != Ingest
  {
  }

  /** Purging is skipped exactly for rollback mode against a server with
      transactions; a rollback request against Fedora 3 still purges,
      since its transactions were ignored. */
  lemma PurgeDecision(c: Config)
    ensures TxManagerFor(c).Success? ==>
      (PurgeRuns(TxManagerFor(c).value) <==> !(c.txMode == Rollback && c.version == Fcrepo4))
  {
  }

  /** The run purges its objects: the runner was built, planning did not
      throw (its exception leaves the run before the purge, while a failure
      while collecting results is caught), and the purge condition holds. */
  predicate Purges(c: Config, pids: seq<string>) {
    && TxManagerFor(c).Success?
    && Schedule(c, pids).Success?
    && PurgeRuns(TxManagerFor(c).value)
  }

  /** A run purges exactly when the pool could be built and serve the ids
      and the benchmark is not rolling back on a Fedora 4 server. */
  lemma PurgeOutcome(c: Config, pids: seq<string>)
    ensures Purges(c, pids) <==>
      && !(UsesTransactions(c) && (c.parallelTx < 0 || (c.parallelTx == 0 && pids != [])))
      && !(c.txMode == Rollback && c.version == Fcrepo4)
  {
  }

  /** The workers the runner submits, in submission order: the plain plan
      when transactions are not used, the transactional plan otherwise. A
      failure of the pool's constructor, which stops the runner before any
      worker is planned, is reported here too. */
  function Schedule(c: Config, pids: seq<string>): (r: Result<seq<PlanItem>, PoolError>)
    ensures r.Failure? <==>
      UsesTransactions(c) && (c.parallelTx < 0 || (c.parallelTx == 0 && pids != []))
    ensures r.Failure? ==> r.error == (if c.parallelTx < 0 then IllegalCapacity else IndexOutOfBounds)
    ensures !UsesTransactions(c) ==> r == Success(ActionPlan(c.action, pids))
  {
    match TxManagerFor(c)
    case Failure(e) => Failure(e)
    case Success(None) => Success(ActionPlan(c.action, pids))
    case Success(Some(pool)) =>
      match TransactionalPlan(pool, [], c.action, pids)
      case Failure(e) => Failure(e)
      case Success(s) => Success(s.items)
  }

  lemma {:induction false} ActionPlanWorks(action: Action, pids: seq<string>)
    ensures Works(ActionPlan(action, pids)) == pids
    decreases |pids|
  {
    if pids != [] {
      var init := pids[..|pids| - 1];
      ActionPlanWorks(action, init);
      var items := ActionPlan(action, pids);
      assert items[..|items| - 1] == ActionPlan(action, init);
      assert init + [pids[|pids| - 1]] == pids;
    }
  }

  /** Whenever a schedule is built, for every capacity and parallelism
      (a capacity of one included), its data workers are exactly the
      object ids, in input order. */
  lemma ScheduleWorks(c: Config, pids: seq<string>)
    requires Schedule(c, pids).Success?
    ensures Works(Schedule(c, pids).value) == pids
  {
    if !UsesTransactions(c) {
      ActionPlanWorks(c.action, pids);
    } else {
      var pool := NewPool(c.txMode, c.actionsPerTx, c.parallelTx);
      PlanWorks(pool, [], c.action, pids);
      assert Schedule(c, pids).value == TransactionalPlan(pool, [], c.action, pids).value.items;
    }
  }

  /** Whatever the configuration, every object id gets exactly one data
      worker, in input order; with transactions (at least one parallel
      transaction, capacity other than one) every worker is bound to a
      transaction that has exactly one CREATE_TX worker, before all its
      other workers, and exactly one finalize worker, after all of them. */
  lemma ScheduleCorrect(c: Config, pids: seq<string>)
    requires UsesTransactions(c) ==> c.parallelTx >= 1 && c.actionsPerTx != 1
    ensures Schedule(c, pids).Success?
    ensures Works(Schedule(c, pids).value) == pids
    ensures !UsesTransactions(c) ==>
      forall i :: 0 <= i < |Schedule(c, pids).value| ==> Schedule(c, pids).value[i].tx.None?
    ensures UsesTransactions(c) ==>
      && BeginFirst(Schedule(c, pids).value)
      && FinishLast(Schedule(c, pids).value)
      && Shapes(Schedule(c, pids).value, c.action, c.txMode)
    ensures UsesTransactions(c) ==>
      var items := Schedule(c, pids).value;
      forall i :: 0 <= i < |items| ==>
        && items[i].tx.Some?
        && Count(items, items[i].tx.value, Begin) == 1
        && Count(items, items[i].tx.value, Finish) == 1
  {
    if !UsesTransactions(c) {
      ActionPlanWorks(c.action, pids);
    } else {
      PlanTheorem(c.txMode, c.actionsPerTx, c.parallelTx, c.action, pids);
      var s := TransactionalPlan(NewPool(c.txMode, c.actionsPerTx, c.parallelTx), [], c.action, pids).value;
      assert Schedule(c, pids).value == s.items;
      forall i | 0 <= i < |s.items|
        ensures s.items[i].tx.Some?
        ensures Count(s.items, s.items[i].tx.value, Begin) == 1
        ensures Count(s.items, s.items[i].tx.value, Finish) == 1
      {
        var h := s.items[i].tx.value;
        assert 0 <= h < |s.heap|;
      }
    }
  }

  /** The worker built for a plan item: data workers carry the binary
      size, transaction-control workers a size of zero. */
  function WorkerFor(x: PlanItem, size: int): (w: Worker)
    ensures w.action == x.action && w.pid == x.pid
    ensures w.binarySize == (if x.pid.Some? then size else 0)
  {
    Worker(x.action, x.pid, if x.pid.Some? then size else 0)
  }

  /** In the plain plan for a supported kind, every worker makes exactly
      one client request, on its own object id with the configured size. */
  lemma PlainWorkersCallOnce(c: Config, pids: seq<string>, client: Client, i: int)
    requires Supported(c.action) && 0 <= i < |pids|
    ensures var run := Call(WorkerFor(ActionPlan(c.action, pids)[i], c.size), client);
      && |run.calls| == 1
      && Some(run.calls[0]) == Request(Worker(c.action, Some(pids[i]), c.size))
  {
  }

  /** The worker kind used by this runner rejects transaction control, so
      every CREATE_TX or finalize worker of a transactional plan, whatever
      its capacity and parallelism, fails without making a request; only
      the data workers reach the client. */
  lemma ControlWorkersRejected(c: Config, pids: seq<string>, client: Client, i: int)
    requires UsesTransactions(c)
    requires Schedule(c, pids).Success? && 0 <= i < |Schedule(c, pids).value|
    requires Schedule(c, pids).value[i].pid.None?
    ensures Call(WorkerFor(Schedule(c, pids).value[i], c.size), client)
         == Run([], Failure(Unsupported(Schedule(c, pids).value[i].action)))
  {
    var pool := NewPool(c.txMode, c.actionsPerTx, c.parallelTx);
    PlanControl(pool, [], c.action, pids);
    assert Schedule(c, pids).value == TransactionalPlan(pool, [], c.action, pids).value.items;
  }

  /** `commitPreparationTx`: fetch the preparation transaction from its
      pool, mark it ready and empty the pool. */
  function CommitPreparationTx(p: Pool, heap: Heap): (r: Result<Grant, PoolError>)
    requires WellFormed(p, heap)
    ensures r.Failure? <==> p.parallelTx <= 0
    ensures r.Success? ==>
      && r.value.pool.live == []
      && r.value.tx < |r.value.heap|
      && r.value.heap[r.value.tx].readyForCommit
  {
    match GetTransaction(p, heap)
    case Failure(e) => Failure(e)
    case Success(g) =>
      Success(Grant(ClearTransactions(g.pool), g.heap[g.tx := SetReadyForCommit(g.heap[g.tx], true)], g.tx))
  }

  /** One preparation round on the preparation pool (`startPreparationTx`
      then `commitPreparationTx`): the start opens a fresh transaction, the
      commit is handed that same transaction, and the pool is back in its
      initial state, so the next round opens a new one. */
  lemma PreparationRound(heap: Heap)
    ensures var p := NewPool(Commit, 0, 1);
      var start := GetTransaction(p, heap);
      && start.Success?
      && start.value.tx == |heap|
      && start.value.heap == heap + [Fresh(0)]
      && var commit := CommitPreparationTx(start.value.pool, start.value.heap);
         && commit.Success?
         && commit.value.tx == start.value.tx
         && commit.value.pool == p
         && commit.value.heap == heap + [SetReadyForCommit(Fresh(0), true)]
  {
    var p := NewPool(Commit, 0, 1);
    var g := GetTransaction(p, heap).value;
    assert g.pool.live == [|heap|];
    var g2 := GetTransaction(g.pool, g.heap).value;
    assert g2.tx == |heap|;
  }

  /** The position of the first failed worker, or the number of workers
      when none failed. */
  function FirstFailure<T, E>(fs: seq<Result<T, E>>): (n: nat)
    ensures n <= |fs|
    ensures forall i :: 0 <= i < n ==> fs[i].Success?
    ensures n < |fs| ==> fs[n].Failure?
  {
    if fs == [] || fs[0].Failure? then 0 else 1 + FirstFailure(fs[1..])
  }

  function Durations(rs: seq<BenchResult>): (ds: seq<int>)
    ensures |ds| == |rs|
    ensures forall i :: 0 <= i < |rs| ==> ds[i] == rs[i].duration
  {
    seq(|rs|, i requires 0 <= i < |rs| => rs[i].duration)
  }

  /** What `fetchResults` leaves behind: the collected results, the lines
      written to the duration log and the failure that stopped it, if any. */
  datatype Fetched = Fetched(results: seq<BenchResult>, log: seq<int>, error: Option<WorkerError>)

  /** `fetchResults`: wait for the workers in submission order, log each
      duration when a log is open and collect each result. A failed worker
      ends the loop: its exception leaves the method, and the workers after
      it are not collected. */
  function FetchResults(acc: seq<BenchResult>, log: seq<int>, logging: bool,
                        fs: seq<Result<BenchResult, WorkerError>>): (r: Fetched)
    ensures |r.results| == |acc| + FirstFailure(fs) && acc <= r.results
    ensures forall i :: 0 <= i < FirstFailure(fs) ==> fs[i] == Success(r.results[|acc| + i])
    ensures r.error.None? <==> FirstFailure(fs) == |fs|
    ensures r.error.Some? ==> fs[FirstFailure(fs)] == Failure(r.error.value)
    decreases |fs|
  {
    if fs == [] then Fetched(acc, log, None)
    else
      match fs[0]
      case Failure(e) => Fetched(acc, log, Some(e))
      case Success(res) =>
        FetchResults(acc + [res], log + (if logging then [res.duration] else []), logging, fs[1..])
  }

  /** With logging on, the log gains the duration of every result fetched,
      in order; with logging off it is left alone. */
  lemma {:induction false} FetchLog(acc: seq<BenchResult>, log: seq<int>, logging: bool,
                                    fs: seq<Result<BenchResult, WorkerError>>)
    ensures var r := FetchResults(acc, log, logging, fs);
      && (logging ==> r.log == log + Durations(r.results[|acc|..]))
      && (!logging ==> r.log == log)
    decreases |fs|
  {
    if fs != [] && fs[0].Success? {
      var res := fs[0].value;
      var log' := log + (if logging then [res.duration] else []);
      FetchLog(acc + [res], log', logging, fs[1..]);
      var r := FetchResults(acc, log, logging, fs);
      assert r == FetchResults(acc + [res], log', logging, fs[1..]);
      assert r.results[|acc|..] == [res] + r.results[|acc| + 1..];
      DurationsCons(res, r.results[|acc| + 1..]);
    }
  }

  lemma DurationsCons(res: BenchResult, rest: seq<BenchResult>)
    ensures Durations([res] + rest) == [res.duration] + Durations(rest)
  {
  }

  /** The totals `logResults` reports. */
  function TotalDuration(rs: seq<BenchResult>): int {
    if rs == [] then 0 else TotalDuration(rs[..|rs| - 1]) + rs[|rs| - 1].duration
  }

  function TotalBytes(rs: seq<BenchResult>): int {
    if rs == [] then 0 else TotalBytes(rs[..|rs| - 1]) + rs[|rs| - 1].size
  }

  function Sum(xs: seq<int>): int {
    if xs == [] then 0 else Sum(xs[..|xs| - 1]) + xs[|xs| - 1]
  }

  lemma {:induction false} TotalsAppend(a: seq<BenchResult>, b: seq<BenchResult>)
    ensures TotalDuration(a + b) == TotalDuration(a) + TotalDuration(b)
    ensures TotalBytes(a + b) == TotalBytes(a) + TotalBytes(b)
    decreases |b|
  {
    if b == [] {
      assert a + b == a;
    } else {
      var b' := b[..|b| - 1];
      assert (a + b)[..|a + b| - 1] == a + b';
      TotalsAppend(a, b');
    }
  }

  lemma {:induction false} SumDurations(rs: seq<BenchResult>)
    ensures Sum(Durations(rs)) == TotalDuration(rs)
    decreases |rs|
  {
    if rs != [] {
      var init := rs[..|rs| - 1];
      assert Durations(rs)[..|rs| - 1] == Durations(init);
      SumDurations(init);
    }
  }

  /** Starting from an empty result list and an empty log, the duration
      total `logResults` reports is the sum of the durations written to the
      log, and every total covers exactly the workers before the first
      failure. */
  lemma FetchTotals(logging: bool, fs: seq<Result<BenchResult, WorkerError>>)
    ensures var r := FetchResults([], [], logging, fs);
      && (logging ==> Sum(r.log) == TotalDuration(r.results))
      && |r.results| == FirstFailure(fs)
  {
    var r := FetchResults([], [], logging, fs);
    FetchLog([], [], logging, fs);
    assert r.results[0..] == r.results;
    assert [] + Durations(r.results) == Durations(r.results);
    SumDurations(r.results);
  }
}
