# fcrepo benchtool: transaction-aware benchmark scheduling in Dafny

This project models the core of the Fedora Commons repository benchmark
tool. The tool runs one action kind (ingest, read, update or delete of a
datastream) against many repository objects. The runner builds a list of
workers in submission order, called here the *plan*. When transactions
are on, it groups the workers into server-side transactions. A bounded,
round-robin transaction pool hands those transactions out. The plan also
contains a CREATE_TX worker for each transaction and a finalize worker
(COMMIT_TX or ROLLBACK_TX) for each transaction. An end-of-run pass seals
the transactions that never filled up.

The model has these parts:

- `TxStates`: one transaction's record (id, assigned, completed, capacity,
  ready flag) and its mutators.
- `TxManager`: the pool (`getTransaction`, `getFinalizeAction`,
  `clearTransactions`, the timers). A Java transaction is a shared mutable
  object. Here every transaction lives in an arena (`Heap`) and the pool's
  live list holds handles into it.
- `Planner`: the two plan builders of the runner as pure functions.
  `PlanProofs` proves what the transactional plan guarantees, and
  `PlanExamples` traces two small plans.
- `Worker`: a worker's dispatch onto an abstract repository client.
- `Runner`: the runner's configuration decisions, the preparation pool
  round, result collection and the reported totals.
- `InputStream`: the random upload stream, with the generator as a
  nondeterministic choice.
- `BenchTool`: the `-f` URL trailing-slash normalisation and the server
  generation check.

Four behaviours of the code are easy to miss, and the model keeps them:

- With an unbounded capacity (zero or less), the first completed data
  action already makes a transaction ready for commit, because the code
  compares `completed >= maxActions`. `TxStates.CompletionsReachReady`
  states this.
- The number of transactions a plan opens is not the number of ids divided
  by the capacity. The pool opens a fresh transaction for each of the
  first `parallelTx` ids (`PlanExamples.TwoIdsOpenTwoTransactions`).
- Result collection stops at the first failed worker. The exception leaves
  the collection loop, so the later results are not collected and do not
  count in the totals (`Runner.FetchResults`).
- The runner and the worker class come from different revisions: the
  runner builds CREATE_TX and finalize workers, but the worker class it is
  paired with dispatches only the four data kinds. Taking the two
  revisions together, every CREATE_TX and finalize worker of a
  transactional plan of any capacity and parallelism fails with an
  illegal-argument error and never reaches the client
  (`Runner.ControlWorkersRejected`). A worker class that handles the
  control kinds would not reject them.

## Model

| member | source | states |
|---|---|---|
| TxStates.Fresh | src/main/java/org/fcrepo/bench/TransactionState.java:47-53 | a new transaction has no id, nothing assigned or completed, is not ready and has the pool's capacity |
| TxStates.SetTransactionId | src/main/java/org/fcrepo/bench/TransactionState.java:58-60 | only the id changes, and the transaction counts as created iff an id was set |
| TxStates.ActionCompleted | src/main/java/org/fcrepo/bench/TransactionState.java:69-78 | control kinds change nothing; a data kind raises the completed count by one, touches nothing but the count and the flag, makes the transaction ready iff it was ready or the new count reaches the capacity, and never clears readiness |
| TxStates.SetMaxActions | src/main/java/org/fcrepo/bench/TransactionState.java:90-92 | only the capacity changes; lowering it to a positive assigned count makes the transaction all-assigned |
| TxStates.AssignAction | src/main/java/org/fcrepo/bench/TransactionState.java:94-96 | the assigned count rises by exactly one and nothing else changes |
| TxStates.SetReadyForCommit | src/main/java/org/fcrepo/bench/TransactionState.java:110-112 | only the ready flag changes |
| TxStates.CompletionsReachReady | src/main/java/org/fcrepo/bench/TransactionState.java:69-78 | after any run of completions, exactly the data kinds were counted, and the transaction is ready iff it was ready or at least one data completion brought the count to the capacity, so an unbounded transaction is ready after its first data completion |
| TxStates.ReadyIsSticky | src/main/java/org/fcrepo/bench/TransactionState.java:74-76 | no run of completions clears readiness |
| TxStates.AssignmentQueries | src/main/java/org/fcrepo/bench/TransactionState.java:98-104 | after `n` assignments to a fresh transaction, `actionsAssigned()` holds iff `n >= 1`, and `allActionsAssigned()` holds iff the capacity is positive and equals `n`: never for an unbounded transaction, and not again after one more assignment |
| TxStates.CreatedOnlyBySettingId | src/main/java/org/fcrepo/bench/TransactionState.java:106-108 | `transactionCreated()` is false for a fresh transaction and is changed by none of assignment, completion, a new capacity or the ready flag (only by setting the id, see `SetTransactionId`) |
| TxManager.NewPool | src/main/java/org/fcrepo/bench/TransactionManager.java:54-62 | the pool a successful construction leaves has an empty live list, cursor 0, zero timers, and satisfies the pool invariant |
| TxManager.OpenPool | src/main/java/org/fcrepo/bench/TransactionManager.java:54-62 | the constructor fails with an illegal-argument error iff `parallelTx` is negative (the list's initial capacity); otherwise it keeps the mode, capacity and parallelism and starts empty, at cursor 0, with zero timers |
| TxManager.RemoveAt | src/main/java/org/fcrepo/bench/TransactionManager.java:78 | removing the entry at an index keeps the other entries in their order |
| TxManager.GetTransaction | src/main/java/org/fcrepo/bench/TransactionManager.java:64-85 | fails iff `parallelTx <= 0`; with room it appends and returns a fresh transaction and leaves the cursor; when full it returns the entry at the cursor and removes it when it is ready or about to take its last slot (cursor kept), otherwise advances the cursor modulo `parallelTx`; the live list never exceeds `parallelTx` entries and the cursor stays in range |
| TxManager.FinalizeAction | src/main/java/org/fcrepo/bench/TransactionManager.java:116-121 | COMMIT_TX iff the mode is COMMIT, ROLLBACK_TX for NONE and ROLLBACK |
| TxManager.ClearTransactions | src/main/java/org/fcrepo/bench/TransactionManager.java:91-93 | the live list is emptied; mode, capacity, cursor and timers are untouched, and the pool invariant is kept |
| TxManager.AddToCreateTime | src/main/java/org/fcrepo/bench/TransactionManager.java:131-133 | the create timer grows by exactly the argument and nothing else changes |
| TxManager.AddToCommitTime | src/main/java/org/fcrepo/bench/TransactionManager.java:142-144 | the commit timer grows by exactly the argument and nothing else changes |
| TxManager.TimersAccumulate | src/main/java/org/fcrepo/bench/TransactionManager.java:131-144 | two reports to a timer amount to one report of their sum, and feeding the create and commit timers commutes |
| Planner.ActionPlan | src/main/java/org/fcrepo/bench/FCRepoBenchRunner.java:144-152 | one worker per id, in input order, with the benchmarked action and no transaction |
| Planner.StepItems | src/main/java/org/fcrepo/bench/FCRepoBenchRunner.java:158-174 | one id adds one data worker, a CREATE_TX worker iff the transaction had no assignments, a finalize worker iff the assignment filled it, all bound to that transaction |
| Planner.StepItemsLayout | src/main/java/org/fcrepo/bench/FCRepoBenchRunner.java:161-174 | one id's workers come in the order CREATE_TX (only when the transaction had no assignments), then the data worker, then directly after it the finalize worker (only when the assignment filled the transaction), and nothing else |
| Planner.PlanStep | src/main/java/org/fcrepo/bench/FCRepoBenchRunner.java:157-175 | one loop iteration fails iff the pool does; otherwise it takes the pool's grant, records the assignment on that transaction and appends the workers of that id |
| Planner.PlanLoop | src/main/java/org/fcrepo/bench/FCRepoBenchRunner.java:157-175 | the loop fails iff there are ids and `parallelTx <= 0`; it keeps the pool invariant, keeps the pool's settings, only adds transactions and only appends workers |
| Planner.TrimOne | src/main/java/org/fcrepo/bench/FCRepoBenchRunner.java:179-183 | a live transaction that is not all-assigned gets its capacity lowered to its assigned count and one finalize worker; an all-assigned one is left alone |
| Planner.Trim | src/main/java/org/fcrepo/bench/FCRepoBenchRunner.java:178-184 | the end-of-run pass keeps the pool and the number of transactions |
| Planner.TransactionalPlan | src/main/java/org/fcrepo/bench/FCRepoBenchRunner.java:154-187 | the transactional plan fails iff there are ids and `parallelTx <= 0`, and it never forgets a transaction |
| PlanProofs.LoopPreserves | src/main/java/org/fcrepo/bench/FCRepoBenchRunner.java:157-175 | through the loop, every transaction has one CREATE_TX worker before its other workers, one data worker per assignment, a finalize worker iff it left the live list (exactly when it reached a bounded capacity), and no worker after that finalize |
| PlanProofs.TrimCompletes | src/main/java/org/fcrepo/bench/FCRepoBenchRunner.java:178-184 | the end-of-run pass gives every still-live transaction its one finalize worker, last among its workers, and leaves every transaction all-assigned |
| PlanProofs.PlanControl | src/main/java/org/fcrepo/bench/FCRepoBenchRunner.java:154-187 | for every capacity and parallelism, each worker of the transactional plan without an object id is a CREATE_TX worker or the pool's finalize worker |
| PlanProofs.LoopWorks | src/main/java/org/fcrepo/bench/FCRepoBenchRunner.java:157-175 | the per-id loop appends exactly one data worker per id, in input order, after the workers already planned |
| PlanProofs.TrimWorks | src/main/java/org/fcrepo/bench/FCRepoBenchRunner.java:178-184 | the end-of-run pass adds no data worker |
| PlanProofs.PlanWorks | src/main/java/org/fcrepo/bench/FCRepoBenchRunner.java:154-187 | for every capacity and parallelism, the data workers of a successful transactional plan are exactly the ids in input order |
| PlanProofs.PlanTheorem | src/main/java/org/fcrepo/bench/FCRepoBenchRunner.java:154-187 | for at least one parallel transaction and a capacity other than one: the data workers are exactly the ids in input order; every transaction opened has exactly one CREATE_TX worker first and exactly one finalize worker last, one data worker per assignment, never more than a bounded capacity, and ends all-assigned |
| PlanExamples.CapacityOneFinalizesTwice | src/main/java/org/fcrepo/bench/TransactionManager.java:67-71 | with capacity one and one parallel transaction, two ids share one transaction that is committed twice, with a data worker after its first commit |
| PlanExamples.TwoIdsOpenTwoTransactions | src/main/java/org/fcrepo/bench/TransactionManager.java:67-71 | two ids with two parallel transactions of capacity two open two transactions, both finalized by the end-of-run pass |
| Worker.Request | src/main/java/org/fcrepo/bench/ActionWorker.java:37-49 | INGEST creates, UPDATE updates (both with the binary size), READ retrieves and DELETE deletes the worker's datastream; every other kind makes no request |
| Worker.Call | src/main/java/org/fcrepo/bench/ActionWorker.java:35-74 | an unsupported kind fails with an illegal-argument error and no client request; a supported kind makes exactly one request, fails iff the client fails (passing its error on), and otherwise reports the client's duration, the binary size, and the throughput sentinel iff the kind is DELETE |
| Runner.TxManagerFor | src/main/java/org/fcrepo/bench/FCRepoBenchRunner.java:78-88 | the benchmark pool's construction (lines 78-88) fails with the pool's illegal-argument error iff transactions are used (mode not NONE, server not Fedora 3) and `parallelTx` is negative; otherwise a benchmark pool exists iff transactions are used, built with the configured mode, capacity and parallelism |
| Runner.PrepManagerFor | src/main/java/org/fcrepo/bench/FCRepoBenchRunner.java:89-93 | a preparation pool exists iff preparation in a transaction is asked for and the server is not Fedora 3; it is a committing pool of one unbounded transaction, whose construction cannot fail |
| Runner.PreparationDecision | src/main/java/org/fcrepo/bench/FCRepoBenchRunner.java:280-284 | datastreams are prepared exactly for the kinds the worker supports other than INGEST |
| Runner.PurgeDecision | src/main/java/org/fcrepo/bench/FCRepoBenchRunner.java:135-137 | for a runner that could be built, the purge condition at line 135 holds unless the mode is ROLLBACK against a Fedora 4 server |
| Runner.PurgeOutcome | src/main/java/org/fcrepo/bench/FCRepoBenchRunner.java:104-137 | a run purges its objects exactly when planning does not throw (transactions unused, or `parallelTx` positive, or zero with no ids) and the benchmark is not rolling back on Fedora 4; a failure while collecting results is caught and does not prevent the purge |
| Runner.Schedule | src/main/java/org/fcrepo/bench/FCRepoBenchRunner.java:119-123 | without transactions the plain plan is submitted; with them, nothing is planned when `parallelTx` is negative (the constructor's illegal-argument error), the plan fails with an index error iff `parallelTx` is zero and there are ids, and otherwise it is the transactional plan |
| Runner.ActionPlanWorks | src/main/java/org/fcrepo/bench/FCRepoBenchRunner.java:147-149 | the plain plan's data workers are exactly the ids in input order |
| Runner.ScheduleWorks | src/main/java/org/fcrepo/bench/FCRepoBenchRunner.java:119-123 | whenever the schedule is built, whatever the capacity (one included) and parallelism, its data workers are exactly the ids in input order |
| Runner.ScheduleCorrect | src/main/java/org/fcrepo/bench/FCRepoBenchRunner.java:119-123 | under any configuration (with a pool: at least one parallel transaction, capacity other than one) the schedule is built and its data workers are exactly the ids in order; without transactions no worker has a transaction; with them every worker is bound to a transaction that has exactly one CREATE_TX worker, before all its other workers, and exactly one finalize worker, after all of them |
| Runner.WorkerFor | src/main/java/org/fcrepo/bench/FCRepoBenchRunner.java:163-173 | a plan item becomes a worker with its action and id, with the binary size for data workers and zero for control workers |
| Runner.PlainWorkersCallOnce | src/main/java/org/fcrepo/bench/FCRepoBenchRunner.java:147-149 | in the plain plan of a supported kind, the i-th worker makes exactly one client request, on the i-th id with the configured size |
| Runner.ControlWorkersRejected | src/main/java/org/fcrepo/bench/ActionWorker.java:46-49 | whatever the capacity and parallelism, every control worker of a successfully planned transactional run fails with an illegal-argument error and makes no client request |
| Runner.CommitPreparationTx | src/main/java/org/fcrepo/bench/FCRepoBenchRunner.java:300-307 | the commit step fails iff the pool does; otherwise its transaction is marked ready and the pool's live list is empty |
| Runner.PreparationRound | src/main/java/org/fcrepo/bench/FCRepoBenchRunner.java:291-307 | on the preparation pool, the start step opens a fresh transaction, the commit step gets that same transaction and marks it ready, and the pool returns to its initial state |
| Runner.FirstFailure | src/main/java/org/fcrepo/bench/FCRepoBenchRunner.java:248-249 | the position of the first failed worker: every worker before it succeeded |
| Runner.FetchResults | src/main/java/org/fcrepo/bench/FCRepoBenchRunner.java:246-257 | appends the results of the workers before the first failure, in submission order, and no others; reports the first failure's error iff there was one |
| Runner.FetchLog | src/main/java/org/fcrepo/bench/FCRepoBenchRunner.java:246-257 | with a log open, the log gains the durations of exactly the fetched results, in order; with none, it is unchanged |
| Runner.TotalsAppend | src/main/java/org/fcrepo/bench/FCRepoBenchRunner.java:201-206 | the duration and byte totals are additive over concatenation |
| Runner.SumDurations | src/main/java/org/fcrepo/bench/FCRepoBenchRunner.java:201-206 | the duration total of a result list is the sum of its durations |
| Runner.FetchTotals | src/main/java/org/fcrepo/bench/FCRepoBenchRunner.java:246-257 | after collection from scratch, the reported duration total equals the sum of the logged durations and covers exactly the workers before the first failure |
| InputStream.Open | src/main/java/org/fcrepo/bench/BenchToolInputStream.java:19-24 | a new stream is at position 0 of its slice and satisfies the stream invariant |
| InputStream.JumpBound | src/main/java/org/fcrepo/bench/BenchToolInputStream.java:29 | the jump range is non-empty iff the slice has at least two bytes |
| InputStream.ReadSigned | src/main/java/org/fcrepo/bench/BenchToolInputStream.java:27-32 | fails iff the slice has fewer than two bytes; otherwise jumps into the first half when at the start or on the last byte, returns the byte at the position it read (always below the last index, and a legal draw: in the jump range when a jump was due, the current position otherwise), moves just past it, and keeps the stream invariant |
| InputStream.Unsigned | src/main/java/org/fcrepo/bench/BenchToolInputStream.java:31 | the unsigned value of a byte is in [0, 255] and agrees with the byte modulo 256 |
| InputStream.ToByte | src/main/java/org/fcrepo/bench/BenchToolInputStream.java:38 | the narrowing cast is the inverse of the unsigned value |
| InputStream.Read | src/main/java/org/fcrepo/bench/BenchToolInputStream.java:27-32 | as `ReadSigned`, but the value returned is the byte's unsigned value in [0, 255] |
| InputStream.ReadAll | src/main/java/org/fcrepo/bench/BenchToolInputStream.java:35-41 | fails iff the array is non-empty and the slice is shorter than two bytes; otherwise returns the array length, position `i` holds the byte of the `i`-th read, the reads' positions form a legal run of draws from the stream, and the stream ends just past the last of them |
| InputStream.ReadRangeAsWritten | src/main/java/org/fcrepo/bench/BenchToolInputStream.java:44-50 | succeeds iff `len` fits the array and either reads nothing or the slice has two bytes; position `i` of `0 .. len-1` holds the byte of the `i`-th read whatever `off` is, the reads form a legal run of draws, the rest of the array is left, and `max(len, 0)` is returned; a `len` beyond the array makes `b.length + 1` reads and fails with an index error |
| InputStream.ReadRange | src/main/java/org/fcrepo/bench/BenchToolInputStream.java:44-50 | fails iff the range `off .. off+len-1` is not inside the array or bytes are needed from a too-short slice; otherwise returns `len`, position `off + i` holds the byte of the `i`-th read, the reads form a legal run of draws, and every other position is left alone |
| InputStream.SignedReadLooksLikeEnd | src/main/java/org/fcrepo/bench/BenchToolInputStream.java:31 | a 0xFF slice byte read through `ReadSigned` comes back as -1 |
| InputStream.UnsignedReadOfFF | src/main/java/org/fcrepo/bench/BenchToolInputStream.java:31 | the same byte read through `Read` comes back as 255 |
| InputStream.OffsetIgnored | src/main/java/org/fcrepo/bench/BenchToolInputStream.java:44-50 | a one-byte read at offset 1 writes position 0 and leaves position 1 |
| InputStream.OffsetHonoured | src/main/java/org/fcrepo/bench/BenchToolInputStream.java:44-50 | the same read through `ReadRange` writes position 1 and leaves position 0 |
| BenchTool.Anchor | src/main/java/org/fcrepo/bench/BenchTool.java:85 | the end anchor is the end of input, or the start of a final line terminator (a final "\r\n" counting as one) |
| BenchTool.SlashRunStart | src/main/java/org/fcrepo/bench/BenchTool.java:85 | the maximal run of slashes ending at a position |
| BenchTool.Normalize | src/main/java/org/fcrepo/bench/BenchTool.java:85 | the normalised URL is no longer than the input and never ends in '/' |
| BenchTool.NormalizeSplits | src/main/java/org/fcrepo/bench/BenchTool.java:85 | the input is the result with exactly the removed maximal run of slashes put back before the anchor |
| BenchTool.NormalizeStripsTrailingSlashes | src/main/java/org/fcrepo/bench/BenchTool.java:85 | for a URL without line terminators, the result is a prefix of the input and the input continues with slashes only |
| BenchTool.NormalizeIdempotent | src/main/java/org/fcrepo/bench/BenchTool.java:85 | for a URL without line terminators, normalising twice equals normalising once |
| BenchTool.NormalizeNotIdempotentAcrossTerminator | src/main/java/org/fcrepo/bench/BenchTool.java:85 | with a line terminator, a second pass can strip more: "x/\r/" becomes "x/\r" and then "x\r" |
| BenchTool.IndexOf | src/main/java/org/fcrepo/bench/BenchTool.java:188-190 | finds the first occurrence at or after the start position, or reports that there is none |
| BenchTool.ContainsIffOccurs | src/main/java/org/fcrepo/bench/BenchTool.java:188-190 | containment holds iff the marker occurs somewhere in the body |
| BenchTool.Classify | src/main/java/org/fcrepo/bench/BenchTool.java:177-204 | a status other than 200 is an error before any check; otherwise Fedora 3 iff all three Fedora 3 markers occur, Fedora 4 iff not and all three Fedora 4 markers occur, and an error iff neither set is complete |
| BenchTool.Fcrepo3Wins | src/main/java/org/fcrepo/bench/BenchTool.java:188-200 | a page holding the three Fedora 3 markers is Fedora 3 whatever else it contains |

## Left out

- Threads, the executor and futures are not modelled. The plan is built sequentially, and no worker completes while it is built. In the source, workers are submitted while planning, so a transaction could become ready mid-plan.
- The polling loops, atomics and logging are not modelled.
- The HTTP clients, authentication and the network calls are left out: object creation, datastream creation, purge, and the preparation transaction's server requests. A client is a function from request to duration or I/O failure.
- Floating point is left out. A throughput is kept as its integer operands, the run's MB/s figure is not computed, and `convertSize` is not modelled.
- Java `int` and `long` overflow is not modelled. Counts, durations, byte totals and timers are unbounded integers.
- InputStream.JumpBound: computes `sliceLen / 2` exactly. Java computes `floor(sliceLen / 2f)` in single precision, which differs only for slices longer than 2^24 bytes.
- The stream's `size` and `bytesRead` fields are left out, because they are never read. So no read signals end of stream by length.
- The random generator is a nondeterministic choice in `[0, bound)`. Its XORShift sequence and the random slice contents are not modelled.
- Command-line parsing, defaults, `URI.create`, the HTTP probe and `main` are not modelled. `URI.create` would reject most line terminators.
- PlanProofs.PlanTheorem: requires a capacity other than one and at least one parallel transaction; its data-worker clause holds for every capacity and is proved without that restriction by `PlanProofs.PlanWorks` and `Runner.ScheduleWorks`. With capacity one, the fresh-transaction path skips the eviction test, and the plan commits a transaction twice (`PlanExamples.CapacityOneFinalizesTwice`). With no parallel transaction, the pool's constructor fails for a negative value (`TxManager.OpenPool`), and a pool with zero fails on the first id (`Runner.Schedule`).
- BenchTool.NormalizeIdempotent: holds only for URLs without line terminators. `NormalizeNotIdempotentAcrossTerminator` shows that it fails otherwise.
- The sources mix revisions, and the model reconciles them in three places. The runner calls a six-argument worker constructor that takes a transaction (FCRepoBenchRunner.java lines 148, 163-164, 168, 172-173 and 181-182), while the worker class has a five-argument one (ActionWorker.java lines 21-22); the model's worker carries no transaction. The `Action` enum in BenchTool.java (lines 55-57) has only its five plain kinds (ingest, read, update, delete, list), while the runner uses CREATE_TX, COMMIT_TX and ROLLBACK_TX; the model's `Actions.Action` includes all eight. The pool creates `new Transaction(this)` (TransactionManager.java line 68), a class that is not part of this model; the model uses the `TransactionState` record with the pool's capacity.
- `Executors.newFixedThreadPool(numThreads)` (FCRepoBenchRunner.java line 75) throws for a thread count of zero or less before any pool is built. The thread count is not modelled, so `Runner.TxManagerFor` and `Runner.Schedule` describe construction as if the executor had been created.
- The legacy standalone tools for Fedora 3 and Fedora 4 are not part of this model.
- A plan for ten ids, two parallel transactions and capacity five (sixteen workers, three transactions) is not traced as a lemma, because the trace exceeds the verifier's resource budget. Its count of three transactions and sixteen workers is therefore not proved; `PlanProofs.PlanTheorem` gives only that such a plan has one data worker per id and two control workers per transaction, and `PlanExamples.TwoIdsOpenTwoTransactions` shows the one-transaction-per-id effect on a small case.

## Findings

| source | as written | input that shows it | evidently intended | confidence | as-written member | corrected member |
|---|---|---|---|---|---|---|
| src/main/java/org/fcrepo/bench/BenchToolInputStream.java:31 | `read()` returns the slice byte sign-extended, in [-128, 127] | a slice byte 0xFF, e.g. slice [-1, -1, -1] at position 1: `read()` returns -1, the end-of-stream value | return the byte as an unsigned value in [0, 255] (`& 0xFF`), as `InputStream.read()` requires | high, not executed | InputStream.ReadSigned, InputStream.SignedReadLooksLikeEnd | InputStream.Read, InputStream.UnsignedReadOfFF |
| src/main/java/org/fcrepo/bench/BenchToolInputStream.java:44-50 | `read(b, off, len)` writes `b[0 .. len-1]` and never uses `off` | slice [5, 5, 5, 5], b = [7, 7], off = 1, len = 1: b becomes [5, 7] | check that `off .. off+len-1` lies inside `b` and write `b[off + i]` | high, not executed | InputStream.ReadRangeAsWritten, InputStream.OffsetIgnored | InputStream.ReadRange, InputStream.OffsetHonoured |
