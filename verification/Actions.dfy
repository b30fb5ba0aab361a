/** The enumerations shared by the benchmark components: the benchmarked
    action kinds, the server generation and the transaction mode. */
module Actions {

  /** Every action kind the scheduler handles: the data kinds of the tool's
      command line together with the transaction-control kinds. */
  datatype Action =
    | Ingest | Read | Update | Delete | List
    | CreateTx | CommitTx | RollbackTx

  /** The server generation detected at start-up. */
  datatype FedoraVersion = Fcrepo3 | Fcrepo4

  /** How a transaction is finalized; `NoTx` switches transactions off. */
  datatype TransactionMode = NoTx | Commit | Rollback

  /** The transaction-control kinds, which never count as completed work. */
  predicate IsControl(a: Action) {
    a == CreateTx || a == CommitTx || a == RollbackTx
  }

  /** The kinds that close a transaction. */
  predicate IsFinalize(a: Action) {
    a == CommitTx || a == RollbackTx
  }
}
