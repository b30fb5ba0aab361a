/** The benchmark worker: one action on one object, carried out by a single
    call on the repository client.

    The HTTP clients are not modelled: a client is a function from the
    request it receives to the duration it reports (in milliseconds) or an
    I/O failure. */
module Worker {
  import opened Wrappers
  import opened Actions

  /** The four client requests a worker can make. */
  datatype ClientCall =
    | CreateDatastream(pid: Option<string>, size: int)
    | UpdateDatastream(pid: Option<string>, size: int)
    | RetrieveDatastream(pid: Option<string>)
    | DeleteDatastream(pid: Option<string>)

  /** What the client reports: a duration, or an I/O failure. */
  datatype IoError = IoError(message: string)
  type Client = ClientCall -> Result<int, IoError>

  /** The throughput stored in a result. Deletes store the sentinel `-1`;
      the other kinds store the float `size * 1000 / duration`, which is
      kept here as its two integer operands. */
  datatype Throughput = Sentinel | PerSecond(size: int, duration: int)

  datatype BenchResult = BenchResult(throughput: Throughput, duration: int, size: int)

  /** Why a worker produced no result. */
  datatype WorkerError =
    | Unsupported(action: Action)   // IllegalArgumentException from the dispatch
    | ClientFailed(cause: IoError)  // the client's IOException, passed through

  datatype Worker = Worker(action: Action, pid: Option<string>, binarySize: int)

  /** The four kinds the dispatch switch accepts. */
  predicate Supported(a: Action) {
    a == Ingest || a == Update || a == Read || a == Delete
  }

  /** The client request the dispatch switch makes for a worker, if any. */
  function Request(w: Worker): (c: Option<ClientCall>)
    ensures c.Some? <==> Supported(w.action)
    ensures w.action == Ingest ==> c == Some(CreateDatastream(w.pid, w.binarySize))
    ensures w.action == Update ==> c == Some(UpdateDatastream(w.pid, w.binarySize))
    ensures w.action == Read ==> c == Some(RetrieveDatastream(w.pid))
    ensures w.action == Delete ==> c == Some(DeleteDatastream(w.pid))
  {
    match w.action
    case Ingest => Some(CreateDatastream(w.pid, w.binarySize))
    case Update => Some(UpdateDatastream(w.pid, w.binarySize))
    case Read => Some(RetrieveDatastream(w.pid))
    case Delete => Some(DeleteDatastream(w.pid))
    case _ => None
  }

  /** A run of a worker: the client requests it made, in order, and its
      outcome. */
  datatype Run = Run(calls: seq<ClientCall>, result: Result<BenchResult, WorkerError>)

  /** `call`: dispatch on the action kind, make the one client request and
      wrap the reported duration in a result. */
  function Call(w: Worker, client: Client): (r: Run)
    ensures !Supported(w.action) ==> r == Run([], Failure(Unsupported(w.action)))
    ensures Supported(w.action) ==> |r.calls| == 1 && Some(r.calls[0]) == Request(w)
    ensures Supported(w.action) ==>
      (r.result.Failure? <==> client(r.calls[0]).Failure?)
    ensures r.result.Failure? && Supported(w.action) ==>
      r.result.error == ClientFailed(client(r.calls[0]).error)
    ensures r.result.Success? ==>
      && Supported(w.action)
      && r.result.value.duration == client(r.calls[0]).value
      && r.result.value.size == w.binarySize
      && (r.result.value.throughput.Sentinel? <==> w.action == Delete)
      && (w.action != Delete ==>
            r.result.value.throughput == PerSecond(w.binarySize, r.result.value.duration))
  {
    match Request(w)
    case None => Run([], Failure(Unsupported(w.action)))
    case Some(c) =>
      match client(c)
      case Failure(e) => Run([c], Failure(ClientFailed(e)))
      case Success(duration) =>
        var tp := if w.action == Delete then Sentinel else PerSecond(w.binarySize, duration);
        Run([c], Success(BenchResult(tp, duration, w.binarySize)))
  }
}
