/** The logical-replication consumer of pkg/consumer/consumer.go as a
    sequential state machine. The goroutine, ticker, context and network are
    folded into an abstract event alphabet: every event carries the outcome
    the network produced, and the pgoutput decoder and the application
    handler are functions supplied by the caller. */
module Consumer {
  import opened Wrappers
  import opened Lsn

  /** Where the consumer is in its life. */
  datatype Phase =
    | Idle      // built by New; Run has not started the loop
    | Running   // the replication loop is processing events
    | Stopped   // the loop returned
    | Aborted   // log.Fatalln ended the process on a malformed frame

  datatype Connection = NoConnection | Open | Closed

  /** Errors the loop reports through the error sink. */
  datatype LoopError =
    | StatusSendFailed(cause: string)
    | ReplicationFailed(cause: string)
    | InvalidPgoutput(cause: string)
    | HandlingFailed(cause: string)

  /** Errors `Run` returns to its caller before the loop starts. */
  datatype RunError =
    | ConnectFailed(cause: string)
    | StartFailed(cause: string)
    | InitialStatusFailed(cause: string)

  /** A START_REPLICATION request: the slot, the publication named in the
      pgoutput plugin arguments, and the position to stream from. */
  datatype StartRequest = StartRequest(slot: string, publication: string, from: LSN)

  /** The consumer's state. `sink` is the caller's one-slot error channel;
      `reported` lists every error handed to `close`, kept or dropped;
      `starts` lists every START_REPLICATION request issued; `statuses`
      lists the write position of every standby status update attempted,
      whether or not the send succeeded; `handled` lists the WAL start of
      every handler call. */
  datatype State = State(
    slotName: string,
    publicationName: string,
    currentLsn: LSN,
    conn: Connection,
    sink: Option<LoopError>,
    reported: seq<LoopError>,
    starts: seq<StartRequest>,
    statuses: seq<LSN>,
    handled: seq<LSN>,
    phase: Phase)

  /** A replication message as the loop classifies it. The malformed kinds
      are CopyData frames whose Keepalive or XLogData body does not parse. */
  datatype Frame =
    | Keepalive(serverWalEnd: LSN, replyRequested: bool)
    | MalformedKeepalive
    | XLogData(walStart: LSN, serverWalEnd: LSN, payload: seq<byte>)
    | MalformedXLogData
    | OtherCopyData
    | NonCopyData
    | Nil

  /** One turn of the loop's `select`: the context ended, the status ticker
      fired (carrying the outcome of the send), or a receive completed. */
  datatype Event =
    | CtxDone
    | Tick(send: Outcome<string>)
    | RecvTimeout
    | RecvCanceled
    | RecvError(cause: string)
    | Msg(frame: Frame)

  /** What `HandleMessage` did: succeeded, possibly after moving the position
      with `AdvanceLSN`, or returned an error. */
  datatype HandlerOutcome = Handled(advanceTo: Option<LSN>) | Rejected(cause: string)

  /** The pgoutput decoder and the application handler. */
  datatype Collaborators<!M> = Collaborators(
    decode: seq<byte> -> Result<M, string>,
    handle: (LSN, M) -> HandlerOutcome)

  /** `New`: nothing is connected or sent yet; the position is the caller's. */
  function New(slotName: string, publicationName: string, startLsn: LSN, sink: Option<LoopError>): (r: State)
    ensures r.currentLsn == startLsn
    ensures r.slotName == slotName && r.publicationName == publicationName
    ensures r.sink == sink
    ensures r.phase == Idle && r.conn == NoConnection
    ensures r.reported == [] && r.starts == [] && r.statuses == [] && r.handled == []
  {
    State(slotName, publicationName, startLsn, NoConnection, sink, [], [], [], [], Idle)
  }

  /** `AdvanceLSN`: no monotonicity check, and nothing else moves. */
  function AdvanceLsn(c: State, l: LSN): (r: State)
    ensures r.currentLsn == l
    ensures r.(currentLsn := c.currentLsn) == c
  {
    c.(currentLsn := l)
  }

  /** A non-blocking send of `e` on a one-slot channel: the error is kept if
      the slot is empty and dropped otherwise. */
  function Offer(sink: Option<LoopError>, e: LoopError): (r: Option<LoopError>)
    ensures r.Some?
    ensures sink.None? ==> r == Some(e)
    ensures sink.Some? ==> r == sink
  {
    if sink.None? then Some(e) else sink
  }

  /** `close(err)`: offer the error to the caller's sink. */
  function Close(c: State, e: LoopError): (r: State)
    ensures r.reported == c.reported + [e]
    ensures c.sink.None? ==> r.sink == Some(e)
    ensures c.sink.Some? ==> r.sink == c.sink
    ensures r.(sink := c.sink, reported := c.reported) == c
  {
    c.(sink := Offer(c.sink, e), reported := c.reported + [e])
  }

  /** `closeDbConnection`: a failure to close is only logged. */
  function CloseDbConnection(c: State): (r: State)
    ensures r.conn == Closed
    ensures r.(conn := c.conn) == c
  {
    c.(conn := Closed)
  }

  /** `SendStatus`: one standby status update whose write position is the
      current position; `transport` is what the network made of it. */
  function SendStatus(c: State, transport: Outcome<string>): (r: (State, Outcome<string>))
    ensures r.0.statuses == c.statuses + [c.currentLsn]
    ensures r.0.(statuses := c.statuses) == c
    ensures r.1 == transport
  {
    (c.(statuses := c.statuses + [c.currentLsn]), transport)
  }

  /** `startDecoding`: a START_REPLICATION request for the consumer's slot and
      publication from the current position; `start` is the server's answer.
      On failure the connection is closed before the error is returned. */
  function StartDecoding(c: State, start: Outcome<string>): (r: (State, Outcome<string>))
    ensures r.1 == start
    ensures r.0.starts == c.starts + [StartRequest(c.slotName, c.publicationName, c.currentLsn)]
    ensures r.0.conn == (if start.Fail? then Closed else c.conn)
    ensures r.0.(starts := c.starts, conn := c.conn) == c
  {
    var requested := c.(starts := c.starts + [StartRequest(c.slotName, c.publicationName, c.currentLsn)]);
    if start.Fail? then (CloseDbConnection(requested), start) else (requested, Pass)
  }

  /** `Run`: connect, start replication, send one status, and only then start
      the loop. Each argument is the network's answer to that step. */
  function Run(c: State, connect: Outcome<string>, start: Outcome<string>, status: Outcome<string>): (r: (State, Outcome<RunError>))
    ensures r.1.Pass? <==> connect.Pass? && start.Pass? && status.Pass?
    ensures r.1.Pass? ==> r.0.phase == Running && r.0.conn == Open
    ensures r.1.Fail? ==> r.0.phase == c.phase
    ensures connect.Fail? ==> r == (c, Fail(ConnectFailed(connect.error)))
    ensures connect.Pass? && start.Fail? ==>
      r.0.conn == Closed && r.0.statuses == c.statuses && r.1 == Fail(StartFailed(start.error))
    ensures connect.Pass? ==> r.0.starts == c.starts + [StartRequest(c.slotName, c.publicationName, c.currentLsn)]
    ensures connect.Pass? && start.Pass? ==> r.0.statuses == c.statuses + [c.currentLsn]
    ensures connect.Pass? && start.Pass? && status.Fail? ==>
      r.0.conn == Open && r.1 == Fail(InitialStatusFailed(status.error))
    ensures r.0.currentLsn == c.currentLsn && r.0.sink == c.sink && r.0.handled == c.handled
    ensures r.0.(conn := c.conn, starts := c.starts, statuses := c.statuses, phase := c.phase) == c
  {
    if connect.Fail? then
      (c, Fail(ConnectFailed(connect.error)))
    else
      var connected := c.(conn := Open);
      var (started, startResult) := StartDecoding(connected, start);
      if startResult.Fail? then
        (started, Fail(StartFailed(startResult.error)))
      else
        var (sent, sendResult) := SendStatus(started, status);
        if sendResult.Fail? then
          (sent, Fail(InitialStatusFailed(sendResult.error)))
        else
          (sent.(phase := Running), Pass)
  }

  /** Report `e` through the sink and leave the loop. */
  function ReportAndStop(c: State, e: LoopError): (r: State)
    ensures r.phase == Stopped
    ensures r.reported == c.reported + [e]
  {
    Close(c, e).(phase := Stopped)
  }

  /** A CopyData frame whose Keepalive or XLogData body does not parse. */
  predicate IsMalformed(f: Frame) {
    f.MalformedKeepalive? || f.MalformedXLogData?
  }

  /** One received message, as the body of the CopyData type switch treats it. */
  function Dispatch<M>(env: Collaborators<M>, c: State, f: Frame): (r: State)
    requires c.phase == Running
    ensures r.statuses == c.statuses && r.conn == c.conn
    ensures f.XLogData? && env.decode(f.payload).Success? ==> r.handled == c.handled + [f.walStart]
    ensures !(f.XLogData? && env.decode(f.payload).Success?) ==> r.handled == c.handled
    ensures r.currentLsn != c.currentLsn ==> f.XLogData?
    ensures r.phase == Aborted <==> IsMalformed(f)
    ensures r.starts == c.starts
  {
    match f
    case Nil => c
    case NonCopyData => c
    case OtherCopyData => c
    case Keepalive(_, _) => c
    case MalformedKeepalive => c.(phase := Aborted)
    case MalformedXLogData => c.(phase := Aborted)
    case XLogData(walStart, _, payload) =>
      match env.decode(payload)
      case Failure(e) => ReportAndStop(c, InvalidPgoutput(e))
      case Success(m) =>
        var called := c.(handled := c.handled + [walStart]);
        match env.handle(walStart, m)
        case Rejected(e) => ReportAndStop(called, HandlingFailed(e))
        case Handled(None) => called
        case Handled(Some(p)) => AdvanceLsn(called, p)
  }

  /** One iteration of `processReplicationMessage`. Outside the loop an
      event changes nothing. */
  function Step<M>(env: Collaborators<M>, c: State, ev: Event): (r: State)
    ensures c.phase != Running ==> r == c
    ensures r.statuses == c.statuses || (ev.Tick? && r.statuses == c.statuses + [c.currentLsn])
    ensures r.handled == c.handled || (ev.Msg? && ev.frame.XLogData? && r.handled == c.handled + [ev.frame.walStart])
    ensures r.reported == c.reported || (r.phase == Stopped && |r.reported| == |c.reported| + 1)
    ensures c.sink.Some? ==> r.sink == c.sink
    ensures r.currentLsn != c.currentLsn ==> ev.Msg? && ev.frame.XLogData?
    ensures r.slotName == c.slotName && r.publicationName == c.publicationName
    ensures r.starts == c.starts
  {
    if c.phase != Running then c
    else
      match ev
      case CtxDone => CloseDbConnection(c).(phase := Stopped)
      case Tick(send) =>
        var (sent, result) := SendStatus(c, send);
        if result.Fail? then ReportAndStop(sent, StatusSendFailed(result.error)) else sent
      case RecvTimeout => c
      case RecvCanceled => c.(phase := Stopped)
      case RecvError(e) => ReportAndStop(c, ReplicationFailed(e))
      case Msg(f) => Dispatch(env, c, f)
  }

  /** The loop run over a sequence of events. Once it has left `Running`
      nothing changes, and it reports at most one error. */
  function Steps<M>(env: Collaborators<M>, c: State, evs: seq<Event>): (r: State)
    ensures c.phase != Running ==> r == c
    ensures c.sink.Some? ==> r.sink == c.sink
    ensures c.phase == Running ==> |r.reported| <= |c.reported| + 1
    ensures |r.reported| > |c.reported| ==> r.phase == Stopped
    ensures c.reported <= r.reported && c.statuses <= r.statuses && c.handled <= r.handled
    decreases |evs|
  {
    if evs == [] then c else Steps(env, Step(env, c, evs[0]), evs[1..])
  }
}
