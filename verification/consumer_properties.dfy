/** Properties of the replication consumer over whole event sequences:
    dispatch order, fail-fast, first-error-wins, which events stop the loop
    and what the status updates carry. */
module ConsumerProperties {
  import opened Wrappers
  import opened Lsn
  import opened Consumer
  import HexText

  // ---------------------------------------------------------------------
  // Vocabulary
  // ---------------------------------------------------------------------

  /** Each frame received in turn. */
  function Msgs(frames: seq<Frame>): (evs: seq<Event>)
    ensures |evs| == |frames|
  {
    if frames == [] then [] else [Msg(frames[0])] + Msgs(frames[1..])
  }

  /** The WAL start of every XLogData frame, in arrival order. */
  function XLogStarts(frames: seq<Frame>): seq<LSN> {
    if frames == [] then []
    else (if frames[0].XLogData? then [frames[0].walStart] else []) + XLogStarts(frames[1..])
  }

  /** The position a frame's handler call passes to `AdvanceLSN`: present
      only when the frame is XLogData whose payload decodes and the handler
      succeeds after advancing. */
  function AdvanceTarget<M>(env: Collaborators<M>, f: Frame): Option<LSN> {
    if !f.XLogData? then None
    else match env.decode(f.payload)
      case Failure(_) => None
      case Success(m) =>
        match env.handle(f.walStart, m)
        case Rejected(_) => None
        case Handled(target) => target
  }

  function LastOr(s: seq<LSN>, default: LSN): LSN {
    if s == [] then default else s[|s| - 1]
  }

  /** The fatal error a well-formed frame raises: a decode failure or a
      handler failure of an XLogData frame. */
  function FrameError<M>(env: Collaborators<M>, f: Frame): Option<LoopError> {
    if !f.XLogData? then None
    else match env.decode(f.payload)
      case Failure(e) => Some(InvalidPgoutput(e))
      case Success(m) =>
        match env.handle(f.walStart, m)
        case Rejected(e) => Some(HandlingFailed(e))
        case Handled(_) => None
  }

  /** A frame after which the loop goes on. */
  predicate Benign<M>(env: Collaborators<M>, f: Frame) {
    !IsMalformed(f) && FrameError(env, f).None?
  }

  predicate AllBenign<M>(env: Collaborators<M>, frames: seq<Frame>) {
    forall i :: 0 <= i < |frames| ==> Benign(env, frames[i])
  }

  /** The handler calls a frame sequence causes, read off the frames alone:
      one per XLogData frame whose payload decodes, up to the first frame
      that ends the loop. */
  function HandlerCalls<M>(env: Collaborators<M>, frames: seq<Frame>): seq<LSN> {
    if frames == [] then []
    else
      var f := frames[0];
      var call := if f.XLogData? && env.decode(f.payload).Success? then [f.walStart] else [];
      call + (if Benign(env, f) then HandlerCalls(env, frames[1..]) else [])
  }

  // ---------------------------------------------------------------------
  // Sequencing
  // ---------------------------------------------------------------------

  lemma {:induction false} MsgsAppend(a: seq<Frame>, b: seq<Frame>)
    ensures Msgs(a + b) == Msgs(a) + Msgs(b)
  {
    if a == [] {
      assert a + b == b;
    } else {
      assert (a + b)[0] == a[0];
      assert (a + b)[1..] == a[1..] + b;
      MsgsAppend(a[1..], b);
      assert Msgs(a + b) == [Msg(a[0])] + (Msgs(a[1..]) + Msgs(b));
    }
  }

  /** Running two event sequences back to back is running their concatenation. */
  lemma {:induction false} StepsAppend<M>(env: Collaborators<M>, c: State, a: seq<Event>, b: seq<Event>)
    ensures Steps(env, c, a + b) == Steps(env, Steps(env, c, a), b)
    decreases |a|
  {
    if a == [] {
      assert a + b == b;
    } else {
      assert (a + b)[0] == a[0];
      assert (a + b)[1..] == a[1..] + b;
      StepsAppend(env, Step(env, c, a[0]), a[1..], b);
    }
  }

  /** Once the loop has returned, no later event dispatches anything. */
  lemma NothingAfterStop<M>(env: Collaborators<M>, c: State, before: seq<Event>, after: seq<Event>)
    requires Steps(env, c, before).phase != Running
    ensures Steps(env, c, before + after) == Steps(env, c, before)
  {
    StepsAppend(env, c, before, after);
  }

  // ---------------------------------------------------------------------
  // Dispatch order and fail-fast
  // ---------------------------------------------------------------------

  /** Frames that do not end the loop: the handler sees every XLogData
      frame's WAL start once, in arrival order; Keepalive (even one asking
      for a reply), other CopyData, non-CopyData and nil messages cause no
      call, no status and no report. */
  lemma {:induction false} DispatchInOrder<M>(env: Collaborators<M>, c: State, frames: seq<Frame>)
    requires c.phase == Running
    requires AllBenign(env, frames)
    ensures Steps(env, c, Msgs(frames)).handled == c.handled + XLogStarts(frames)
    ensures Steps(env, c, Msgs(frames)).phase == Running
    ensures Steps(env, c, Msgs(frames)).sink == c.sink
    ensures Steps(env, c, Msgs(frames)).reported == c.reported
    ensures Steps(env, c, Msgs(frames)).statuses == c.statuses
    ensures Steps(env, c, Msgs(frames)).conn == c.conn
    decreases |frames|
  {
    if frames != [] {
      var f := frames[0];
      var c' := Step(env, c, Msg(f));
      BenignStep(env, c, f);
      BenignTail(env, frames);
      DispatchInOrder(env, c', frames[1..]);
      StepsMsgsCons(env, c, frames);
      assert XLogStarts(frames) == XLogStarts([f]) + XLogStarts(frames[1..]);
    }
  }

  lemma BenignTail<M>(env: Collaborators<M>, frames: seq<Frame>)
    requires frames != [] && AllBenign(env, frames)
    ensures Benign(env, frames[0]) && AllBenign(env, frames[1..])
  {
    forall i | 0 <= i < |frames[1..]|
      ensures Benign(env, frames[1..][i])
    {
      assert frames[1..][i] == frames[i + 1];
    }
  }

  /** Running a frame sequence is running its first frame, then the rest. */
  lemma StepsMsgsCons<M>(env: Collaborators<M>, c: State, frames: seq<Frame>)
    requires frames != []
    ensures Steps(env, c, Msgs(frames)) == Steps(env, Step(env, c, Msg(frames[0])), Msgs(frames[1..]))
  {
    var evs := Msgs(frames);
    assert evs[0] == Msg(frames[0]) && evs[1..] == Msgs(frames[1..]);
  }

  /** One frame that does not end the loop: at most a handler call, recorded. */
  lemma BenignStep<M>(env: Collaborators<M>, c: State, f: Frame)
    requires c.phase == Running
    requires Benign(env, f)
    ensures Step(env, c, Msg(f)).phase == Running
    ensures Step(env, c, Msg(f)).handled == c.handled + XLogStarts([f])
    ensures Step(env, c, Msg(f)).sink == c.sink && Step(env, c, Msg(f)).reported == c.reported
    ensures Step(env, c, Msg(f)).statuses == c.statuses && Step(env, c, Msg(f)).conn == c.conn
  {
  }

  /** For every frame sequence, the handler calls are exactly those the
      frames alone determine. */
  lemma {:induction false} HandlerCallsExact<M>(env: Collaborators<M>, c: State, frames: seq<Frame>)
    requires c.phase == Running
    ensures Steps(env, c, Msgs(frames)).handled == c.handled + HandlerCalls(env, frames)
    decreases |frames|
  {
    if frames != [] {
      var f := frames[0];
      var c' := Step(env, c, Msg(f));
      if Benign(env, f) {
        assert c'.phase == Running;
        HandlerCallsExact(env, c', frames[1..]);
      } else {
        assert c'.phase != Running;
      }
    }
  }

  /** The loop never sets the position itself: after a received message it
      is whatever the handler passed to `AdvanceLSN`, and otherwise, including
      after a decode failure or a rejected call, it is unchanged. */
  lemma PositionAfterFrame<M>(env: Collaborators<M>, c: State, f: Frame)
    requires c.phase == Running
    ensures Step(env, c, Msg(f)).currentLsn ==
      (if AdvanceTarget(env, f).Some? then AdvanceTarget(env, f).value else c.currentLsn)
  {
  }

  /** A decode or handler failure after well-behaved frames reports exactly
      one error, stops the loop, and no later frame reaches the handler. */
  lemma FailFast<M>(env: Collaborators<M>, c: State, before: seq<Frame>, f: Frame, after: seq<Frame>)
    requires c.phase == Running
    requires AllBenign(env, before)
    requires FrameError(env, f).Some?
    ensures Steps(env, c, Msgs(before + [f] + after)).phase == Stopped
    ensures Steps(env, c, Msgs(before + [f] + after)).reported == c.reported + [FrameError(env, f).value]
    ensures Steps(env, c, Msgs(before + [f] + after)).sink == Offer(c.sink, FrameError(env, f).value)
    ensures Steps(env, c, Msgs(before + [f] + after)).handled ==
      c.handled + XLogStarts(before) + (if env.decode(f.payload).Success? then [f.walStart] else [])
    ensures Steps(env, c, Msgs(before + [f] + after)).statuses == c.statuses
  {
    MsgsAppend(before + [f], after);
    MsgsAppend(before, [f]);
    StepsAppend(env, c, Msgs(before) + Msgs([f]), Msgs(after));
    StepsAppend(env, c, Msgs(before), Msgs([f]));
    DispatchInOrder(env, c, before);
    var mid := Steps(env, c, Msgs(before));
    assert Msgs([f]) == [Msg(f)];
    assert Steps(env, mid, [Msg(f)]) == Step(env, mid, Msg(f));
  }

  /** A malformed Keepalive or XLogData frame ends the process
      (`log.Fatalln`): nothing is reported and no later frame is handled. */
  lemma MalformedAborts<M>(env: Collaborators<M>, c: State, before: seq<Frame>, f: Frame, after: seq<Frame>)
    requires c.phase == Running
    requires AllBenign(env, before)
    requires IsMalformed(f)
    ensures Steps(env, c, Msgs(before + [f] + after)).phase == Aborted
    ensures Steps(env, c, Msgs(before + [f] + after)).reported == c.reported
    ensures Steps(env, c, Msgs(before + [f] + after)).sink == c.sink
    ensures Steps(env, c, Msgs(before + [f] + after)).handled == c.handled + XLogStarts(before)
  {
    MsgsAppend(before + [f], after);
    MsgsAppend(before, [f]);
    StepsAppend(env, c, Msgs(before) + Msgs([f]), Msgs(after));
    StepsAppend(env, c, Msgs(before), Msgs([f]));
    DispatchInOrder(env, c, before);
    var mid := Steps(env, c, Msgs(before));
    assert Msgs([f]) == [Msg(f)];
    assert Steps(env, mid, [Msg(f)]) == Step(env, mid, Msg(f));
  }

  // ---------------------------------------------------------------------
  // The error sink
  // ---------------------------------------------------------------------

  /** `close` called once per error, in order. */
  function ReportAll(c: State, es: seq<LoopError>): State
    decreases |es|
  {
    if es == [] then c else ReportAll(Close(c, es[0]), es[1..])
  }

  /** The first error offered to an empty sink is the one it keeps; every
      later one is dropped, and no call ever waits. */
  lemma {:induction false} FirstErrorWins(c: State, es: seq<LoopError>)
    ensures ReportAll(c, es).reported == c.reported + es
    ensures c.sink.Some? ==> ReportAll(c, es).sink == c.sink
    ensures c.sink.None? && es != [] ==> ReportAll(c, es).sink == Some(es[0])
    ensures c.sink.None? && es == [] ==> ReportAll(c, es).sink == None
    decreases |es|
  {
    if es != [] {
      FirstErrorWins(Close(c, es[0]), es[1..]);
      assert c.reported + [es[0]] + es[1..] == c.reported + es;
    }
  }

  // ---------------------------------------------------------------------
  // Receive outcomes and loop control
  // ---------------------------------------------------------------------

  /** A receive timeout goes round again with nothing reported; a canceled
      receive leaves the loop with nothing reported and the connection as
      it was; any other receive error reports once and leaves the loop. */
  lemma ReceiveOutcomes<M>(env: Collaborators<M>, c: State, cause: string)
    requires c.phase == Running
    ensures Step(env, c, RecvTimeout) == c
    ensures Step(env, c, RecvCanceled) == c.(phase := Stopped)
    ensures Step(env, c, RecvError(cause)) ==
      c.(phase := Stopped, sink := Offer(c.sink, ReplicationFailed(cause)),
         reported := c.reported + [ReplicationFailed(cause)])
  {
  }

  /** A tick sends the current position; a failed send reports once and
      leaves the loop. The end of the context closes the connection and
      leaves the loop with nothing reported. */
  lemma LoopControl<M>(env: Collaborators<M>, c: State, cause: string)
    requires c.phase == Running
    ensures Step(env, c, Tick(Pass)) == c.(statuses := c.statuses + [c.currentLsn])
    ensures Step(env, c, Tick(Fail(cause))) ==
      c.(statuses := c.statuses + [c.currentLsn], phase := Stopped,
         sink := Offer(c.sink, StatusSendFailed(cause)),
         reported := c.reported + [StatusSendFailed(cause)])
    ensures Step(env, c, CtxDone) == c.(conn := Closed, phase := Stopped)
  {
  }

  /** Events that never carry a failure: cancellation, timeouts, successful
      ticks and well-behaved frames. */
  predicate Quiet<M>(env: Collaborators<M>, ev: Event) {
    match ev
    case CtxDone => true
    case RecvCanceled => true
    case RecvTimeout => true
    case Tick(send) => send.Pass?
    case RecvError(_) => false
    case Msg(f) => Benign(env, f)
  }

  /** Cancellation is never an error: a run of quiet events leaves the sink
      and the report log untouched, however it ends. */
  lemma {:induction false} CancellationReportsNothing<M>(env: Collaborators<M>, c: State, evs: seq<Event>)
    requires forall i :: 0 <= i < |evs| ==> Quiet(env, evs[i])
    ensures Steps(env, c, evs).sink == c.sink
    ensures Steps(env, c, evs).reported == c.reported
    decreases |evs|
  {
    if evs != [] {
      assert Quiet(env, evs[0]);
      var c' := Step(env, c, evs[0]);
      assert c'.sink == c.sink && c'.reported == c.reported;
      assert forall i :: 0 <= i < |evs[1..]| ==> Quiet(env, evs[1..][i]) by {
        forall i | 0 <= i < |evs[1..]|
          ensures Quiet(env, evs[1..][i])
        {
          assert evs[1..][i] == evs[i + 1];
        }
      }
      CancellationReportsNothing(env, c', evs[1..]);
    }
  }

  /** A failed `Run` never starts the loop: no event afterwards has any effect. */
  lemma FailedRunStartsNoLoop<M>(env: Collaborators<M>, c: State, connect: Outcome<string>,
                                 start: Outcome<string>, status: Outcome<string>, evs: seq<Event>)
    requires c.phase == Idle
    requires Run(c, connect, start, status).1.Fail?
    ensures Steps(env, Run(c, connect, start, status).0, evs) == Run(c, connect, start, status).0
  {
  }

  // ---------------------------------------------------------------------
  // Positions carried by status updates
  // ---------------------------------------------------------------------

  /** `AdvanceLSN` called once per position, in order. */
  function AdvanceAll(c: State, ls: seq<LSN>): State
    decreases |ls|
  {
    if ls == [] then c else AdvanceAll(AdvanceLsn(c, ls[0]), ls[1..])
  }

  /** After any series of `AdvanceLSN` calls, the next status carries the
      last position advanced to, increasing or not. */
  lemma {:induction false} StatusCarriesLatestAdvance(c: State, ls: seq<LSN>, transport: Outcome<string>)
    ensures SendStatus(AdvanceAll(c, ls), transport).0.statuses == c.statuses + [LastOr(ls, c.currentLsn)]
    ensures AdvanceAll(c, ls).(currentLsn := c.currentLsn) == c
    decreases |ls|
  {
    if ls != [] {
      StatusCarriesLatestAdvance(AdvanceLsn(c, ls[0]), ls[1..], transport);
      if ls[1..] == [] {
        assert ls == [ls[0]];
      } else {
        assert ls[1..][|ls[1..]| - 1] == ls[|ls| - 1];
      }
    }
  }

  /** A handler that advances to each WAL start it is given. */
  ghost predicate AdvancesToWalStart<M(!new)>(env: Collaborators<M>) {
    forall w, m :: env.handle(w, m) == Handled(Some(w))
  }

  /** With a handler that advances to each WAL start, one event either
      leaves the position and the handled log alone or handles one frame and
      moves the position to its WAL start. */
  lemma AdvanceStep<M(!new)>(env: Collaborators<M>, c: State, ev: Event)
    requires AdvancesToWalStart(env)
    ensures var r := Step(env, c, ev);
      (r.handled == c.handled && r.currentLsn == c.currentLsn) ||
      (r.handled == c.handled + [r.currentLsn])
  {
    var r := Step(env, c, ev);
    if r.handled != c.handled {
      var f := ev.frame;
      assert r.handled == c.handled + [f.walStart];
      assert env.handle(f.walStart, env.decode(f.payload).value) == Handled(Some(f.walStart));
    }
  }

  /** With a handler that advances to each WAL start, the position after
      any run of events is the WAL start of the last frame handled in it,
      or the position it started from when there was none. */
  lemma {:induction false} PositionFollowsHandled<M(!new)>(env: Collaborators<M>, c: State, evs: seq<Event>)
    requires AdvancesToWalStart(env)
    ensures Steps(env, c, evs).currentLsn ==
      LastOr(Steps(env, c, evs).handled[|c.handled|..], c.currentLsn)
    decreases |evs|
  {
    if evs != [] {
      var c' := Step(env, c, evs[0]);
      PositionFollowsHandled(env, c', evs[1..]);
      var r := Steps(env, c, evs);
      assert r == Steps(env, c', evs[1..]);
      AdvanceStep(env, c, evs[0]);
      assert c'.handled <= r.handled;
      if c'.handled != c.handled {
        assert r.handled[|c.handled|..] == [c'.currentLsn] + r.handled[|c'.handled|..];
      }
    }
  }

  /** After XLogData frames that each decode, under a handler that advances
      to each WAL start, the next tick reports the last frame's WAL start. */
  lemma StatusAfterHandled<M(!new)>(env: Collaborators<M>, c: State, frames: seq<Frame>)
    requires c.phase == Running
    requires AdvancesToWalStart(env)
    requires forall i :: 0 <= i < |frames| ==> frames[i].XLogData? && env.decode(frames[i].payload).Success?
    ensures Steps(env, c, Msgs(frames) + [Tick(Pass)]).statuses ==
      c.statuses + [LastOr(XLogStarts(frames), c.currentLsn)]
  {
    DecodedFramesBenign(env, frames);
    DispatchInOrder(env, c, frames);
    PositionFollowsHandled(env, c, Msgs(frames));
    var mid := Steps(env, c, Msgs(frames));
    assert mid.handled[|c.handled|..] == XLogStarts(frames);
    TickAfter(env, c, Msgs(frames));
  }

  lemma DecodedFramesBenign<M(!new)>(env: Collaborators<M>, frames: seq<Frame>)
    requires AdvancesToWalStart(env)
    requires forall i :: 0 <= i < |frames| ==> frames[i].XLogData? && env.decode(frames[i].payload).Success?
    ensures AllBenign(env, frames)
  {
    forall i | 0 <= i < |frames|
      ensures Benign(env, frames[i])
    {
      assert frames[i].XLogData?;
    }
  }

  /** A successful tick at the end of a run sends the position the run left. */
  lemma TickAfter<M>(env: Collaborators<M>, c: State, evs: seq<Event>)
    requires Steps(env, c, evs).phase == Running
    ensures Steps(env, c, evs + [Tick(Pass)]).statuses ==
      Steps(env, c, evs).statuses + [Steps(env, c, evs).currentLsn]
  {
    var mid := Steps(env, c, evs);
    StepsAppend(env, c, evs, [Tick(Pass)]);
    assert Steps(env, mid, [Tick(Pass)]) == Step(env, mid, Tick(Pass));
  }

  /** A decoder that passes the payload through and a handler that
      advances to each WAL start it is given. */
  function EchoAdvance(): (env: Collaborators<seq<byte>>)
    ensures AdvancesToWalStart(env)
    ensures forall p :: env.decode(p).Success?
  {
    Collaborators(p => Success(p), (w, m) => Handled(Some(w)))
  }

  const SessionFrames: seq<Frame> :=
    [XLogData(0x1500010, 0, []), XLogData(0x1500020, 0, []), XLogData(0x1500030, 0, [])]

  /** A concrete session: start at 0x1500000, three XLogData
      frames at 0x1500010, 0x1500020 and 0x1500030 whose handler advances to
      each, then a tick: the tick sends exactly 0x1500030, in hex
      0000000001500030. */
  lemma ThreeFrameSession()
    ensures Run(New("slot", "pub", 0x1500000, None), Pass, Pass, Pass).1 == Pass
    ensures Steps(EchoAdvance(), Run(New("slot", "pub", 0x1500000, None), Pass, Pass, Pass).0,
                  Msgs(SessionFrames) + [Tick(Pass)]).statuses == [0x1500000, 0x1500030]
    ensures Hex(0x1500030) == "0000000001500030"
  {
    var running := Run(New("slot", "pub", 0x1500000, None), Pass, Pass, Pass).0;
    SessionStart();
    var env := EchoAdvance();
    assert XLogStarts(SessionFrames) == [0x1500010, 0x1500020, 0x1500030] by {
      assert SessionFrames[1..] == [XLogData(0x1500020, 0, []), XLogData(0x1500030, 0, [])];
      assert SessionFrames[1..][1..] == [XLogData(0x1500030, 0, [])];
    }
    StatusAfterHandled(env, running, SessionFrames);
    SessionHex();
  }

  /** The session's `Run`: one START_REPLICATION request for slot "slot" and
      publication "pub" from 0x1500000, then one status at that position. */
  lemma SessionStart()
    ensures Run(New("slot", "pub", 0x1500000, None), Pass, Pass, Pass).1 == Pass
    ensures Run(New("slot", "pub", 0x1500000, None), Pass, Pass, Pass).0.starts ==
      [StartRequest("slot", "pub", 0x1500000)]
    ensures Run(New("slot", "pub", 0x1500000, None), Pass, Pass, Pass).0.statuses == [0x1500000]
    ensures Run(New("slot", "pub", 0x1500000, None), Pass, Pass, Pass).0.phase == Running
    ensures Run(New("slot", "pub", 0x1500000, None), Pass, Pass, Pass).0.currentLsn == 0x1500000
  {
  }

  lemma SessionHex()
    ensures Hex(0x1500030) == "0000000001500030"
  {
    HexText.PadHexZero(9);
    assert HexText.PadHex(0, 9) == "000000000";
    assert HexText.PadHex(0x1, 10) == HexText.PadHex(0, 9) + "1";
    assert HexText.PadHex(0x15, 11) == HexText.PadHex(0x1, 10) + "5";
    assert HexText.PadHex(0x150, 12) == HexText.PadHex(0x15, 11) + "0";
    assert HexText.PadHex(0x1500, 13) == HexText.PadHex(0x150, 12) + "0";
    assert HexText.PadHex(0x15000, 14) == HexText.PadHex(0x1500, 13) + "0";
    assert HexText.PadHex(0x150003, 15) == HexText.PadHex(0x15000, 14) + "3";
    assert HexText.PadHex(0x1500030, 16) == HexText.PadHex(0x150003, 15) + "0";
  }
}
