/** What a client gets from a method that hangs: everything it wrote, then the timeout error. */
module Expiry {
  import opened Wire
  import opened Engine
  import opened Sequential
  import opened ExactlyOne
  import opened Answers
  import opened LineMode
  import opened StreamAnswers
  import Framing
  import Streaming

  /** What main still does if the responder is left to it; `timedOut` says how its wait ends. */
  function Abandoned(cd: Codec, call: Call, s: State, timedOut: bool): Responder
    requires WellFormed(call, s)
  {
    match s.main
    case Finished => s.resp
    case Ending => Close(cd, s.resp)
    case Erring(e) => Close(cd, SetError(cd, s.resp, e))
    case Limiting(e) => Close(cd, SetError(cd, MaxResponse(s.resp, 0), e))
    case Waiting => CloseWith(cd, s.resp, call.req.version, if timedOut then Some(TIMEOUT) else s.err)
    case _ => CloseWith(cd, s.resp, call.req.version, s.err)
  }

  /** The worker has no more to do with the responder: it makes no step, has ended, or will find the
      context expired when the method returns. */
  predicate Idle(s: State, schedule: seq<Actor>) {
    Work !in schedule || s.worker.Exited? || (s.worker.Invoking? && s.expired)
  }

  lemma StepKeepsAbandoned(cd: Codec, call: Call, s: State, a: Actor, timedOut: bool)
    requires WellFormed(call, s) && Enabled(s, a) && Idle(s, [a])
    requires s.main.Waiting? ==> (a.Timeout? ==> timedOut) && (a.Done? ==> !timedOut)
    ensures Abandoned(cd, call, Do(cd, call, s, a), timedOut) == Abandoned(cd, call, s, timedOut)
  {
  }

  lemma {:induction false} RunKeepsAbandoned(cd: Codec, call: Call, s: State, schedule: seq<Actor>)
    requires WellFormed(call, s) && Feasible(cd, call, s, schedule) && Idle(s, schedule)
    ensures var s1 := After(cd, call, s, schedule);
            s1.main.Finished? ==> s1.resp == Abandoned(cd, call, s, Timeout in schedule)
    decreases |schedule|
  {
    if schedule == [] {
    } else {
      var s1 := Do(cd, call, s, schedule[0]);
      assert schedule == [schedule[0]] + schedule[1..];
      if !s1.main.Waiting? {
        WaitsOnce(cd, call, s1, schedule[1..]);
      }
      StepKeepsAbandoned(cd, call, s, schedule[0], Timeout in schedule);
      RunKeepsAbandoned(cd, call, s1, schedule[1..]);
    }
  }

  /** Main is still waiting for a worker that has not ended. */
  predicate Hanging(s: State) {
    s.main.Waiting? && !s.worker.Exited?
  }

  /** Only the timeout ends the wait for a worker that makes no step. */
  lemma {:induction false} HangingTimesOut(cd: Codec, call: Call, s: State, schedule: seq<Actor>)
    requires WellFormed(call, s) && Feasible(cd, call, s, schedule) && Hanging(s) && Work !in schedule
    ensures !After(cd, call, s, schedule).main.Waiting? ==> Timeout in schedule
    decreases |schedule|
  {
    if schedule == [] {
    } else {
      assert schedule == [schedule[0]] + schedule[1..];
      if !schedule[0].Timeout? {
        HangingTimesOut(cd, call, Do(cd, call, s, schedule[0]), schedule[1..]);
      }
    }
  }

  /** An RPC call that hangs, whatever it has written, is answered with the timeout error. */
  lemma HangingRpcTimesOut(cd: Codec, call: Call, before: seq<Actor>, later: seq<Actor>)
    requires Sane(cd) && call.req.mode == RpcMethod
    requires Feasible(cd, call, Start(call), before) && Hanging(After(cd, call, Start(call), before))
    requires Feasible(cd, call, After(cd, call, Start(call), before), later) && Work !in later
    ensures var s := After(cd, call, After(cd, call, Start(call), before), later);
            s.main.Finished? ==>
              Sent(s.resp) == if call.req.id.None? then [] else ErrorItem(TIMEOUT, call.req.id)
  {
    var s := After(cd, call, Start(call), before);
    StartInv(call);
    RunKeepsInv(cd, call, Start(call), before);
    RunKeepsAbandoned(cd, call, s, later);
    HangingTimesOut(cd, call, s, later);
    CloseRpc(cd, s.resp.reply, call.req.version, Some(TIMEOUT));
  }

  /** A stream is open as long as main waits for its worker. */
  predicate OpenInv(call: Call, s: State) {
    && s.resp.Line? && s.resp.stream.id == call.req.id
    && (Hanging(s) ==> !s.resp.stream.closed)
  }

  lemma {:induction false} PiecesKeepOpen(cd: Codec, t: Streaming.Stream, ps: seq<seq<byte>>)
    ensures var t1 := Streaming.WritePieces(cd, t, ps).0; t1.closed == t.closed && t1.id == t.id
    decreases |ps|
  {
    if ps == [] {
    } else {
      PiecesKeepOpen(cd, if ps[0] == [] then t else Streaming.WritePiece(cd, t, ps[0]).0, ps[1..]);
    }
  }

  lemma WriteKeepsOpen(cd: Codec, t: Streaming.Stream, p: seq<byte>)
    requires t.chunkSize <= 0
    ensures var t1 := Streaming.Write(cd, t, p).0; t1.closed == t.closed && t1.id == t.id
  {
    PiecesKeepOpen(cd, Streaming.Begin(cd, t).0, Framing.SplitAfter(p));
  }

  lemma StepKeepsOpen(cd: Codec, call: Call, s: State, a: Actor)
    requires WellFormed(call, s) && Enabled(s, a) && OpenInv(call, s)
    ensures OpenInv(call, Do(cd, call, s, a))
  {
    if a.Work? && s.worker.Copying? && s.worker.left != [] {
      WriteKeepsOpen(cd, s.resp.stream, s.worker.left[0]);
    }
  }

  lemma {:induction false} RunKeepsOpen(cd: Codec, call: Call, s: State, schedule: seq<Actor>)
    requires WellFormed(call, s) && Feasible(cd, call, s, schedule) && OpenInv(call, s)
    ensures OpenInv(call, After(cd, call, s, schedule))
    decreases |schedule|
  {
    if schedule == [] {
    } else {
      StepKeepsOpen(cd, call, s, schedule[0]);
      RunKeepsOpen(cd, call, Do(cd, call, s, schedule[0]), schedule[1..]);
    }
  }

  /** A streamed call that hangs delivers all it has sent, what is still buffered, and the timeout error once. */
  lemma HangingStreamTimesOut(cd: Codec, call: Call, before: seq<Actor>, later: seq<Actor>)
    requires Sane(cd) && IsStreamed(call.req)
    requires Feasible(cd, call, Start(call), before) && Hanging(After(cd, call, Start(call), before))
    requires Feasible(cd, call, After(cd, call, Start(call), before), later) && Work !in later
    ensures var s := After(cd, call, Start(call), before);
            var s1 := After(cd, call, s, later);
            && s.resp.Line?
            && (s1.main.Finished? ==>
                  Sent(s1.resp)
                  == Sent(s.resp) + Objects(BufferFrames(s.resp.stream) + [ErrorFrame(TIMEOUT, call.req.id)]))
  {
    var s := After(cd, call, Start(call), before);
    if EarlyError(call).Some? {
      NoWorkerNeverHangs(cd, call, Start(call), before);
    }
    RunKeepsOpen(cd, call, Start(call), before);
    RunKeepsAbandoned(cd, call, s, later);
    HangingTimesOut(cd, call, s, later);
    CloseAfterError(cd, s.resp.stream, call.req.version, TIMEOUT);
  }

  /** A request stopped by an early error never waits. */
  lemma {:induction false} NoWorkerNeverHangs(cd: Codec, call: Call, s: State, schedule: seq<Actor>)
    requires WellFormed(call, s) && Feasible(cd, call, s, schedule)
    requires EarlyError(call).Some? && s.worker.Exited?
    ensures !Hanging(After(cd, call, s, schedule))
    decreases |schedule|
  {
    if schedule == [] {
    } else {
      NoWorkerNeverHangs(cd, call, Do(cd, call, s, schedule[0]), schedule[1..]);
    }
  }
}
