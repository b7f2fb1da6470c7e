/** Requests whose context expires: what main finds when it reads the stored error, and what an RPC client gets. */
module Overtaken {
  import opened Wire
  import opened Engine
  import opened Sequential
  import opened ExactlyOne
  import opened Answers
  import Expiry

  // ----- the method returns too late -----

  /** A context that expires before the method has returned leaves the responder to main alone. */
  lemma LateRun(cd: Codec, call: Call, schedule: seq<Actor>)
    requires Feasible(cd, call, Start(call), schedule) && EarlyError(call).None? && ExpiresFirst(schedule)
    ensures var s := After(cd, call, Start(call), schedule);
            s.main.Finished? ==>
              s.resp == CloseWith(cd, Start(call).resp, call.req.version,
                                  if Timeout in schedule then Some(TIMEOUT) else None)
  {
    assert schedule == [schedule[0]] + schedule[1..];
    Expiry.RunKeepsAbandoned(cd, call, Do(cd, call, Start(call), schedule[0]), schedule[1..]);
  }

  // ----- until main reads the error -----

  /** What the worker is about to do is what the method has returned. */
  predicate Faithful(call: Call, s: State)
    requires WellFormed(call, s)
  {
    match s.worker
    case Failing(e) => call.target.value.outcome == Fails(e)
    case Reporting(e) => call.target.value.outcome == Fails(e)
    case Answering(v) => call.target.value.outcome == Returns(v)
    case _ => true
  }

  lemma StepKeepsFaithful(cd: Codec, call: Call, s: State, a: Actor)
    requires WellFormed(call, s) && Enabled(s, a) && Faithful(call, s)
    ensures Faithful(call, Do(cd, call, s, a))
  {
  }

  /** The worker goes on as if nobody else were there, and the stored error is either its own, or the timeout. */
  predicate Undisturbed(cd: Codec, call: Call, s: State)
    requires WellFormed(call, s)
  {
    && (s.main.Waiting? || s.main.Judging? || s.main.Grace? || s.main.Closing?)
    && (s.worker.Invoking? ==> !s.expired)
    && var ((r, e), (r1, e1)) := (Pending(cd, call, s), Processed(cd, call));
       var reported := s.worker.Exited? || s.worker.Reporting?;
       && r == r1 && (e == e1 || (e == Some(TIMEOUT) && reported))
       && (s.err.None? || s.err == Some(TIMEOUT) || (s.err == e1 && reported))
       && (!s.main.Waiting? && s.err.None? ==> s.worker.Exited?)
  }

  lemma StepKeepsUndisturbed(cd: Codec, call: Call, s: State, a: Actor)
    requires WellFormed(call, s) && Enabled(s, a) && Undisturbed(cd, call, s)
    requires (a.Expire? ==> !s.worker.Invoking?) && !(s.main.Closing? && a.Proceed?)
    ensures Undisturbed(cd, call, Do(cd, call, s, a))
  {
    if a.Work? {
      WorkKeepsPending(cd, call, s);
    }
  }

  /** Main has read the error of a worker that is gone: the request ends as the sequential call. */
  predicate Settled(cd: Codec, call: Call, s: State)
    requires WellFormed(call, s)
  {
    s.worker.Exited? && !s.main.Waiting? && Remaining(cd, call, s) == Serve(cd, call)
  }

  /** Main has read an error and is about to report it. */
  predicate Reports(call: Call, s: State) {
    s.main.Limiting? && (s.main.e == TIMEOUT || (call.target.Some? && call.target.value.outcome == Fails(s.main.e)))
  }

  lemma ReadError(cd: Codec, call: Call, s: State)
    requires WellFormed(call, s) && s.main.Closing? && Undisturbed(cd, call, s) && Faithful(call, s)
    ensures var s1 := Do(cd, call, s, Proceed);
            Settled(cd, call, s1) || (Reports(call, s1) && s1.resp == Upgrade(s.resp, call.req.version))
  {
  }

  lemma SettledEnds(cd: Codec, call: Call, s: State, schedule: seq<Actor>)
    requires WellFormed(call, s) && Settled(cd, call, s) && Feasible(cd, call, s, schedule)
    ensures var s1 := After(cd, call, s, schedule);
            s1.main.Finished? ==> s1.resp == Serve(cd, call)
  {
    WaitsOnce(cd, call, s, schedule);
    RunKeepsRemaining(cd, call, s, schedule);
  }

  // ----- RPC -----

  /** A reply of which nothing has been sent. */
  predicate Unsent(call: Call, r: Responder) {
    r.Rpc? && r.reply.id == call.req.id && r.reply.id.Some? && !r.reply.dataSent && r.reply.raw == []
  }

  /** The answer of the method or the timeout error. */
  predicate Expected(cd: Codec, call: Call, items: seq<Item>) {
    items == RpcAnswer(cd, call) || items == ErrorItem(TIMEOUT, call.req.id)
  }

  /** From the reading of an error on, an expected answer is in the buffer or about to be put there. */
  predicate Decided(cd: Codec, call: Call, s: State)
    requires WellFormed(call, s)
  {
    && Faithful(call, s) && EarlyError(call).None?
    && match s.main
       case Limiting(e) => Unsent(call, s.resp) && (e == TIMEOUT || call.target.value.outcome == Fails(e))
       case Erring(e) => Unsent(call, s.resp) && (e == TIMEOUT || call.target.value.outcome == Fails(e))
       case Ending =>
         Unsent(call, s.resp) && s.resp.reply.resultSet && Expected(cd, call, s.resp.reply.chan.out)
       case Finished => s.resp.Rpc? && s.resp.reply.dataSent && Expected(cd, call, s.resp.reply.raw)
       case _ => false
  }

  lemma StepKeepsDecided(cd: Codec, call: Call, s: State, a: Actor)
    requires WellFormed(call, s) && Enabled(s, a) && Decided(cd, call, s)
    ensures Decided(cd, call, Do(cd, call, s, a))
  {
    StepKeepsFaithful(cd, call, s, a);
  }

  lemma {:induction false} DecidedEnds(cd: Codec, call: Call, s: State, schedule: seq<Actor>)
    requires WellFormed(call, s) && Decided(cd, call, s) && Feasible(cd, call, s, schedule)
    ensures var s1 := After(cd, call, s, schedule);
            s1.main.Finished? ==> Expected(cd, call, Sent(s1.resp))
    decreases |schedule|
  {
    if schedule == [] {
    } else {
      StepKeepsDecided(cd, call, s, schedule[0]);
      DecidedEnds(cd, call, Do(cd, call, s, schedule[0]), schedule[1..]);
    }
  }

  /** Until main reads the error. */
  predicate Open(cd: Codec, call: Call, s: State)
    requires WellFormed(call, s)
  {
    Undisturbed(cd, call, s) && Faithful(call, s) && Unsent(call, s.resp)
  }

  lemma StepKeepsUnsent(cd: Codec, call: Call, s: State, a: Actor)
    requires WellFormed(call, s) && Enabled(s, a) && Unsent(call, s.resp) && !s.main.Ending?
    ensures Unsent(call, Do(cd, call, s, a).resp)
  {
  }

  lemma {:induction false} OpenEnds(cd: Codec, call: Call, s: State, schedule: seq<Actor>)
    requires WellFormed(call, s) && Feasible(cd, call, s, schedule) && EarlyError(call).None?
    requires Open(cd, call, s) && (s.worker.Invoking? ==> !ExpiresFirst(schedule))
    requires Sent(Serve(cd, call)) == RpcAnswer(cd, call)
    ensures var s1 := After(cd, call, s, schedule);
            s1.main.Finished? ==> Expected(cd, call, Sent(s1.resp))
    decreases |schedule|
  {
    if schedule == [] {
    } else {
      var s1 := Do(cd, call, s, schedule[0]);
      StepKeepsUnsent(cd, call, s, schedule[0]);
      StepKeepsFaithful(cd, call, s, schedule[0]);
      if s.main.Closing? && schedule[0].Proceed? {
        ReadError(cd, call, s);
        if Settled(cd, call, s1) {
          SettledEnds(cd, call, s1, schedule[1..]);
        } else {
          DecidedEnds(cd, call, s1, schedule[1..]);
        }
      } else {
        StepKeepsUndisturbed(cd, call, s, schedule[0]);
        OpenEnds(cd, call, s1, schedule[1..]);
      }
    }
  }

  function EmptySuccess(id: IdRef): seq<Item> {
    [Object(Result(V20, Content([]), id))]
  }

  /** What an RPC client gets in every finished interleaving. A run in time gives the answer of the method. If the
      context expires before the method has returned, the answer is the timeout error when main notices the expiry,
      and an empty success when it notices the end of the worker. In all other runs it is the answer of the method
      or the timeout error: never a part of its output. */
  lemma EveryRpcAnswer(cd: Codec, call: Call, schedule: seq<Actor>)
    requires Sane(cd) && call.req.mode == RpcMethod && AnswerId(call).Some?
    requires call.target.Some? ==> CopyLike(call.target.value.outcome)
    requires Feasible(cd, call, Start(call), schedule) && After(cd, call, Start(call), schedule).main.Finished?
    ensures var sent := Sent(After(cd, call, Start(call), schedule).resp);
            var id := AnswerId(call);
            if InTime(call, schedule) then sent == RpcAnswer(cd, call)
            else if ExpiresFirst(schedule) then
              sent == if Timeout in schedule then ErrorItem(TIMEOUT, id) else EmptySuccess(id)
            else sent == RpcAnswer(cd, call) || sent == ErrorItem(TIMEOUT, id)
  {
    ServeRpc(cd, call);
    InTimeRunIsSequential(cd, call, schedule);
    if EarlyError(call).Some? {
      WaitsOnce(cd, call, Start(call), schedule);
    } else if ExpiresFirst(schedule) {
      LateRun(cd, call, schedule);
      CloseRpc(cd, Start(call).resp.reply, call.req.version, if Timeout in schedule then Some(TIMEOUT) else None);
    } else {
      OpenEnds(cd, call, Start(call), schedule);
    }
  }

  lemma WindUp(cd: Codec, call: Call, s: State) returns (schedule: seq<Actor>)
    requires WellFormed(call, s) && s.main.Waiting? && s.worker.Exited? && s.err.None?
    ensures Feasible(cd, call, s, schedule) && After(cd, call, s, schedule).main.Finished?
    ensures Timeout !in schedule
  {
    var s1 := Do(cd, call, s, Done);
    var s2 := Do(cd, call, s1, Proceed);
    var s3 := Do(cd, call, s2, Proceed);
    schedule := [Proceed];
    Extend(cd, call, s3, Proceed, []);
    assert [Proceed] + [] == [Proceed];
    Extend(cd, call, s2, Proceed, schedule);
    schedule := [Proceed] + schedule;
    Extend(cd, call, s1, Proceed, schedule);
    schedule := [Proceed] + schedule;
    Extend(cd, call, s, Done, schedule);
    schedule := [Done] + schedule;
  }

  /** The empty success does arise, for every method: the context expires before it returns, what it returns is
      dropped, and main notices the end of the worker first. */
  lemma LateCallSucceeds(cd: Codec, call: Call) returns (schedule: seq<Actor>)
    requires Sane(cd) && call.req.mode == RpcMethod && EarlyError(call).None? && call.req.id.Some?
    ensures Feasible(cd, call, Start(call), schedule)
    ensures var s := After(cd, call, Start(call), schedule);
            s.main.Finished? && Sent(s.resp) == EmptySuccess(call.req.id)
  {
    var s0 := Start(call);
    var s1 := Do(cd, call, s0, Expire);
    schedule := WindUp(cd, call, Do(cd, call, s1, Work));
    Extend(cd, call, s1, Work, schedule);
    schedule := [Work] + schedule;
    Extend(cd, call, s0, Expire, schedule);
    schedule := [Expire] + schedule;
    LateRun(cd, call, schedule);
    CloseRpc(cd, s0.resp.reply, call.req.version, None);
  }
}
