/** An RPC request is answered by exactly one object in every interleaving, and a notification by none. */
module ExactlyOne {
  import opened Wire
  import opened Engine

  /** The id pointer the responder answers to: a request that could not be read is answered with a null id. */
  function AnswerId(call: Call): IdRef {
    if call.req.transport.Some? then Some(Null) else call.req.id
  }

  /** A single JSON-RPC 2.0 response object for the given id. */
  predicate IsResponse(items: seq<Item>, id: IdRef) {
    && |items| == 1 && items[0].Object?
    && var f := items[0].frame;
       (f.Result? || f.Failure?) && f.version == V20 && f.id == id
  }

  predicate ErrorIsDue(s: State) {
    || (s.worker.Storing? && s.worker.found.Some?)
    || (s.err.Some? && s.worker.Exited?)
    || s.main.Limiting? || s.main.Erring?
  }

  /** The buffer of a responder that has accepted a result holds one response, unless an error is about to
      replace it. */
  predicate BufferInv(s: State) {
    && s.resp.Rpc?
    && var r := s.resp.reply;
       && (r.id.None? ==> !r.resultSet)
       && ((s.worker.Invoking? || s.worker.Answering?) && !r.resultSet ==> r.chan.out == [])
       && (r.id.Some? && r.resultSet && !s.main.Finished? ==>
             IsResponse(r.chan.out, r.id) || (r.chan.out == [] && !s.main.Ending? && ErrorIsDue(s)))
  }

  /** Once main has passed its wait, a missing error means that the worker is gone. */
  predicate WaitInv(s: State)
    requires s.resp.Rpc?
  {
    && ((s.main.Judging? || s.main.Grace? || s.main.Closing?) && s.err.None? ==> s.worker.Exited?)
    && (s.main.Ending? && !s.resp.reply.resultSet && s.resp.reply.id.Some? ==> s.worker.Exited?)
  }

  predicate SentInv(s: State)
    requires s.resp.Rpc?
  {
    && var r := s.resp.reply;
       && r.dataSent == s.main.Finished?
       && (!s.main.Finished? || r.id.None? ==> r.raw == [])
       && (s.main.Finished? && r.id.Some? ==> IsResponse(r.raw, r.id) && r.resultSet)
  }

  predicate Inv(call: Call, s: State) {
    BufferInv(s) && s.resp.reply.id == AnswerId(call) && WaitInv(s) && SentInv(s)
  }

  lemma StartInv(call: Call)
    requires call.req.mode == RpcMethod
    ensures Inv(call, Start(call))
  {
  }

  lemma WorkerKeepsInv(cd: Codec, call: Call, s: State)
    requires WellFormed(call, s) && Enabled(s, Work) && Inv(call, s)
    ensures Inv(call, DoWorker(cd, call, s))
    ensures DoWorker(cd, call, s).resp.reply.raw == s.resp.reply.raw
  {
  }

  lemma MainKeepsInv(cd: Codec, call: Call, s: State)
    requires Sane(cd)
    requires WellFormed(call, s) && Enabled(s, Proceed) && Inv(call, s)
    ensures Inv(call, DoMain(cd, call, s))
  {
  }

  lemma {:induction false} RunKeepsInv(cd: Codec, call: Call, s: State, schedule: seq<Actor>)
    requires Sane(cd)
    requires WellFormed(call, s) && Inv(call, s) && Feasible(cd, call, s, schedule)
    ensures var s1 := After(cd, call, s, schedule);
            Inv(call, s1) && (s.main.Finished? ==> s1.main.Finished? && Sent(s1.resp) == Sent(s.resp))
    decreases |schedule|
  {
    if schedule == [] {
    } else {
      var s1 := Do(cd, call, s, schedule[0]);
      if schedule[0].Work? {
        WorkerKeepsInv(cd, call, s);
      } else if schedule[0].Proceed? {
        MainKeepsInv(cd, call, s);
      }
      RunKeepsInv(cd, call, s1, schedule[1..]);
    }
  }

  /** The main safety theorem: nothing is sent before the request is finished; then exactly one response
      with the right id is there, or nothing for a notification; and whatever still runs cannot change it. */
  lemma ExactlyOneResponse(cd: Codec, call: Call, before: seq<Actor>, later: seq<Actor>)
    requires Sane(cd) && call.req.mode == RpcMethod
    requires Feasible(cd, call, Start(call), before)
    requires Feasible(cd, call, After(cd, call, Start(call), before), later)
    ensures var s := After(cd, call, Start(call), before);
            && (!s.main.Finished? ==> Sent(s.resp) == [])
            && (s.main.Finished? && AnswerId(call).None? ==> Sent(s.resp) == [])
            && (s.main.Finished? && AnswerId(call).Some? ==> IsResponse(Sent(s.resp), AnswerId(call)))
            && (s.main.Finished? ==> Sent(After(cd, call, s, later).resp) == Sent(s.resp))
  {
    StartInv(call);
    RunKeepsInv(cd, call, Start(call), before);
    RunKeepsInv(cd, call, After(cd, call, Start(call), before), later);
  }
}
