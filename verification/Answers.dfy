/** Closed forms of what a request served in time sends, as functions of the request, the method's
    outcome and the limit, and of nothing else: in particular not of how the output is cut into writes. */
module Answers {
  import opened Wire
  import opened Channels
  import opened Engine
  import opened Sequential
  import opened ExactlyOne
  import RpcReply
  import LegacyReply

  function LimitOf(t: Target): int {
    Allowance(AsInt64(t.maxResponse))
  }

  /** A copy loop never performs an empty write. */
  predicate CopyLike(o: Outcome) {
    o.Streams? ==> forall p :: p in o.pieces ==> p != []
  }

  lemma {:induction false} ConcatEmpty(ps: seq<seq<byte>>)
    requires forall p :: p in ps ==> p != []
    ensures Concat(ps) == [] <==> ps == []
  {
    if ps == [] {
    } else {
      assert ps[0] in ps;
    }
  }

  // ----- plain RPC -----

  function ErrorItem(e: Error, id: IdRef): seq<Item> {
    [Object(Failure(V20, ErrorObject(e), id))]
  }

  /** The answer to an RPC request. */
  function RpcAnswer(cd: Codec, call: Call): seq<Item> {
    var id := AnswerId(call);
    if id.None? then []
    else if EarlyError(call).Some? then ErrorItem(EarlyError(call).value, id)
    else
      var limit := LimitOf(call.target.value);
      match call.target.value.outcome
      case Fails(e) => ErrorItem(e, id)
      case Returns(v) =>
        if cd.size(Result(V20, v, id)) <= limit then [Object(Result(V20, v, id))] else ErrorItem(LIMIT_EXCEED, id)
      case Streams(pieces, end) =>
        var p := Concat(pieces);
        if |p| > limit then ErrorItem(LIMIT_EXCEED, id)
        else if end.Some? then ErrorItem(end.value, id)
        else [Object(Result(V20, Content(p), id))]
  }

  lemma {:induction false} CopyToRpc(cd: Codec, s: RpcReply.Reply, ps: seq<seq<byte>>)
    requires !s.resultSet
    ensures var (c, e) := LegacyReply.WriteAll(s.chan, ps);
            CopyAll(cd, Rpc(s), ps) == (Rpc(s.(chan := c)), e)
    decreases |ps|
  {
    if ps == [] {
    } else {
      var (c, _, e) := PutBytes(s.chan, ps[0]);
      if e.None? {
        CopyToRpc(cd, s.(chan := c), ps[1..]);
      }
    }
  }

  /** What closing sends once the worker has left `s` with the error `err`. */
  lemma CloseRpc(cd: Codec, s: RpcReply.Reply, version: Version, err: Option<Error>)
    requires Sane(cd) && !s.dataSent && s.raw == [] && (s.id.None? ==> !s.resultSet)
    ensures Sent(CloseWith(cd, Rpc(s), version, err))
         == if s.id.None? then []
            else if err.Some? then ErrorItem(err.value, s.id)
            else if s.resultSet then s.chan.out
            else [Object(Result(V20, Content(RawBytes(s.chan.out)), s.id))]
  {
  }

  lemma InvokeRpc(cd: Codec, s: RpcReply.Reply, o: Outcome)
    requires CopyLike(o) && s.chan.allowance > 0
    requires !s.dataSent && !s.resultSet && s.chan.out == [] && s.chan.failed.None?
    ensures var (r, e) := Invoke(cd, Rpc(s), o);
            && r.Rpc? && var t := r.reply;
            && !t.dataSent && t.raw == s.raw && t.id == s.id && (t.id.None? ==> !t.resultSet)
            && match o
               case Fails(err) => e == Some(err)
               case Returns(v) =>
                 s.id.Some? ==>
                   if cd.size(Result(V20, v, s.id)) <= s.chan.allowance then
                     e.None? && t.resultSet && t.chan.out == [Object(Result(V20, v, s.id))]
                   else e == Some(LIMIT_EXCEED)
               case Streams(pieces, end) =>
                 && !t.resultSet
                 && if |Concat(pieces)| <= s.chan.allowance then e == end && RawBytes(t.chan.out) == Concat(pieces)
                    else e == Some(LIMIT_EXCEED)
  {
    if o.Streams? {
      CopyToRpc(cd, s, o.pieces);
      LegacyReply.PassesThrough(s.chan, o.pieces);
      assert o.pieces[..|o.pieces|] == o.pieces;
      RawBytesAppend([], Concat(o.pieces));
    }
  }

  lemma ServeRpc(cd: Codec, call: Call)
    requires Sane(cd) && call.req.mode == RpcMethod
    requires call.target.Some? ==> CopyLike(call.target.value.outcome)
    ensures Sent(Serve(cd, call)) == RpcAnswer(cd, call)
  {
    var s := Start(call).resp.reply;
    if EarlyError(call).Some? {
      CloseRpc(cd, s, call.req.version, EarlyError(call));
    } else {
      var o := call.target.value.outcome;
      InvokeRpc(cd, s, o);
      var (r, e) := Invoke(cd, Rpc(s), o);
      CloseRpc(cd, r.reply, call.req.version, e);
    }
  }

  /** The whole RPC path refines `RpcAnswer` in every interleaving in time: without expiry, or with an
      expiry that neither ends the wait nor comes before the method has returned. */
  lemma RpcRefinesAnswer(cd: Codec, call: Call, schedule: seq<Actor>)
    requires Sane(cd) && call.req.mode == RpcMethod
    requires call.target.Some? ==> CopyLike(call.target.value.outcome)
    requires Feasible(cd, call, Start(call), schedule)
    ensures var s := After(cd, call, Start(call), schedule);
            (!s.expired || InTime(call, schedule)) && s.main.Finished? ==> Sent(s.resp) == RpcAnswer(cd, call)
  {
    InTimeRunIsSequential(cd, call, schedule);
    ServeRpc(cd, call);
  }
}
