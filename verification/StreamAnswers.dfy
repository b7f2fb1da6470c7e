/** The closed form of a streamed request served in time. */
module StreamAnswers {
  import opened Wire
  import opened Channels
  import opened Framing
  import opened Engine
  import opened Sequential
  import opened ExactlyOne
  import opened LineMode
  import opened Answers
  import Streaming

  /** Requests answered by the streaming responder, upgraded or not. */
  predicate IsStreamed(req: Request) {
    req.mode.StreamMethod? || (req.mode.LegacyMethod? && req.version.V20Stream?)
  }

  function ErrorFrame(e: Error, id: IdRef): Frame {
    Failure(V20Stream, ErrorObject(e), id)
  }

  /** The header and the lines of an output `p`. */
  function LineFrames(p: seq<byte>, id: IdRef): seq<Frame> {
    (if p == [] then [] else [HeaderFrame(id)]) + DataFrames(Lines(p), Text, id)
  }

  /** The leading frames that fit the limit. */
  function Fitting(cd: Codec, limit: int, fs: seq<Frame>): seq<Frame> {
    fs[..FittingPrefix(cd, limit, fs)]
  }

  function StreamAnswer(cd: Codec, call: Call): seq<Frame> {
    var id := AnswerId(call);
    if EarlyError(call).Some? then [ErrorFrame(EarlyError(call).value, id)]
    else
      var limit := LimitOf(call.target.value);
      match call.target.value.outcome
      case Fails(e) => [ErrorFrame(e, id)]
      case Returns(v) => ReturnedOutput(cd, limit, id, v)
      case Streams(pieces, end) => StreamedOutput(cd, limit, id, Concat(pieces), end)
  }

  /** A plain result, or the limit error in its place. */
  function ReturnedOutput(cd: Codec, limit: int, id: IdRef, v: Value): seq<Frame> {
    var f := Result(V20Stream, v, id);
    if cd.size(f) > limit then [ErrorFrame(LIMIT_EXCEED, id)] else Fitting(cd, limit, [f, DoneFrame(id)])
  }

  /** Only the bytes count, not the pieces they came in. */
  function StreamedOutput(cd: Codec, limit: int, id: IdRef, p: seq<byte>, end: Option<Error>): seq<Frame> {
    var fs := LineFrames(p, id);
    if Sizes(cd, fs) > limit then Fitting(cd, limit, fs) + [ErrorFrame(LIMIT_EXCEED, id)]
    else if end.Some? then fs + TailFrames(p, id) + [ErrorFrame(end.value, id)]
    else Fitting(cd, limit, fs + TailFrames(p, id) + [DoneFrame(id)])
  }

  // ----- proof -----

  lemma ObjectsAppend(fs: seq<Frame>, gs: seq<Frame>)
    ensures Objects(fs + gs) == Objects(fs) + Objects(gs)
  {
  }

  lemma WriteIsWhole(cd: Codec, s: Streaming.Stream, p: seq<byte>)
    requires s.chunkSize <= 0
    ensures var (_, n, e) := Streaming.Write(cd, s, p); e.None? ==> n == |p|
  {
    if !s.closed {
      WritePiecesIsFeed(cd, Streaming.Begin(cd, s).0, p);
    }
  }

  lemma {:induction false} CopyToLine(cd: Codec, s: Streaming.Stream, ps: seq<seq<byte>>)
    requires s.chunkSize <= 0
    ensures var (s1, e) := Streaming.WriteAll(cd, s, ps);
            s1.chunkSize <= 0 && CopyAll(cd, Line(s), ps) == (Line(s1), e)
    decreases |ps|
  {
    if ps == [] {
    } else {
      WriteIsWhole(cd, s, ps[0]);
      var (s1, _, e) := Streaming.Write(cd, s, ps[0]);
      if e.None? {
        CopyToLine(cd, s1, ps[1..]);
      }
    }
  }

  /** However a stream was left open, closing it with an error flushes the buffer and sends that error once:
      an encoder stuck on the limit does not get in the way. */
  lemma CloseAfterError(cd: Codec, s: Streaming.Stream, version: Version, e: Error)
    requires Sane(cd) && s.chunkSize <= 0 && !s.closed
    ensures Sent(CloseWith(cd, Line(s), version, Some(e)))
         == s.chan.out + Objects(BufferFrames(s) + [ErrorFrame(e, s.id)])
  {
    assert Objects([ErrorFrame(e, s.id)]) == [Object(ErrorFrame(e, s.id))];
    ObjectsAppend(BufferFrames(s), [ErrorFrame(e, s.id)]);
    if s.buffer == [] {
      assert s.chan.out + [] == s.chan.out;
    } else {
      assert Objects(BufferFrames(s)) == [Object(Streaming.BufferFrame(s))];
    }
  }

  lemma CloseAfterSuccess(cd: Codec, s: Streaming.Stream, version: Version)
    requires s.chunkSize <= 0 && !s.closed
    ensures Sent(CloseWith(cd, Line(s), version, None))
         == SendAll(cd, s.chan, BufferFrames(s) + [DoneFrame(s.id)]).0.out
  {
    CloseSendsTail(cd, s);
  }

  /** The copy sends what fits of the lines, and buffers the tail if all fit. */
  lemma CopyStreams(cd: Codec, s: Streaming.Stream, ps: seq<seq<byte>>)
    requires Sane(cd) && Fresh(s) && s.chan.out == [] && s.chan.failed.None? && s.chan.allowance >= 0
    requires forall p :: p in ps ==> p != []
    ensures var fs := LineFrames(Concat(ps), s.id);
            var (s1, e) := Streaming.WriteAll(cd, s, ps);
            && CopyAll(cd, Line(s), ps) == (Line(s1), e)
            && s1.chunkSize <= 0 && !s1.closed && s1.id == s.id
            && s1.chan.out == Objects(Fitting(cd, s.chan.allowance, fs))
            && (s1.chan, e) == SendAll(cd, s.chan, fs)
            && (if Sizes(cd, fs) > s.chan.allowance then e == Some(LIMIT_EXCEED) && s1.buffer == []
                else e.None? && BufferFrames(s1) == TailFrames(Concat(ps), s.id) && s1.chan.out == Objects(fs))
  {
    var fs := LineFrames(Concat(ps), s.id);
    CopyToLine(cd, s, ps);
    WriteAllMeaning(cd, s, ps);
    ConcatEmpty(ps);
    assert fs == HeaderFrames(ps, s.id) + DataFrames(Lines(Concat(ps)), Text, s.id);
    SendAllMeaning(cd, s.chan, fs);
    assert fs[..|fs|] == fs;
  }

  lemma ServeStreams(cd: Codec, s: Streaming.Stream, version: Version, ps: seq<seq<byte>>, end: Option<Error>)
    requires Sane(cd) && Fresh(s) && s.chan.out == [] && s.chan.failed.None? && s.chan.allowance > 0
    requires forall p :: p in ps ==> p != []
    ensures var (r, e) := Invoke(cd, Line(s), Streams(ps, end));
            Sent(CloseWith(cd, r, version, e)) == Objects(StreamedOutput(cd, s.chan.allowance, s.id, Concat(ps), end))
  {
    var p, id, limit := Concat(ps), s.id, s.chan.allowance;
    var fs := LineFrames(p, id);
    var (s1, e) := Streaming.WriteAll(cd, s, ps);
    CopyStreams(cd, s, ps);
    if e.Some? {
      CloseAfterError(cd, s1, version, e.value);
      ObjectsAppend(Fitting(cd, limit, fs), BufferFrames(s1) + [ErrorFrame(e.value, id)]);
      assert BufferFrames(s1) + [ErrorFrame(e.value, id)] == [ErrorFrame(e.value, id)];
    } else if end.Some? {
      CloseAfterError(cd, s1, version, end.value);
      ObjectsAppend(fs, TailFrames(p, id) + [ErrorFrame(end.value, id)]);
      Assoc(fs, TailFrames(p, id), [ErrorFrame(end.value, id)]);
    } else {
      CloseAfterSuccess(cd, s1, version);
      Assoc(fs, TailFrames(p, id), [DoneFrame(id)]);
      SendTogether(cd, s.chan, fs, TailFrames(p, id) + [DoneFrame(id)]);
    }
  }

  lemma SendTogether(cd: Codec, c: Channel, fs: seq<Frame>, gs: seq<Frame>)
    requires Sane(cd) && c.failed.None? && c.allowance >= 0 && c.out == []
    requires SendAll(cd, c, fs).1.None?
    ensures SendAll(cd, SendAll(cd, c, fs).0, gs).0.out == Objects(Fitting(cd, c.allowance, fs + gs))
  {
    SendAllAppend(cd, c, fs, gs);
    SendAllMeaning(cd, c, fs + gs);
  }

  lemma ServeReturns(cd: Codec, s: Streaming.Stream, version: Version, v: Value)
    requires Sane(cd) && Fresh(s) && s.chan.out == [] && s.chan.failed.None? && s.chan.allowance > 0
    ensures var (r, e) := Invoke(cd, Line(s), Returns(v));
            Sent(CloseWith(cd, r, version, e)) == Objects(ReturnedOutput(cd, s.chan.allowance, s.id, v))
  {
    var f, done := Result(V20Stream, v, s.id), DoneFrame(s.id);
    var (s1, e) := Streaming.SetResult(cd, s, v);
    if e.Some? {
      CloseAfterError(cd, s1, version, e.value);
      assert BufferFrames(s1) + [ErrorFrame(e.value, s.id)] == [ErrorFrame(LIMIT_EXCEED, s.id)];
    } else {
      CloseAfterSuccess(cd, s1, version);
      SendOne(cd, s.chan, f);
      assert BufferFrames(s1) + [done] == [done] && [f] + [done] == [f, done];
      SendTogether(cd, s.chan, [f], [done]);
    }
  }

  lemma ServeFails(cd: Codec, s: Streaming.Stream, version: Version, e: Error)
    requires Sane(cd) && Fresh(s) && s.chan.out == []
    ensures Sent(CloseWith(cd, Line(s), version, Some(e))) == Objects([ErrorFrame(e, s.id)])
    ensures Sent(CloseWith(cd, SetError(cd, Line(s), e), version, Some(e))) == Objects([ErrorFrame(e, s.id)])
  {
    CloseAfterError(cd, s, version, e);
    assert BufferFrames(s) + [ErrorFrame(e, s.id)] == [ErrorFrame(e, s.id)];
  }

  lemma ServeStream(cd: Codec, call: Call)
    requires Sane(cd) && IsStreamed(call.req)
    requires call.target.Some? ==> CopyLike(call.target.value.outcome)
    ensures Sent(Serve(cd, call)) == Objects(StreamAnswer(cd, call))
  {
    var version := call.req.version;
    var r := Upgrade(Start(call).resp, version);
    if EarlyError(call).Some? {
      ServeFails(cd, r.stream, version, EarlyError(call).value);
    } else {
      match call.target.value.outcome
      case Fails(e) => ServeFails(cd, r.stream, version, e);
      case Returns(v) => ServeReturns(cd, r.stream, version, v);
      case Streams(pieces, end) => ServeStreams(cd, r.stream, version, pieces, end);
    }
  }

  /** Every interleaving in time of a streamed request sends exactly the frames of its closed form. */
  lemma StreamRefinesAnswer(cd: Codec, call: Call, schedule: seq<Actor>)
    requires Sane(cd) && IsStreamed(call.req)
    requires call.target.Some? ==> CopyLike(call.target.value.outcome)
    requires Feasible(cd, call, Start(call), schedule)
    ensures var s := After(cd, call, Start(call), schedule);
            (!s.expired || InTime(call, schedule)) && s.main.Finished? ==>
              Sent(s.resp) == Objects(StreamAnswer(cd, call))
  {
    InTimeRunIsSequential(cd, call, schedule);
    ServeStream(cd, call);
  }
}
