/** Streamed requests whose context expires: how far the output gets, and how the stream ends. */
module CutStreams {
  import opened Wire
  import opened Channels
  import opened Framing
  import opened Engine
  import opened Sequential
  import opened Answers
  import opened LineMode
  import opened StreamAnswers
  import opened Agreement
  import Overtaken
  import T = Terminals
  import Streaming

  // ----- one write -----

  /** An open stream that has sent the lines of `q` and buffers its tail. */
  predicate Flowing(t: Streaming.Stream, q: seq<byte>) {
    && !t.closed && t.chunkSize <= 0 && t.chan.failed.None? && t.chan.allowance >= 0
    && t.chan.out == Objects(LineFrames(q, t.id)) && t.buffer == Tail(q) && (t.firstWrite <==> q == [])
  }

  /** An open stream with nothing buffered whose encoder has failed within the lines of `p`. */
  ghost predicate Stalled(t: Streaming.Stream, p: seq<byte>) {
    && !t.closed && t.chunkSize <= 0 && t.chan.failed.Some? && t.chan.allowance >= 0 && t.buffer == []
    && exists fs :: fs <= LineFrames(p, t.id) && t.chan.out == Objects(fs)
  }

  lemma LineFramesAppend(q: seq<byte>, w: seq<byte>, id: IdRef)
    ensures q != [] ==> LineFrames(q + w, id) == LineFrames(q, id) + DataFrames(Lines(Tail(q) + w), Text, id)
    ensures LineFrames(q, id) <= LineFrames(q + w, id)
  {
    if q != [] {
      LinesAppend(q, w);
      DataFramesAppend(Lines(q), Lines(Tail(q) + w), Text, id);
      Assoc([HeaderFrame(id)], DataFrames(Lines(q), Text, id), DataFrames(Lines(Tail(q) + w), Text, id));
    }
  }

  /** What a write adds to the channel and to the buffer. */
  ghost predicate Sends(cd: Codec, t: Streaming.Stream, q: seq<byte>, w: seq<byte>, more: seq<Frame>)
    requires t.chunkSize <= 0
  {
    var (t1, n, e) := Streaming.Write(cd, t, w);
    && LineFrames(q + w, t.id) == LineFrames(q, t.id) + more
    && (t1.chan, e) == SendAll(cd, t.chan, more) && (e.None? ==> n == |w|)
    && t1 == t.(chan := t1.chan, firstWrite := false, buffer := if e.None? then Tail(q + w) else [])
  }

  lemma FirstWriteSends(cd: Codec, t: Streaming.Stream, w: seq<byte>)
    requires Flowing(t, []) && w != []
    ensures Sends(cd, t, [], w, LineFrames(w, t.id))
  {
    WriteIsWhole(cd, t, w);
    assert [] + w == w && Concat([w]) == w by { assert [w][1..] == []; }
    WriteAllMeaning(cd, t, [w]);
    assert Streaming.WriteAll(cd, t, [w]).0 == Streaming.Write(cd, t, w).0;
    assert [] + LineFrames(w, t.id) == LineFrames(w, t.id);
  }

  lemma LaterWriteSends(cd: Codec, t: Streaming.Stream, q: seq<byte>, w: seq<byte>)
    requires Flowing(t, q) && q != []
    ensures Sends(cd, t, q, w, DataFrames(Lines(Tail(q) + w), Text, t.id))
  {
    LineFramesAppend(q, w, t.id);
    LinesAppend(q, w);
    LinesHoldNoNewline(q);
    WritePiecesIsFeed(cd, t, w);
    FeedSendsLines(cd, t, w);
  }

  lemma WriteSends(cd: Codec, t: Streaming.Stream, q: seq<byte>, w: seq<byte>) returns (more: seq<Frame>)
    requires Flowing(t, q) && w != []
    ensures Sends(cd, t, q, w, more)
  {
    if q == [] {
      more := LineFrames(w, t.id);
      FirstWriteSends(cd, t, w);
    } else {
      more := DataFrames(Lines(Tail(q) + w), Text, t.id);
      LaterWriteSends(cd, t, q, w);
    }
  }

  /** A write that succeeds lets the stream flow on; one that fails stalls it. */
  lemma WriteFlows(cd: Codec, t: Streaming.Stream, q: seq<byte>, w: seq<byte>)
    requires Sane(cd) && Flowing(t, q) && w != []
    ensures var (t1, n, e) := Streaming.Write(cd, t, w);
            && t1.id == t.id
            && (if e.Some? then Stalled(t1, q + w)
                else n == |w| && Flowing(t1, q + w)
                     && t1.chan.allowance + Sizes(cd, LineFrames(q + w, t.id))
                        == t.chan.allowance + Sizes(cd, LineFrames(q, t.id)))
  {
    var more := WriteSends(cd, t, q, w);
    var first, e := LineFrames(q, t.id), SendAll(cd, t.chan, more).1;
    SendAllMeaning(cd, t.chan, more);
    SizesAppend(cd, first, more);
    var k := FittingPrefix(cd, t.chan.allowance, more);
    if e.None? {
      assert more[..k] == more;
      ObjectsAppend(first, more);
    } else {
      LeadingObjects(first, more, k);
    }
  }

  lemma LeadingObjects(first: seq<Frame>, more: seq<Frame>, k: nat)
    requires k <= |more|
    ensures Objects(first) + Objects(more[..k]) == Objects(first + more[..k])
    ensures first + more[..k] <= first + more
  {
    ObjectsAppend(first, more[..k]);
  }

  // ----- what may have been sent -----

  /** Frames that can precede the timeout error: leading lines of the output, with the rest of the last one begun
      or not; or a plain result. */
  ghost predicate PartOf(call: Call, fs: seq<Frame>)
    requires call.target.Some?
  {
    var id := call.req.id;
    match call.target.value.outcome
    case Fails(_) => fs == []
    case Returns(v) => fs == [] || fs == [Result(V20Stream, v, id)]
    case Streams(pieces, _) =>
      || fs <= LineFrames(Concat(pieces), id)
      || exists q :: q <= Concat(pieces) && fs == LineFrames(q, id) + TailFrames(q, id)
  }

  /** No part of the output is longer than the largest limit. */
  ghost predicate Roomy(cd: Codec, call: Call) {
    call.target.Some? ==> forall fs :: PartOf(call, fs) ==> Sizes(cd, fs) <= MAX_INT64
  }

  /** Once main has lifted the limit, only what is sent since counts. */
  predicate Room(cd: Codec, s: State, t: Streaming.Stream, fs: seq<Frame>) {
    s.main.Erring? && t.chan.failed.None? ==> t.chan.allowance + Sizes(cd, fs) >= MAX_INT64
  }

  ghost predicate FlowsOn(cd: Codec, call: Call, s: State, t: Streaming.Stream, q: seq<byte>)
    requires call.target.Some? && s.worker.Copying?
  {
    && call.target.value.outcome.Streams?
    && q + Concat(s.worker.left) == Concat(call.target.value.outcome.pieces)
    && (forall w :: w in s.worker.left ==> w != [])
    && Flowing(t, q) && Room(cd, s, t, LineFrames(q, t.id))
  }

  /** An open stream that has sent `fs`; with what it buffers, that is a part of the output. */
  ghost predicate Rests(cd: Codec, call: Call, s: State, t: Streaming.Stream, fs: seq<Frame>)
    requires call.target.Some?
  {
    && !t.closed && t.chan.allowance >= 0 && (t.chan.failed.Some? ==> t.buffer == [])
    && t.chan.out == Objects(fs) && PartOf(call, fs + BufferFrames(t)) && Room(cd, s, t, fs)
  }

  /** Closed by the worker with the error of the method. */
  predicate FailedByWorker(call: Call, s: State, t: Streaming.Stream)
    requires call.target.Some?
  {
    && t.closed && t.buffer == [] && s.worker.Exited? && call.target.value.outcome.Fails?
    && t.chan.out == Objects([ErrorFrame(call.target.value.outcome.error, t.id)])
  }

  /** As long as main has not reported an error. */
  ghost predicate Unreported(cd: Codec, call: Call, s: State)
    requires WellFormed(call, s)
  {
    && !s.main.Ending? && !s.main.Finished? && EarlyError(call).None? && Overtaken.Faithful(call, s)
    && CopyLike(call.target.value.outcome) && s.resp.Line? && s.resp.stream.id == call.req.id
    && var t := s.resp.stream;
       match s.worker
       case Copying(_) => exists q :: FlowsOn(cd, call, s, t, q)
       case Storing(_) => exists fs :: Rests(cd, call, s, t, fs)
       case Exited => FailedByWorker(call, s, t) || exists fs :: Rests(cd, call, s, t, fs)
       case _ => Flowing(t, []) && Room(cd, s, t, [])
  }

  lemma StartUnreported(cd: Codec, call: Call)
    requires IsStreamed(call.req) && EarlyError(call).None? && CopyLike(call.target.value.outcome)
    ensures Unreported(cd, call, Start(call))
  {
  }

  // ----- steps -----

  lemma PartialOutput(call: Call, q: seq<byte>, more: seq<byte>)
    requires call.target.Some? && call.target.value.outcome.Streams?
    requires q + more == Concat(call.target.value.outcome.pieces)
    ensures PartOf(call, LineFrames(q, call.req.id) + TailFrames(q, call.req.id))
    ensures forall fs :: fs <= LineFrames(q, call.req.id) ==> PartOf(call, fs)
  {
    LineFramesAppend(q, more, call.req.id);
    assert q <= q + more;
  }

  /** Whatever the worker is doing, an open stream has sent a part. */
  lemma OpenRests(cd: Codec, call: Call, s: State) returns (fs: seq<Frame>)
    requires WellFormed(call, s) && Unreported(cd, call, s) && !s.resp.stream.closed
    ensures Rests(cd, call, s, s.resp.stream, fs)
  {
    var t := s.resp.stream;
    match s.worker
    case Copying(left) =>
      var q :| FlowsOn(cd, call, s, t, q);
      fs := LineFrames(q, t.id);
      PartialOutput(call, q, Concat(left));
    case Storing(_) => fs :| Rests(cd, call, s, t, fs);
    case Exited => fs :| Rests(cd, call, s, t, fs);
    case _ =>
      fs := [];
      assert fs + BufferFrames(t) == [];
  }

  lemma CopyStep(cd: Codec, call: Call, s: State)
    requires Sane(cd) && WellFormed(call, s) && Unreported(cd, call, s) && s.worker.Copying?
    ensures Unreported(cd, call, DoWorker(cd, call, s))
  {
    var t, left := s.resp.stream, s.worker.left;
    var q :| FlowsOn(cd, call, s, t, q);
    var s1 := DoWorker(cd, call, s);
    if left == [] {
      PartialOutput(call, q, []);
      assert Rests(cd, call, s1, t, LineFrames(q, t.id));
    } else {
      var w, rest := left[0], left[1..];
      assert w in left;
      WriteFlows(cd, t, q, w);
      var (t1, n, e) := Streaming.Write(cd, t, w);
      Assoc(q, w, Concat(rest));
      if e.None? {
        assert forall x :: x in rest ==> x in left;
        assert FlowsOn(cd, call, s1, t1, q + w);
      } else {
        PartialOutput(call, q + w, Concat(rest));
        var fs :| fs <= LineFrames(q + w, t.id) && t1.chan.out == Objects(fs);
        assert fs + BufferFrames(t1) == fs;
        assert Rests(cd, call, s1, t1, fs);
      }
    }
  }

  lemma AnswerStep(cd: Codec, call: Call, s: State)
    requires Sane(cd) && WellFormed(call, s) && Unreported(cd, call, s) && s.worker.Answering?
    ensures Unreported(cd, call, DoWorker(cd, call, s))
  {
    var t, s1, f := s.resp.stream, DoWorker(cd, call, s), Result(V20Stream, s.worker.v, call.req.id);
    var t1 := s1.resp.stream;
    assert t.chan.out == [] && t.buffer == [];
    if t1.chan.failed.Some? {
      assert [] + BufferFrames(t1) == [];
      assert Rests(cd, call, s1, t1, []);
    } else {
      assert [f] + BufferFrames(t1) == [f] && [f][1..] == [];
      assert Sizes(cd, [f]) == cd.size(f) + Sizes(cd, []);
      assert Rests(cd, call, s1, t1, [f]);
    }
  }

  lemma WorkerKeepsUnreported(cd: Codec, call: Call, s: State)
    requires Sane(cd) && WellFormed(call, s) && Unreported(cd, call, s) && Enabled(s, Work)
    ensures Unreported(cd, call, DoWorker(cd, call, s))
  {
    var t, s1 := s.resp.stream, DoWorker(cd, call, s);
    match s.worker
    case Invoking =>
      if s.expired {
        assert [] + BufferFrames(t) == [];
        assert Rests(cd, call, s1, t, []);
      } else if s1.worker.Copying? {
        assert [] + Concat(s1.worker.left) == Concat(s1.worker.left);
        assert FlowsOn(cd, call, s1, t, []);
      }
    case Failing(_) =>
    case Reporting(e) =>
      assert t.chan.out == [] && [] + [Object(ErrorFrame(e, t.id))] == Objects([ErrorFrame(e, t.id)]);
    case Answering(_) => AnswerStep(cd, call, s);
    case Copying(_) => CopyStep(cd, call, s);
    case Storing(_) =>
      var fs :| Rests(cd, call, s, t, fs);
      assert Rests(cd, call, s1, t, fs);
  }

  /** A step that leaves the worker alone and at most lifts the limit. */
  lemma OthersKeepUnreported(cd: Codec, call: Call, s: State, s1: State)
    requires WellFormed(call, s) && WellFormed(call, s1) && Unreported(cd, call, s)
    requires s1.worker == s.worker && s1.resp.Line? && !s1.main.Ending? && !s1.main.Finished?
    requires var (t, t1) := (s.resp.stream, s1.resp.stream);
             t1 == t.(chan := Relimit(t.chan, 0)) || (t1 == t && (s1.main.Erring? ==> s.main.Erring?))
    ensures Unreported(cd, call, s1)
  {
    var t, t1 := s.resp.stream, s1.resp.stream;
    if s.worker.Copying? {
      var q :| FlowsOn(cd, call, s, t, q);
      assert FlowsOn(cd, call, s1, t1, q);
    } else if s.worker.Storing? || (s.worker.Exited? && !FailedByWorker(call, s, t)) {
      var fs :| Rests(cd, call, s, t, fs);
      assert BufferFrames(t1) == BufferFrames(t);
      assert Rests(cd, call, s1, t1, fs);
    }
  }

  lemma StepKeepsUnreported(cd: Codec, call: Call, s: State, a: Actor)
    requires Sane(cd) && WellFormed(call, s) && Unreported(cd, call, s) && Enabled(s, a)
    requires a.Proceed? ==> !s.main.Erring? && !(s.main.Closing? && s.err.None?)
    ensures Unreported(cd, call, Do(cd, call, s, a))
  {
    if a.Work? {
      WorkerKeepsUnreported(cd, call, s);
    } else {
      OthersKeepUnreported(cd, call, s, Do(cd, call, s, a));
    }
  }

  // ----- the report and after -----

  /** A part of the output followed by the timeout error. */
  ghost predicate CutByTimeout(call: Call, items: seq<Item>)
    requires call.target.Some?
  {
    exists fs :: PartOf(call, fs) && items == Objects(fs + [ErrorFrame(TIMEOUT, call.req.id)])
  }

  /** The closed stream shows the answer of the method, or a part of its output and the timeout error. */
  ghost predicate Reported(cd: Codec, call: Call, s: State)
    requires call.target.Some?
  {
    && (s.main.Ending? || s.main.Finished?) && s.resp.Line?
    && var t := s.resp.stream;
       && t.closed && t.buffer == []
       && (t.chan.out == Objects(StreamAnswer(cd, call)) || CutByTimeout(call, t.chan.out))
  }

  /** An error is sent behind what is still buffered. */
  lemma ErrorFlushes(cd: Codec, t: Streaming.Stream, fs: seq<Frame>, e: Error)
    requires Sane(cd) && !t.closed && t.chan.out == Objects(fs)
    requires t.buffer != [] ==> t.chan.failed.None? && cd.size(Streaming.BufferFrame(t)) <= t.chan.allowance
    ensures var t1 := Streaming.SetError(cd, t, e).0;
            && t1.closed && t1.buffer == []
            && t1.chan.out == Objects(fs + BufferFrames(t) + [ErrorFrame(e, t.id)])
  {
    var bs, es := BufferFrames(t), [ErrorFrame(e, t.id)];
    ObjectsAppend(fs, bs);
    ObjectsAppend(fs + bs, es);
    assert Objects(es) == [Object(es[0])];
    if t.buffer == [] {
      assert fs + bs == fs;
    } else {
      assert Objects(bs) == [Object(bs[0])];
    }
  }

  lemma BufferFits(cd: Codec, call: Call, s: State, t: Streaming.Stream, fs: seq<Frame>)
    requires Roomy(cd, call) && call.target.Some? && Rests(cd, call, s, t, fs) && s.main.Erring?
    ensures t.buffer != [] ==> t.chan.failed.None? && cd.size(Streaming.BufferFrame(t)) <= t.chan.allowance
  {
    if t.buffer != [] {
      var b := Streaming.BufferFrame(t);
      SizesAppend(cd, fs, [b]);
      assert Sizes(cd, [b]) == cd.size(b) + Sizes(cd, []) by { assert [b][1..] == []; }
    }
  }

  /** Main reports the timeout, or the error of the method. */
  lemma ReportEnds(cd: Codec, call: Call, s: State)
    requires Sane(cd) && Roomy(cd, call) && IsStreamed(call.req)
    requires WellFormed(call, s) && Unreported(cd, call, s) && s.main.Erring?
    requires s.main.e == TIMEOUT || call.target.value.outcome == Fails(s.main.e)
    ensures Reported(cd, call, DoMain(cd, call, s))
  {
    var t := s.resp.stream;
    if t.closed {
      assert t.chan.out == Objects(StreamAnswer(cd, call));
    } else {
      var fs := OpenRests(cd, call, s);
      BufferFits(cd, call, s, t, fs);
      ErrorFlushes(cd, t, fs, s.main.e);
      if call.target.value.outcome.Fails? {
        assert fs + BufferFrames(t) == [] && [] + [ErrorFrame(s.main.e, t.id)] == [ErrorFrame(s.main.e, t.id)];
      }
    }
  }

  lemma StepKeepsReported(cd: Codec, call: Call, s: State, a: Actor)
    requires WellFormed(call, s) && Enabled(s, a) && call.target.Some? && Reported(cd, call, s)
    ensures Reported(cd, call, Do(cd, call, s, a))
  {
  }

  lemma {:induction false} ReportedEnds(cd: Codec, call: Call, s: State, schedule: seq<Actor>)
    requires WellFormed(call, s) && call.target.Some? && Reported(cd, call, s) && Feasible(cd, call, s, schedule)
    ensures Reported(cd, call, After(cd, call, s, schedule))
    decreases |schedule|
  {
    if schedule == [] {
    } else {
      StepKeepsReported(cd, call, s, schedule[0]);
      ReportedEnds(cd, call, Do(cd, call, s, schedule[0]), schedule[1..]);
    }
  }

  /** Main is about to report the timeout or the error of the method. */
  ghost predicate Reporting(cd: Codec, call: Call, s: State)
    requires WellFormed(call, s)
  {
    && Unreported(cd, call, s) && (s.main.Limiting? || s.main.Erring?)
    && (s.main.e == TIMEOUT || call.target.value.outcome == Fails(s.main.e))
  }

  lemma {:induction false} ReportingEnds(cd: Codec, call: Call, s: State, schedule: seq<Actor>)
    requires Sane(cd) && Roomy(cd, call) && IsStreamed(call.req)
    requires WellFormed(call, s) && Reporting(cd, call, s) && Feasible(cd, call, s, schedule)
    ensures var s1 := After(cd, call, s, schedule);
            s1.main.Finished? ==> Reported(cd, call, s1)
    decreases |schedule|
  {
    if schedule == [] {
    } else {
      var a := schedule[0];
      var s1 := Do(cd, call, s, a);
      if a.Proceed? && s.main.Erring? {
        ReportEnds(cd, call, s);
        ReportedEnds(cd, call, s1, schedule[1..]);
      } else {
        StepKeepsUnreported(cd, call, s, a);
        ReportingEnds(cd, call, s1, schedule[1..]);
      }
    }
  }

  lemma ReadEnds(cd: Codec, call: Call, s: State, rest: seq<Actor>)
    requires Sane(cd) && Roomy(cd, call) && IsStreamed(call.req)
    requires WellFormed(call, s) && Overtaken.Undisturbed(cd, call, s) && Unreported(cd, call, s)
    requires s.main.Closing? && Feasible(cd, call, Do(cd, call, s, Proceed), rest)
    ensures var s1 := After(cd, call, Do(cd, call, s, Proceed), rest);
            s1.main.Finished? ==> s1.resp == Serve(cd, call) || Reported(cd, call, s1)
  {
    var s1 := Do(cd, call, s, Proceed);
    Overtaken.ReadError(cd, call, s);
    if Overtaken.Settled(cd, call, s1) {
      Overtaken.SettledEnds(cd, call, s1, rest);
    } else {
      StepKeepsUnreported(cd, call, s, Proceed);
      ReportingEnds(cd, call, s1, rest);
    }
  }

  lemma {:induction false} UnreadEnds(cd: Codec, call: Call, s: State, schedule: seq<Actor>)
    requires Sane(cd) && Roomy(cd, call) && IsStreamed(call.req)
    requires WellFormed(call, s) && Overtaken.Undisturbed(cd, call, s) && Unreported(cd, call, s)
    requires Feasible(cd, call, s, schedule) && (s.worker.Invoking? ==> !ExpiresFirst(schedule))
    ensures var s1 := After(cd, call, s, schedule);
            s1.main.Finished? ==> s1.resp == Serve(cd, call) || Reported(cd, call, s1)
    decreases |schedule|
  {
    if schedule == [] {
    } else {
      var a := schedule[0];
      var s1 := Do(cd, call, s, a);
      if s.main.Closing? && a.Proceed? {
        ReadEnds(cd, call, s, schedule[1..]);
      } else {
        StepKeepsUnreported(cd, call, s, a);
        Overtaken.StepKeepsUndisturbed(cd, call, s, a);
        UnreadEnds(cd, call, s1, schedule[1..]);
      }
    }
  }

  /** The stream of a method that returns too late: the timeout error, or the footer if the limit admits it. */
  function LateOutput(cd: Codec, call: Call, timedOut: bool): seq<Frame>
    requires call.target.Some?
  {
    if timedOut then [ErrorFrame(TIMEOUT, call.req.id)]
    else Fitting(cd, LimitOf(call.target.value), [DoneFrame(call.req.id)])
  }

  lemma LateStream(cd: Codec, call: Call, schedule: seq<Actor>)
    requires Sane(cd) && IsStreamed(call.req) && EarlyError(call).None? && ExpiresFirst(schedule)
    requires Feasible(cd, call, Start(call), schedule) && After(cd, call, Start(call), schedule).main.Finished?
    ensures Sent(After(cd, call, Start(call), schedule).resp)
         == Objects(LateOutput(cd, call, Timeout in schedule))
  {
    var t := Start(call).resp.stream;
    Overtaken.LateRun(cd, call, schedule);
    if Timeout in schedule {
      ServeFails(cd, t, call.req.version, TIMEOUT);
    } else {
      CloseAfterSuccess(cd, t, call.req.version);
      assert BufferFrames(t) + [DoneFrame(t.id)] == [DoneFrame(t.id)];
      SendAllMeaning(cd, t.chan, [DoneFrame(t.id)]);
      assert [] + Objects(Fitting(cd, t.chan.allowance, [DoneFrame(t.id)]))
          == Objects(Fitting(cd, t.chan.allowance, [DoneFrame(t.id)]));
    }
  }

  /** What the client of a stream gets in every finished interleaving. A run in time gives the closed form. If the
      context expires before the method has returned, there is no output. In all other runs it is the closed form, or
      a part of the output followed by the timeout error. */
  lemma EveryStreamAnswer(cd: Codec, call: Call, schedule: seq<Actor>)
    requires Sane(cd) && Roomy(cd, call) && IsStreamed(call.req)
    requires call.target.Some? ==> CopyLike(call.target.value.outcome)
    requires Feasible(cd, call, Start(call), schedule) && After(cd, call, Start(call), schedule).main.Finished?
    ensures var sent := Sent(After(cd, call, Start(call), schedule).resp);
            if InTime(call, schedule) then sent == Objects(StreamAnswer(cd, call))
            else
              && call.target.Some?
              && if ExpiresFirst(schedule) then sent == Objects(LateOutput(cd, call, Timeout in schedule))
                 else sent == Objects(StreamAnswer(cd, call)) || CutByTimeout(call, sent)
  {
    ServeStream(cd, call);
    InTimeRunIsSequential(cd, call, schedule);
    if EarlyError(call).Some? {
      WaitsOnce(cd, call, Start(call), schedule);
    } else if ExpiresFirst(schedule) {
      LateStream(cd, call, schedule);
    } else {
      StartUnreported(cd, call);
      UnreadEnds(cd, call, Start(call), schedule);
    }
  }

  // ----- bytes and terminal frames -----

  /** What the method gives out, of which a stream can carry a leading part. */
  function Output(call: Call): seq<byte>
    requires call.target.Some?
  {
    match call.target.value.outcome
    case Streams(pieces, _) => Concat(pieces)
    case _ => []
  }

  /** Leading frames of a complete output carry a leading part of its bytes. */
  lemma LeadingFramesCarry(fs: seq<Frame>, p: seq<byte>, id: IdRef, last: Frame)
    requires !last.Data? && fs <= LineFrames(p, id) + TailFrames(p, id) + [last]
    ensures Join(DataOf(fs)) <= p
  {
    var all := LineFrames(p, id) + TailFrames(p, id) + [last];
    var rest := all[|fs|..];
    assert all == fs + rest;
    DataOfAppend(fs, rest);
    DataOfOutput(p, id, last);
    JoinLeading(DataOf(fs), DataOf(rest));
    ShownRebuilds(p);
  }

  lemma PlainFrameCarries(fs: seq<Frame>, f: Frame)
    requires !f.Data?
    ensures DataOf(fs + [f]) == DataOf(fs)
  {
    DataOfAppend(fs, [f]);
    assert DataOf([f]) == [] by { assert [f][1..] == []; }
  }

  lemma PartCarries(call: Call, fs: seq<Frame>)
    requires call.target.Some? && PartOf(call, fs)
    ensures Join(DataOf(fs)) <= Output(call)
  {
    var id := call.req.id;
    match call.target.value.outcome
    case Fails(_) =>
    case Returns(v) =>
      PlainFrameCarries([], Result(V20Stream, v, id));
      assert [] + [Result(V20Stream, v, id)] == [Result(V20Stream, v, id)];
    case Streams(pieces, _) =>
      var p := Concat(pieces);
      if fs <= LineFrames(p, id) {
        LeadingFramesCarry(fs, p, id, DoneFrame(id));
      } else {
        var q :| q <= p && fs == LineFrames(q, id) + TailFrames(q, id);
        LeadingFramesCarry(fs, q, id, DoneFrame(id));
      }
  }

  lemma AnswerCarries(cd: Codec, call: Call)
    requires EarlyError(call).None?
    ensures Join(DataOf(StreamAnswer(cd, call))) <= Output(call)
  {
    var id, limit := call.req.id, LimitOf(call.target.value);
    match call.target.value.outcome
    case Fails(e) => assert [ErrorFrame(e, id)][1..] == [];
    case Returns(v) =>
      var fs := StreamAnswer(cd, call);
      assert |fs| <= 2 && forall i :: 0 <= i < |fs| ==> !fs[i].Data?;
      NoDataCarries(fs);
    case Streams(pieces, end) =>
      var p := Concat(pieces);
      var fs := LineFrames(p, id);
      if Sizes(cd, fs) > limit {
        PlainFrameCarries(Fitting(cd, limit, fs), ErrorFrame(LIMIT_EXCEED, id));
        LeadingFramesCarry(Fitting(cd, limit, fs), p, id, DoneFrame(id));
      } else if end.Some? {
        LeadingFramesCarry(fs + TailFrames(p, id) + [ErrorFrame(end.value, id)], p, id, ErrorFrame(end.value, id));
      } else {
        LeadingFramesCarry(Fitting(cd, limit, fs + TailFrames(p, id) + [DoneFrame(id)]), p, id, DoneFrame(id));
      }
  }

  lemma {:induction false} NoDataCarries(fs: seq<Frame>)
    requires forall i :: 0 <= i < |fs| ==> !fs[i].Data?
    ensures DataOf(fs) == []
    decreases |fs|
  {
    if fs == [] {
    } else {
      NoDataCarries(fs[1..]);
    }
  }

  /** The sequence of frames sent, as far as its bytes and its end go: the payloads joined by newlines are a leading
      part of the output, and there is exactly one terminal frame, or none because the limit cuts the footer. */
  predicate SoundFrames(cd: Codec, call: Call, late: bool, fs: seq<Frame>)
    requires EarlyError(call).None?
  {
    && Join(DataOf(fs)) <= Output(call)
    && (T.CountTerminals(fs) == 1
        || (fs == [] && late && cd.size(DoneFrame(call.req.id)) > LimitOf(call.target.value))
        || (T.CountTerminals(fs) == 0 && fs == StreamAnswer(cd, call) && T.CutShort(cd, call)))
  }

  lemma CutIsSound(cd: Codec, call: Call, fs: seq<Frame>)
    requires EarlyError(call).None? && PartOf(call, fs) && !T.Impersonates(call)
    ensures SoundFrames(cd, call, false, fs + [ErrorFrame(TIMEOUT, call.req.id)])
  {
    PartCarries(call, fs);
    PlainFrameCarries(fs, ErrorFrame(TIMEOUT, call.req.id));
    T.CountSnoc(fs, ErrorFrame(TIMEOUT, call.req.id));
  }

  lemma LateIsSound(cd: Codec, call: Call, timedOut: bool)
    requires Sane(cd) && EarlyError(call).None?
    ensures SoundFrames(cd, call, !timedOut, LateOutput(cd, call, timedOut))
  {
    var fs := LateOutput(cd, call, timedOut);
    NoDataCarries(fs);
    if fs != [] {
      assert fs == [] + [fs[0]];
      T.CountSnoc([], fs[0]);
    }
  }

  /** Every finished interleaving of a streamed call, expired or not. */
  lemma EveryStreamIsSound(cd: Codec, call: Call, schedule: seq<Actor>) returns (fs: seq<Frame>)
    requires Sane(cd) && Roomy(cd, call) && IsStreamed(call.req)
    requires EarlyError(call).None? && CopyLike(call.target.value.outcome) && !T.Impersonates(call)
    requires Feasible(cd, call, Start(call), schedule) && After(cd, call, Start(call), schedule).main.Finished?
    ensures Sent(After(cd, call, Start(call), schedule).resp) == Objects(fs)
    ensures SoundFrames(cd, call, ExpiresFirst(schedule) && Timeout !in schedule, fs)
  {
    var sent, id := Sent(After(cd, call, Start(call), schedule).resp), call.req.id;
    EveryStreamAnswer(cd, call, schedule);
    if sent == Objects(StreamAnswer(cd, call)) {
      fs := StreamAnswer(cd, call);
      AnswerCarries(cd, call);
      T.OneTerminalUnlessCutShort(cd, call);
    } else if ExpiresFirst(schedule) {
      fs := LateOutput(cd, call, Timeout in schedule);
      LateIsSound(cd, call, Timeout in schedule);
    } else {
      var part :| PartOf(call, part) && sent == Objects(part + [ErrorFrame(TIMEOUT, id)]);
      fs := part + [ErrorFrame(TIMEOUT, id)];
      CutIsSound(cd, call, part);
    }
  }
}
