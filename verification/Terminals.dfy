/** The terminal frame of a streamed request: at most one, nothing after it, and exactly when it is missing. */
module Terminals {
  import opened Wire
  import opened Channels
  import opened Framing
  import opened Engine
  import opened ExactlyOne
  import opened LineMode
  import opened Answers
  import opened StreamAnswers
  import Streaming

  predicate IsTerminal(f: Frame) {
    f.Failure? || (f.Result? && f.value == DONE)
  }

  /** Only the last item may be a terminal frame. */
  predicate TerminalIsLast(items: seq<Item>) {
    forall i :: 0 <= i < |items| - 1 ==> items[i].Object? ==> !IsTerminal(items[i].frame)
  }

  predicate NoTerminal(items: seq<Item>) {
    forall i :: 0 <= i < |items| ==> items[i].Object? ==> !IsTerminal(items[i].frame)
  }

  // ----- every sequence of responder calls -----

  predicate StreamInv(s: Streaming.Stream) {
    if s.closed then s.buffer == [] && TerminalIsLast(s.chan.out) else NoTerminal(s.chan.out)
  }

  lemma {:induction false} PiecesKeepInv(cd: Codec, s: Streaming.Stream, ps: seq<seq<byte>>)
    requires StreamInv(s) && !s.closed
    ensures var s1 := Streaming.WritePieces(cd, s, ps).0; StreamInv(s1) && !s1.closed
    decreases |ps|
  {
    if ps == [] {
    } else {
      PiecesKeepInv(cd, if ps[0] == [] then s else Streaming.WritePiece(cd, s, ps[0]).0, ps[1..]);
    }
  }

  lemma ResultKeepsInv(cd: Codec, s: Streaming.Stream, v: Value)
    requires StreamInv(s) && v != DONE
    ensures StreamInv(Streaming.SetResult(cd, s, v).0)
    ensures Streaming.SetResult(cd, s, v).0.closed == s.closed
  {
  }

  lemma CommitKeepsInv(cd: Codec, s: Streaming.Stream)
    requires StreamInv(s)
    ensures var s1 := Streaming.Commit(cd, s).0;
            StreamInv(s1) && s1.buffer == [] && s1.closed == s.closed
  {
  }

  lemma {:induction false} CutsKeepInv(cd: Codec, s: Streaming.Stream, p: seq<byte>, at: nat)
    requires StreamInv(s) && !s.closed && 0 < s.chunkSize && at <= |p|
    ensures var s1 := Streaming.CutBlocks(cd, s, p, at).0; StreamInv(s1) && !s1.closed
    decreases |p| - at
  {
    var n := s.chunkSize;
    if at + n >= |p| {
    } else {
      CutsKeepInv(cd, Streaming.Emit(cd, s, Data(p[at..at + n], Base64, s.id)).0, p, at + n);
    }
  }

  lemma BlocksKeepInv(cd: Codec, s: Streaming.Stream, p: seq<byte>)
    requires StreamInv(s) && !s.closed && 0 < s.chunkSize && |s.buffer| <= s.chunkSize
    ensures var s1 := Streaming.WriteBlocks(cd, s, p).0; StreamInv(s1) && !s1.closed
  {
    if |p| + |s.buffer| >= s.chunkSize {
      var missing := Streaming.Missing(s.chunkSize, s.buffer);
      var full := s.(buffer := s.buffer + p[..missing]);
      CommitKeepsInv(cd, full);
      CutsKeepInv(cd, Streaming.Commit(cd, full).0, p, missing);
    }
  }

  lemma WriteKeepsInv(cd: Codec, s: Streaming.Stream, p: seq<byte>)
    requires Streaming.Regular(s) && StreamInv(s)
    ensures StreamInv(Streaming.Write(cd, s, p).0)
  {
    if !s.closed {
      var s1 := Streaming.Begin(cd, s).0;
      ResultKeepsInv(cd, s, HEADER);
      if s.chunkSize <= 0 {
        PiecesKeepInv(cd, s1, SplitAfter(p));
      } else {
        CommitKeepsInv(cd, s);
        BlocksKeepInv(cd, s1, p);
      }
    }
  }

  /** Whatever is called, a closed stream stays as it is, and an open one sends no terminal frame without closing. */
  lemma CallsKeepInv(cd: Codec, s: Streaming.Stream, p: seq<byte>, v: Value, e: Error)
    requires Streaming.Regular(s) && StreamInv(s)
    ensures StreamInv(Streaming.Write(cd, s, p).0)
    ensures v != DONE ==> StreamInv(Streaming.SetResult(cd, s, v).0)
    ensures StreamInv(Streaming.SetError(cd, s, e).0)
    ensures StreamInv(Streaming.Close(cd, s).0)
    ensures s.closed ==> Streaming.Write(cd, s, p).0 == Streaming.SetResult(cd, s, v).0 == s
    ensures s.closed ==> Streaming.SetError(cd, s, e).0 == Streaming.Close(cd, s).0 == s
  {
    WriteKeepsInv(cd, s, p);
    CommitKeepsInv(cd, s);
    if v != DONE {
      ResultKeepsInv(cd, s, v);
    }
  }

  // ----- every interleaving -----

  /** The method's own plain result looks like the footer. */
  predicate Impersonates(call: Call) {
    EarlyError(call).None? && call.target.value.outcome == Returns(DONE)
  }

  predicate Inv(call: Call, s: State) {
    && WellFormed(call, s)
    && (s.worker.Invoking? || s.worker.Answering? ==> call.target.Some?)
    && (s.worker.Answering? ==> call.target.value.outcome == Returns(s.worker.v))
    && match s.resp
       case Line(t) => StreamInv(t)
       case Legacy(c) => c.out == [] && s.worker.Exited? && s.main.Closing? && call.req.version.V20Stream?
       case Rpc(_) => false
  }

  predicate Sealed(r: Responder) {
    r.Line? && r.stream.closed
  }

  lemma MainKeepsInv(cd: Codec, call: Call, s: State)
    requires Inv(call, s) && Enabled(s, Proceed)
    ensures var s1 := DoMain(cd, call, s);
            Inv(call, s1) && (Sealed(s.resp) ==> Sealed(s1.resp) && Sent(s1.resp) == Sent(s.resp))
  {
    if s.resp.Line? {
      CallsKeepInv(cd, s.resp.stream, [], HEADER, if s.main.Erring? then s.main.e else TIMEOUT);
    }
  }

  lemma WorkerKeepsInv(cd: Codec, call: Call, s: State)
    requires Inv(call, s) && Enabled(s, Work) && !Impersonates(call)
    ensures var s1 := DoWorker(cd, call, s);
            Inv(call, s1) && (Sealed(s.resp) ==> Sealed(s1.resp) && Sent(s1.resp) == Sent(s.resp))
  {
    var t := s.resp.stream;
    match s.worker
    case Reporting(e) => CallsKeepInv(cd, t, [], HEADER, e);
    case Answering(v) => CallsKeepInv(cd, t, [], v, TIMEOUT);
    case Copying(left) => CallsKeepInv(cd, t, if left == [] then [] else left[0], HEADER, TIMEOUT);
    case _ =>
  }

  lemma StepKeepsInv(cd: Codec, call: Call, s: State, a: Actor)
    requires Inv(call, s) && Enabled(s, a) && !Impersonates(call)
    ensures Inv(call, Do(cd, call, s, a))
    ensures Sealed(s.resp) ==> Sealed(Do(cd, call, s, a).resp) && Sent(Do(cd, call, s, a).resp) == Sent(s.resp)
  {
    if a.Proceed? {
      MainKeepsInv(cd, call, s);
    } else if a.Work? {
      WorkerKeepsInv(cd, call, s);
    }
  }

  lemma {:induction false} RunKeepsInv(cd: Codec, call: Call, s: State, schedule: seq<Actor>)
    requires Inv(call, s) && Feasible(cd, call, s, schedule) && !Impersonates(call)
    ensures var s1 := After(cd, call, s, schedule);
            && Inv(call, s1)
            && (Sealed(s.resp) ==> Sent(s1.resp) == Sent(s.resp))
    decreases |schedule|
  {
    if schedule == [] {
    } else {
      StepKeepsInv(cd, call, s, schedule[0]);
      RunKeepsInv(cd, call, Do(cd, call, s, schedule[0]), schedule[1..]);
    }
  }

  /** In every interleaving a terminal frame is the last thing sent, and nothing that still runs adds to it. */
  lemma NothingFollowsTheTerminal(cd: Codec, call: Call, before: seq<Actor>, later: seq<Actor>)
    requires IsStreamed(call.req) && !Impersonates(call)
    requires Feasible(cd, call, Start(call), before)
    requires Feasible(cd, call, After(cd, call, Start(call), before), later)
    ensures var s := After(cd, call, Start(call), before);
            && TerminalIsLast(Sent(s.resp))
            && (!NoTerminal(Sent(s.resp)) ==> Sent(After(cd, call, s, later).resp) == Sent(s.resp))
  {
    RunKeepsInv(cd, call, Start(call), before);
    RunKeepsInv(cd, call, After(cd, call, Start(call), before), later);
  }

  // ----- the condition is exact -----

  ghost predicate AlwaysLast(cd: Codec, call: Call) {
    forall schedule :: Feasible(cd, call, Start(call), schedule) ==>
      TerminalIsLast(Sent(After(cd, call, Start(call), schedule).resp))
  }

  /** Main has timed out and lifted the limit; the worker is about to set its result. */
  predicate OnTheBrink(call: Call, s: State) {
    && WellFormed(call, s) && s.main == Erring(TIMEOUT) && s.worker == Answering(DONE)
    && s.resp.Line? && s.resp.stream == Streaming.NewStream([], 0).(id := call.req.id)
  }

  lemma ResultThenError(cd: Codec, call: Call, s: State)
    requires Sane(cd) && OnTheBrink(call, s)
    ensures Feasible(cd, call, s, [Work, Proceed])
    ensures !TerminalIsLast(Sent(After(cd, call, s, [Work, Proceed]).resp))
  {
    var s1 := Do(cd, call, s, Work);
    assert s1.resp.stream.chan.out == [Object(DoneFrame(call.req.id))];
    var s2 := Do(cd, call, s1, Proceed);
    var out := s2.resp.stream.chan.out;
    assert out[0] == Object(DoneFrame(call.req.id)) && |out| == 2;
    Extend(cd, call, s1, Proceed, []);
    Extend(cd, call, s, Work, [Proceed]);
    assert [Proceed] + [] == [Proceed] && [Work] + [Proceed] == [Work, Proceed];
  }

  /** A method returning the plain string "Done" can be timed out with its result sent but not yet recorded:
      the timeout error then follows what reads as the footer. */
  lemma FooterIsNotLast(cd: Codec, call: Call) returns (schedule: seq<Actor>)
    requires Sane(cd) && IsStreamed(call.req) && Impersonates(call)
    ensures Feasible(cd, call, Start(call), schedule)
    ensures !TerminalIsLast(Sent(After(cd, call, Start(call), schedule).resp))
  {
    var s0 := Start(call);
    var s1 := Do(cd, call, s0, Work);
    var s2 := Do(cd, call, s1, Expire);
    var s3 := Do(cd, call, s2, Timeout);
    var s4 := Do(cd, call, s3, Proceed);
    var s5 := Do(cd, call, s4, Proceed);
    var s6 := Do(cd, call, s5, Proceed);
    var s7 := Do(cd, call, s6, Proceed);
    ResultThenError(cd, call, s7);
    schedule := [Work, Proceed];
    Extend(cd, call, s6, Proceed, schedule);
    schedule := [Proceed] + schedule;
    Extend(cd, call, s5, Proceed, schedule);
    schedule := [Proceed] + schedule;
    Extend(cd, call, s4, Proceed, schedule);
    schedule := [Proceed] + schedule;
    Extend(cd, call, s3, Proceed, schedule);
    schedule := [Proceed] + schedule;
    Extend(cd, call, s2, Timeout, schedule);
    schedule := [Timeout] + schedule;
    Extend(cd, call, s1, Expire, schedule);
    schedule := [Expire] + schedule;
    Extend(cd, call, s0, Work, schedule);
    schedule := [Work] + schedule;
  }

  lemma AlwaysLastIffNoImpersonation(cd: Codec, call: Call)
    requires Sane(cd) && IsStreamed(call.req)
    ensures AlwaysLast(cd, call) <==> !Impersonates(call)
  {
    if Impersonates(call) {
      var _ := FooterIsNotLast(cd, call);
    } else {
      forall schedule | Feasible(cd, call, Start(call), schedule)
        ensures TerminalIsLast(Sent(After(cd, call, Start(call), schedule).resp))
      {
        NothingFollowsTheTerminal(cd, call, schedule, []);
      }
    }
  }

  // ----- is there a terminal frame at all? -----

  function CountTerminals(fs: seq<Frame>): nat {
    if fs == [] then 0 else (if IsTerminal(fs[0]) then 1 else 0) + CountTerminals(fs[1..])
  }

  lemma {:induction false} CountSnoc(fs: seq<Frame>, f: Frame)
    requires forall g :: g in fs ==> !IsTerminal(g)
    ensures CountTerminals(fs) == 0
    ensures CountTerminals(fs + [f]) == if IsTerminal(f) then 1 else 0
    decreases |fs|
  {
    if fs == [] {
      assert fs + [f] == [f];
    } else {
      assert (fs + [f])[1..] == fs[1..] + [f];
      assert fs[0] in fs;
      CountSnoc(fs[1..], f);
    }
  }

  /** The run ends without an error and its limit has room for the output but not for the footer too. */
  predicate CutShort(cd: Codec, call: Call) {
    && EarlyError(call).None?
    && var id, limit := AnswerId(call), LimitOf(call.target.value);
       match call.target.value.outcome
       case Fails(_) => false
       case Returns(v) =>
         var r := Result(V20Stream, v, id);
         cd.size(r) <= limit < Sizes(cd, [r, DoneFrame(id)])
       case Streams(pieces, end) =>
         var p := Concat(pieces);
         && end.None?
         && Sizes(cd, LineFrames(p, id)) <= limit < Sizes(cd, LineFrames(p, id) + TailFrames(p, id) + [DoneFrame(id)])
  }

  lemma FittingSnoc(cd: Codec, limit: int, fs: seq<Frame>, f: Frame)
    requires Sane(cd) && limit >= 0
    requires forall g :: g in fs ==> !IsTerminal(g)
    requires IsTerminal(f)
    ensures CountTerminals(Fitting(cd, limit, fs + [f])) == if Sizes(cd, fs + [f]) <= limit then 1 else 0
  {
    var all := fs + [f];
    var k := FittingPrefix(cd, limit, all);
    SendAllMeaning(cd, Channel(limit, None, []), all);
    if k == |all| {
      assert all[..k] == all;
      CountSnoc(fs, f);
    } else {
      assert all[..k] == fs[..k];
      CountSnoc(fs[..k], f);
    }
  }

  /** The frames sent in time hold exactly one terminal frame, or none if the footer is cut off by the
      limit; so any error, and any run whose frames fit its limit, ends in exactly one. */
  lemma OneTerminalUnlessCutShort(cd: Codec, call: Call)
    requires Sane(cd) && IsStreamed(call.req) && !Impersonates(call)
    ensures CountTerminals(StreamAnswer(cd, call)) == if CutShort(cd, call) then 0 else 1
  {
    var id := AnswerId(call);
    if EarlyError(call).Some? {
      CountSnoc([], ErrorFrame(EarlyError(call).value, id));
      assert [] + [ErrorFrame(EarlyError(call).value, id)] == StreamAnswer(cd, call);
    } else {
      var limit := LimitOf(call.target.value);
      match call.target.value.outcome
      case Fails(e) =>
        CountSnoc([], ErrorFrame(e, id));
        assert [] + [ErrorFrame(e, id)] == StreamAnswer(cd, call);
      case Returns(v) =>
        var r := Result(V20Stream, v, id);
        if cd.size(r) > limit {
          CountSnoc([], ErrorFrame(LIMIT_EXCEED, id));
          assert [] + [ErrorFrame(LIMIT_EXCEED, id)] == StreamAnswer(cd, call);
        } else {
          assert [r] + [DoneFrame(id)] == [r, DoneFrame(id)];
          FittingSnoc(cd, limit, [r], DoneFrame(id));
        }
      case Streams(pieces, end) =>
        var p := Concat(pieces);
        var fs := LineFrames(p, id);
        if Sizes(cd, fs) > limit {
          CountSnoc(Fitting(cd, limit, fs), ErrorFrame(LIMIT_EXCEED, id));
        } else if end.Some? {
          CountSnoc(fs + TailFrames(p, id), ErrorFrame(end.value, id));
        } else {
          FittingSnoc(cd, limit, fs + TailFrames(p, id), DoneFrame(id));
        }
    }
  }
}
