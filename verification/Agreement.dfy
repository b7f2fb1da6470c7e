/** The legacy stream passes bytes through, and the upgraded stream carries the same bytes. */
module Agreement {
  import opened Wire
  import opened Channels
  import opened Framing
  import opened Engine
  import opened Sequential
  import opened LineMode
  import opened Answers
  import opened StreamAnswers
  import opened ExactlyOne
  import LegacyReply

  predicate IsLegacy(req: Request) {
    req.mode.LegacyMethod? && !req.version.V20Stream?
  }

  /** What a legacy stream shows: no frame, no error, only output. */
  function LegacyAnswer(cd: Codec, call: Call): seq<byte> {
    if EarlyError(call).Some? then []
    else
      var limit := LimitOf(call.target.value);
      match call.target.value.outcome
      case Fails(_) => []
      case Returns(v) =>
        (match LegacyReply.Printed(cd, v)
         case None => []
         case Some(p) => if |p| <= limit then p else [])
      case Streams(pieces, _) => Concat(pieces[..LegacyReply.FittingWrites(limit, pieces)])
  }

  lemma {:induction false} CopyToLegacy(cd: Codec, c: Channel, ps: seq<seq<byte>>)
    ensures var (c1, e) := LegacyReply.WriteAll(c, ps);
            CopyAll(cd, Legacy(c), ps) == (Legacy(c1), e)
    decreases |ps|
  {
    if ps == [] {
    } else {
      CopyToLegacy(cd, PutBytes(c, ps[0]).0, ps[1..]);
    }
  }

  lemma ServeLegacy(cd: Codec, call: Call)
    requires IsLegacy(call.req)
    ensures Sent(Serve(cd, call)) == Bytes(LegacyAnswer(cd, call))
  {
    if EarlyError(call).None? {
      var c := Start(call).resp.chan;
      match call.target.value.outcome
      case Fails(_) =>
      case Returns(v) =>
      case Streams(pieces, _) =>
        CopyToLegacy(cd, c, pieces);
        LegacyReply.PassesThrough(c, pieces);
    }
  }

  lemma LegacyRefinesAnswer(cd: Codec, call: Call, schedule: seq<Actor>)
    requires IsLegacy(call.req)
    requires Feasible(cd, call, Start(call), schedule)
    ensures var s := After(cd, call, Start(call), schedule);
            (!s.expired || InTime(call, schedule)) && s.main.Finished? ==> Sent(s.resp) == Bytes(LegacyAnswer(cd, call))
  {
    InTimeRunIsSequential(cd, call, schedule);
    ServeLegacy(cd, call);
  }

  // ----- every interleaving of a legacy stream -----

  /** All a legacy stream could show of a call. */
  function MethodBytes(cd: Codec, call: Call): seq<byte> {
    if EarlyError(call).Some? then []
    else
      match call.target.value.outcome
      case Fails(_) => []
      case Returns(v) => (match LegacyReply.Printed(cd, v) case None => [] case Some(p) => p)
      case Streams(pieces, _) => Concat(pieces)
  }

  /** The stream has shown `q`, and what the worker will still write follows it. */
  predicate Shows(cd: Codec, call: Call, s: State, q: seq<byte>)
    requires WellFormed(call, s)
  {
    && s.resp.Legacy? && s.resp.chan.out == Bytes(q) && q <= MethodBytes(cd, call)
    && match s.worker
       case Copying(left) => q + Concat(left) == MethodBytes(cd, call)
       case Answering(v) => q == [] && call.target.value.outcome == Returns(v)
       case Invoking => q == []
       case _ => true
  }

  lemma StepShows(cd: Codec, call: Call, s: State, a: Actor, q: seq<byte>) returns (q1: seq<byte>)
    requires IsLegacy(call.req) && WellFormed(call, s) && Enabled(s, a) && Shows(cd, call, s, q)
    ensures Shows(cd, call, Do(cd, call, s, a), q1) && q <= q1
  {
    var s1 := Do(cd, call, s, a);
    q1 := q;
    if a.Work? && s1.resp.chan.out != s.resp.chan.out {
      var w := if s.worker.Answering? then LegacyReply.Printed(cd, s.worker.v).value else s.worker.left[0];
      q1 := q + w;
      LegacyReply.BytesConcat(q, w);
      if s.worker.Copying? {
        Assoc(q, w, Concat(s.worker.left[1..]));
      }
    } else if a.Work? && s.worker.Copying? && s.worker.left != [] && s1.worker.Copying? {
      EmptyBytes(s.resp.chan.out, s.worker.left[0]);
      assert s.worker.left[0] + Concat(s.worker.left[1..]) == Concat(s.worker.left[1..]);
    }
  }

  lemma EmptyBytes(out: seq<Item>, w: seq<byte>)
    ensures out + Bytes(w) == out ==> w == []
  {
    assert |out + Bytes(w)| == |out| + |w|;
  }

  lemma {:induction false} RunShows(cd: Codec, call: Call, s: State, schedule: seq<Actor>, q: seq<byte>)
    returns (q1: seq<byte>)
    requires IsLegacy(call.req) && WellFormed(call, s) && Feasible(cd, call, s, schedule) && Shows(cd, call, s, q)
    ensures Shows(cd, call, After(cd, call, s, schedule), q1) && q <= q1
    decreases |schedule|
  {
    if schedule == [] {
      q1 := q;
    } else {
      var next := StepShows(cd, call, s, schedule[0], q);
      q1 := RunShows(cd, call, Do(cd, call, s, schedule[0]), schedule[1..], next);
    }
  }

  /** At any time of any interleaving, expired or not, a legacy stream has shown a leading part of the method's
      output, and what comes later continues it. */
  lemma LegacyShowsLeadingPart(cd: Codec, call: Call, before: seq<Actor>, later: seq<Actor>)
    returns (q: seq<byte>, q1: seq<byte>)
    requires IsLegacy(call.req) && Feasible(cd, call, Start(call), before)
    requires Feasible(cd, call, After(cd, call, Start(call), before), later)
    ensures var s := After(cd, call, Start(call), before);
            Sent(s.resp) == Bytes(q) && Sent(After(cd, call, s, later).resp) == Bytes(q1)
    ensures q <= q1 <= MethodBytes(cd, call)
  {
    assert Bytes([]) == [];
    q := RunShows(cd, call, Start(call), before, []);
    q1 := RunShows(cd, call, After(cd, call, Start(call), before), later, q);
  }

  /** The closed form for a request of any kind. */
  function Answer(cd: Codec, call: Call): seq<Item> {
    if call.req.mode.RpcMethod? then RpcAnswer(cd, call)
    else if IsStreamed(call.req) then Objects(StreamAnswer(cd, call))
    else Bytes(LegacyAnswer(cd, call))
  }

  lemma ServeAnswers(cd: Codec, call: Call)
    requires Sane(cd) && (call.target.Some? ==> CopyLike(call.target.value.outcome))
    ensures Sent(Serve(cd, call)) == Answer(cd, call)
  {
    if call.req.mode.RpcMethod? {
      ServeRpc(cd, call);
    } else if IsStreamed(call.req) {
      ServeStream(cd, call);
    } else {
      ServeLegacy(cd, call);
    }
  }

  /** The payloads of the data frames. */
  function DataOf(fs: seq<Frame>): seq<seq<byte>> {
    if fs == [] then []
    else (if fs[0].Data? then [fs[0].bytes] else []) + DataOf(fs[1..])
  }

  lemma {:induction false} DataOfAppend(fs: seq<Frame>, gs: seq<Frame>)
    ensures DataOf(fs + gs) == DataOf(fs) + DataOf(gs)
    decreases |fs|
  {
    if fs == [] {
      assert fs + gs == gs;
    } else {
      assert (fs + gs)[1..] == fs[1..] + gs;
      DataOfAppend(fs[1..], gs);
    }
  }

  lemma {:induction false} DataOfFrames(ps: seq<seq<byte>>, form: Form, id: IdRef)
    ensures DataOf(DataFrames(ps, form, id)) == ps
    decreases |ps|
  {
    if ps == [] {
    } else {
      assert DataFrames(ps, form, id)[1..] == DataFrames(ps[1..], form, id);
      DataOfFrames(ps[1..], form, id);
    }
  }

  lemma DataOfOutput(p: seq<byte>, id: IdRef, last: Frame)
    requires !last.Data?
    ensures DataOf(LineFrames(p, id) + TailFrames(p, id) + [last]) == Shown(p)
  {
    var header := if p == [] then [] else [HeaderFrame(id)];
    var lines := DataFrames(Lines(p), Text, id);
    var tail := if Tail(p) == [] then [] else [Tail(p)];
    DataOfAppend(header, lines);
    assert DataOf(header) == [];
    DataOfFrames(Lines(p), Text, id);
    assert TailFrames(p, id) == DataFrames(tail, Text, id);
    DataOfFrames(tail, Text, id);
    DataOfAppend(LineFrames(p, id), TailFrames(p, id));
    DataOfAppend(LineFrames(p, id) + TailFrames(p, id), [last]);
    assert DataOf([last]) == [] by { assert [last][1..] == []; }
  }

  /** The same method called both ways: unless a limit cuts one of the streams, the data frames of the upgraded
      one, joined by newlines, and one bit give back the bytes the legacy one passed through. */
  lemma UpgradeCarriesTheSameBytes(cd: Codec, call: Call, legacy: Call)
    requires Sane(cd) && IsStreamed(call.req) && EarlyError(call).None?
    requires IsLegacy(legacy.req) && EarlyError(legacy).None? && legacy.target == call.target
    requires call.target.value.outcome.Streams? && CopyLike(call.target.value.outcome)
    requires var p, limit := Concat(call.target.value.outcome.pieces), LimitOf(call.target.value);
             var id := AnswerId(call);
             && |p| <= limit
             && Sizes(cd, LineFrames(p, id) + TailFrames(p, id) + [DoneFrame(id)]) <= limit
    ensures var p := Concat(call.target.value.outcome.pieces);
            && Sent(Serve(cd, legacy)) == Bytes(p)
            && Sent(Serve(cd, call)) == Objects(StreamAnswer(cd, call))
            && p == Join(DataOf(StreamAnswer(cd, call))) + (if EndsInNewline(p) then [NEWLINE] else [])
  {
    var o, limit, id := call.target.value.outcome, LimitOf(call.target.value), AnswerId(call);
    var p := Concat(o.pieces);
    ServeLegacy(cd, legacy);
    LegacyReply.PassesThrough(Open(limit, []), o.pieces);
    assert o.pieces[..|o.pieces|] == o.pieces;
    ServeStream(cd, call);
    var fs := LineFrames(p, id);
    var all := fs + TailFrames(p, id) + [DoneFrame(id)];
    SizesAppend(cd, fs, TailFrames(p, id) + [DoneFrame(id)]);
    Assoc(fs, TailFrames(p, id), [DoneFrame(id)]);
    SendAllMeaning(cd, Open(limit, []), all);
    assert all[..|all|] == all;
    DataOfOutput(p, id, if o.end.Some? then ErrorFrame(o.end.value, id) else DoneFrame(id));
    ShownRebuilds(p);
  }
}
