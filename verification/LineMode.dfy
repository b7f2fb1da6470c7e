/** In line mode the frames depend only on the concatenation of the writes. */
module LineMode {
  import opened Wire
  import opened Channels
  import opened Framing
  import opened Streaming

  function DataFrames(ps: seq<seq<byte>>, form: Form, id: IdRef): seq<Frame> {
    seq(|ps|, i requires 0 <= i < |ps| => Data(ps[i], form, id))
  }

  lemma DataFramesCons(p: seq<byte>, ps: seq<seq<byte>>, form: Form, id: IdRef)
    ensures DataFrames([p] + ps, form, id) == [Data(p, form, id)] + DataFrames(ps, form, id)
  {
  }

  lemma DataFramesAppend(ps: seq<seq<byte>>, qs: seq<seq<byte>>, form: Form, id: IdRef)
    ensures DataFrames(ps + qs, form, id) == DataFrames(ps, form, id) + DataFrames(qs, form, id)
  {
  }

  lemma DataFramesTake(ps: seq<seq<byte>>, k: nat, form: Form, id: IdRef)
    requires k <= |ps|
    ensures DataFrames(ps, form, id)[..k] == DataFrames(ps[..k], form, id)
  {
  }

  /** The reference semantics: one byte at a time, with no notion of a write. */
  function Feed(cd: Codec, s: Stream, p: seq<byte>): (Stream, Option<Error>)
    decreases |p|
  {
    if p == [] then (s, None)
    else if p[0] == NEWLINE then
      var (s1, e) := Emit(cd, s.(buffer := []), Data(s.buffer, Text, s.id));
      if e.Some? then (s1, e) else Feed(cd, s1, p[1..])
    else Feed(cd, s.(buffer := s.buffer + [p[0]]), p[1..])
  }

  lemma {:induction false} FeedPlain(cd: Codec, s: Stream, v: seq<byte>, rest: seq<byte>)
    requires NEWLINE !in v
    ensures Feed(cd, s, v + rest) == Feed(cd, s.(buffer := s.buffer + v), rest)
    decreases |v|
  {
    if v == [] {
      assert v + rest == rest && s.buffer + v == s.buffer;
    } else {
      assert (v + rest)[1..] == v[1..] + rest;
      assert s.buffer + v == (s.buffer + [v[0]]) + v[1..];
      assert NEWLINE !in v[1..] && v[0] != NEWLINE;
      FeedPlain(cd, s.(buffer := s.buffer + [v[0]]), v[1..], rest);
    }
  }

  lemma {:induction false} FeedAppend(cd: Codec, s: Stream, p: seq<byte>, q: seq<byte>)
    ensures var (s1, e) := Feed(cd, s, p);
            Feed(cd, s, p + q) == if e.Some? then (s1, e) else Feed(cd, s1, q)
    decreases |p|
  {
    if p == [] {
      assert p + q == q;
    } else {
      assert (p + q)[1..] == p[1..] + q;
      if p[0] == NEWLINE {
        FeedAppend(cd, Emit(cd, s.(buffer := []), Data(s.buffer, Text, s.id)).0, p[1..], q);
      } else {
        FeedAppend(cd, s.(buffer := s.buffer + [p[0]]), p[1..], q);
      }
    }
  }

  /** One write, cut into pieces, has the effect of its bytes, and counts them all unless it fails. */
  lemma {:induction false} WritePiecesIsFeed(cd: Codec, s: Stream, p: seq<byte>)
    ensures var (s1, n, e) := WritePieces(cd, s, SplitAfter(p));
            (s1, e) == Feed(cd, s, p) && (e.None? ==> n == |p|)
    decreases |p|
  {
    var i := LineEnd(p);
    if i == |p| {
      assert p[..i] == p && p + [] == p;
      FeedPlain(cd, s, p, []);
    } else {
      var v, rest := p[..i + 1], p[i + 1..];
      PieceIsFeed(cd, s, p[..i], rest);
      assert v == p[..i] + [NEWLINE] && p == p[..i] + [NEWLINE] + rest;
      assert SplitAfter(p)[1..] == SplitAfter(rest);
      WritePiecesIsFeed(cd, WritePiece(cd, s, v).0, rest);
    }
  }

  lemma PieceIsFeed(cd: Codec, s: Stream, a: seq<byte>, rest: seq<byte>)
    requires NEWLINE !in a
    ensures var (s1, e) := WritePiece(cd, s, a + [NEWLINE]);
            Feed(cd, s, a + [NEWLINE] + rest) == if e.Some? then (s1, e) else Feed(cd, s1, rest)
  {
    assert a + [NEWLINE] + rest == a + ([NEWLINE] + rest);
    FeedPlain(cd, s, a, [NEWLINE] + rest);
    assert ([NEWLINE] + rest)[1..] == rest;
    assert (a + [NEWLINE])[..|a|] == a;
  }

  /** What is left of a stream whose writes had the frames of `p` sent: the tail, or nothing after a failure. */
  function Fed(cd: Codec, s: Stream, p: seq<byte>): (Stream, Option<Error>) {
    var (c, e) := SendAll(cd, s.chan, DataFrames(Lines(s.buffer + p), Text, s.id));
    (s.(chan := c, buffer := if e.None? then Tail(s.buffer + p) else []), e)
  }

  lemma {:induction false} FeedSendsLines(cd: Codec, s: Stream, p: seq<byte>)
    requires NEWLINE !in s.buffer
    ensures Feed(cd, s, p) == Fed(cd, s, p)
    decreases |p|
  {
    if p == [] {
      LinesOfLine(s.buffer, []);
      assert s.buffer + p == s.buffer;
    } else if p[0] == NEWLINE {
      var s1 := Emit(cd, s.(buffer := []), Data(s.buffer, Text, s.id)).0;
      FeedSendsLines(cd, s1, p[1..]);
      FedNewline(cd, s, p[1..]);
      MoveHead(s.buffer, p);
    } else {
      FeedSendsLines(cd, s.(buffer := s.buffer + [p[0]]), p[1..]);
      MoveHead(s.buffer, p);
    }
  }

  lemma MoveHead(b: seq<byte>, p: seq<byte>)
    requires p != []
    ensures b + p == b + [p[0]] + p[1..]
  {
  }

  lemma FedNewline(cd: Codec, s: Stream, rest: seq<byte>)
    requires NEWLINE !in s.buffer
    ensures var (s1, e) := Emit(cd, s.(buffer := []), Data(s.buffer, Text, s.id));
            var (c, e1) := SendAll(cd, s.chan, DataFrames(Lines(s.buffer + [NEWLINE] + rest), Text, s.id));
            (s.(chan := c, buffer := if e1.None? then Tail(s.buffer + [NEWLINE] + rest) else []), e1)
            == if e.Some? then (s1, e) else Fed(cd, s1, rest)
  {
    LinesOfLine(s.buffer, rest);
    DataFramesCons(s.buffer, Lines(rest), Text, s.id);
    SendCons(cd, s.chan, Data(s.buffer, Text, s.id), DataFrames(Lines(rest), Text, s.id));
    assert [] + rest == rest;
  }

  /** An open line-mode stream that has been written to before. */
  predicate Running(s: Stream) {
    s.chunkSize <= 0 && !s.closed && !s.firstWrite
  }

  lemma FeedKeepsRunning(cd: Codec, s: Stream, p: seq<byte>)
    requires Running(s)
    ensures Running(Feed(cd, s, p).0)
    decreases |p|
  {
  }

  lemma {:induction false} WriteAllIsFeed(cd: Codec, s: Stream, ws: seq<seq<byte>>)
    requires Running(s)
    ensures WriteAll(cd, s, ws) == Feed(cd, s, Concat(ws))
    decreases |ws|
  {
    if ws == [] {
    } else {
      WritePiecesIsFeed(cd, s, ws[0]);
      FeedKeepsRunning(cd, s, ws[0]);
      FeedAppend(cd, s, ws[0], Concat(ws[1..]));
      var (s1, e) := Feed(cd, s, ws[0]);
      if e.None? {
        WriteAllIsFeed(cd, s1, ws[1..]);
      }
    }
  }

  predicate Fresh(s: Stream) {
    s.chunkSize <= 0 && !s.closed && s.firstWrite && s.buffer == []
  }

  function HeaderFrame(id: IdRef): Frame {
    Result(V20Stream, HEADER, id)
  }

  function DoneFrame(id: IdRef): Frame {
    Result(V20Stream, DONE, id)
  }

  function HeaderFrames(ws: seq<seq<byte>>, id: IdRef): seq<Frame> {
    if ws == [] then [] else [HeaderFrame(id)]
  }

  /** What `WriteAll` does to a fresh stream: the frames of the header and of the lines of the whole
      input are sent in order up to the first failure, however the input is cut into writes. */
  lemma WriteAllMeaning(cd: Codec, s: Stream, ws: seq<seq<byte>>)
    requires Fresh(s)
    ensures var p := Concat(ws);
            var (c, e) := SendAll(cd, s.chan, HeaderFrames(ws, s.id) + DataFrames(Lines(p), Text, s.id));
            WriteAll(cd, s, ws) == (s.(chan := c, firstWrite := ws == [], buffer := if e.None? then Tail(p) else []), e)
  {
    if ws == [] {
      assert HeaderFrames(ws, s.id) + DataFrames(Lines([]), Text, s.id) == [];
    } else {
      var p := Concat(ws);
      var lines := DataFrames(Lines(p), Text, s.id);
      var fs := [HeaderFrame(s.id)] + lines;
      var (s1, e) := Begin(cd, s);
      assert fs[1..] == lines;
      if e.None? {
        assert Running(s1);
        assert WriteAll(cd, s, ws) == WriteAll(cd, s1, ws) by {
          assert Write(cd, s, ws[0]) == Write(cd, s1, ws[0]);
        }
        WriteAllIsFeed(cd, s1, ws);
        FeedSendsLines(cd, s1, p);
        assert s1.buffer + p == p;
      }
    }
  }

  function TailFrames(p: seq<byte>, id: IdRef): seq<Frame> {
    if Tail(p) == [] then [] else [Data(Tail(p), Text, id)]
  }

  /** All frames of a run without a failure. */
  function Canonical(ws: seq<seq<byte>>, id: IdRef): seq<Frame> {
    HeaderFrames(ws, id) + DataFrames(Shown(Concat(ws)), Text, id) + [DoneFrame(id)]
  }

  function WriteAllThenClose(cd: Codec, s: Stream, ws: seq<seq<byte>>): (Stream, Option<Error>)
    requires Regular(s)
  {
    var (s1, e) := WriteAll(cd, s, ws);
    if e.Some? then (s1, e) else Close(cd, s1)
  }

  lemma SplitCanonical(ws: seq<seq<byte>>, id: IdRef)
    ensures var p := Concat(ws);
            Canonical(ws, id) == (HeaderFrames(ws, id) + DataFrames(Lines(p), Text, id))
                                 + (TailFrames(p, id) + [DoneFrame(id)])
  {
    var p := Concat(ws);
    var tail := if Tail(p) == [] then [] else [Tail(p)];
    DataFramesAppend(Lines(p), tail, Text, id);
    assert DataFrames(tail, Text, id) == TailFrames(p, id);
    Assoc(HeaderFrames(ws, id), DataFrames(Lines(p), Text, id), TailFrames(p, id));
    Assoc(HeaderFrames(ws, id) + DataFrames(Lines(p), Text, id), TailFrames(p, id), [DoneFrame(id)]);
  }

  /** A run succeeds exactly when its canonical frames fit the limit together, and then they are what it sends. */
  lemma LineRunMeaning(cd: Codec, s: Stream, ws: seq<seq<byte>>)
    requires Sane(cd) && Fresh(s) && s.chan.failed.None? && s.chan.allowance >= 0
    ensures var (s1, e) := WriteAllThenClose(cd, s, ws);
            && (e.None? <==> Sizes(cd, Canonical(ws, s.id)) <= s.chan.allowance)
            && (e.None? ==> s1.closed && s1.buffer == []
                            && s1.chan.out == s.chan.out + Objects(Canonical(ws, s.id)))
  {
    var p := Concat(ws);
    var fs := HeaderFrames(ws, s.id) + DataFrames(Lines(p), Text, s.id);
    var gs := TailFrames(p, s.id) + [DoneFrame(s.id)];
    WriteAllMeaning(cd, s, ws);
    SendAllAppend(cd, s.chan, fs, gs);
    var all := Canonical(ws, s.id);
    SplitCanonical(ws, s.id);
    SendAllMeaning(cd, s.chan, all);
    assert all[..|all|] == all;
    var (s1, e) := WriteAll(cd, s, ws);
    if e.None? {
      CloseSendsTail(cd, s1);
      assert TailFrames(p, s.id) == BufferFrames(s1);
    }
  }

  function BufferFrames(s: Stream): seq<Frame> {
    if s.buffer == [] then [] else [BufferFrame(s)]
  }

  /** Closing an open stream sends the buffered rest and the footer, and fails exactly if one of them does not fit. */
  lemma CloseSendsTail(cd: Codec, s: Stream)
    requires !s.closed
    ensures var (c, e) := SendAll(cd, s.chan, BufferFrames(s) + [DoneFrame(s.id)]);
            Close(cd, s).0.chan == c && Close(cd, s).1 == e && (e.None? ==> Close(cd, s).0.closed)
    ensures Close(cd, s).0.buffer == []
  {
    var done := DoneFrame(s.id);
    SendAllAppend(cd, s.chan, BufferFrames(s), [done]);
    if s.buffer != [] {
      SendOne(cd, s.chan, BufferFrame(s));
    }
    SendOne(cd, SendAll(cd, s.chan, BufferFrames(s)).0, done);
  }
}
