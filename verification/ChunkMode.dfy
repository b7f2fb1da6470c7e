/** In chunk mode the frames of a run without a failure are the canonical blocks of its input. */
module ChunkMode {
  import opened Wire
  import opened Channels
  import opened Framing
  import opened Streaming
  import opened LineMode

  predicate Chunked(s: Stream) {
    0 < s.chunkSize && |s.buffer| <= s.chunkSize && !s.closed
  }

  /** The blocks one write completes. */
  function NewBlocks(n: nat, buffer: seq<byte>, p: seq<byte>): seq<seq<byte>>
    requires 0 < n && |buffer| <= n
  {
    if |p| + |buffer| < n then []
    else
      var m := Missing(n, buffer);
      (if buffer + p[..m] == [] then [] else [buffer + p[..m]]) + FullBlocks(n, p, m)
  }

  /** What stays buffered after one write. */
  function NewRest(n: nat, buffer: seq<byte>, p: seq<byte>): seq<byte>
    requires 0 < n && |buffer| <= n
  {
    if |p| + |buffer| < n then buffer + p
    else p[CutEnd(n, p, Missing(n, buffer))..]
  }

  /** One write completes whole blocks only and loses no byte. */
  lemma NewBlocksMeaning(n: nat, buffer: seq<byte>, p: seq<byte>)
    requires 0 < n && |buffer| <= n
    ensures forall b :: b in NewBlocks(n, buffer, p) ==> |b| == n
    ensures |NewRest(n, buffer, p)| <= n
    ensures Concat(NewBlocks(n, buffer, p)) + NewRest(n, buffer, p) == buffer + p
  {
    if |p| + |buffer| >= n {
      var m := Missing(n, buffer);
      var end := CutEnd(n, p, m);
      var first := if buffer + p[..m] == [] then [] else [buffer + p[..m]];
      FullBlocksAreFull(n, p, m);
      FullBlocksConcat(n, p, m);
      ConcatAppend(first, FullBlocks(n, p, m));
      ConcatOne(buffer + p[..m]);
      Regroup(buffer, p, m, end);
    }
  }

  lemma ConcatOne(b: seq<byte>)
    ensures Concat(if b == [] then [] else [b]) == b
  {
    assert [b][1..] == [];
  }

  lemma Regroup(buffer: seq<byte>, p: seq<byte>, m: nat, end: nat)
    requires m <= end <= |p|
    ensures (buffer + p[..m]) + p[m..end] + p[end..] == buffer + p
  {
  }

  lemma {:induction false} CutBlocksSends(cd: Codec, s: Stream, p: seq<byte>, at: nat)
    requires 0 < s.chunkSize && at <= |p|
    ensures var (s1, end, e) := CutBlocks(cd, s, p, at);
            && (s1.chan, e) == SendAll(cd, s.chan, DataFrames(FullBlocks(s.chunkSize, p, at), Base64, s.id))
            && (e.None? ==> end == CutEnd(s.chunkSize, p, at))
    decreases |p| - at
  {
    var n := s.chunkSize;
    if at + n >= |p| {
    } else {
      DataFramesCons(p[at..at + n], FullBlocks(n, p, at + n), Base64, s.id);
      CutBlocksSends(cd, Emit(cd, s, Data(p[at..at + n], Base64, s.id)).0, p, at + n);
    }
  }

  /** A write sends the blocks it completes, in order, and keeps the rest unless one of them fails. */
  lemma WriteBlocksSends(cd: Codec, s: Stream, p: seq<byte>)
    requires Chunked(s)
    ensures var (s1, k, e) := WriteBlocks(cd, s, p);
            && (s1.chan, e) == SendAll(cd, s.chan, DataFrames(NewBlocks(s.chunkSize, s.buffer, p), Base64, s.id))
            && s1 == s.(chan := s1.chan, buffer := s1.buffer)
            && (e.None? ==> k == |p| && s1.buffer == NewRest(s.chunkSize, s.buffer, p))
  {
    var n := s.chunkSize;
    if |p| + |s.buffer| >= n {
      var m := Missing(n, s.buffer);
      var first := s.buffer + p[..m];
      var firsts := if first == [] then [] else [first];
      var (s1, e) := Commit(cd, s.(buffer := first));
      if first != [] {
        SendOne(cd, s.chan, Data(first, Base64, s.id));
      }
      assert (s1.chan, e) == SendAll(cd, s.chan, DataFrames(firsts, Base64, s.id));
      DataFramesAppend(firsts, FullBlocks(n, p, m), Base64, s.id);
      SendAllAppend(cd, s.chan, DataFrames(firsts, Base64, s.id), DataFrames(FullBlocks(n, p, m), Base64, s.id));
      if e.None? {
        CutBlocksSends(cd, s1, p, m);
        assert s1.buffer + p[CutEnd(n, p, m)..] == p[CutEnd(n, p, m)..];
      }
    }
  }

  /** The blocks completed by successive writes. */
  function RunBlocks(n: nat, buffer: seq<byte>, ws: seq<seq<byte>>): seq<seq<byte>>
    requires 0 < n && |buffer| <= n
    decreases |ws|
  {
    if ws == [] then []
    else
      NewBlocksMeaning(n, buffer, ws[0]);
      NewBlocks(n, buffer, ws[0]) + RunBlocks(n, NewRest(n, buffer, ws[0]), ws[1..])
  }

  function RunRest(n: nat, buffer: seq<byte>, ws: seq<seq<byte>>): seq<byte>
    requires 0 < n && |buffer| <= n
    decreases |ws|
  {
    if ws == [] then buffer
    else
      NewBlocksMeaning(n, buffer, ws[0]);
      RunRest(n, NewRest(n, buffer, ws[0]), ws[1..])
  }

  /** The invariant of any number of writes: every block sent is full, the buffer holds at most a block,
      and blocks and buffer together are everything accepted. */
  lemma {:induction false} RunBlocksMeaning(n: nat, buffer: seq<byte>, ws: seq<seq<byte>>)
    requires 0 < n && |buffer| <= n
    ensures forall b :: b in RunBlocks(n, buffer, ws) ==> |b| == n
    ensures |RunRest(n, buffer, ws)| <= n
    ensures Concat(RunBlocks(n, buffer, ws)) + RunRest(n, buffer, ws) == buffer + Concat(ws)
    decreases |ws|
  {
    if ws == [] {
    } else {
      NewBlocksMeaning(n, buffer, ws[0]);
      var rest := NewRest(n, buffer, ws[0]);
      RunBlocksMeaning(n, rest, ws[1..]);
      ConcatAppend(NewBlocks(n, buffer, ws[0]), RunBlocks(n, rest, ws[1..]));
      Glue(Concat(NewBlocks(n, buffer, ws[0])), Concat(RunBlocks(n, rest, ws[1..])), RunRest(n, buffer, ws),
           rest, buffer, ws[0], Concat(ws[1..]));
    }
  }

  lemma Glue(a: seq<byte>, b: seq<byte>, r: seq<byte>, rest: seq<byte>, buffer: seq<byte>, w: seq<byte>, ws: seq<byte>)
    requires a + rest == buffer + w
    requires b + r == rest + ws
    ensures (a + b) + r == buffer + (w + ws)
  {
    assert (a + b) + r == a + (b + r);
    assert a + (rest + ws) == (a + rest) + ws;
    assert (buffer + w) + ws == buffer + (w + ws);
  }

  lemma {:induction false} WriteAllSendsBlocks(cd: Codec, s: Stream, ws: seq<seq<byte>>)
    requires Chunked(s) && !s.firstWrite
    ensures var (s1, e) := WriteAll(cd, s, ws);
            && (s1.chan, e) == SendAll(cd, s.chan, DataFrames(RunBlocks(s.chunkSize, s.buffer, ws), Base64, s.id))
            && s1 == s.(chan := s1.chan, buffer := s1.buffer)
            && (e.None? ==> s1.buffer == RunRest(s.chunkSize, s.buffer, ws))
    decreases |ws|
  {
    if ws == [] {
    } else {
      var n := s.chunkSize;
      var (s1, _, e) := WriteBlocks(cd, s, ws[0]);
      WriteBlocksSends(cd, s, ws[0]);
      NewBlocksMeaning(n, s.buffer, ws[0]);
      var bs := NewBlocks(n, s.buffer, ws[0]);
      var rest := RunBlocks(n, NewRest(n, s.buffer, ws[0]), ws[1..]);
      DataFramesAppend(bs, rest, Base64, s.id);
      SendAllAppend(cd, s.chan, DataFrames(bs, Base64, s.id), DataFrames(rest, Base64, s.id));
      if e.None? {
        WriteAllSendsBlocks(cd, s1, ws[1..]);
      }
    }
  }

  function CanonicalBlocks(n: nat, ws: seq<seq<byte>>, id: IdRef): seq<Frame>
    requires 0 < n
  {
    HeaderFrames(ws, id) + DataFrames(Blocks(n, Concat(ws)), Base64, id) + [DoneFrame(id)]
  }

  predicate FreshChunked(s: Stream) {
    Chunked(s) && s.firstWrite && s.buffer == []
  }

  /** The frames attempted by successive writes to a fresh stream. */
  lemma WriteAllSends(cd: Codec, s: Stream, ws: seq<seq<byte>>)
    requires FreshChunked(s)
    ensures var (s1, e) := WriteAll(cd, s, ws);
            var n := s.chunkSize;
            var fs := HeaderFrames(ws, s.id) + DataFrames(RunBlocks(n, [], ws), Base64, s.id);
            && (s1.chan, e) == SendAll(cd, s.chan, fs)
            && (e.None? ==> s1 == s.(chan := s1.chan, firstWrite := ws == [], buffer := RunRest(n, [], ws)))
  {
    var fs := DataFrames(RunBlocks(s.chunkSize, [], ws), Base64, s.id);
    if ws == [] {
      assert HeaderFrames(ws, s.id) + fs == [];
    } else {
      var header := HeaderFrame(s.id);
      var (s0, e0) := Begin(cd, s);
      SendAllAppend(cd, s.chan, [header], fs);
      SendOne(cd, s.chan, header);
      if e0.None? {
        assert Write(cd, s, ws[0]) == Write(cd, s0, ws[0]);
        WriteAllSendsBlocks(cd, s0, ws);
      }
    }
  }

  /** Whatever the cut into writes, a run succeeds exactly when the header, the canonical blocks and the
      footer fit the limit together, and then these are the frames it sends. */
  lemma ChunkRunMeaning(cd: Codec, s: Stream, ws: seq<seq<byte>>)
    requires Sane(cd) && FreshChunked(s) && s.chan.failed.None? && s.chan.allowance >= 0
    ensures var (s1, e) := WriteAllThenClose(cd, s, ws);
            && (e.None? <==> Sizes(cd, CanonicalBlocks(s.chunkSize, ws, s.id)) <= s.chan.allowance)
            && (e.None? ==> s1.closed && s1.buffer == []
                            && s1.chan.out == s.chan.out + Objects(CanonicalBlocks(s.chunkSize, ws, s.id)))
  {
    var n := s.chunkSize;
    var fs := HeaderFrames(ws, s.id) + DataFrames(RunBlocks(n, [], ws), Base64, s.id);
    var gs := DataFrames(RestBlocks(n, ws), Base64, s.id) + [DoneFrame(s.id)];
    var all := CanonicalBlocks(n, ws, s.id);
    SplitCanonical(n, ws, s.id);
    SendAllMeaning(cd, s.chan, all);
    assert all[..|all|] == all;
    SendAllAppend(cd, s.chan, fs, gs);
    WriteAllSends(cd, s, ws);
    var (s1, e) := WriteAll(cd, s, ws);
    if e.None? {
      assert BufferFrames(s1) + [DoneFrame(s.id)] == gs;
      CloseSendsTail(cd, s1);
    }
  }

  lemma SplitCanonical(n: nat, ws: seq<seq<byte>>, id: IdRef)
    requires 0 < n
    ensures CanonicalBlocks(n, ws, id)
         == (HeaderFrames(ws, id) + DataFrames(RunBlocks(n, [], ws), Base64, id))
            + (DataFrames(RestBlocks(n, ws), Base64, id) + [DoneFrame(id)])
  {
    var bs := RunBlocks(n, [], ws);
    RunBlocksMeaning(n, [], ws);
    assert [] + Concat(ws) == Concat(ws);
    BlocksUnique(n, bs, RunRest(n, [], ws));
    DataFramesAppend(bs, RestBlocks(n, ws), Base64, id);
    var header, full := HeaderFrames(ws, id), DataFrames(bs, Base64, id);
    var rest := DataFrames(RestBlocks(n, ws), Base64, id);
    Assoc(header, full, rest);
    Assoc(header + full, rest, [DoneFrame(id)]);
  }

  function RestBlocks(n: nat, ws: seq<seq<byte>>): seq<seq<byte>>
    requires 0 < n
  {
    if RunRest(n, [], ws) == [] then [] else [RunRest(n, [], ws)]
  }

  function FirstHeader(s: Stream): seq<Frame> {
    if s.firstWrite then [HeaderFrame(s.id)] else []
  }

  /** The frames one write attempts. */
  function WriteFrames(s: Stream, p: seq<byte>): seq<Frame>
    requires Chunked(s)
  {
    FirstHeader(s) + DataFrames(NewBlocks(s.chunkSize, s.buffer, p), Base64, s.id)
  }

  lemma WriteSends(cd: Codec, s: Stream, p: seq<byte>)
    requires Chunked(s) && (s.firstWrite ==> s.buffer == [])
    ensures var (s1, k, e) := Write(cd, s, p);
            && (s1.chan, e) == SendAll(cd, s.chan, WriteFrames(s, p))
            && (e.None? ==> k == |p| && s1.buffer == NewRest(s.chunkSize, s.buffer, p))
  {
    var fs := DataFrames(NewBlocks(s.chunkSize, s.buffer, p), Base64, s.id);
    SendAllAppend(cd, s.chan, FirstHeader(s), fs);
    SendOne(cd, s.chan, HeaderFrame(s.id));
    var (s0, e0) := Begin(cd, s);
    if e0.None? {
      WriteBlocksSends(cd, s0, p);
    }
  }

  lemma StuckSendsNothing(cd: Codec, c: Channel, fs: seq<Frame>)
    requires c.failed.Some?
    ensures SendAll(cd, c, fs) == (c, if fs == [] then None else c.failed)
  {
  }

  /** How many frames get through: none of them once the encoder has failed. */
  function Through(cd: Codec, c: Channel, fs: seq<Frame>): (k: nat)
    ensures k <= |fs|
  {
    if c.failed.Some? then 0 else FittingPrefix(cd, c.allowance, fs)
  }

  /** The step invariant, also of the first write and of a stuck encoder: a write sends its header and full blocks
      only, keeps the buffer within a block, and even when it fails has let through only a leading part of what
      was accepted. */
  lemma WriteKeepsBlocks(cd: Codec, s: Stream, p: seq<byte>)
    requires Sane(cd) && Chunked(s) && (s.firstWrite ==> s.buffer == []) && s.chan.allowance >= 0
    ensures var (s1, k, e) := Write(cd, s, p);
            var bs := NewBlocks(s.chunkSize, s.buffer, p);
            var sent := Through(cd, s.chan, WriteFrames(s, p));
            && s1.chan.out == s.chan.out + Objects(WriteFrames(s, p)[..sent])
            && (sent > |FirstHeader(s)| ==>
                  WriteFrames(s, p)[..sent] == FirstHeader(s) + DataFrames(bs[..Kept(s, bs, sent)], Base64, s.id))
            && Concat(bs[..Kept(s, bs, sent)]) <= s.buffer + p
            && (forall b :: b in bs ==> |b| == s.chunkSize)
            && |s1.buffer| <= s.chunkSize
            && (e.None? <==> sent == |WriteFrames(s, p)|)
            && (e.None? ==> k == |p| && Concat(bs) + s1.buffer == s.buffer + p)
  {
    var bs := NewBlocks(s.chunkSize, s.buffer, p);
    var fs := WriteFrames(s, p);
    WriteSends(cd, s, p);
    NewBlocksMeaning(s.chunkSize, s.buffer, p);
    ThroughMeaning(cd, s.chan, fs);
    var sent := Through(cd, s.chan, fs);
    PrefixDelivered(bs, Kept(s, bs, sent), s.buffer + p, NewRest(s.chunkSize, s.buffer, p));
    if sent > |FirstHeader(s)| {
      KeptFrames(s, bs, sent);
    }
  }

  lemma ThroughMeaning(cd: Codec, c: Channel, fs: seq<Frame>)
    requires Sane(cd) && c.allowance >= 0
    ensures var (c1, e) := SendAll(cd, c, fs);
            c1.out == c.out + Objects(fs[..Through(cd, c, fs)]) && (e.None? <==> Through(cd, c, fs) == |fs|)
  {
    if c.failed.Some? {
      StuckSendsNothing(cd, c, fs);
      assert c.out + Objects(fs[..0]) == c.out;
    } else {
      SendAllMeaning(cd, c, fs);
    }
  }

  /** How many blocks are among the first `k` frames of a write. */
  function Kept(s: Stream, bs: seq<seq<byte>>, k: nat): (kept: nat)
    requires k <= |FirstHeader(s)| + |bs|
    ensures kept <= |bs|
  {
    if k <= |FirstHeader(s)| then 0 else k - |FirstHeader(s)|
  }

  lemma KeptFrames(s: Stream, bs: seq<seq<byte>>, k: nat)
    requires |FirstHeader(s)| < k <= |FirstHeader(s)| + |bs|
    ensures (FirstHeader(s) + DataFrames(bs, Base64, s.id))[..k]
         == FirstHeader(s) + DataFrames(bs[..Kept(s, bs, k)], Base64, s.id)
  {
    TakeAppend(FirstHeader(s), DataFrames(bs, Base64, s.id), k);
    DataFramesTake(bs, Kept(s, bs, k), Base64, s.id);
  }

  lemma PrefixDelivered(bs: seq<seq<byte>>, k: nat, p: seq<byte>, rest: seq<byte>)
    requires k <= |bs| && Concat(bs) + rest == p
    ensures Concat(bs[..k]) <= p
  {
    assert bs == bs[..k] + bs[k..];
    ConcatAppend(bs[..k], bs[k..]);
  }
}
