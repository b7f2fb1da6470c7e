/** Cutting a byte stream into lines and into blocks, independently of how it was written. */
module Framing {
  import opened Wire

  // ----- lines -----

  /** The index of the first newline, or the length. */
  function LineEnd(p: seq<byte>): (i: nat)
    ensures i <= |p| && NEWLINE !in p[..i]
    ensures i < |p| ==> p[i] == NEWLINE
  {
    if p == [] || p[0] == NEWLINE then 0
    else
      var i := LineEnd(p[1..]);
      assert p[..i + 1] == [p[0]] + p[1..][..i];
      i + 1
  }

  lemma {:induction false} LineEndAt(a: seq<byte>, rest: seq<byte>)
    requires NEWLINE !in a
    ensures LineEnd(a) == |a|
    ensures LineEnd(a + [NEWLINE] + rest) == |a|
  {
    var p := a + [NEWLINE] + rest;
    assert p[|a|] == NEWLINE && p[|a|] in p[..|a| + 1];
    assert forall k :: 0 <= k < |a| ==> p[k] == a[k];
    assert a[..LineEnd(a)] <= a;
  }

  /** The pieces of `p` cut behind each newline; the last piece has none and may be empty. */
  function SplitAfter(p: seq<byte>): (ps: seq<seq<byte>>)
    ensures ps != [] && Concat(ps) == p
    ensures forall k :: 0 <= k < |ps| - 1 ==> LineEnd(ps[k]) + 1 == |ps[k]|
    ensures NEWLINE !in ps[|ps| - 1]
    decreases |p|
  {
    var i := LineEnd(p);
    if i == |p| then
      assert Concat([p]) == p + Concat([]);
      assert p[..i] == p;
      [p]
    else
      assert p == p[..i + 1] + p[i + 1..];
      LineEndAt(p[..i], []);
      assert p[..i + 1] == p[..i] + [NEWLINE] + [];
      [p[..i + 1]] + SplitAfter(p[i + 1..])
  }

  /** The newline-terminated lines of `p`, without their newlines. */
  function Lines(p: seq<byte>): seq<seq<byte>>
    decreases |p|
  {
    var i := LineEnd(p);
    if i == |p| then [] else [p[..i]] + Lines(p[i + 1..])
  }

  /** What follows the last newline of `p`. */
  function Tail(p: seq<byte>): seq<byte>
    decreases |p|
  {
    var i := LineEnd(p);
    if i == |p| then p else Tail(p[i + 1..])
  }

  lemma LinesOfLine(a: seq<byte>, rest: seq<byte>)
    requires NEWLINE !in a
    ensures Lines(a + [NEWLINE] + rest) == [a] + Lines(rest)
    ensures Tail(a + [NEWLINE] + rest) == Tail(rest)
    ensures Lines(a) == [] && Tail(a) == a
  {
    LineEndAt(a, rest);
    var p := a + [NEWLINE] + rest;
    assert p[..|a|] == a && p[|a| + 1..] == rest;
  }

  lemma LinesBehindLine(a: seq<byte>, rest: seq<byte>, w: seq<byte>)
    requires NEWLINE !in a
    ensures var q := a + [NEWLINE] + rest;
            && Lines(q) == [a] + Lines(rest) && Tail(q) == Tail(rest)
            && Lines(q + w) == [a] + Lines(rest + w) && Tail(q + w) == Tail(rest + w)
  {
    Assoc(a + [NEWLINE], rest, w);
    LinesOfLine(a, rest);
    LinesOfLine(a, rest + w);
  }

  lemma {:induction false} LinesAppend(q: seq<byte>, w: seq<byte>)
    ensures Lines(q + w) == Lines(q) + Lines(Tail(q) + w)
    ensures Tail(q + w) == Tail(Tail(q) + w)
    decreases |q|
  {
    var i := LineEnd(q);
    if i == |q| {
    } else {
      var a, rest := q[..i], q[i + 1..];
      SplitAt(q, i);
      LinesBehindLine(a, rest, w);
      LinesAppend(rest, w);
      Assoc([a], Lines(rest), Lines(Tail(rest) + w));
    }
  }

  /** The frames a finished stream shows: every line, then the tail unless it is empty. */
  function Shown(p: seq<byte>): seq<seq<byte>> {
    Lines(p) + (if Tail(p) == [] then [] else [Tail(p)])
  }

  function Join(ps: seq<seq<byte>>): seq<byte> {
    if ps == [] then []
    else if |ps| == 1 then ps[0]
    else ps[0] + [NEWLINE] + Join(ps[1..])
  }

  /** Joining only some leading lines gives a leading part. */
  lemma {:induction false} JoinLeading(ps: seq<seq<byte>>, more: seq<seq<byte>>)
    ensures Join(ps) <= Join(ps + more)
    decreases |ps|
  {
    if ps == [] {
    } else {
      JoinLeading(ps[1..], more);
      JoinCons(ps[0], ps[1..]);
      JoinCons(ps[0], ps[1..] + more);
      assert [ps[0]] + ps[1..] == ps && [ps[0]] + (ps[1..] + more) == ps + more;
    }
  }

  predicate EndsInNewline(p: seq<byte>) {
    p != [] && p[|p| - 1] == NEWLINE
  }

  lemma ShownOfLine(a: seq<byte>, rest: seq<byte>)
    requires NEWLINE !in a
    ensures Shown(a + [NEWLINE] + rest) == [a] + Shown(rest)
    ensures rest != [] ==> Shown(rest) != []
    ensures Shown([]) == [] && Shown(a) == if a == [] then [] else [a]
  {
    LinesOfLine(a, rest);
  }

  lemma JoinCons(a: seq<byte>, ps: seq<seq<byte>>)
    ensures Join([a] + ps) == if ps == [] then a else a + [NEWLINE] + Join(ps)
  {
    assert ([a] + ps)[1..] == ps;
  }

  lemma EndsLikeRest(a: seq<byte>, rest: seq<byte>)
    ensures EndsInNewline(a + [NEWLINE] + rest) <==> rest == [] || EndsInNewline(rest)
  {
  }

  /** Nothing is lost by framing: the shown lines and one bit rebuild the stream. */
  lemma {:induction false} ShownRebuilds(p: seq<byte>)
    ensures p == Join(Shown(p)) + (if EndsInNewline(p) then [NEWLINE] else [])
    decreases |p|
  {
    var i := LineEnd(p);
    var a := p[..i];
    if i < |p| {
      var rest := p[i + 1..];
      SplitAt(p, i);
      ShownRebuilds(rest);
      ShownOfLine(a, rest);
      JoinCons(a, Shown(rest));
      EndsLikeRest(a, rest);
      Assoc(a + [NEWLINE], Join(Shown(rest)), if EndsInNewline(rest) then [NEWLINE] else []);
    } else {
      assert p == a;
      ShownOfLine(a, []);
      Assoc(a, [], []);
    }
  }

  lemma SplitAt(p: seq<byte>, i: nat)
    requires i < |p| && p[i] == NEWLINE
    ensures p == p[..i] + [NEWLINE] + p[i + 1..]
  {
  }

  /** A shown line holds no newline. */
  lemma {:induction false} LinesHoldNoNewline(p: seq<byte>)
    ensures forall l :: l in Lines(p) ==> NEWLINE !in l
    ensures NEWLINE !in Tail(p)
    decreases |p|
  {
    var i := LineEnd(p);
    if i < |p| {
      LinesHoldNoNewline(p[i + 1..]);
    } else {
      assert p[..i] == p;
    }
  }

  // ----- blocks -----

  /** The canonical cut of `p` into blocks of `n` bytes. */
  function Blocks(n: nat, p: seq<byte>): seq<seq<byte>>
    requires n > 0
    decreases |p|
  {
    if p == [] then [] else if |p| <= n then [p] else [p[..n]] + Blocks(n, p[n..])
  }

  lemma {:induction false} BlocksConcat(n: nat, p: seq<byte>)
    requires n > 0
    ensures Concat(Blocks(n, p)) == p
    decreases |p|
  {
    if p == [] {
    } else if |p| <= n {
      ConcatCons(p, []);
      assert [p] + [] == [p];
    } else {
      BlocksConcat(n, p[n..]);
      ConcatCons(p[..n], Blocks(n, p[n..]));
      SliceJoin(p, 0, n, |p|);
    }
  }

  lemma {:induction false} BlocksMeaning(n: nat, p: seq<byte>)
    requires n > 0
    ensures var bs := Blocks(n, p);
            && Concat(bs) == p
            && (forall i :: 0 <= i < |bs| - 1 ==> |bs[i]| == n)
            && (bs != [] ==> 1 <= |bs[|bs| - 1]| <= n)
    decreases |p|
  {
    BlocksConcat(n, p);
    if |p| <= n {
    } else {
      BlocksMeaning(n, p[n..]);
    }
  }

  lemma BlocksCons(n: nat, b: seq<byte>, q: seq<byte>)
    requires n > 0 && |b| == n
    ensures Blocks(n, b + q) == [b] + Blocks(n, q)
  {
    var p := b + q;
    if q == [] {
      assert p == b;
    } else {
      assert p[..n] == b && p[n..] == q;
    }
  }

  /** Any full blocks with a short rest are the canonical cut of their concatenation. */
  lemma {:induction false} BlocksUnique(n: nat, bs: seq<seq<byte>>, rest: seq<byte>)
    requires n > 0 && |rest| <= n
    requires forall b :: b in bs ==> |b| == n
    ensures Blocks(n, Concat(bs) + rest) == bs + (if rest == [] then [] else [rest])
    decreases |bs|
  {
    if bs == [] {
      assert Concat(bs) + rest == rest;
    } else {
      var more := bs[1..];
      assert bs[0] in bs;
      BlocksUnique(n, more, rest);
      BlocksCons(n, bs[0], Concat(more) + rest);
      Assoc(bs[0], Concat(more), rest);
      Assoc([bs[0]], more, if rest == [] then [] else [rest]);
      assert [bs[0]] + more == bs;
    }
  }

  lemma ConcatCons(p: seq<byte>, ps: seq<seq<byte>>)
    ensures Concat([p] + ps) == p + Concat(ps)
  {
    assert ([p] + ps)[1..] == ps;
  }

  lemma ConcatAppend(ps: seq<seq<byte>>, qs: seq<seq<byte>>)
    ensures Concat(ps + qs) == Concat(ps) + Concat(qs)
  {
    if ps == [] {
      assert ps + qs == qs;
    } else {
      assert (ps + qs)[1..] == ps[1..] + qs;
      ConcatAppend(ps[1..], qs);
    }
  }

  /** The blocks cut from `p` at offset `at` while more than a block remains. */
  function FullBlocks(n: nat, p: seq<byte>, at: nat): seq<seq<byte>>
    requires n > 0 && at <= |p|
    decreases |p| - at
  {
    if at + n < |p| then [p[at..at + n]] + FullBlocks(n, p, at + n) else []
  }

  /** Where the loop cutting full blocks stops. */
  function CutEnd(n: nat, p: seq<byte>, at: nat): (end: nat)
    requires n > 0 && at <= |p|
    ensures at <= end <= |p| && |p| - end <= n
    decreases |p| - at
  {
    if at + n < |p| then CutEnd(n, p, at + n) else at
  }

  lemma {:induction false} FullBlocksAreFull(n: nat, p: seq<byte>, at: nat)
    requires n > 0 && at <= |p|
    ensures forall b :: b in FullBlocks(n, p, at) ==> |b| == n
    decreases |p| - at
  {
    if at + n >= |p| {
    } else {
      FullBlocksAreFull(n, p, at + n);
    }
  }

  lemma {:induction false} FullBlocksConcat(n: nat, p: seq<byte>, at: nat)
    requires n > 0 && at <= |p|
    ensures Concat(FullBlocks(n, p, at)) == p[at..CutEnd(n, p, at)]
    decreases |p| - at
  {
    if at + n >= |p| {
    } else {
      FullBlocksConcat(n, p, at + n);
      CutOne(n, p, at, FullBlocks(n, p, at + n), CutEnd(n, p, at + n));
    }
  }

  lemma CutOne(n: nat, p: seq<byte>, at: nat, rest: seq<seq<byte>>, end: nat)
    requires at + n <= end <= |p| && Concat(rest) == p[at + n..end]
    ensures Concat([p[at..at + n]] + rest) == p[at..end]
  {
    ConcatCons(p[at..at + n], rest);
    SliceJoin(p, at, at + n, end);
  }

  lemma SliceJoin(p: seq<byte>, i: nat, j: nat, k: nat)
    requires i <= j <= k <= |p|
    ensures p[i..j] + p[j..k] == p[i..k]
  {
  }
}
