/** Argument templates: what they mean, leaf by leaf, and how the program evaluates them. */
module Templates {
  import opened Wire

  /** A template node: a fixed text, a list of nodes, or a reference to a parameter. A reference with `skip`
      is a phantom: it binds the argument to the presence of the parameter without using its value. */
  datatype Arg = Arg(param: string, skip: bool, fixed: bool, compound: bool, child: seq<Arg>)

  datatype ParamValue = Nil | Shown(text: string)

  type Params = map<string, ParamValue>

  const SELF := "self"

  /** Text appended to the output, whether the argument is to be skipped, and whether evaluation failed. */
  datatype Eval = Eval(text: string, skip: bool, failed: bool)

  /** `self` is the JSON text of all parameters, absent if they cannot be encoded. */
  function EvalArg(a: Arg, params: Params, self: Option<string>): Eval
    decreases a, 0
  {
    if a.fixed then Eval(a.param, false, false)
    else if a.param == SELF && self.None? then Eval("", false, true)
    else if a.param == SELF || a.param in params || a.compound then
      var rest := EvalAll(a.child, params, self);
      Eval((if a.skip then "" else ValueOf(a.param, params, self)) + rest.text, rest.skip, rest.failed)
    else Eval("", a.skip, false)
  }

  function ValueOf(name: string, params: Params, self: Option<string>): string
    requires name == SELF ==> self.Some?
  {
    if name == SELF then self.value
    else if name in params && params[name].Shown? then params[name].text
    else ""
  }

  function EvalAll(args: seq<Arg>, params: Params, self: Option<string>): Eval
    decreases args, 1
  {
    if args == [] then Eval("", false, false)
    else Then(EvalArg(args[0], params, self), EvalAll(args[1..], params, self))
  }

  /** Evaluation in sequence; nothing follows a failure. */
  function Then(e: Eval, f: Eval): Eval {
    if e.failed then e else Eval(e.text + f.text, if f.failed then f.skip else e.skip || f.skip, f.failed)
  }

  // ----- templates as the configuration builds them -----

  predicate IsTemplate(a: Arg) {
    if a.compound then
      a.param == "" && !a.skip && !a.fixed && forall c :: c in a.child ==> IsTemplate(c)
    else a.child == [] && (a.fixed ==> !a.skip)
  }

  predicate AreTemplates(args: seq<Arg>) {
    forall a :: a in args ==> IsTemplate(a)
  }

  /** The leaves of a template in order. */
  function Leaves(a: Arg): seq<Arg>
    decreases a, 0
  {
    if a.compound then AllLeaves(a.child) else [a]
  }

  function AllLeaves(args: seq<Arg>): seq<Arg>
    decreases args, 1
  {
    if args == [] then [] else Leaves(args[0]) + AllLeaves(args[1..])
  }

  lemma {:induction false} EvalAllAppend(xs: seq<Arg>, ys: seq<Arg>, params: Params, self: Option<string>)
    ensures EvalAll(xs + ys, params, self) == Then(EvalAll(xs, params, self), EvalAll(ys, params, self))
    decreases |xs|
  {
    if xs == [] {
      assert xs + ys == ys;
      assert "" + EvalAll(ys, params, self).text == EvalAll(ys, params, self).text;
    } else {
      assert (xs + ys)[1..] == xs[1..] + ys;
      EvalAllAppend(xs[1..], ys, params, self);
      ThenAssoc(EvalArg(xs[0], params, self), EvalAll(xs[1..], params, self), EvalAll(ys, params, self));
    }
  }

  lemma ThenAssoc(a: Eval, b: Eval, c: Eval)
    ensures Then(Then(a, b), c) == Then(a, Then(b, c))
  {
  }

  // ----- flattening -----

  /** Nesting has no meaning of its own: a template evaluates like its leaves in order. */
  lemma {:induction false} EvalIsLeaves(a: Arg, params: Params, self: Option<string>)
    requires IsTemplate(a) && "" !in params
    ensures EvalArg(a, params, self) == EvalAll(Leaves(a), params, self)
    decreases a, 0
  {
    if a.compound {
      EvalAllIsLeaves(a.child, params, self);
      assert "" + EvalAll(a.child, params, self).text == EvalAll(a.child, params, self).text;
    } else {
      assert [a][1..] == [];
      var e := EvalArg(a, params, self);
      assert e.text + "" == e.text;
    }
  }

  lemma {:induction false} EvalAllIsLeaves(args: seq<Arg>, params: Params, self: Option<string>)
    requires AreTemplates(args) && "" !in params
    ensures EvalAll(args, params, self) == EvalAll(AllLeaves(args), params, self)
    decreases args, 1
  {
    if args == [] {
    } else {
      assert args[0] in args && AreTemplates(args[1..]);
      EvalIsLeaves(args[0], params, self);
      EvalAllIsLeaves(args[1..], params, self);
      EvalAllAppend(Leaves(args[0]), AllLeaves(args[1..]), params, self);
    }
  }

  function Fixed(text: string): Arg {
    Arg(text, false, true, false, [])
  }

  function List(args: seq<Arg>): Arg {
    Arg("", false, false, true, args)
  }

  /** Adjacent fixed texts become one. */
  function JoinFixed(args: seq<Arg>): (r: seq<Arg>)
    ensures |r| <= |args|
    decreases |args|
  {
    if |args| < 2 then args
    else if args[0].fixed && args[1].fixed then JoinFixed([Fixed(args[0].param + args[1].param)] + args[2..])
    else [args[0]] + JoinFixed(args[1..])
  }

  lemma {:induction false} JoinFixedKeepsEval(args: seq<Arg>, params: Params, self: Option<string>)
    ensures EvalAll(JoinFixed(args), params, self) == EvalAll(args, params, self)
    decreases |args|
  {
    if |args| < 2 {
    } else if args[0].fixed && args[1].fixed {
      var joined := Fixed(args[0].param + args[1].param);
      var rest := EvalAll(args[2..], params, self);
      JoinFixedKeepsEval([joined] + args[2..], params, self);
      assert ([joined] + args[2..])[1..] == args[2..] && args[1..][1..] == args[2..];
      ThenAssoc(EvalArg(args[0], params, self), EvalArg(args[1], params, self), rest);
    } else {
      JoinFixedKeepsEval(args[1..], params, self);
      assert ([args[0]] + JoinFixed(args[1..]))[1..] == JoinFixed(args[1..]);
    }
  }

  /** The simplified form promised by the documentation: one flat list without adjacent fixed texts. */
  function Simplify(a: Arg): Arg {
    List(JoinFixed(Leaves(a)))
  }

  /** Simplifying keeps the produced text, the skip flag and any failure. */
  lemma SimplifyKeepsMeaning(a: Arg, params: Params, self: Option<string>)
    requires IsTemplate(a) && "" !in params
    ensures EvalArg(Simplify(a), params, self) == EvalArg(a, params, self)
  {
    EvalIsLeaves(a, params, self);
    JoinFixedKeepsEval(Leaves(a), params, self);
    assert "" + EvalArg(a, params, self).text == EvalArg(a, params, self).text;
  }

  predicate NoAdjacentFixed(args: seq<Arg>) {
    forall i :: 0 <= i < |args| - 1 ==> !(args[i].fixed && args[i + 1].fixed)
  }

  lemma {:induction false} JoinFixedShape(args: seq<Arg>)
    requires forall a :: a in args ==> !a.compound
    ensures NoAdjacentFixed(JoinFixed(args))
    ensures forall a :: a in JoinFixed(args) ==> !a.compound
    ensures args != [] ==> JoinFixed(args) != [] && JoinFixed(args)[0].fixed == args[0].fixed
    decreases |args|
  {
    if |args| < 2 {
    } else if args[0].fixed && args[1].fixed {
      JoinFixedShape([Fixed(args[0].param + args[1].param)] + args[2..]);
    } else {
      JoinFixedShape(args[1..]);
    }
  }

  lemma {:induction false} LeavesAreFlat(args: seq<Arg>)
    ensures forall l :: l in AllLeaves(args) ==> !l.compound
    decreases args
  {
    if args == [] {
    } else {
      if args[0].compound {
        LeavesAreFlat(args[0].child);
      }
      LeavesAreFlat(args[1..]);
    }
  }

  /** The simplified form has no nested list and no two fixed texts side by side. */
  lemma SimplifyIsSimple(a: Arg)
    ensures NoAdjacentFixed(Simplify(a).child)
    ensures forall l :: l in Simplify(a).child ==> !l.compound
  {
    if a.compound {
      LeavesAreFlat(a.child);
    }
    JoinFixedShape(Leaves(a));
  }

  // ----- what a template denotes -----

  predicate IsSelf(l: Arg) {
    !l.fixed && l.param == SELF
  }

  /** A phantom whose parameter is missing. */
  predicate Hides(l: Arg, params: Params) {
    !l.fixed && l.skip && l.param != SELF && l.param !in params
  }

  function LeafText(l: Arg, params: Params, self: Option<string>): string {
    if l.fixed then l.param
    else if l.skip || (l.param == SELF && self.None?) then ""
    else ValueOf(l.param, params, self)
  }

  function Texts(ls: seq<Arg>, params: Params, self: Option<string>): string {
    if ls == [] then "" else LeafText(ls[0], params, self) + Texts(ls[1..], params, self)
  }

  /** Whether some leaf hides the argument. */
  predicate Hidden(ls: seq<Arg>, params: Params) {
    exists i :: 0 <= i < |ls| && Hides(ls[i], params)
  }

  /** Whether evaluation fails: `self` is used and cannot be encoded. */
  predicate Fails(ls: seq<Arg>, self: Option<string>) {
    self.None? && exists i :: 0 <= i < |ls| && IsSelf(ls[i])
  }

  lemma LeafMeaning(l: Arg, params: Params, self: Option<string>)
    requires !l.compound && l.child == []
    ensures var e := EvalArg(l, params, self);
            && (e.failed <==> self.None? && IsSelf(l))
            && (!e.failed ==> e.text == LeafText(l, params, self) && (e.skip <==> Hides(l, params)))
  {
    assert EvalAll([], params, self) == Eval("", false, false);
    var e := EvalArg(l, params, self);
    assert LeafText(l, params, self) + "" == LeafText(l, params, self);
  }

  lemma {:induction false} LeavesMeaning(ls: seq<Arg>, params: Params, self: Option<string>)
    requires forall l :: l in ls ==> !l.compound && l.child == []
    ensures var e := EvalAll(ls, params, self);
            && (e.failed <==> Fails(ls, self))
            && (!e.failed ==> e.text == Texts(ls, params, self) && (e.skip <==> Hidden(ls, params)))
    decreases |ls|
  {
    if ls == [] {
    } else {
      var l, rest := ls[0], ls[1..];
      assert l in ls && (forall x :: x in rest ==> x in ls);
      LeavesMeaning(rest, params, self);
      LeafMeaning(l, params, self);
      HeadOrRest(ls, params, self);
    }
  }

  lemma HeadOrRest(ls: seq<Arg>, params: Params, self: Option<string>)
    requires ls != []
    ensures Hidden(ls, params) <==> Hides(ls[0], params) || Hidden(ls[1..], params)
    ensures Fails(ls, self) <==> (self.None? && IsSelf(ls[0])) || Fails(ls[1..], self)
  {
    assert forall i :: 0 <= i < |ls[1..]| ==> ls[1..][i] == ls[i + 1];
    if Hidden(ls[1..], params) {
      var i :| 0 <= i < |ls[1..]| && Hides(ls[1..][i], params);
      assert Hides(ls[i + 1], params);
    }
    if Hidden(ls, params) && !Hides(ls[0], params) {
      var i :| 0 <= i < |ls| && Hides(ls[i], params);
      assert Hides(ls[1..][i - 1], params);
    }
    if Fails(ls[1..], self) {
      var i :| 0 <= i < |ls[1..]| && IsSelf(ls[1..][i]);
      assert IsSelf(ls[i + 1]);
    }
    if Fails(ls, self) && !IsSelf(ls[0]) {
      var i :| 0 <= i < |ls| && IsSelf(ls[i]);
      assert IsSelf(ls[1..][i - 1]);
    }
  }

  lemma {:induction false} LeavesAreLeaves(args: seq<Arg>)
    requires AreTemplates(args)
    ensures forall l :: l in AllLeaves(args) ==> !l.compound && l.child == []
    decreases args
  {
    if args == [] {
    } else {
      assert args[0] in args && AreTemplates(args[1..]);
      if args[0].compound {
        LeavesAreLeaves(args[0].child);
      }
      LeavesAreLeaves(args[1..]);
    }
  }

  /** The denotation of one argument: the texts of its leaves, hidden exactly if a phantom leaf names a missing
      parameter. */
  lemma ArgMeaning(a: Arg, params: Params, self: Option<string>)
    requires IsTemplate(a) && "" !in params
    ensures var e := EvalArg(a, params, self);
            && (e.failed <==> Fails(Leaves(a), self))
            && (!e.failed ==> e.text == Texts(Leaves(a), params, self) && (e.skip <==> Hidden(Leaves(a), params)))
  {
    EvalIsLeaves(a, params, self);
    if a.compound {
      LeavesAreLeaves(a.child);
    }
    LeavesMeaning(Leaves(a), params, self);
  }

  // ----- argument lists -----

  /** The argument list built one template at a time, unless one fails. */
  function ArgList(args: seq<Arg>, params: Params, self: Option<string>): Option<seq<string>> {
    if args == [] then Some([])
    else
      var e := EvalArg(args[0], params, self);
      if e.failed then None
      else
        Prepend(if e.skip then [] else [e.text], ArgList(args[1..], params, self))
  }

  /** The list promised: the denotations, in order, of the arguments that are not hidden. */
  function Promised(args: seq<Arg>, params: Params, self: Option<string>): seq<string> {
    if args == [] then []
    else
      (if Hidden(Leaves(args[0]), params) then [] else [Texts(Leaves(args[0]), params, self)])
      + Promised(args[1..], params, self)
  }

  lemma {:induction false} ArgListMeaning(args: seq<Arg>, params: Params, self: Option<string>)
    requires AreTemplates(args) && "" !in params
    ensures ArgList(args, params, self)
         == if exists a :: a in args && Fails(Leaves(a), self) then None else Some(Promised(args, params, self))
    decreases |args|
  {
    if args == [] {
    } else {
      assert args[0] in args && AreTemplates(args[1..]);
      ArgMeaning(args[0], params, self);
      ArgListMeaning(args[1..], params, self);
      assert forall a :: a in args <==> a == args[0] || a in args[1..];
    }
  }

  // ----- argument lists on plain cases -----

  /** A reference to a parameter; with `phantom`, to its presence alone. */
  function Reference(name: string, phantom: bool): Arg {
    Arg(name, phantom, false, false, [])
  }

  /** An argument that shows `n` between two fixed texts. */
  function Around(u: string, n: string, phantom: bool, v: string): Arg {
    List([Fixed(u), Reference(n, phantom), Fixed(v)])
  }

  lemma EvalThree(a: Arg, b: Arg, c: Arg, params: Params, self: Option<string>)
    requires "" !in params
    ensures var (x, y, z) := (EvalArg(a, params, self), EvalArg(b, params, self), EvalArg(c, params, self));
            !x.failed && !y.failed && !z.failed ==>
              EvalArg(List([a, b, c]), params, self)
              == Eval(x.text + y.text + z.text, x.skip || y.skip || z.skip, false)
    ensures !EvalArg(a, params, self).failed && EvalArg(b, params, self).failed ==>
              EvalArg(List([a, b, c]), params, self).failed
  {
    var x, y, z := EvalArg(a, params, self), EvalArg(b, params, self), EvalArg(c, params, self);
    assert EvalAll([], params, self) == Eval("", false, false);
    assert [a, b, c][1..] == [b, c] && [b, c][1..] == [c] && [c][1..] == [];
    assert EvalAll([c], params, self) == Then(z, Eval("", false, false));
    assert EvalAll([b, c], params, self) == Then(y, EvalAll([c], params, self));
    assert z.text + "" == z.text;
    Assoc(x.text, y.text, z.text);
    var all := EvalAll([a, b, c], params, self);
    assert all == Then(x, EvalAll([b, c], params, self));
    assert "" + all.text == all.text;
  }

  lemma EvalReference(n: string, phantom: bool, params: Params, self: Option<string>)
    ensures n != SELF ==>
              var t := if !phantom && n in params && params[n].Shown? then params[n].text else "";
              EvalArg(Reference(n, phantom), params, self) == Eval(t, phantom && n !in params, false)
    ensures self.Some? ==> EvalArg(Reference(SELF, false), params, self) == Eval(self.value, false, false)
    ensures self.None? ==> EvalArg(Reference(SELF, false), params, self).failed
  {
    assert EvalAll([], params, self) == Eval("", false, false);
    var e := EvalArg(Reference(n, phantom), params, self);
    assert n in params && params[n].Shown? ==> params[n].text + "" == params[n].text;
    assert self.Some? ==> self.value + "" == self.value;
  }

  lemma ArgListCons(a: Arg, args: seq<Arg>, params: Params, self: Option<string>)
    ensures var e := EvalArg(a, params, self);
            ArgList([a] + args, params, self)
            == if e.failed then None else Prepend(if e.skip then [] else [e.text], ArgList(args, params, self))
  {
    assert ([a] + args)[1..] == args;
  }

  /** A plain reference gives the text of its parameter, once, where it stands; an absent or empty parameter gives
      no text. Either way the argument is one of the list, ahead of the others. */
  lemma PlainReference(u: string, n: string, v: string, args: seq<Arg>, params: Params, self: Option<string>)
    requires n != SELF && "" !in params && ArgList(args, params, self).Some?
    ensures var list := ArgList([Around(u, n, false, v)] + args, params, self);
            var others := ArgList(args, params, self).value;
            && (n in params && params[n].Shown? ==> list == Some([u + params[n].text + v] + others))
            && (n !in params || params[n].Nil? ==> list == Some([u + v] + others))
    ensures ArgList([], params, self) == Some([])
  {
    EvalReference(n, false, params, self);
    EvalThree(Fixed(u), Reference(n, false), Fixed(v), params, self);
    ArgListCons(Around(u, n, false, v), args, params, self);
    assert u + "" == u;
  }

  /** A phantom gives no text. The argument is there if the parameter is, and is left out otherwise; then nothing of
      it shows in the others. */
  lemma PhantomReference(u: string, n: string, v: string, args: seq<Arg>, params: Params, self: Option<string>)
    requires n != SELF && "" !in params && ArgList(args, params, self).Some?
    ensures var list := ArgList([Around(u, n, true, v)] + args, params, self);
            var others := ArgList(args, params, self).value;
            list == Some(if n in params then [u + v] + others else others)
  {
    EvalReference(n, true, params, self);
    EvalThree(Fixed(u), Reference(n, true), Fixed(v), params, self);
    ArgListCons(Around(u, n, true, v), args, params, self);
    assert u + "" == u && [] + ArgList(args, params, self).value == ArgList(args, params, self).value;
  }

  /** `self` gives the JSON text of all parameters, and no list at all if they cannot be encoded. */
  lemma SelfReference(u: string, v: string, args: seq<Arg>, params: Params, self: Option<string>)
    requires "" !in params && ArgList(args, params, self).Some?
    ensures var list := ArgList([Around(u, SELF, false, v)] + args, params, self);
            list == if self.Some? then Some([u + self.value + v] + ArgList(args, params, self).value) else None
  {
    EvalReference(SELF, false, params, self);
    EvalThree(Fixed(u), Reference(SELF, false), Fixed(v), params, self);
    ArgListCons(Around(u, SELF, false, v), args, params, self);
  }

  // ----- the program -----

  class Buffer {
    var text: string

    constructor ()
      ensures text == ""
    {
      text := "";
    }

    method WriteString(s: string)
      modifies this
      ensures text == old(text) + s
    {
      text := text + s;
    }

    method Reset()
      modifies this
      ensures text == ""
    {
      text := "";
    }
  }

  /** Appends to a shared buffer. */
  method EvaluateArgs(a: Arg, params: Params, self: Option<string>, output: Buffer) returns (skip: bool, failed: bool)
    modifies output
    ensures var e := EvalArg(a, params, self);
            output.text == old(output.text) + e.text && skip == e.skip && failed == e.failed
    decreases a, 0
  {
    if a.fixed {
      output.WriteString(a.param);
      return false, false;
    }
    var value := "";
    var has := a.param in params;
    if has && params[a.param].Shown? {
      value := params[a.param].text;
    }
    if a.param == SELF {
      has := true;
      match self
      case Some(json) => value := json;
      case None => return false, true;
    }
    if !has && !a.compound {
      return a.skip, false;
    }
    if !a.skip {
      output.WriteString(value);
    }
    skip, failed := EvaluateChildren(a.child, params, self, output);
  }

  method EvaluateChildren(args: seq<Arg>, params: Params, self: Option<string>, output: Buffer)
    returns (skip: bool, failed: bool)
    modifies output
    ensures var e := EvalAll(args, params, self);
            output.text == old(output.text) + e.text && skip == e.skip && failed == e.failed
    decreases args, 1
  {
    ghost var start := output.text;
    ghost var done := Eval("", false, false);
    skip := false;
    for i := 0 to |args|
      invariant done == Eval(done.text, skip, false) && output.text == start + done.text
      invariant EvalAll(args, params, self) == Then(done, EvalAll(args[i..], params, self))
    {
      ghost var e, rest := EvalArg(args[i], params, self), EvalAll(args[i + 1..], params, self);
      assert args[i..][0] == args[i] && args[i..][1..] == args[i + 1..];
      ThenAssoc(done, e, rest);
      var childSkip, childFailed := EvaluateArgs(args[i], params, self, output);
      done := Then(done, e);
      if childFailed {
        return childSkip, true;
      }
      skip := skip || childSkip;
    }
    assert done.text + "" == done.text;
    failed := false;
  }

  function Prepend(xs: seq<string>, r: Option<seq<string>>): Option<seq<string>> {
    match r
    case None => None
    case Some(rest) => Some(xs + rest)
  }

  /** Builds the argument list with one buffer for all arguments. */
  method PrepareArguments(args: seq<Arg>, params: Params, self: Option<string>) returns (r: Option<seq<string>>)
    ensures r == ArgList(args, params, self)
    ensures AreTemplates(args) && "" !in params ==>
              r == if exists a :: a in args && Fails(Leaves(a), self) then None else Some(Promised(args, params, self))
  {
    var buffer := new Buffer();
    var appArguments := [];
    assert args[0..] == args;
    PrependTwice([], [], ArgList(args, params, self));
    for i := 0 to |args|
      invariant buffer.text == "" && fresh(buffer)
      invariant ArgList(args, params, self) == Prepend(appArguments, ArgList(args[i..], params, self))
    {
      assert args[i..][0] == args[i] && args[i..][1..] == args[i + 1..];
      ghost var rest := ArgList(args[i + 1..], params, self);
      ghost var e := EvalArg(args[i], params, self);
      var skip, failed := EvaluateArgs(args[i], params, self, buffer);
      assert buffer.text == e.text;
      PrependTwice(appArguments, if e.skip then [] else [e.text], rest);
      if failed {
        ArgListIfTemplates(args, params, self);
        return None;
      }
      if !skip {
        appArguments := appArguments + [buffer.text];
      }
      buffer.Reset();
    }
    ArgListIfTemplates(args, params, self);
    PrependTwice(appArguments, [], Some([]));
    r := Some(appArguments);
  }

  lemma ArgListIfTemplates(args: seq<Arg>, params: Params, self: Option<string>)
    ensures AreTemplates(args) && "" !in params ==>
              ArgList(args, params, self)
              == if exists a :: a in args && Fails(Leaves(a), self) then None else Some(Promised(args, params, self))
  {
    if AreTemplates(args) && "" !in params {
      ArgListMeaning(args, params, self);
    }
  }

  lemma PrependTwice(xs: seq<string>, ys: seq<string>, r: Option<seq<string>>)
    ensures Prepend(xs, Prepend(ys, r)) == Prepend(xs + ys, r)
    ensures Prepend([], r) == r && xs + [] == xs
  {
    match r
    case None =>
    case Some(rest) =>
      assert xs + (ys + rest) == xs + ys + rest;
      assert [] + rest == rest;
  }
}
