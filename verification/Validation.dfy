/** The static check of a method definition, and what it guarantees about argument lists. */
module Validation {
  import opened Wire
  import opened Templates

  // ----- the check -----

  /** The parameter names a template refers to. */
  function Names(a: Arg): set<string>
    decreases a, 0
  {
    (if !a.fixed && !a.compound && a.param != SELF then {a.param} else {}) + AllNames(a.child)
  }

  function AllNames(args: seq<Arg>): set<string>
    decreases args, 1
  {
    if args == [] then {} else Names(args[0]) + AllNames(args[1..])
  }

  lemma {:induction false} AllNamesSnoc(args: seq<Arg>, a: Arg)
    ensures AllNames(args + [a]) == AllNames(args) + Names(a)
    decreases |args|
  {
    if args == [] {
      assert args + [a] == [a] && [a][1..] == [];
    } else {
      assert (args + [a])[1..] == args[1..] + [a];
      AllNamesSnoc(args[1..], a);
    }
  }

  class NameTable {
    var entries: map<string, bool>

    constructor ()
      ensures entries == map[]
    {
      entries := map[];
    }
  }

  function Mark(m: map<string, bool>, names: set<string>): map<string, bool> {
    m + (map n | n in names :: true)
  }

  lemma MarkTwice(m: map<string, bool>, x: set<string>, y: set<string>)
    ensures Mark(Mark(m, x), y) == Mark(m, x + y)
    ensures Mark(m, {}) == m
  {
  }

  /** Adds the names of a template to a shared table. */
  method AggregateArgs(a: Arg, b: NameTable)
    modifies b
    ensures b.entries == Mark(old(b.entries), Names(a))
    decreases a
  {
    ghost var own: set<string> := {};
    if !a.fixed && !a.compound && a.param != SELF {
      b.entries := b.entries[a.param := true];
      own := {a.param};
    }
    assert b.entries == Mark(old(b.entries), own);
    for i := 0 to |a.child|
      invariant b.entries == Mark(old(b.entries), own + AllNames(a.child[..i]))
    {
      assert a.child[..i + 1] == a.child[..i] + [a.child[i]];
      AllNamesSnoc(a.child[..i], a.child[i]);
      AggregateArgs(a.child[i], b);
      MarkTwice(old(b.entries), own + AllNames(a.child[..i]), Names(a.child[i]));
      assert own + AllNames(a.child[..i]) + Names(a.child[i]) == own + AllNames(a.child[..i + 1]);
    }
    assert a.child[..|a.child|] == a.child;
  }

  /** Accepts exactly the definitions whose references are all declared, and otherwise names one that is not. */
  method Validate(args: seq<Arg>, params: set<string>) returns (undeclared: Option<string>)
    ensures undeclared.None? <==> AllNames(args) <= params
    ensures undeclared.Some? ==> undeclared.value in AllNames(args) - params
  {
    var definedArgs := new NameTable();
    for i := 0 to |args|
      invariant fresh(definedArgs) && definedArgs.entries.Keys == AllNames(args[..i])
    {
      assert args[..i + 1] == args[..i] + [args[i]];
      AllNamesSnoc(args[..i], args[i]);
      AggregateArgs(args[i], definedArgs);
    }
    assert args[..|args|] == args;
    var definedParams: map<string, bool> := map n | n in params :: true;
    var todo := definedArgs.entries.Keys;
    while todo != {}
      invariant todo <= definedArgs.entries.Keys && definedArgs.entries.Keys - todo <= params
      invariant definedParams.Keys == params
      decreases todo
    {
      var k :| k in todo;
      if k in definedParams {
        definedParams := definedParams[k := false];
      } else {
        return Some(k);
      }
      todo := todo - {k};
    }
    undeclared := None;
  }

  // ----- what the check guarantees -----

  ghost predicate Agree(p: Params, q: Params, names: set<string>) {
    forall n :: n in names ==> (n in p <==> n in q) && (n in p ==> p[n] == q[n])
  }

  /** No reference to the parameters as a whole. */
  predicate NoSelf(args: seq<Arg>) {
    forall l :: l in AllLeaves(args) ==> !IsSelf(l)
  }

  lemma {:induction false} NoSelfParts(args: seq<Arg>)
    requires args != [] && NoSelf(args)
    ensures NoSelf([args[0]]) && NoSelf(args[1..])
    ensures args[0].compound ==> NoSelf(args[0].child)
  {
    assert [args[0]][1..] == [] && AllLeaves([args[0]]) == Leaves(args[0]) + [];
  }

  lemma {:induction false} NamesDecide(args: seq<Arg>, p: Params, q: Params, self: Option<string>)
    requires AreTemplates(args) && NoSelf(args) && "" !in p && "" !in q
    requires Agree(p, q, AllNames(args))
    ensures EvalAll(args, p, self) == EvalAll(args, q, self)
    decreases args
  {
    if args == [] {
    } else {
      var a := args[0];
      assert a in args && AreTemplates(args[1..]);
      NoSelfParts(args);
      NamesDecide(args[1..], p, q, self);
      assert AllNames(a.child) <= Names(a) <= AllNames(args);
      if a.compound {
        NamesDecide(a.child, p, q, self);
      } else {
        assert EvalAll([], p, self) == EvalAll([], q, self);
        assert a in Leaves(a) && a in AllLeaves(args) && !IsSelf(a);
        assert !a.fixed ==> a.param in AllNames(args);
      }
    }
  }

  lemma {:induction false} NamesDecideList(args: seq<Arg>, p: Params, q: Params, self: Option<string>)
    requires AreTemplates(args) && NoSelf(args) && "" !in p && "" !in q
    requires Agree(p, q, AllNames(args))
    ensures ArgList(args, p, self) == ArgList(args, q, self)
    decreases |args|
  {
    if args == [] {
    } else {
      var a := args[0];
      assert a in args && AreTemplates(args[1..]) && AreTemplates([a]);
      NoSelfParts(args);
      assert AllNames([a]) == Names(a) + AllNames([]) by { assert [a][1..] == []; }
      NamesDecide([a], p, q, self);
      EvalOne(a, p, self);
      EvalOne(a, q, self);
      NamesDecideList(args[1..], p, q, self);
    }
  }

  lemma EvalOne(a: Arg, p: Params, self: Option<string>)
    ensures EvalAll([a], p, self) == EvalArg(a, p, self)
  {
    assert [a][1..] == [];
    var e := EvalArg(a, p, self);
    assert e.text + "" == e.text;
  }

  /** The argument list is a function of the declared parameters alone. */
  ghost predicate ReadsOnly(args: seq<Arg>, declared: set<string>, self: Option<string>) {
    forall p: Params, q: Params :: "" !in p && "" !in q && Agree(p, q, declared) ==>
      ArgList(args, p, self) == ArgList(args, q, self)
  }

  // ----- an undeclared name can be told from outside -----

  /** Every name bound to a parameter without text. */
  function AllPresent(names: set<string>): Params {
    map n | n in names :: Nil
  }

  /** A leaf referring to a parameter, by value or as a phantom. */
  predicate RefersTo(l: Arg, name: string, phantom: bool) {
    !l.fixed && l.param == name && l.skip == phantom
  }

  lemma {:induction false} NamesAreLeaves(args: seq<Arg>, n: string) returns (a: Arg, l: Arg)
    requires AreTemplates(args) && n in AllNames(args)
    ensures a in args && l in Leaves(a) && RefersTo(l, n, l.skip) && n != SELF
    decreases args
  {
    if n in Names(args[0]) {
      a := args[0];
      assert a in args;
      if a.compound {
        var inner;
        inner, l := NamesAreLeaves(a.child, n);
        LeavesContain(a.child, inner);
      } else {
        assert a.child == [] && AllNames([]) == {};
        l := a;
      }
    } else {
      assert AreTemplates(args[1..]);
      a, l := NamesAreLeaves(args[1..], n);
    }
  }

  lemma {:induction false} LeavesContain(args: seq<Arg>, a: Arg)
    requires a in args
    ensures forall l :: l in Leaves(a) ==> l in AllLeaves(args)
    decreases |args|
  {
    if a == args[0] {
    } else {
      LeavesContain(args[1..], a);
    }
  }

  /** Parameters under which nothing is hidden. */
  predicate Binds(args: seq<Arg>, p: Params) {
    "" !in p && AllNames(args) <= p.Keys
  }

  lemma {:induction false} LeavesAreNamed(args: seq<Arg>)
    requires AreTemplates(args)
    ensures forall l :: l in AllLeaves(args) && !l.fixed && l.param != SELF ==> l.param in AllNames(args)
    decreases args
  {
    if args == [] {
    } else {
      var a := args[0];
      assert a in args && AreTemplates(args[1..]);
      LeavesAreNamed(args[1..]);
      if a.compound {
        LeavesAreNamed(a.child);
      }
    }
  }

  lemma BoundArg(args: seq<Arg>, a: Arg, p: Params, self: Option<string>)
    requires AreTemplates(args) && NoSelf(args) && Binds(args, p) && a in args
    ensures EvalArg(a, p, self) == Eval(Texts(Leaves(a), p, self), false, false)
  {
    LeavesAreNamed(args);
    LeavesContain(args, a);
    ArgMeaning(a, p, self);
  }

  /** With every name bound, the list holds the text of every argument. */
  lemma {:induction false} BoundListIsWhole(args: seq<Arg>, p: Params, self: Option<string>)
    requires AreTemplates(args) && NoSelf(args) && Binds(args, p)
    ensures ArgList(args, p, self).Some?
    ensures var list := ArgList(args, p, self).value;
            |list| == |args| && forall i :: 0 <= i < |args| ==> list[i] == Texts(Leaves(args[i]), p, self)
    decreases |args|
  {
    if args == [] {
    } else {
      assert AreTemplates(args[1..]);
      NoSelfParts(args);
      BoundArg(args, args[0], p, self);
      BoundListIsWhole(args[1..], p, self);
    }
  }

  /** A hidden argument makes the list shorter. */
  lemma {:induction false} HiddenShortens(args: seq<Arg>, p: Params, self: Option<string>)
    requires AreTemplates(args) && "" !in p
    ensures var r := ArgList(args, p, self);
            r.Some? ==> |r.value| <= |args| && ((exists a :: a in args && Hidden(Leaves(a), p)) ==> |r.value| < |args|)
    decreases |args|
  {
    if args == [] {
    } else {
      assert args[0] in args && AreTemplates(args[1..]);
      ArgMeaning(args[0], p, self);
      HiddenShortens(args[1..], p, self);
      assert forall a :: a in args ==> a == args[0] || a in args[1..];
    }
  }

  lemma LeafGrows(l: Arg, p: Params, n: string, self: Option<string>)
    requires n in p && p[n] == Nil && n != SELF
    ensures |LeafText(l, p[n := Shown("x")], self)| >= |LeafText(l, p, self)|
    ensures RefersTo(l, n, false) ==> |LeafText(l, p[n := Shown("x")], self)| > |LeafText(l, p, self)|
  {
  }

  /** Giving a text to a parameter that had none lengthens every argument that shows it. */
  lemma {:induction false} TextsGrow(ls: seq<Arg>, p: Params, n: string, self: Option<string>)
    requires n in p && p[n] == Nil && n != SELF
    ensures |Texts(ls, p[n := Shown("x")], self)| >= |Texts(ls, p, self)|
    ensures (exists l :: l in ls && RefersTo(l, n, false)) ==>
              |Texts(ls, p[n := Shown("x")], self)| > |Texts(ls, p, self)|
    decreases |ls|
  {
    if ls == [] {
    } else {
      TextsGrow(ls[1..], p, n, self);
      LeafGrows(ls[0], p, n, self);
      assert forall l :: l in ls ==> l == ls[0] || l in ls[1..];
    }
  }

  /** Two parameter maps that differ only on `n` and give different argument lists. */
  lemma Distinguish(args: seq<Arg>, n: string, self: Option<string>) returns (p: Params, q: Params)
    requires AreTemplates(args) && NoSelf(args) && "" !in AllNames(args) && n in AllNames(args)
    ensures "" !in p && "" !in q && Agree(p, q, AllNames(args) - {n}) && p - {n} == q - {n}
    ensures ArgList(args, p, self) != ArgList(args, q, self)
  {
    var a, l := NamesAreLeaves(args, n);
    p := AllPresent(AllNames(args));
    BoundListIsWhole(args, p, self);
    if l.skip {
      q := p - {n};
      var i :| 0 <= i < |Leaves(a)| && Leaves(a)[i] == l;
      assert Hides(Leaves(a)[i], q);
      HiddenShortens(args, q, self);
    } else {
      q := p[n := Shown("x")];
      BoundListIsWhole(args, q, self);
      TextsGrow(Leaves(a), p, n, self);
      var i :| 0 <= i < |args| && args[i] == a;
      assert ArgList(args, p, self).value[i] != ArgList(args, q, self).value[i];
    }
  }

  /** The check is sound and complete: for templates that never pass the parameters as a whole and name no
      empty parameter, it accepts exactly if the argument list depends on the declared parameters alone. */
  lemma ValidIffReadsOnlyDeclared(args: seq<Arg>, declared: set<string>, self: Option<string>)
    requires AreTemplates(args) && NoSelf(args) && "" !in AllNames(args)
    ensures AllNames(args) <= declared <==> ReadsOnly(args, declared, self)
  {
    if AllNames(args) <= declared {
      forall p: Params, q: Params | "" !in p && "" !in q && Agree(p, q, declared)
        ensures ArgList(args, p, self) == ArgList(args, q, self)
      {
        NamesDecideList(args, p, q, self);
      }
    } else {
      var n :| n in AllNames(args) && n !in declared;
      var p, q := Distinguish(args, n, self);
      assert forall m :: m != n ==> (m in p <==> m in p - {n}) && (m in q <==> m in q - {n});
      assert forall m :: m != n && m in p ==> p[m] == (p - {n})[m];
      assert forall m :: m != n && m in q ==> q[m] == (q - {n})[m];
      assert Agree(p, q, declared);
    }
  }
}
