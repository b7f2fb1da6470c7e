/** Argument templates as they are read from a configuration. */
module TemplateConfig {
  import opened Wire
  import opened Merge
  import T = Templates

  function AsString(v: ConfValue, def: string): string {
    if v.Leaf? && v.scalar.Str? then v.scalar.text else def
  }

  function AsBool(v: ConfValue, def: bool): bool {
    if v.Leaf? && v.scalar.Bool? then v.scalar.flag else def
  }

  /** A scalar printed as a fixed text. */
  function Printed(v: ConfValue): string {
    match v
    case Leaf(Str(text)) => text
    case Leaf(Bool(flag)) => if flag then "true" else "false"
    case Leaf(Number(printed)) => printed
    case _ => "<nil>"
  }

  /** Every configured value reads as a template, so what is proved of templates holds of all of them. */
  function FromVal(v: ConfValue): (a: T.Arg)
    ensures T.IsTemplate(a)
    ensures a.compound <==> v.List?
    ensures v.List? ==> |a.child| == |v.items|
  {
    match v
    case Map(_) => T.Arg(AsString(GetKey(v, "param"), ""), AsBool(GetKey(v, "skip"), false), false, false, [])
    case List(items) =>
      T.List(seq(|items|, i requires 0 <= i < |items| => FromVal(items[i])))
    case _ => T.Fixed(Printed(v))
  }

  function Reference(name: string, phantom: bool): ConfValue {
    Map(map["param" := Leaf(Str(name)), "skip" := Leaf(Bool(phantom))])
  }

  /** How a template is written down. */
  function ToVal(a: T.Arg): ConfValue {
    if a.compound then List(seq(|a.child|, i requires 0 <= i < |a.child| => ToVal(a.child[i])))
    else if a.fixed then Leaf(Str(a.param))
    else Reference(a.param, a.skip)
  }

  /** What was written is what is read: names, skip flags, texts and lists. */
  lemma {:induction false} WrittenIsRead(a: T.Arg)
    requires T.IsTemplate(a)
    ensures FromVal(ToVal(a)) == a
  {
    if a.compound {
      forall i | 0 <= i < |a.child| ensures FromVal(ToVal(a.child[i])) == a.child[i] {
        assert a.child[i] in a.child;
        WrittenIsRead(a.child[i]);
      }
      assert FromVal(ToVal(a)).child == a.child;
    } else if a.fixed {
    } else {
      assert GetKey(Reference(a.param, a.skip), "param") == Leaf(Str(a.param));
      assert GetKey(Reference(a.param, a.skip), "skip") == Leaf(Bool(a.skip));
    }
  }

  /** So templates are exactly what a configuration can hold. */
  lemma TemplatesAreConfigured(a: T.Arg)
    ensures T.IsTemplate(a) <==> exists v :: FromVal(v) == a
  {
    if T.IsTemplate(a) {
      WrittenIsRead(a);
    }
  }

  /** Forms that are never written that way but read all the same: a missing or odd `skip` is no phantom, a missing
      or odd `param` names nothing, and scalars stand for their printed text. */
  lemma OtherForms(name: string, printed: string, m: Entries)
    ensures "param" in m && m["param"] == Leaf(Str(name)) ==>
              ("skip" !in m || !m["skip"].Leaf? || !m["skip"].scalar.Bool?) ==>
                FromVal(Map(m)) == T.Reference(name, false)
    ensures "param" !in m || !m["param"].Leaf? || !m["param"].scalar.Str? ==>
              FromVal(Map(m)).param == ""
    ensures FromVal(Leaf(Bool(true))) == T.Fixed("true") && FromVal(Leaf(Bool(false))) == T.Fixed("false")
    ensures FromVal(Leaf(Scalar.Number(printed))) == T.Fixed(printed)
    ensures FromVal(Invalid) == T.Fixed("<nil>")
  {
  }

  /** The documented forms: a scalar stands for its text, `{param: n}` for the value of `n` or nothing,
      `{param: n, skip: true}` for nothing but a condition, and a list for its elements in a row. */
  lemma ConfiguredMeaning(name: string, text: string, items: seq<ConfValue>, params: T.Params, self: Option<string>)
    requires name != T.SELF && "" !in params
    ensures T.EvalArg(FromVal(Leaf(Str(text))), params, self) == T.Eval(text, false, false)
    ensures T.EvalArg(FromVal(Reference(name, false)), params, self)
            == T.Eval(T.ValueOf(name, params, self), false, false)
    ensures T.EvalArg(FromVal(Reference(name, true)), params, self) == T.Eval("", name !in params, false)
    ensures T.EvalArg(FromVal(List(items)), params, self)
            == T.EvalAll(seq(|items|, i requires 0 <= i < |items| => FromVal(items[i])), params, self)
  {
    var none := T.EvalAll([], params, self);
    assert none == T.Eval("", false, false);
    assert GetKey(Reference(name, false), "param") == Leaf(Str(name));
    assert T.ValueOf(name, params, self) + "" == T.ValueOf(name, params, self);
    var all := T.EvalAll(seq(|items|, i requires 0 <= i < |items| => FromVal(items[i])), params, self);
    assert "" + all.text == all.text;
  }
}
