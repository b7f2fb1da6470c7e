/** The method registry: per-method limits copied from defaults, overridden through shared handles. */
module Registry {
  import opened Wire

  /** An exec timeout of 0 and a response limit of 0 mean none. */
  datatype Limits = Limits(execTimeout: int, maxResponse: nat)

  const DEFAULT_RPC_LIMITS := Limits(0, 5242880)
  const DEFAULT_STREAMING_LIMITS := Limits(0, 0)

  // ----- the history of a registry -----

  datatype Key = Key(name: string, kind: MethodType)

  datatype Entry = Entry(invoker: int, limits: Limits)

  datatype Event =
    | Add(key: Key, invoker: int)
    | SetTimeout(key: Key, timeout: int)
    | SetSize(key: Key, size: nat)
    | SetDefault(kind: MethodType, timeout: int)

  function InitialDefault(kind: MethodType): Limits {
    if kind.RpcMethod? then DEFAULT_RPC_LIMITS else DEFAULT_STREAMING_LIMITS
  }

  function ChangeDefault(before: Limits, e: Event, kind: MethodType): Limits {
    if e.SetDefault? && e.kind == kind then before.(execTimeout := e.timeout) else before
  }

  function Change(before: Option<Entry>, e: Event, key: Key, defaults: Limits): Option<Entry> {
    match e
    case Add(k, invoker) => if k == key then Some(Entry(invoker, defaults)) else before
    case SetTimeout(k, t) =>
      if k == key && before.Some? then Some(before.value.(limits := before.value.limits.(execTimeout := t))) else before
    case SetSize(k, n) =>
      if k == key && before.Some? then Some(before.value.(limits := before.value.limits.(maxResponse := n))) else before
    case SetDefault(_, _) => before
  }

  /** The default limits of a kind after a history. */
  function DefaultOf(h: seq<Event>, kind: MethodType): Limits {
    if h == [] then InitialDefault(kind)
    else ChangeDefault(DefaultOf(h[..|h| - 1], kind), h[|h| - 1], kind)
  }

  /** The last registration under a key, with the defaults of its time and the overrides since. */
  function Registered(h: seq<Event>, key: Key): Option<Entry> {
    if h == [] then None
    else Change(Registered(h[..|h| - 1], key), h[|h| - 1], key, DefaultOf(h[..|h| - 1], key.kind))
  }

  predicate Concerns(e: Event, key: Key) {
    match e
    case Add(k, _) => k == key
    case SetTimeout(k, _) => k == key
    case SetSize(k, _) => k == key
    case SetDefault(kind, _) => kind == key.kind
  }

  function Only(h: seq<Event>, key: Key): seq<Event> {
    if h == [] then []
    else Only(h[..|h| - 1], key) + (if Concerns(h[|h| - 1], key) then [h[|h| - 1]] else [])
  }

  /** What is found under a key depends only on the events that concern it, and no event about a method
      changes the defaults. */
  lemma {:induction false} OthersDoNotMatter(h: seq<Event>, key: Key)
    ensures Registered(Only(h, key), key) == Registered(h, key)
    ensures DefaultOf(Only(h, key), key.kind) == DefaultOf(h, key.kind)
    decreases |h|
  {
    if h == [] {
    } else {
      var before, e := h[..|h| - 1], h[|h| - 1];
      OthersDoNotMatter(before, key);
      if Concerns(e, key) {
        assert Only(h, key)[..|Only(h, key)| - 1] == Only(before, key);
      } else {
        assert Only(h, key) == Only(before, key);
      }
    }
  }

  lemma RecordAt(h: seq<Event>, e: Event, key: Key)
    ensures Registered(h + [e], key) == Change(Registered(h, key), e, key, DefaultOf(h, key.kind))
    ensures DefaultOf(h + [e], key.kind) == ChangeDefault(DefaultOf(h, key.kind), e, key.kind)
  {
    assert (h + [e])[..|h|] == h;
  }

  // ----- what a history comes to, without replaying it -----

  predicate Registers(e: Event, key: Key) {
    e.Add? && e.key == key
  }

  function TimeoutSet(e: Event, key: Key): Option<int> {
    if e.SetTimeout? && e.key == key then Some(e.timeout) else None
  }

  function SizeSet(e: Event, key: Key): Option<nat> {
    if e.SetSize? && e.key == key then Some(e.size) else None
  }

  function DefaultSet(e: Event, kind: MethodType): Option<int> {
    if e.SetDefault? && e.kind == kind then Some(e.timeout) else None
  }

  /** The value that the last of the events setting it has set, or the one from before if none of them does. */
  ghost predicate LastSet<T>(h: seq<Event>, sets: Event -> Option<T>, before: T, t: T) {
    || (t == before && forall i :: 0 <= i < |h| ==> sets(h[i]).None?)
    || (exists i :: 0 <= i < |h| && sets(h[i]) == Some(t) && forall j :: i < j < |h| ==> sets(h[j]).None?)
  }

  lemma LastSetSnoc<T>(h: seq<Event>, e: Event, sets: Event -> Option<T>, before: T, t: T)
    requires LastSet(h, sets, before, t)
    ensures LastSet(h + [e], sets, before, if sets(e).Some? then sets(e).value else t)
  {
    var all := h + [e];
    assert all[|h|] == e && forall i :: 0 <= i < |h| ==> all[i] == h[i];
    if sets(e).Some? {
      assert sets(all[|h|]) == sets(e);
    } else if !(forall i :: 0 <= i < |h| ==> sets(h[i]).None?) {
      var i :| 0 <= i < |h| && sets(h[i]) == Some(t) && forall j :: i < j < |h| ==> sets(h[j]).None?;
      assert sets(all[i]) == Some(t);
    }
  }

  /** An event that is no registration keeps an entry but for what it sets. */
  lemma EntryGoesOn(h: seq<Event>, e: Event, key: Key)
    requires Registered(h, key).Some? && !Registers(e, key)
    ensures var (before, timeout, size) := (Registered(h, key).value, TimeoutSet(e, key), SizeSet(e, key));
            Registered(h + [e], key)
            == Some(Entry(before.invoker,
                          Limits(if timeout.Some? then timeout.value else before.limits.execTimeout,
                                 if size.Some? then size.value else before.limits.maxResponse)))
  {
    RecordAt(h, e, key);
  }

  /** The last registration wins: it decides the invoker, and its limits are the defaults of its time as far as
      no later event set them. */
  lemma {:induction false} LastRegistrationWins(h1: seq<Event>, key: Key, invoker: int, h2: seq<Event>)
    requires forall i :: 0 <= i < |h2| ==> !Registers(h2[i], key)
    ensures var r := Registered(h1 + [Add(key, invoker)] + h2, key);
            var d := DefaultOf(h1, key.kind);
            && r.Some? && r.value.invoker == invoker
            && LastSet(h2, e => TimeoutSet(e, key), d.execTimeout, r.value.limits.execTimeout)
            && LastSet(h2, e => SizeSet(e, key), d.maxResponse, r.value.limits.maxResponse)
    decreases |h2|
  {
    var start, d := h1 + [Add(key, invoker)], DefaultOf(h1, key.kind);
    if h2 == [] {
      RecordAt(h1, Add(key, invoker), key);
      assert start + h2 == start;
    } else {
      var init, e := h2[..|h2| - 1], h2[|h2| - 1];
      LastRegistrationWins(h1, key, invoker, init);
      assert h2 == init + [e];
      Assoc(start, init, [e]);
      EntryGoesOn(start + init, e, key);
      var l := Registered(start + init, key).value.limits;
      LastSetSnoc(init, e, x => TimeoutSet(x, key), d.execTimeout, l.execTimeout);
      LastSetSnoc(init, e, x => SizeSet(x, key), d.maxResponse, l.maxResponse);
    }
  }

  /** Nothing is found under a key exactly if nothing was ever registered under it. */
  lemma {:induction false} FoundIffRegistered(h: seq<Event>, key: Key)
    ensures Registered(h, key).Some? <==> exists i :: 0 <= i < |h| && Registers(h[i], key)
    decreases |h|
  {
    if h == [] {
    } else {
      var init := h[..|h| - 1];
      FoundIffRegistered(init, key);
      assert forall i :: 0 <= i < |init| ==> init[i] == h[i];
      if Registers(h[|h| - 1], key) {
      } else if Registered(init, key).Some? {
        var i :| 0 <= i < |init| && Registers(init[i], key);
        assert Registers(h[i], key);
      }
    }
  }

  /** A default is the one set last; the default size never changes. */
  lemma {:induction false} DefaultIsLast(h: seq<Event>, kind: MethodType)
    ensures LastSet(h, e => DefaultSet(e, kind), InitialDefault(kind).execTimeout, DefaultOf(h, kind).execTimeout)
    ensures DefaultOf(h, kind).maxResponse == InitialDefault(kind).maxResponse
    decreases |h|
  {
    if h == [] {
    } else {
      var init, e := h[..|h| - 1], h[|h| - 1];
      DefaultIsLast(init, kind);
      assert h == init + [e];
      var before, t := InitialDefault(kind).execTimeout, DefaultOf(init, kind).execTimeout;
      LastSetSnoc(init, e, x => DefaultSet(x, kind), before, t);
    }
  }

  // ----- the objects -----

  class MethodDef {
    const invoker: int
    var limits: Limits

    constructor (invoker: int, limits: Limits)
      ensures this.invoker == invoker && this.limits == limits
    {
      this.invoker := invoker;
      this.limits := limits;
    }

    method ExecutionTimeout(timeout: int)
      modifies this
      ensures limits == old(limits).(execTimeout := timeout)
    {
      limits := limits.(execTimeout := timeout);
    }

    method MaxSize(size: nat)
      modifies this
      ensures limits == old(limits).(maxResponse := size)
    {
      limits := limits.(maxResponse := size);
    }
  }

  class Processor {
    var methods: map<string, map<MethodType, MethodDef>>
    var limits: map<MethodType, Limits>
    ghost var history: seq<Event>

    constructor ()
      ensures Valid() && history == []
    {
      methods := map[];
      limits := map[RpcMethod := DEFAULT_RPC_LIMITS, StreamMethod := DEFAULT_STREAMING_LIMITS,
                    LegacyMethod := DEFAULT_STREAMING_LIMITS];
      history := [];
      new;
      forall kind: MethodType ensures kind in limits && limits[kind] == DefaultOf(history, kind) {
        match kind {
          case RpcMethod =>
          case LegacyMethod =>
          case StreamMethod =>
        }
      }
    }

    ghost function Find(key: Key): MethodDef?
      reads this`methods
    {
      if key.name in methods && key.kind in methods[key.name] then methods[key.name][key.kind] else null
    }

    ghost function Defs(): set<MethodDef>
      reads this`methods
    {
      set n, k | n in methods && k in methods[n] :: methods[n][k]
    }

    /** The objects hold what the history says, and no two keys share an object. */
    ghost predicate Valid()
      reads this, Defs()
    {
      && (forall kind: MethodType :: kind in limits && limits[kind] == DefaultOf(history, kind))
      && (forall k1, k2 :: Find(k1) != null && Find(k1) == Find(k2) ==> k1 == k2)
      && (forall key :: Matches(key))
    }

    ghost predicate Matches(key: Key)
      reads this, Defs()
    {
      Registered(history, key) == Held(key)
    }

    /** What the objects hold under a key. */
    ghost function Held(key: Key): Option<Entry>
      reads this`methods, Defs()
    {
      var m := Find(key);
      if m == null then None else Some(Entry(m.invoker, m.limits))
    }

    /** An event recorded in the history and applied to the objects. */
    twostate lemma Recorded(e: Event)
      requires old(Valid()) && history == old(history) + [e]
      requires forall k :: Held(k) == Change(old(Held(k)), e, k, DefaultOf(old(history), k.kind))
      ensures forall k :: Matches(k)
      ensures forall kind :: DefaultOf(history, kind) == ChangeDefault(DefaultOf(old(history), kind), e, kind)
    {
      forall k: Key ensures Matches(k) {
        RecordAt(old(history), e, k);
        assert old(Matches(k));
      }
      forall kind ensures DefaultOf(history, kind) == ChangeDefault(DefaultOf(old(history), kind), e, kind) {
        RecordAt(old(history), e, Key("", kind));
      }
    }

    method AddMethodNew(name: string, kind: MethodType, action: int) returns (m: MethodDef)
      requires Valid()
      modifies this
      ensures Valid() && fresh(m) && Find(Key(name, kind)) == m
      ensures history == old(history) + [Add(Key(name, kind), action)]
      ensures forall key :: key != Key(name, kind) ==> Find(key) == old(Find(key))
    {
      var container: map<MethodType, MethodDef> := if name in methods then methods[name] else map[];
      m := new MethodDef(action, limits[kind]);
      methods := methods[name := container[kind := m]];
      history := history + [Add(Key(name, kind), action)];
      assert forall key :: key != Key(name, kind) ==> Find(key) == old(Find(key));
      Recorded(Add(Key(name, kind), action));
    }

    /** Overrides the limits of a registered method through its handle. */
    method OverrideTimeout(ghost key: Key, m: MethodDef, timeout: int)
      requires Valid() && Find(key) == m
      modifies m, this`history
      ensures Valid() && history == old(history) + [SetTimeout(key, timeout)]
      ensures m.limits == old(m.limits).(execTimeout := timeout)
    {
      m.ExecutionTimeout(timeout);
      history := history + [SetTimeout(key, timeout)];
      Recorded(SetTimeout(key, timeout));
    }

    method OverrideSize(ghost key: Key, m: MethodDef, size: nat)
      requires Valid() && Find(key) == m
      modifies m, this`history
      ensures Valid() && history == old(history) + [SetSize(key, size)]
      ensures m.limits == old(m.limits).(maxResponse := size)
    {
      m.MaxSize(size);
      history := history + [SetSize(key, size)];
      Recorded(SetSize(key, size));
    }

    /** A handle replaced by a later registration no longer reaches the registry. */
    method OverrideStale(m: MethodDef, timeout: int, size: nat)
      requires Valid() && m !in Defs()
      modifies m
      ensures Valid() && history == old(history)
    {
      m.ExecutionTimeout(timeout);
      m.MaxSize(size);
      assert forall key :: old(Matches(key)) ==> Matches(key);
    }

    method ExecutionTimeout(kind: MethodType, timeout: int)
      requires Valid()
      modifies this`limits, this`history
      ensures Valid() && history == old(history) + [SetDefault(kind, timeout)]
    {
      limits := limits[kind := limits[kind].(execTimeout := timeout)];
      history := history + [SetDefault(kind, timeout)];
      Recorded(SetDefault(kind, timeout));
    }

    /** The method for a name and a kind; a streaming request falls back to a legacy method. */
    method Method(name: string, kind: MethodType) returns (m: MethodDef?)
      requires Valid()
      ensures m == null <==> Lookup(history, Key(name, kind)).None?
      ensures m != null ==> Lookup(history, Key(name, kind)) == Some(Entry(m.invoker, m.limits))
      ensures var own, legacy := Registered(history, Key(name, kind)), Registered(history, Key(name, LegacyMethod));
              var found := if m == null then None else Some(Entry(m.invoker, m.limits));
              && (own.Some? ==> found == own)
              && (own.None? && kind == StreamMethod ==> found == legacy)
              && (own.None? && kind != StreamMethod ==> found.None?)
    {
      assert Matches(Key(name, kind)) && Matches(Key(name, LegacyMethod));
      if name !in methods {
        return null;
      }
      var ms := methods[name];
      if kind in ms {
        return ms[kind];
      }
      if kind == StreamMethod && LegacyMethod in ms {
        return ms[LegacyMethod];
      }
      return null;
    }
  }

  /** The last registration under the key itself, else under the legacy kind for a streaming request. */
  function Lookup(h: seq<Event>, key: Key): Option<Entry> {
    var own := Registered(h, key);
    if own.None? && key.kind.StreamMethod? then Registered(h, key.(kind := LegacyMethod)) else own
  }

  // ----- the configured processor -----

  datatype MethodConf = MethodConf(streamed: bool, execTimeout: int, maxResponse: int, invoker: int)

  function KindOf(c: MethodConf): MethodType {
    if c.streamed then LegacyMethod else RpcMethod
  }

  /** A negative limit in the configuration keeps the default. */
  function LimitsOf(c: MethodConf): Limits {
    var d := InitialDefault(KindOf(c));
    Limits(if c.execTimeout >= 0 then c.execTimeout else d.execTimeout,
           if c.maxResponse >= 0 then c.maxResponse else d.maxResponse)
  }

  /** The registry a configuration should give, restricted to some of its methods. */
  ghost predicate Configured(h: seq<Event>, conf: map<string, MethodConf>, done: set<string>) {
    && (forall key :: Registered(h, key) ==
          if key.name in done && key.name in conf && key.kind == KindOf(conf[key.name])
          then Some(Entry(conf[key.name].invoker, LimitsOf(conf[key.name]))) else None)
    && (forall kind :: DefaultOf(h, kind) == InitialDefault(kind))
  }

  function TimeoutEvents(key: Key, v: MethodConf): seq<Event> {
    if v.execTimeout >= 0 then [SetTimeout(key, v.execTimeout)] else []
  }

  function SizeEvents(key: Key, v: MethodConf): seq<Event> {
    if v.maxResponse >= 0 then [SetSize(key, v.maxResponse)] else []
  }

  function Registration(name: string, v: MethodConf): seq<Event> {
    var key := Key(name, KindOf(v));
    [Add(key, v.invoker)] + TimeoutEvents(key, v) + SizeEvents(key, v)
  }

  lemma RegistrationMeaning(h: seq<Event>, name: string, v: MethodConf)
    requires DefaultOf(h, KindOf(v)) == InitialDefault(KindOf(v))
    ensures forall key ::
              Registered(h + Registration(name, v), key)
              == if key == Key(name, KindOf(v)) then Some(Entry(v.invoker, LimitsOf(v))) else Registered(h, key)
    ensures forall kind :: DefaultOf(h + Registration(name, v), kind) == DefaultOf(h, kind)
  {
    var own, entry := Key(name, KindOf(v)), Some(Entry(v.invoker, LimitsOf(v)));
    forall key
      ensures Registered(h + Registration(name, v), key) == if key == own then entry else Registered(h, key)
    {
      RegistrationAt(h, name, v, key);
    }
    forall kind ensures DefaultOf(h + Registration(name, v), kind) == DefaultOf(h, kind) {
      RegistrationAt(h, name, v, Key("", kind));
    }
  }

  lemma RegistrationAt(h: seq<Event>, name: string, v: MethodConf, key: Key)
    requires DefaultOf(h, KindOf(v)) == InitialDefault(KindOf(v))
    ensures Registered(h + Registration(name, v), key)
            == if key == Key(name, KindOf(v)) then Some(Entry(v.invoker, LimitsOf(v))) else Registered(h, key)
    ensures DefaultOf(h + Registration(name, v), key.kind) == DefaultOf(h, key.kind)
  {
    var own := Key(name, KindOf(v));
    var add, timeouts, sizes := [Add(own, v.invoker)], TimeoutEvents(own, v), SizeEvents(own, v);
    OptionalAt(h, add, key);
    OptionalAt(h + add, timeouts, key);
    OptionalAt(h + add + timeouts, sizes, key);
    Assoc(h, add + timeouts, sizes);
    Assoc(h, add, timeouts);
  }

  lemma OptionalAt(h: seq<Event>, es: seq<Event>, key: Key)
    requires |es| <= 1
    ensures Registered(h + es, key)
            == if es == [] then Registered(h, key) else Change(Registered(h, key), es[0], key, DefaultOf(h, key.kind))
    ensures DefaultOf(h + es, key.kind)
            == if es == [] then DefaultOf(h, key.kind) else ChangeDefault(DefaultOf(h, key.kind), es[0], key.kind)
  {
    if es == [] {
      assert h + es == h;
    } else {
      assert es == [es[0]];
      RecordAt(h, es[0], key);
    }
  }

  method ConfigureMethod(p: Processor, name: string, v: MethodConf)
    requires p.Valid()
    modifies p
    ensures p.Valid() && p.history == old(p.history) + Registration(name, v)
  {
    var m := p.AddMethodNew(name, KindOf(v), v.invoker);
    if v.execTimeout >= 0 {
      p.OverrideTimeout(Key(name, KindOf(v)), m, v.execTimeout);
    }
    if v.maxResponse >= 0 {
      p.OverrideSize(Key(name, KindOf(v)), m, v.maxResponse);
    }
  }

  lemma ConfiguredNext(h: seq<Event>, conf: map<string, MethodConf>, done: set<string>, name: string)
    requires Configured(h, conf, done) && name in conf && name !in done
    ensures Configured(h + Registration(name, conf[name]), conf, done + {name})
  {
    RegistrationMeaning(h, name, conf[name]);
  }

  /** Whatever the order in which the methods are visited, the registry holds each configured method with its
      own limits, defaults elsewhere, and nothing else. */
  method ProcessorFromConfig(conf: map<string, MethodConf>) returns (p: Processor)
    ensures fresh(p) && p.Valid() && Configured(p.history, conf, conf.Keys)
    ensures forall name, kind :: Registered(p.history, Key(name, kind)).Some? <==>
              name in conf && kind == if conf[name].streamed then LegacyMethod else RpcMethod
    ensures forall name, kind :: Registered(p.history, Key(name, kind)).Some? ==>
              var entry, c := Registered(p.history, Key(name, kind)).value, conf[name];
              && entry.invoker == c.invoker
              && entry.limits.execTimeout == (if c.execTimeout < 0 then 0 else c.execTimeout)
              && entry.limits.maxResponse
                 == (if c.maxResponse >= 0 then c.maxResponse else if c.streamed then 0 else 5242880)
  {
    p := new Processor();
    var todo := conf.Keys;
    while todo != {}
      invariant todo <= conf.Keys && fresh(p)
      invariant p.Valid() && Configured(p.history, conf, conf.Keys - todo)
      decreases todo
    {
      var name :| name in todo;
      ConfiguredNext(p.history, conf, conf.Keys - todo, name);
      ConfigureMethod(p, name, conf[name]);
      assert conf.Keys - todo + {name} == conf.Keys - (todo - {name});
      todo := todo - {name};
    }
    assert conf.Keys - todo == conf.Keys;
  }

  // ----- the effective timeout -----

  /** The smaller of two timeouts, where anything that is not positive is no limit. */
  function SmallerTimeout(a: int, b: int): Option<int> {
    if a <= 0 then (if b <= 0 then None else Some(b))
    else if b <= 0 || a <= b then Some(a) else Some(b)
  }

  /** The deadline set for a request, if any. It is the smaller of the two timeouts exactly unless they have
      opposite signs: a negative timeout of a method switches a positive global one off, and the reverse. */
  function EffectiveTimeout(global: int, own: int): (r: Option<int>)
    ensures r == SmallerTimeout(global, own) <==> !(global > 0 > own) && !(global < 0 < own)
    ensures global > 0 > own || global < 0 < own ==> r.None?
  {
    var timeout := if global != 0 then (if own != 0 && own < global then own else global) else own;
    if timeout > 0 then Some(timeout) else None
  }
}
