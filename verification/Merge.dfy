/** Configuration values and their right-biased deep merge. */
module Merge {

  datatype Scalar = Str(text: string) | Bool(flag: bool) | Number(printed: string)

  /** `Invalid` is the empty value: an absent key, a YAML null or an empty list. */
  datatype ConfValue =
    | Map(entries: map<string, ConfValue>)
    | List(items: seq<ConfValue>)
    | Leaf(scalar: Scalar)
    | Invalid

  type Entries = map<string, ConfValue>

  /** What YAML decoding hands over. */
  datatype Raw =
    | RawMap(fields: map<string, Raw>)
    | RawList(elements: seq<Raw>)
    | RawScalar(scalar: Scalar)
    | RawNull

  function ValueFrom(r: Raw): ConfValue {
    match r
    case RawMap(fields) => Map(map k | k in fields :: ValueFrom(fields[k]))
    case RawList(elements) =>
      if elements == [] then Invalid
      else List(seq(|elements|, i requires 0 <= i < |elements| => ValueFrom(elements[i])))
    case RawScalar(s) => Leaf(s)
    case RawNull => Invalid
  }

  /** No empty list is a list. */
  predicate Proper(v: ConfValue) {
    match v
    case Map(m) => forall k :: k in m ==> Proper(m[k])
    case List(items) => items != [] && forall i :: 0 <= i < |items| ==> Proper(items[i])
    case _ => true
  }

  /** How a value is written down as YAML. */
  function RawOf(v: ConfValue): Raw {
    match v
    case Map(m) => RawMap(map k | k in m :: RawOf(m[k]))
    case List(items) => RawList(seq(|items|, i requires 0 <= i < |items| => RawOf(items[i])))
    case Leaf(s) => RawScalar(s)
    case Invalid => RawNull
  }

  /** What is written is what is decoded: keys, elements and scalars. */
  lemma {:induction false} DecodesWhatIsWritten(v: ConfValue)
    requires Proper(v)
    ensures ValueFrom(RawOf(v)) == v
  {
    match v
    case Map(m) =>
      forall k | k in m ensures ValueFrom(RawOf(m[k])) == m[k] {
        DecodesWhatIsWritten(m[k]);
      }
      assert ValueFrom(RawOf(v)).entries == m;
    case List(items) =>
      forall i | 0 <= i < |items| ensures ValueFrom(RawOf(items[i])) == items[i] {
        DecodesWhatIsWritten(items[i]);
      }
      assert ValueFrom(RawOf(v)).items == items;
    case _ =>
  }

  /** Maps merge key by key, lists concatenate, and in every other case the later value wins. */
  function MergeValue(a: ConfValue, b: ConfValue): ConfValue
    decreases a
  {
    if a.Map? && b.Map? then
      Map(map k | k in a.entries.Keys + b.entries.Keys ::
            if k !in a.entries then b.entries[k]
            else if k !in b.entries then a.entries[k]
            else MergeValue(a.entries[k], b.entries[k]))
    else if a.List? && b.List? then List(a.items + b.items)
    else b
  }

  function MergeMap(a: Entries, b: Entries): Entries {
    MergeValue(Map(a), Map(b)).entries
  }

  /** Merging, case by case: a list starts with the earlier elements and goes on with the later ones; a map has
      the keys of both, and a key of one side alone keeps its value; otherwise only the later value counts. */
  lemma MergeCases(a: ConfValue, b: ConfValue)
    ensures a.List? && b.List? ==>
              var m := MergeValue(a, b);
              m.List? && a.items <= m.items && m.items[|a.items|..] == b.items
    ensures a.Map? && b.Map? ==>
              var m := MergeValue(a, b);
              && m.Map? && (forall k :: k in m.entries <==> k in a.entries || k in b.entries)
              && (forall k :: k in a.entries && k !in b.entries ==> m.entries[k] == a.entries[k])
              && (forall k :: k in b.entries && k !in a.entries ==> m.entries[k] == b.entries[k])
              && (forall k :: k in a.entries && k in b.entries ==>
                    m.entries[k] == MergeValue(a.entries[k], b.entries[k]))
    ensures !(a.List? && b.List?) && !(a.Map? && b.Map?) ==> MergeValue(a, b) == b
  {
    if a.List? && b.List? {
      var joined := a.items + b.items;
      assert joined[..|a.items|] == a.items && joined[|a.items|..] == b.items;
    }
  }

  // ----- the program -----

  method MergeValues(a: ConfValue, b: ConfValue) returns (r: ConfValue)
    ensures r == MergeValue(a, b)
    decreases a, 1
  {
    if a.Map? && b.Map? {
      var m := MergeMaps(a.entries, b.entries);
      r := Map(m);
    } else if a.List? && b.List? {
      r := List(a.items + b.items);
    } else {
      r := b;
    }
  }

  /** Fills a fresh map; the order in which the keys are visited does not matter. */
  method MergeMaps(a: Entries, b: Entries) returns (c: Entries)
    ensures c == MergeMap(a, b)
    decreases Map(a), 0
  {
    c := a;
    var todo := b.Keys;
    while todo != {}
      invariant todo <= b.Keys && c.Keys == a.Keys + (b.Keys - todo)
      invariant forall k :: k in c ==> c[k] == if k in b.Keys - todo then MergeMap(a, b)[k] else a[k]
      decreases todo
    {
      var k :| k in todo;
      if k in a {
        var v := MergeValues(a[k], b[k]);
        c := c[k := v];
      } else {
        c := c[k := b[k]];
      }
      todo := todo - {k};
    }
  }

  // ----- lookup -----

  function GetKey(v: ConfValue, key: string): ConfValue {
    if v.Map? && key in v.entries then v.entries[key] else Invalid
  }

  function Get(v: ConfValue, path: seq<string>): ConfValue
    decreases |path|
  {
    if path == [] then v else Get(GetKey(v, path[0]), path[1..])
  }

  method Lookup(v: ConfValue, path: seq<string>) returns (r: ConfValue)
    ensures r == Get(v, path)
  {
    r := v;
    for i := 0 to |path|
      invariant Get(v, path) == Get(r, path[i..])
    {
      assert path[i..][1..] == path[i + 1..];
      r := GetKey(r, path[i]);
    }
  }

  lemma {:induction false} GetInvalid(path: seq<string>)
    ensures Get(Invalid, path) == Invalid
  {
    if path == [] {
    } else {
      GetInvalid(path[1..]);
    }
  }

  /** A lookup goes into the entry of the first key, and finds nothing where there is no such entry. */
  lemma LookupGoesDown(v: ConfValue, k: string, rest: seq<string>)
    ensures Get(v, []) == v
    ensures v.Map? && k in v.entries ==> Get(v, [k] + rest) == Get(v.entries[k], rest)
    ensures !(v.Map? && k in v.entries) ==> Get(v, [k] + rest) == Invalid
  {
    assert ([k] + rest)[1..] == rest;
    GetInvalid(rest);
  }

  /** Nested maps of one entry each. */
  function Nest(path: seq<string>, w: ConfValue): ConfValue {
    if path == [] then w else Map(map[path[0] := Nest(path[1..], w)])
  }

  /** What is put under a path is found there. */
  lemma {:induction false} PutGet(path: seq<string>, w: ConfValue)
    ensures Get(Nest(path, w), path) == w
  {
    if path == [] {
    } else {
      PutGet(path[1..], w);
    }
  }

  /** Two lookups in a row are one. */
  lemma {:induction false} GetAppend(v: ConfValue, p: seq<string>, q: seq<string>)
    ensures Get(v, p + q) == Get(Get(v, p), q)
    decreases |p|
  {
    if p == [] {
      assert p + q == q;
    } else {
      assert (p + q)[1..] == p[1..] + q;
      GetAppend(GetKey(v, p[0]), p[1..], q);
    }
  }

  /** A scalar merged in under a path is found there, whatever was there before. */
  lemma {:induction false} MergedIsFound(v: ConfValue, path: seq<string>, w: ConfValue)
    requires !w.Map? && !w.List?
    ensures Get(MergeValue(v, Nest(path, w)), path) == w
    decreases |path|
  {
    if path == [] {
    } else if v.Map? && path[0] in v.entries {
      MergedIsFound(v.entries[path[0]], path[1..], w);
    } else {
      PutGet(path, w);
    }
  }

  /** Nothing changes for a path that parts from it where the configuration is a map. */
  lemma {:induction false} OthersAreKept(v: ConfValue, common: seq<string>, k: string, rest: seq<string>,
                                         w: ConfValue, j: string, other: seq<string>)
    requires Get(v, common).Map? && j != k
    ensures Get(MergeValue(v, Nest(common + [k] + rest, w)), common + [j] + other) == Get(v, common + [j] + other)
    decreases |common|
  {
    var path, there := common + [k] + rest, common + [j] + other;
    if common == [] {
      assert path == [k] + rest && there == [j] + other;
    } else {
      var c := common[0];
      assert path[1..] == common[1..] + [k] + rest && there[1..] == common[1..] + [j] + other;
      GetInvalid(common[1..]);
      OthersAreKept(v.entries[c], common[1..], k, rest, w, j, other);
    }
  }

  /** Where the two values part company along a path. */
  datatype Side = Both | Left | Right

  function Origin(a: ConfValue, b: ConfValue, path: seq<string>): Side {
    if path == [] then Both
    else if !a.Map? || !b.Map? then Right
    else if path[0] !in b.entries then Left
    else if path[0] !in a.entries then Right
    else Origin(a.entries[path[0]], b.entries[path[0]], path[1..])
  }

  /** Looking up a merged value, for every path: where both sides stay maps the lookups are merged; a name bound
      on one side only keeps that side's subtree; after a scalar or a mismatch the later value is the one seen. */
  lemma {:induction false} LookupCommutesWithMerge(a: ConfValue, b: ConfValue, path: seq<string>)
    ensures Get(MergeValue(a, b), path) ==
              match Origin(a, b, path)
              case Both => MergeValue(Get(a, path), Get(b, path))
              case Left => Get(a, path)
              case Right => Get(b, path)
    decreases path
  {
    if path == [] {
    } else if a.Map? && b.Map? {
      if path[0] in a.entries && path[0] in b.entries {
        LookupCommutesWithMerge(a.entries[path[0]], b.entries[path[0]], path[1..]);
      }
    } else if a.List? && b.List? {
      GetInvalid(path[1..]);
    }
  }

  // ----- algebra -----

  lemma EmptyIsIdentity(m: Entries)
    ensures MergeMap(map[], m) == m
    ensures MergeMap(m, map[]) == m
  {
  }

  /** Merging `a` in front of `c` changes nothing. */
  predicate Absorbed(a: ConfValue, c: ConfValue) {
    if a.Map? && c.Map? then
      && a.entries.Keys <= c.entries.Keys
      && forall k :: k in a.entries && k in c.entries ==> Absorbed(a.entries[k], c.entries[k])
    else if a.List? && c.List? then a.items == []
    else true
  }

  lemma {:induction false} AbsorbedMeaning(a: ConfValue, c: ConfValue)
    ensures Absorbed(a, c) <==> MergeValue(a, c) == c
    decreases a
  {
    if a.Map? && c.Map? {
      forall k | k in a.entries && k in c.entries
        ensures Absorbed(a.entries[k], c.entries[k]) <==> MergeValue(a.entries[k], c.entries[k]) == c.entries[k]
      {
        AbsorbedMeaning(a.entries[k], c.entries[k]);
      }
      var m := MergeValue(a, c).entries;
      if m == c.entries {
        assert forall k :: k in a.entries ==> k in m;
        assert forall k :: k in a.entries ==> m[k] == c.entries[k];
      }
    } else if a.List? && c.List? {
      var joined := a.items + c.items;
      assert MergeValue(a, c) == List(joined) && |joined| == |a.items| + |c.items|;
      assert a.items == [] ==> joined == c.items;
    }
  }

  /** Adjacent values fit: between two maps or two lists stands nothing of another shape, unless the earlier one
      adds nothing to the later one anyway. */
  predicate Compatible(a: ConfValue, b: ConfValue, c: ConfValue) {
    if b.Map? && c.Map? then
      a.Map? ==> forall k :: k in a.entries && k in b.entries && k in c.entries ==>
                   Compatible(a.entries[k], b.entries[k], c.entries[k])
    else if b.List? && c.List? then true
    else Absorbed(a, c)
  }

  /** Merging is associative exactly on compatible values. */
  lemma {:induction false} AssociativeIffCompatible(a: ConfValue, b: ConfValue, c: ConfValue)
    ensures MergeValue(MergeValue(a, b), c) == MergeValue(a, MergeValue(b, c)) <==> Compatible(a, b, c)
    decreases a
  {
    if b.Map? && c.Map? {
      if a.Map? {
        var l := MergeValue(MergeValue(a, b), c).entries;
        var r := MergeValue(a, MergeValue(b, c)).entries;
        forall k | k in a.entries && k in b.entries && k in c.entries
          ensures l[k] == r[k] <==> Compatible(a.entries[k], b.entries[k], c.entries[k])
        {
          AssociativeIffCompatible(a.entries[k], b.entries[k], c.entries[k]);
        }
        assert l.Keys == r.Keys;
        assert forall k :: k in l && !(k in a.entries && k in b.entries && k in c.entries) ==> l[k] == r[k];
        assert l == r <==> forall k :: k in l ==> l[k] == r[k];
      }
    } else if b.List? && c.List? {
      if a.List? {
        assert a.items + b.items + c.items == a.items + (b.items + c.items);
      }
    } else {
      AbsorbedMeaning(a, c);
      assert MergeValue(b, c) == c;
      assert MergeValue(MergeValue(a, b), c) == c;
    }
  }

  /** The condition is needed: a scalar between two maps forgets the earlier map only when merged first. */
  lemma MapScalarMap(k: string, v: ConfValue, s: Scalar)
    ensures var a, b, c := Map(map[k := v]), Leaf(s), Map(map[]);
            && !Compatible(a, b, c)
            && MergeValue(MergeValue(a, b), c) == Map(map[])
            && MergeValue(a, MergeValue(b, c)) == a
  {
    assert k in map[k := v];
  }

  /** Merging proper values gives a proper value. */
  lemma {:induction false} MergeIsProper(a: ConfValue, b: ConfValue)
    requires Proper(a) && Proper(b)
    ensures Proper(MergeValue(a, b))
    decreases a
  {
    if a.Map? && b.Map? {
      forall k | k in a.entries && k in b.entries ensures Proper(MergeValue(a.entries[k], b.entries[k])) {
        MergeIsProper(a.entries[k], b.entries[k]);
      }
    }
  }

  lemma {:induction false} ValueFromIsProper(r: Raw)
    ensures Proper(ValueFrom(r))
  {
    match r
    case RawMap(fields) =>
      forall k | k in fields ensures Proper(ValueFrom(fields[k])) {
        ValueFromIsProper(fields[k]);
      }
    case RawList(elements) =>
      forall i | 0 <= i < |elements| ensures Proper(ValueFrom(elements[i])) {
        ValueFromIsProper(elements[i]);
      }
    case _ =>
  }
}
