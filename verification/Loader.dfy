/** Loading a configuration: an explicit stack against the recursive traversal it stands for. */
module Loader {
  import opened Wire
  import opened Merge
  import opened Includes

  function Reverse<T>(s: seq<T>): seq<T> {
    if s == [] then [] else Reverse(s[1..]) + [s[0]]
  }

  lemma {:induction false} ReverseSnoc<T>(s: seq<T>, x: T)
    ensures Reverse(s + [x]) == [x] + Reverse(s)
    decreases |s|
  {
    if s == [] {
      assert s + [x] == [x];
    } else {
      assert (s + [x])[1..] == s[1..] + [x];
      ReverseSnoc(s[1..], x);
    }
  }

  lemma {:induction false} ReverseAppend<T>(s: seq<T>, t: seq<T>)
    ensures Reverse(s + t) == Reverse(t) + Reverse(s)
    decreases |s|
  {
    if s == [] {
      assert s + t == t;
    } else {
      assert (s + t)[1..] == s[1..] + t;
      ReverseAppend(s[1..], t);
    }
  }

  lemma {:induction false} ReverseMembers<T>(s: seq<T>)
    ensures forall x :: x in Reverse(s) <==> x in s
    decreases |s|
  {
    if s == [] {
    } else {
      ReverseMembers(s[1..]);
      assert forall x :: x in s <==> x == s[0] || x in s[1..];
    }
  }

  // ----- the recursive traversal -----

  /** The configuration so far, and whether a file could not be loaded. */
  datatype Loaded = Loaded(root: Entries, failed: bool)

  function MapOf(v: ConfValue): Entries {
    if v.Map? then v.entries else map[]
  }

  function MapAt(fs: FileSystem, path: string): Entries {
    if Open(fs, path).Doc? then MapOf(Open(fs, path).value) else map[]
  }

  lemma VisitDescends(fs: FileSystem, paths: seq<string>)
    requires Acyclic(fs, paths) && paths != []
    ensures Acyclic(fs, Reverse(Kids(fs, paths[0]))) && Acyclic(fs, paths[1..])
    ensures Heights(fs, Reverse(Kids(fs, paths[0]))) < Heights(fs, paths)
    ensures Heights(fs, paths[1..]) <= Heights(fs, paths)
  {
    AcyclicAmong(fs, paths, [paths[0]]);
    AcyclicAmong(fs, paths, paths[1..]);
    AcyclicBelow(fs, paths[0]);
    KidsAreLower(fs, paths[0]);
    ReverseMembers(Kids(fs, paths[0]));
    AcyclicAmong(fs, Kids(fs, paths[0]), Reverse(Kids(fs, paths[0])));
    HeightsBound(fs, Reverse(Kids(fs, paths[0])), Height(fs, paths[0]));
  }

  /** Loads each path and, before the next one, what it includes, the last include first. A file that cannot be
      loaded stops everything; what was merged before stays. */
  ghost function LoadAll(fs: FileSystem, paths: seq<string>, root: Entries): Loaded
    requires Acyclic(fs, paths)
    decreases Heights(fs, paths), |paths|
  {
    if paths == [] then Loaded(root, false)
    else if !Loads(fs, paths[0]) then Loaded(root, true)
    else
      VisitDescends(fs, paths);
      var below := LoadAll(fs, Reverse(Kids(fs, paths[0])), MergeMap(root, MapAt(fs, paths[0])));
      if below.failed then below else LoadAll(fs, paths[1..], below.root)
  }

  lemma {:induction false} LoadAppend(fs: FileSystem, xs: seq<string>, ys: seq<string>, root: Entries)
    requires Acyclic(fs, xs) && Acyclic(fs, ys) && Acyclic(fs, xs + ys)
    ensures var l := LoadAll(fs, xs, root);
            LoadAll(fs, xs + ys, root) == if l.failed then l else LoadAll(fs, ys, l.root)
    decreases |xs|
  {
    if xs == [] {
      assert xs + ys == ys;
    } else {
      assert (xs + ys)[0] == xs[0] && (xs + ys)[1..] == xs[1..] + ys;
      VisitDescends(fs, xs);
      VisitDescends(fs, xs + ys);
      if Loads(fs, xs[0]) {
        var below := LoadAll(fs, Reverse(Kids(fs, xs[0])), MergeMap(root, MapAt(fs, xs[0])));
        LoadAppend(fs, xs[1..], ys, below.root);
      }
    }
  }

  // ----- the order of the files, and the fold over it -----

  /** The files in the order in which they are merged: preorder, siblings reversed, repetitions kept. */
  ghost function Order(fs: FileSystem, paths: seq<string>): seq<string>
    requires Acyclic(fs, paths)
    decreases Heights(fs, paths), |paths|
  {
    if paths == [] then []
    else
      VisitDescends(fs, paths);
      [paths[0]] + Order(fs, Reverse(Kids(fs, paths[0]))) + Order(fs, paths[1..])
  }

  function MergeInOrder(fs: FileSystem, order: seq<string>, root: Entries): Entries {
    if order == [] then root else MergeInOrder(fs, order[1..], MergeMap(root, MapAt(fs, order[0])))
  }

  lemma {:induction false} MergeInOrderAppend(fs: FileSystem, xs: seq<string>, ys: seq<string>, root: Entries)
    ensures MergeInOrder(fs, xs + ys, root) == MergeInOrder(fs, ys, MergeInOrder(fs, xs, root))
    decreases |xs|
  {
    if xs == [] {
      assert xs + ys == ys;
    } else {
      assert (xs + ys)[1..] == xs[1..] + ys;
      MergeInOrderAppend(fs, xs[1..], ys, MergeMap(root, MapAt(fs, xs[0])));
    }
  }

  /** Loading succeeds exactly if every file of the traversal loads, and then it is the left fold of the merge
      over their order. */
  lemma {:induction false} LoadIsFold(fs: FileSystem, paths: seq<string>, root: Entries)
    requires Acyclic(fs, paths)
    ensures var l := LoadAll(fs, paths, root);
            && (l.failed <==> exists p :: p in Order(fs, paths) && !Loads(fs, p))
            && (!l.failed ==> l.root == MergeInOrder(fs, Order(fs, paths), root))
    decreases Heights(fs, paths), |paths|
  {
    if paths == [] {
    } else {
      var p := paths[0];
      var kids := Reverse(Kids(fs, p));
      var root1 := MergeMap(root, MapAt(fs, p));
      VisitDescends(fs, paths);
      var first, second := Order(fs, kids), Order(fs, paths[1..]);
      assert Order(fs, paths) == [p] + first + second;
      assert forall q :: q in Order(fs, paths) <==> q == p || q in first || q in second;
      if Loads(fs, p) {
        LoadIsFold(fs, kids, root1);
        var below := LoadAll(fs, kids, root1);
        if !below.failed {
          LoadIsFold(fs, paths[1..], below.root);
          MergeInOrderAppend(fs, [p] + first, second, root);
          assert ([p] + first)[1..] == first;
        }
      }
    }
  }

  // ----- what loading leaves in the configuration -----

  /** The file binds the key at its top level. */
  predicate Binds(fs: FileSystem, path: string, k: string) {
    && path in fs.files && fs.files[path].Doc? && fs.files[path].value.Map?
    && k in fs.files[path].value.entries
  }

  function BoundTo(fs: FileSystem, path: string, k: string): ConfValue
    requires Binds(fs, path, k)
  {
    fs.files[path].value.entries[k]
  }

  lemma {:induction false} KeysInOrder(fs: FileSystem, order: seq<string>, root: Entries, k: string)
    ensures k in MergeInOrder(fs, order, root) <==>
              k in root || exists i :: 0 <= i < |order| && Binds(fs, order[i], k)
    decreases |order|
  {
    if order == [] {
    } else {
      KeysInOrder(fs, order[1..], MergeMap(root, MapAt(fs, order[0])), k);
      assert forall i :: 0 <= i < |order| - 1 ==> order[1..][i] == order[i + 1];
      if exists i :: 0 <= i < |order| && Binds(fs, order[i], k) {
        var i :| 0 <= i < |order| && Binds(fs, order[i], k);
        assert i > 0 ==> Binds(fs, order[1..][i - 1], k);
      }
    }
  }

  /** Files that do not bind a key leave its value alone. */
  lemma {:induction false} UnboundIsKept(fs: FileSystem, order: seq<string>, root: Entries, k: string)
    requires forall i :: 0 <= i < |order| ==> !Binds(fs, order[i], k)
    ensures k in MergeInOrder(fs, order, root) <==> k in root
    ensures k in root ==> MergeInOrder(fs, order, root)[k] == root[k]
    decreases |order|
  {
    if order == [] {
    } else {
      assert forall i :: 0 <= i < |order| - 1 ==> order[1..][i] == order[i + 1];
      UnboundIsKept(fs, order[1..], MergeMap(root, MapAt(fs, order[0])), k);
    }
  }

  /** The file that binds a key last decides it: its value is merged behind whatever the earlier files gave, so that
      the value of the only file is there as it stands, and a scalar hides all that came before. */
  lemma LastBinderDecides(fs: FileSystem, order: seq<string>, root: Entries, k: string, i: nat)
    requires i < |order| && Binds(fs, order[i], k)
    requires forall j :: i < j < |order| ==> !Binds(fs, order[j], k)
    ensures k in MergeInOrder(fs, order, root)
    ensures var before, value := MergeInOrder(fs, order[..i], root), BoundTo(fs, order[i], k);
            && MergeInOrder(fs, order, root)[k] == (if k in before then MergeValue(before[k], value) else value)
            && (!value.Map? && !value.List? ==> MergeInOrder(fs, order, root)[k] == value)
    ensures k !in root && (forall j :: 0 <= j < i ==> !Binds(fs, order[j], k)) ==>
              MergeInOrder(fs, order, root)[k] == BoundTo(fs, order[i], k)
  {
    var first, rest := order[..i], order[i + 1..];
    var before := MergeInOrder(fs, first, root);
    assert order == first + ([order[i]] + rest);
    MergeInOrderAppend(fs, first, [order[i]] + rest, root);
    assert ([order[i]] + rest)[1..] == rest;
    assert forall j :: 0 <= j < |rest| ==> rest[j] == order[i + 1 + j];
    UnboundIsKept(fs, rest, MergeMap(before, MapAt(fs, order[i])), k);
    if k !in root && forall j :: 0 <= j < i ==> !Binds(fs, order[j], k) {
      assert forall j :: 0 <= j < i ==> first[j] == order[j];
      UnboundIsKept(fs, first, root, k);
    }
  }

  /** After a successful load: a key is there exactly if it was before or some visited file binds it; the file that
      binds it last decides its value. */
  lemma LoadedKeys(fs: FileSystem, paths: seq<string>, root: Entries, k: string)
    requires Acyclic(fs, paths) && !LoadAll(fs, paths, root).failed
    ensures var order, l := Order(fs, paths), LoadAll(fs, paths, root).root;
            && (k in l <==> k in root || exists i :: 0 <= i < |order| && Binds(fs, order[i], k))
            && (k in root && (forall i :: 0 <= i < |order| ==> !Binds(fs, order[i], k)) ==> l[k] == root[k])
            && forall i :: 0 <= i < |order| && Binds(fs, order[i], k)
                           && (forall j :: i < j < |order| ==> !Binds(fs, order[j], k)) ==>
                 var value := BoundTo(fs, order[i], k);
                 && k in l && (!value.Map? && !value.List? ==> l[k] == value)
                 && (k !in root && (forall j :: 0 <= j < i ==> !Binds(fs, order[j], k)) ==> l[k] == value)
  {
    var order := Order(fs, paths);
    LoadIsFold(fs, paths, root);
    KeysInOrder(fs, order, root, k);
    if forall i :: 0 <= i < |order| ==> !Binds(fs, order[i], k) {
      UnboundIsKept(fs, order, root, k);
    }
    forall i | 0 <= i < |order| && Binds(fs, order[i], k) && forall j :: i < j < |order| ==> !Binds(fs, order[j], k)
      ensures var l, value := LoadAll(fs, paths, root).root, BoundTo(fs, order[i], k);
              && k in l && (!value.Map? && !value.List? ==> l[k] == value)
              && (k !in root && (forall j :: 0 <= j < i ==> !Binds(fs, order[j], k)) ==> l[k] == value)
    {
      LastBinderDecides(fs, order, root, k, i);
    }
  }

  /** A single file without includes, loaded into an empty configuration, is the configuration. */
  lemma SingleFile(fs: FileSystem, path: string, m: Entries)
    requires path in fs.files && fs.files[path] == Doc(Map(m)) && "include" !in m
    ensures Acyclic(fs, [path]) && LoadAll(fs, [path], map[]) == Loaded(m, false)
  {
    KidsAreListed(fs, path, []);
    AcyclicAbove(fs, path);
    VisitDescends(fs, [path]);
    EmptyIsIdentity(m);
    assert [path][1..] == [];
  }

  // ----- the files visited are those that can be reached -----

  /** A chain to the file. */
  predicate Leads(fs: FileSystem, paths: seq<string>, w: seq<string>, q: string) {
    Walk(fs, w) && w != [] && w[0] in paths && w[|w| - 1] == q
  }

  ghost predicate Reaches(fs: FileSystem, paths: seq<string>, q: string) {
    exists w :: Leads(fs, paths, w, q)
  }

  lemma LeadsDown(fs: FileSystem, p: string, rest: seq<string>, w: seq<string>, q: string)
    requires Leads(fs, [p] + rest, w, q)
    ensures q == p || Reaches(fs, Kids(fs, p), q) || Reaches(fs, rest, q)
  {
    if w[0] == p {
      var below := w[1..];
      if below != [] {
        assert Walk(fs, below);
        assert Leads(fs, Kids(fs, p), below, q);
      }
    } else {
      assert Leads(fs, rest, w, q);
    }
  }

  lemma LeadsUp(fs: FileSystem, p: string, rest: seq<string>, w: seq<string>, q: string)
    ensures Leads(fs, Kids(fs, p), w, q) ==> Reaches(fs, [p] + rest, q)
    ensures Leads(fs, rest, w, q) ==> Reaches(fs, [p] + rest, q)
    ensures Reaches(fs, [p] + rest, p)
  {
    var paths := [p] + rest;
    assert paths[0] == p && paths[1..] == rest;
    if Leads(fs, Kids(fs, p), w, q) {
      WalkFrom(fs, p, w);
      var longer := [p] + w;
      assert longer[0] == p && longer[|longer| - 1] == q;
      assert Leads(fs, paths, longer, q);
    }
    if Leads(fs, rest, w, q) {
      assert Leads(fs, paths, w, q);
    }
    assert Leads(fs, paths, [p], p);
  }

  lemma ReachBelow(fs: FileSystem, p: string, rest: seq<string>, q: string)
    ensures Reaches(fs, [p] + rest, q) <==> q == p || Reaches(fs, Kids(fs, p), q) || Reaches(fs, rest, q)
  {
    LeadsUp(fs, p, rest, [], q);
    if Reaches(fs, [p] + rest, q) {
      var w :| Leads(fs, [p] + rest, w, q);
      LeadsDown(fs, p, rest, w, q);
    }
    if Reaches(fs, Kids(fs, p), q) {
      var w :| Leads(fs, Kids(fs, p), w, q);
      LeadsUp(fs, p, rest, w, q);
    }
    if Reaches(fs, rest, q) {
      var w :| Leads(fs, rest, w, q);
      LeadsUp(fs, p, rest, w, q);
    }
  }

  lemma ReachReversed(fs: FileSystem, paths: seq<string>, q: string)
    ensures Reaches(fs, Reverse(paths), q) <==> Reaches(fs, paths, q)
  {
    ReverseMembers(paths);
    if Reaches(fs, paths, q) {
      var w :| Leads(fs, paths, w, q);
      assert Leads(fs, Reverse(paths), w, q);
    }
    if Reaches(fs, Reverse(paths), q) {
      var w :| Leads(fs, Reverse(paths), w, q);
      assert Leads(fs, paths, w, q);
    }
  }

  lemma {:induction false} VisitedAreReached(fs: FileSystem, paths: seq<string>, q: string)
    requires Acyclic(fs, paths)
    ensures q in Order(fs, paths) <==> Reaches(fs, paths, q)
    decreases Heights(fs, paths), |paths|
  {
    if paths == [] {
    } else {
      VisitDescends(fs, paths);
      assert paths == [paths[0]] + paths[1..];
      ReachBelow(fs, paths[0], paths[1..], q);
      ReachReversed(fs, Kids(fs, paths[0]), q);
      VisitedAreReached(fs, Reverse(Kids(fs, paths[0])), q);
      VisitedAreReached(fs, paths[1..], q);
    }
  }

  // ----- the program -----

  class Stack {
    var items: seq<string>

    constructor ()
      ensures items == []
    {
      items := [];
    }

    method Push(n: string)
      modifies this
      ensures items == old(items) + [n]
    {
      items := items + [n];
    }

    method Pop() returns (n: string)
      requires items != []
      modifies this
      ensures old(items) == items + [n]
    {
      var x := |items| - 1;
      n := items[x];
      items := items[..x];
    }
  }

  /** The size of the unfolded trees of includes below the paths: each visit of a file counts. */
  ghost function Unfolded(fs: FileSystem, paths: seq<string>): nat
    requires Acyclic(fs, paths)
    decreases Heights(fs, paths), |paths|
  {
    if paths == [] then 0
    else
      VisitDescends(fs, paths);
      1 + Unfolded(fs, Reverse(Kids(fs, paths[0]))) + Unfolded(fs, paths[1..])
  }

  lemma {:induction false} UnfoldedAppend(fs: FileSystem, xs: seq<string>, ys: seq<string>)
    requires Acyclic(fs, xs) && Acyclic(fs, ys) && Acyclic(fs, xs + ys)
    ensures Unfolded(fs, xs + ys) == Unfolded(fs, xs) + Unfolded(fs, ys)
    decreases |xs|
  {
    if xs == [] {
      assert xs + ys == ys;
    } else {
      assert (xs + ys)[0] == xs[0] && (xs + ys)[1..] == xs[1..] + ys;
      VisitDescends(fs, xs);
      VisitDescends(fs, xs + ys);
      UnfoldedAppend(fs, xs[1..], ys);
    }
  }

  // ----- the stack and its turns -----

  /** What a stack stands for: its files are loaded from the top down. */
  ghost function LoadStack(fs: FileSystem, stack: seq<string>, root: Entries): Loaded
    requires Acyclic(fs, stack)
  {
    ReverseMembers(stack);
    LoadAll(fs, Reverse(stack), root)
  }

  ghost function UnfoldedStack(fs: FileSystem, stack: seq<string>): nat
    requires Acyclic(fs, stack)
  {
    ReverseMembers(stack);
    Unfolded(fs, Reverse(stack))
  }

  lemma TurnKeepsAcyclic(fs: FileSystem, rest: seq<string>, path: string)
    ensures Acyclic(fs, rest + [path]) <==> Acyclic(fs, rest + Kids(fs, path))
  {
    var before, after := rest + [path], rest + Kids(fs, path);
    assert before[|rest|] == path;
    if Acyclic(fs, before) {
      AcyclicAmong(fs, before, [path]);
      AcyclicAmong(fs, before, rest);
      AcyclicBelow(fs, path);
    }
    if Acyclic(fs, after) {
      AcyclicAmong(fs, after, rest);
      AcyclicAmong(fs, after, Kids(fs, path));
      AcyclicAbove(fs, path);
    }
  }

  /** What one turn of the loop leaves to do. */
  lemma TurnKeepsLoad(fs: FileSystem, rest: seq<string>, path: string, root: Entries)
    requires Acyclic(fs, rest + [path])
    ensures Acyclic(fs, rest + Kids(fs, path))
    ensures LoadStack(fs, rest + [path], root)
         == if Loads(fs, path) then LoadStack(fs, rest + Kids(fs, path), MergeMap(root, MapAt(fs, path)))
            else Loaded(root, true)
    ensures Loads(fs, path) ==> UnfoldedStack(fs, rest + Kids(fs, path)) < UnfoldedStack(fs, rest + [path])
  {
    TurnKeepsAcyclic(fs, rest, path);
    ReverseMembers(rest + [path]);
    ReverseMembers(rest + Kids(fs, path));
    ReverseSnoc(rest, path);
    ReverseAppend(rest, Kids(fs, path));
    var kids, below := Reverse(Kids(fs, path)), Reverse(rest);
    AcyclicAmong(fs, kids + below, kids);
    AcyclicAmong(fs, kids + below, below);
    VisitDescends(fs, [path] + below);
    assert ([path] + below)[1..] == below;
    LoadAppend(fs, kids, below, MergeMap(root, MapAt(fs, path)));
    UnfoldedAppend(fs, kids, below);
  }

  /** The stack after so many turns of the loop, unless a file stopped it. */
  function Turns(fs: FileSystem, stack: seq<string>, n: nat): Option<seq<string>>
    decreases n
  {
    if n == 0 || stack == [] then Some(stack)
    else
      var path := stack[|stack| - 1];
      if Loads(fs, path) then Turns(fs, stack[..|stack| - 1] + Kids(fs, path), n - 1) else None
  }

  /** The files merged in so many turns. */
  function Visits(fs: FileSystem, stack: seq<string>, n: nat): seq<string>
    decreases n
  {
    if n == 0 || stack == [] then []
    else
      var path := stack[|stack| - 1];
      if Loads(fs, path) then [path] + Visits(fs, stack[..|stack| - 1] + Kids(fs, path), n - 1) else []
  }

  /** The loop has ended, with the stack empty or at a file that cannot be loaded. */
  predicate Over(turns: Option<seq<string>>) {
    turns.None? || turns.value == []
  }

  ghost predicate Ends(fs: FileSystem, stack: seq<string>) {
    exists n :: Over(Turns(fs, stack, n))
  }

  /** Along the chain `w` the loop gets to a file that cannot be loaded, and no cycle is visited before. */
  ghost predicate StopsAt(fs: FileSystem, stack: seq<string>, w: seq<string>)
    decreases |w|, 1
  {
    w != [] && exists i :: 0 <= i < |stack| && StopsFrom(fs, stack, i, w)
  }

  /** The same with the file of the stack at which the chain starts. */
  ghost predicate StopsFrom(fs: FileSystem, stack: seq<string>, i: nat, w: seq<string>)
    requires w != [] && i < |stack|
    decreases |w|, 0
  {
    && stack[i] == w[0] && Acyclic(fs, stack[i + 1..])
    && (if |w| == 1 then !Loads(fs, w[0]) else StopsAt(fs, Kids(fs, w[0]), w[1..]))
  }

  ghost predicate StopsEarly(fs: FileSystem, stack: seq<string>) {
    exists w :: StopsAt(fs, stack, w)
  }

  lemma TurnOnce(fs: FileSystem, rest: seq<string>, path: string, n: nat)
    ensures Turns(fs, rest + [path], n + 1) == if Loads(fs, path) then Turns(fs, rest + Kids(fs, path), n) else None
  {
    assert (rest + [path])[..|rest|] == rest;
  }

  lemma {:induction false} TurnsAdd(fs: FileSystem, stack: seq<string>, m: nat, n: nat)
    requires Turns(fs, stack, m).Some?
    ensures Turns(fs, stack, m + n) == Turns(fs, Turns(fs, stack, m).value, n)
    decreases m
  {
    if m == 0 || stack == [] {
    } else {
      TurnsAdd(fs, stack[..|stack| - 1] + Kids(fs, stack[|stack| - 1]), m - 1, n);
    }
  }

  lemma TurnKeepsVisits(fs: FileSystem, rest: seq<string>, path: string, n: nat, root: Entries)
    ensures MergeInOrder(fs, Visits(fs, rest + [path], n + 1), root)
         == if Loads(fs, path) then
              MergeInOrder(fs, Visits(fs, rest + Kids(fs, path), n), MergeMap(root, MapAt(fs, path)))
            else root
  {
    assert (rest + [path])[..|rest|] == rest;
    var visits := Visits(fs, rest + Kids(fs, path), n);
    assert ([path] + visits)[1..] == visits;
  }

  /** Files above a stack that can reach no cycle are worked off, unless one of them stops the loop. */
  lemma {:induction false} WorksOff(fs: FileSystem, base: seq<string>, above: seq<string>) returns (n: nat)
    requires Acyclic(fs, above)
    ensures Turns(fs, base + above, n).None? || Turns(fs, base + above, n) == Some(base)
    decreases UnfoldedStack(fs, above)
  {
    if above == [] {
      n := 0;
      assert base + above == base;
    } else {
      var rest, path := above[..|above| - 1], above[|above| - 1];
      assert above == rest + [path];
      Assoc(base, rest, [path]);
      n := 0;
      if Loads(fs, path) {
        TurnKeepsLoad(fs, rest, path, map[]);
        n := WorksOff(fs, base, rest + Kids(fs, path));
        Assoc(base, rest, Kids(fs, path));
      }
      TurnOnce(fs, base + rest, path, n);
      n := n + 1;
    }
  }

  lemma StopLater(fs: FileSystem, stack: seq<string>, n: nat, base: seq<string>, path: string, more: nat)
    requires Turns(fs, stack, n) == Some(base + [path])
    requires Loads(fs, path) ==> Turns(fs, base + Kids(fs, path), more).None?
    ensures Turns(fs, stack, n + (more + 1)).None?
  {
    TurnOnce(fs, base, path, more);
    TurnsAdd(fs, stack, n, more + 1);
  }

  lemma {:induction false} StopEnds(fs: FileSystem, stack: seq<string>, w: seq<string>) returns (n: nat)
    requires StopsAt(fs, stack, w)
    ensures Turns(fs, stack, n).None?
    decreases |w|
  {
    var i :| 0 <= i < |stack| && StopsFrom(fs, stack, i, w);
    var base, path := stack[..i], w[0];
    var more := 0;
    if |w| > 1 {
      StopsAbove(fs, base, Kids(fs, path), w[1..]);
      more := StopEnds(fs, base + Kids(fs, path), w[1..]);
    }
    n := StopReached(fs, stack, i, more);
  }

  /** The loop works off what lies above a file whose visit stops it later. */
  lemma StopReached(fs: FileSystem, stack: seq<string>, i: nat, more: nat) returns (n: nat)
    requires i < |stack| && Acyclic(fs, stack[i + 1..])
    requires Loads(fs, stack[i]) ==> Turns(fs, stack[..i] + Kids(fs, stack[i]), more).None?
    ensures Turns(fs, stack, n).None?
  {
    var base, path := stack[..i], stack[i];
    assert stack == (base + [path]) + stack[i + 1..];
    n := WorksOff(fs, base + [path], stack[i + 1..]);
    if Turns(fs, stack, n).Some? {
      StopLater(fs, stack, n, base, path, more);
      n := n + (more + 1);
    }
  }

  /** What lies below does not matter to a stop. */
  lemma StopsShift(fs: FileSystem, base: seq<string>, above: seq<string>, i: nat, w: seq<string>)
    requires w != [] && i < |above|
    ensures StopsFrom(fs, base + above, |base| + i, w) <==> StopsFrom(fs, above, i, w)
  {
    var k := |base| + i;
    assert (base + above)[k] == above[i] && (base + above)[k + 1..] == above[i + 1..];
  }

  lemma StopsAbove(fs: FileSystem, base: seq<string>, above: seq<string>, w: seq<string>)
    requires StopsAt(fs, above, w)
    ensures StopsAt(fs, base + above, w)
  {
    var i :| 0 <= i < |above| && StopsFrom(fs, above, i, w);
    StopsShift(fs, base, above, i, w);
  }

  /** A loop that stops at a file has met no cycle before it. */
  lemma {:induction false} StoppedEarly(fs: FileSystem, stack: seq<string>, n: nat) returns (w: seq<string>)
    requires Turns(fs, stack, n).None?
    ensures StopsAt(fs, stack, w)
    decreases n
  {
    var rest, path := stack[..|stack| - 1], stack[|stack| - 1];
    var k := |rest|;
    assert stack == rest + [path] && stack[k] == path && stack[k + 1..] == [];
    if !Loads(fs, path) {
      w := [path];
      assert StopsFrom(fs, stack, k, w);
    } else {
      w := StoppedEarly(fs, rest + Kids(fs, path), n - 1);
      w := StopBefore(fs, rest, path, w);
    }
  }

  lemma AboveInRest(rest: seq<string>, i: nat, more: seq<string>)
    requires i < |rest|
    ensures (rest + more)[i] == rest[i] && (rest + more)[i + 1..] == rest[i + 1..] + more
  {
  }

  lemma StopInRest(fs: FileSystem, rest: seq<string>, path: string, i: nat, w: seq<string>)
    requires w != [] && i < |rest| && StopsFrom(fs, rest + Kids(fs, path), i, w)
    ensures StopsFrom(fs, rest + [path], i, w)
  {
    AboveInRest(rest, i, Kids(fs, path));
    AboveInRest(rest, i, [path]);
    TurnKeepsAcyclic(fs, rest[i + 1..], path);
  }

  lemma StopInKids(fs: FileSystem, path: string, i: nat, w: seq<string>)
    requires w != [] && i < |Kids(fs, path)| && StopsFrom(fs, Kids(fs, path), i, w)
    ensures StopsFrom(fs, [path], 0, [path] + w)
  {
    assert ([path] + w)[1..] == w && [path][1..] == [];
  }

  /** A stop after a turn is one before it. */
  lemma StopBefore(fs: FileSystem, rest: seq<string>, path: string, w: seq<string>) returns (w': seq<string>)
    requires StopsAt(fs, rest + Kids(fs, path), w)
    ensures StopsAt(fs, rest + [path], w')
  {
    var kids, k := Kids(fs, path), |rest|;
    var i :| 0 <= i < |rest + kids| && StopsFrom(fs, rest + kids, i, w);
    if i < k {
      w' := w;
      StopInRest(fs, rest, path, i, w);
    } else {
      var j := i - k;
      w' := [path] + w;
      StopsShift(fs, rest, kids, j, w);
      StopInKids(fs, path, j, w);
      StopsShift(fs, rest, [path], 0, w');
    }
  }

  // ----- cycles -----

  /** Some files each of which includes one of them. */
  predicate Endless(fs: FileSystem, files: set<string>) {
    forall p {:trigger IncludesOneOf(fs, p, files)} :: p in files ==> IncludesOneOf(fs, p, files)
  }

  predicate IncludesOneOf(fs: FileSystem, path: string, files: set<string>) {
    exists q :: q in Kids(fs, path) && q in files
  }

  predicate Meets(stack: seq<string>, files: set<string>) {
    exists i :: 0 <= i < |stack| && stack[i] in files
  }

  lemma TurnMeets(fs: FileSystem, files: set<string>, rest: seq<string>, path: string)
    requires Endless(fs, files) && Meets(rest + [path], files)
    ensures Meets(rest + Kids(fs, path), files)
  {
    var kids := Kids(fs, path);
    var i :| 0 <= i < |rest + [path]| && (rest + [path])[i] in files;
    if i < |rest| {
      assert (rest + kids)[i] in files;
    } else {
      assert IncludesOneOf(fs, path, files);
      var q :| q in kids && q in files;
      var j :| 0 <= j < |kids| && kids[j] == q;
      assert (rest + kids)[|rest| + j] in files;
    }
  }

  /** Without acyclicity the loop need not end: once it holds a file of an endless group it runs for any number of
      turns, unless a file cannot be loaded. No depth limit stops it. */
  lemma {:induction false} EndlessNeverEnds(fs: FileSystem, files: set<string>, stack: seq<string>, n: nat)
    requires Endless(fs, files) && Meets(stack, files)
    ensures Turns(fs, stack, n).Some? ==> Meets(Turns(fs, stack, n).value, files)
    decreases n
  {
    if n == 0 {
    } else {
      var rest, path := stack[..|stack| - 1], stack[|stack| - 1];
      assert stack == rest + [path];
      if Loads(fs, path) {
        TurnMeets(fs, files, rest, path);
        EndlessNeverEnds(fs, files, rest + Kids(fs, path), n - 1);
      }
    }
  }

  /** A chain that comes back to a file is such a group. */
  lemma CycleIsEndless(fs: FileSystem, w: seq<string>, i: nat, j: nat)
    requires Walk(fs, w) && i < j < |w| && w[i] == w[j]
    ensures Endless(fs, set k | 0 <= k < j :: w[k])
  {
    var files := set k | 0 <= k < j :: w[k];
    forall p | p in files ensures IncludesOneOf(fs, p, files) {
      var k :| 0 <= k < j && w[k] == p;
      assert w[k + 1] in Kids(fs, p);
      assert w[k + 1] in files by {
        if k + 1 == j { assert w[i] in files; }
      }
    }
  }

  /** The loop empties its stack only if no cycle can be reached. */
  lemma EmptiesOnlyAcyclic(fs: FileSystem, stack: seq<string>, n: nat)
    requires Turns(fs, stack, n) == Some([])
    ensures Acyclic(fs, stack)
  {
    forall w | Walk(fs, w) && w != [] && w[0] in stack ensures NoRepeats(w) {
      if !NoRepeats(w) {
        var i, j :| 0 <= i < j < |w| && w[i] == w[j];
        var files := set k | 0 <= k < j :: w[k];
        CycleIsEndless(fs, w, i, j);
        var k :| 0 <= k < |stack| && stack[k] == w[0];
        assert stack[k] in files;
        EndlessNeverEnds(fs, files, stack, n);
        assert false;
      }
    }
  }

  /** Exactly when the loop ends: no cycle can be reached from the files it starts with, or a file that cannot be
      loaded stops it before a cycle is visited. */
  lemma EndsIff(fs: FileSystem, stack: seq<string>)
    ensures Ends(fs, stack) <==> Acyclic(fs, stack) || StopsEarly(fs, stack)
  {
    if Ends(fs, stack) {
      var n :| Over(Turns(fs, stack, n));
      if Turns(fs, stack, n).None? {
        var _ := StoppedEarly(fs, stack, n);
      } else {
        EmptiesOnlyAcyclic(fs, stack, n);
      }
    }
    if Acyclic(fs, stack) {
      var n := WorksOff(fs, [], stack);
      assert [] + stack == stack;
    } else if StopsEarly(fs, stack) {
      var w :| StopsAt(fs, stack, w);
      var n := StopEnds(fs, stack, w);
    }
  }

  // ----- the loop -----

  /** What the loop has still to do gives what it had to do at first. */
  ghost predicate LoopInv(fs: FileSystem, paths: seq<string>, n: nat, first: Entries,
                          stack: seq<string>, left: nat, root: Entries)
  {
    && Turns(fs, paths, n) == Turns(fs, stack, left)
    && MergeInOrder(fs, Visits(fs, paths, n), first) == MergeInOrder(fs, Visits(fs, stack, left), root)
    && (Acyclic(fs, paths) ==>
          Acyclic(fs, stack) && LoadStack(fs, stack, root) == LoadStack(fs, paths, first))
  }

  /** What the loop promises when it ends. */
  ghost predicate LoopDone(fs: FileSystem, paths: seq<string>, n: nat, first: Entries, root: Entries, failed: bool) {
    && (if failed then Turns(fs, paths, n).None? else Turns(fs, paths, n) == Some([]))
    && root == MergeInOrder(fs, Visits(fs, paths, n), first)
    && (Acyclic(fs, paths) ==> Loaded(root, failed) == LoadStack(fs, paths, first))
    && (!Acyclic(fs, paths) ==> failed)
  }

  lemma Enough(fs: FileSystem, paths: seq<string>) returns (n: nat)
    requires Acyclic(fs, paths) || StopsEarly(fs, paths)
    ensures Over(Turns(fs, paths, n))
  {
    EndsIff(fs, paths);
    n :| Over(Turns(fs, paths, n));
  }

  lemma LoopStep(fs: FileSystem, paths: seq<string>, n: nat, first: Entries,
                 rest: seq<string>, path: string, left: nat, root: Entries)
    requires Over(Turns(fs, paths, n)) && LoopInv(fs, paths, n, first, rest + [path], left, root)
    ensures left > 0
    ensures if Loads(fs, path) then
              LoopInv(fs, paths, n, first, rest + Kids(fs, path), left - 1, MergeMap(root, MapAt(fs, path)))
            else LoopDone(fs, paths, n, first, root, true)
  {
    TurnOnce(fs, rest, path, left - 1);
    TurnKeepsVisits(fs, rest, path, left - 1, root);
    if Acyclic(fs, paths) {
      TurnKeepsLoad(fs, rest, path, root);
    }
  }

  lemma LoopStart(fs: FileSystem, paths: seq<string>, n: nat, first: Entries)
    ensures LoopInv(fs, paths, n, first, paths, n, first)
  {
  }

  lemma LoopEnd(fs: FileSystem, paths: seq<string>, n: nat, first: Entries, left: nat, root: Entries)
    requires LoopInv(fs, paths, n, first, [], left, root)
    ensures LoopDone(fs, paths, n, first, root, false)
  {
    EmptiesOnlyAcyclic(fs, paths, n);
  }

  class Config {
    var root: Entries

    constructor ()
      ensures root == map[]
    {
      root := map[];
    }

    /** The stack-driven loop ends whenever that of the source does. On includes without a cycle it refines the
        recursive traversal; in any case it merges what it visits, in order, up to a file that stops it. */
    method Load(fs: FileSystem, paths: seq<string>) returns (failed: bool)
      requires Acyclic(fs, paths) || StopsEarly(fs, paths)
      modifies this
      ensures Acyclic(fs, paths) ==> Loaded(root, failed) == LoadStack(fs, paths, old(root))
      ensures !Acyclic(fs, paths) ==> failed
      ensures exists n :: LoopDone(fs, paths, n, old(root), root, failed)
    {
      var pathToVisit := new Stack();
      for i := 0 to |paths|
        invariant pathToVisit.items == paths[..i] && fresh(pathToVisit) && root == old(root)
      {
        pathToVisit.Push(paths[i]);
      }
      assert paths[..|paths|] == paths;
      ghost var n := Enough(fs, paths);
      failed := VisitAll(fs, pathToVisit, n);
    }

    /** The loop itself. */
    method VisitAll(fs: FileSystem, pathToVisit: Stack, ghost n: nat) returns (failed: bool)
      requires Over(Turns(fs, pathToVisit.items, n))
      modifies this, pathToVisit
      ensures LoopDone(fs, old(pathToVisit.items), n, old(root), root, failed)
    {
      ghost var paths, first, left: nat := pathToVisit.items, root, n;
      LoopStart(fs, paths, n, first);
      while pathToVisit.items != []
        invariant LoopInv(fs, paths, n, first, pathToVisit.items, left, root)
        decreases left
      {
        failed := Visit(fs, pathToVisit, paths, n, first, left);
        if failed {
          return;
        }
        left := left - 1;
      }
      LoopEnd(fs, paths, n, first, left, root);
      failed := false;
    }

    /** One turn of the loop: the file on top is replaced by what it includes, and merged. */
    method Visit(fs: FileSystem, pathToVisit: Stack,
                 ghost paths: seq<string>, ghost n: nat, ghost first: Entries, ghost left: nat)
      returns (failed: bool)
      requires pathToVisit.items != [] && Over(Turns(fs, paths, n))
      requires LoopInv(fs, paths, n, first, pathToVisit.items, left, root)
      modifies this, pathToVisit
      ensures left > 0
      ensures if failed then LoopDone(fs, paths, n, first, root, true)
              else LoopInv(fs, paths, n, first, pathToVisit.items, left - 1, root)
    {
      var path := pathToVisit.Pop();
      LoopStep(fs, paths, n, first, pathToVisit.items, path, left, root);
      var file := Open(fs, path);
      if !file.Doc? {
        return true;
      }
      var found := PushIncludes(fs, file.value, pathToVisit);
      if !found {
        return true;
      }
      var merged := MergeMaps(root, MapOf(file.value));
      root := merged;
      failed := false;
    }

    /** Pushes what the include entries stand for, in their order, up to one that fails. */
    method PushIncludes(fs: FileSystem, v: ConfValue, pathToVisit: Stack) returns (found: bool)
      modifies pathToVisit
      ensures found <==> IncludesOf(fs, v).Some?
      ensures found ==> pathToVisit.items == old(pathToVisit.items) + IncludesOf(fs, v).value
    {
      var includes := GetKey(v, "include");
      if !includes.List? {
        return true;
      }
      var entries := includes.items;
      ghost var done: seq<string> := [];
      for i := 0 to |entries|
        invariant pathToVisit.items == old(pathToVisit.items) + done
        invariant ResolveAll(fs, entries).Some? <==> ResolveAll(fs, entries[i..]).Some?
        invariant ResolveAll(fs, entries).Some? ==>
                    ResolveAll(fs, entries).value == done + ResolveAll(fs, entries[i..]).value
      {
        assert entries[i..][0] == entries[i] && entries[i..][1..] == entries[i + 1..];
        match fs.resolve(entries[i])
        case None => return false;
        case Some(found) =>
          for j := 0 to |found|
            invariant pathToVisit.items == old(pathToVisit.items) + done + found[..j]
          {
            pathToVisit.Push(found[j]);
          }
          done := done + found;
      }
      found := true;
    }
  }
}
