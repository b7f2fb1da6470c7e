/** The include graph of configuration files: heights on acyclic graphs. */
module Includes {
  import opened Wire
  import opened Merge

  datatype File = Unreadable | Malformed | Doc(value: ConfValue)

  /** `resolve` finds the files an include entry stands for; it fails for a missing required one. */
  datatype FileSystem = FileSystem(files: map<string, File>, resolve: ConfValue -> Option<seq<string>>)

  function Open(fs: FileSystem, path: string): File {
    if path in fs.files then fs.files[path] else Unreadable
  }

  function ResolveAll(fs: FileSystem, entries: seq<ConfValue>): Option<seq<string>> {
    if entries == [] then Some([])
    else
      match (fs.resolve(entries[0]), ResolveAll(fs, entries[1..]))
      case (Some(xs), Some(ys)) => Some(xs + ys)
      case _ => None
  }

  /** The files a document includes, in the order in which they are pushed. */
  function IncludesOf(fs: FileSystem, v: ConfValue): Option<seq<string>> {
    var includes := GetKey(v, "include");
    if includes.List? then ResolveAll(fs, includes.items) else Some([])
  }

  /** A file that loading can get past. */
  predicate Loads(fs: FileSystem, path: string) {
    Open(fs, path).Doc? && IncludesOf(fs, Open(fs, path).value).Some?
  }

  function Kids(fs: FileSystem, path: string): seq<string> {
    if Loads(fs, path) then IncludesOf(fs, Open(fs, path).value).value else []
  }

  lemma {:induction false} ResolvesInOrder(fs: FileSystem, entries: seq<ConfValue>, found: seq<seq<string>>)
    requires |found| == |entries| && forall i :: 0 <= i < |entries| ==> fs.resolve(entries[i]) == Some(found[i])
    ensures ResolveAll(fs, entries) == Some(Concat(found))
    decreases |entries|
  {
    if entries == [] {
    } else {
      ResolvesInOrder(fs, entries[1..], found[1..]);
    }
  }

  lemma {:induction false} MissingStopsAll(fs: FileSystem, entries: seq<ConfValue>, i: nat)
    requires i < |entries| && fs.resolve(entries[i]).None?
    ensures ResolveAll(fs, entries).None?
    decreases |entries|
  {
    if i == 0 {
    } else {
      MissingStopsAll(fs, entries[1..], i - 1);
    }
  }

  /** What a file includes: all that the entries of its list under "include" stand for, entry by entry in their
      order. It cannot be loaded if one of them fails, and includes nothing without such a list. */
  lemma KidsAreListed(fs: FileSystem, path: string, found: seq<seq<string>>)
    requires path in fs.files && fs.files[path].Doc?
    ensures var v := fs.files[path].value;
            if v.Map? && "include" in v.entries && v.entries["include"].List? then
              var entries := v.entries["include"].items;
              && (|found| == |entries|
                  && (forall i :: 0 <= i < |entries| ==> fs.resolve(entries[i]) == Some(found[i])) ==>
                    Loads(fs, path) && Kids(fs, path) == Concat(found))
              && (forall i :: 0 <= i < |entries| && fs.resolve(entries[i]).None? ==>
                    !Loads(fs, path) && Kids(fs, path) == [])
            else Loads(fs, path) && Kids(fs, path) == []
  {
    var v := fs.files[path].value;
    if v.Map? && "include" in v.entries && v.entries["include"].List? {
      var entries := v.entries["include"].items;
      if |found| == |entries| && forall i :: 0 <= i < |entries| ==> fs.resolve(entries[i]) == Some(found[i]) {
        ResolvesInOrder(fs, entries, found);
      }
      forall i | 0 <= i < |entries| && fs.resolve(entries[i]).None?
        ensures !Loads(fs, path) && Kids(fs, path) == []
      {
        MissingStopsAll(fs, entries, i);
      }
    }
  }

  /** Only a readable document loads. */
  lemma UnreadableStops(fs: FileSystem, path: string)
    ensures Loads(fs, path) ==> path in fs.files && fs.files[path].Doc?
  {
  }

  predicate Walk(fs: FileSystem, w: seq<string>) {
    forall i :: 0 <= i < |w| - 1 ==> w[i + 1] in Kids(fs, w[i])
  }

  predicate NoRepeats(w: seq<string>) {
    forall i, j :: 0 <= i < j < |w| ==> w[i] != w[j]
  }

  /** No chain of includes that starts in one of the files comes back to a file; a file may still be included
      many times. */
  ghost predicate Acyclic(fs: FileSystem, paths: seq<string>) {
    forall w :: Walk(fs, w) && w != [] && w[0] in paths ==> NoRepeats(w)
  }

  lemma AcyclicAmong(fs: FileSystem, paths: seq<string>, some: seq<string>)
    requires Acyclic(fs, paths) && forall p :: p in some ==> p in paths
    ensures Acyclic(fs, some)
  {
  }

  lemma WalkFrom(fs: FileSystem, path: string, w: seq<string>)
    requires Walk(fs, w) && w != [] && w[0] in Kids(fs, path)
    ensures Walk(fs, [path] + w)
  {
    var longer := [path] + w;
    forall i | 0 <= i < |longer| - 1 ensures longer[i + 1] in Kids(fs, longer[i]) {
      assert longer[i + 1] == w[i];
    }
  }

  lemma AcyclicBelow(fs: FileSystem, path: string)
    requires Acyclic(fs, [path])
    ensures Acyclic(fs, Kids(fs, path))
  {
    forall w | Walk(fs, w) && w != [] && w[0] in Kids(fs, path) ensures NoRepeats(w) {
      WalkFrom(fs, path, w);
      var longer := [path] + w;
      assert longer[0] in [path];
      assert forall i :: 0 <= i < |w| ==> w[i] == longer[i + 1];
    }
  }

  lemma NoReturn(fs: FileSystem, w: seq<string>, j: nat)
    requires Walk(fs, w) && 1 <= j < |w| && Acyclic(fs, Kids(fs, w[0]))
    ensures w[j] != w[0]
  {
    var round := w[1..j + 1] + [w[1]];
    assert round[0] == round[j] && round[0] in Kids(fs, w[0]);
    assert w[j] == w[0] ==> Walk(fs, round);
  }

  /** A file that is on no cycle below itself is on none at all. */
  lemma AcyclicAbove(fs: FileSystem, path: string)
    requires Acyclic(fs, Kids(fs, path))
    ensures Acyclic(fs, [path])
  {
    forall w | Walk(fs, w) && w != [] && w[0] in [path] ensures NoRepeats(w) {
      var below := w[1..];
      if below != [] {
        assert Walk(fs, below);
        forall j | 1 <= j < |w| ensures w[j] != path {
          NoReturn(fs, w, j);
        }
        assert forall i :: 1 <= i < |w| ==> w[i] == below[i - 1];
      }
    }
  }

  // ----- height: the longest chain of includes below a file -----

  function Bounded(fs: FileSystem, path: string, n: nat): nat
    decreases n, 0, 0
  {
    if n == 0 || Kids(fs, path) == [] then 0 else 1 + Tallest(fs, Kids(fs, path), n - 1)
  }

  function Tallest(fs: FileSystem, paths: seq<string>, n: nat): nat
    decreases n, 1, |paths|
  {
    if paths == [] then 0
    else
      var h, t := Bounded(fs, paths[0], n), Tallest(fs, paths[1..], n);
      if h >= t then h else t
  }

  lemma {:induction false} TallestMeaning(fs: FileSystem, paths: seq<string>, n: nat)
    ensures forall q :: q in paths ==> Bounded(fs, q, n) <= Tallest(fs, paths, n)
    ensures paths != [] ==> exists q :: q in paths && Bounded(fs, q, n) == Tallest(fs, paths, n)
    decreases |paths|
  {
    if paths == [] {
    } else {
      TallestMeaning(fs, paths[1..], n);
      assert paths[0] in paths;
    }
  }

  lemma {:induction false} LongestWalk(fs: FileSystem, path: string, n: nat) returns (w: seq<string>)
    ensures Walk(fs, w) && |w| == Bounded(fs, path, n) + 1 && w[0] == path
    decreases n
  {
    w := [path];
    if n == 0 || Kids(fs, path) == [] {
    } else {
      TallestMeaning(fs, Kids(fs, path), n - 1);
      var q :| q in Kids(fs, path) && Bounded(fs, q, n - 1) == Tallest(fs, Kids(fs, path), n - 1);
      var rest := LongestWalk(fs, q, n - 1);
      w := [path] + rest;
    }
  }

  lemma {:induction false} DistinctAreFew(w: seq<string>, s: set<string>)
    requires NoRepeats(w) && forall p :: p in w ==> p in s
    ensures |w| <= |s|
    decreases |w|
  {
    if w == [] {
    } else {
      var rest := w[1..];
      assert w[0] in w && w[0] !in rest;
      DistinctAreFew(rest, s - {w[0]});
    }
  }

  /** On an acyclic graph no chain is longer than the number of files. */
  lemma HeightIsBounded(fs: FileSystem, path: string, n: nat)
    requires Acyclic(fs, [path])
    ensures Bounded(fs, path, n) <= |fs.files|
  {
    var w := LongestWalk(fs, path, n);
    var inner := w[..|w| - 1];
    forall p | p in inner ensures p in fs.files.Keys {
      var i :| 0 <= i < |inner| && inner[i] == p;
      assert w[i + 1] in Kids(fs, w[i]);
    }
    DistinctAreFew(inner, fs.files.Keys);
  }

  lemma {:induction false} HeightIsStable(fs: FileSystem, path: string, n: nat)
    requires Bounded(fs, path, n) < n
    ensures Bounded(fs, path, n + 1) == Bounded(fs, path, n)
    decreases n
  {
    if Kids(fs, path) == [] {
    } else {
      TallestMeaning(fs, Kids(fs, path), n - 1);
      forall q | q in Kids(fs, path) ensures Bounded(fs, q, n) == Bounded(fs, q, n - 1) {
        HeightIsStable(fs, q, n - 1);
      }
      TallestCongruence(fs, Kids(fs, path), n - 1);
    }
  }

  lemma {:induction false} TallestCongruence(fs: FileSystem, paths: seq<string>, n: nat)
    requires forall q :: q in paths ==> Bounded(fs, q, n + 1) == Bounded(fs, q, n)
    ensures Tallest(fs, paths, n + 1) == Tallest(fs, paths, n)
    decreases |paths|
  {
    if paths == [] {
    } else {
      assert paths[0] in paths;
      TallestCongruence(fs, paths[1..], n);
    }
  }

  function Height(fs: FileSystem, path: string): nat {
    Bounded(fs, path, |fs.files| + 1)
  }

  /** An included file is lower than the file that includes it. */
  lemma KidsAreLower(fs: FileSystem, path: string)
    requires Acyclic(fs, [path])
    ensures forall q :: q in Kids(fs, path) ==> Height(fs, q) < Height(fs, path)
  {
    var n := |fs.files| + 1;
    HeightIsBounded(fs, path, n);
    HeightIsStable(fs, path, n);
    TallestMeaning(fs, Kids(fs, path), n);
  }

  /** The height of a list of files. */
  function Heights(fs: FileSystem, paths: seq<string>): nat {
    if paths == [] then 0
    else
      var h, t := Height(fs, paths[0]) + 1, Heights(fs, paths[1..]);
      if h >= t then h else t
  }

  lemma {:induction false} HeightsBound(fs: FileSystem, paths: seq<string>, b: nat)
    requires forall q :: q in paths ==> Height(fs, q) < b
    ensures Heights(fs, paths) <= b
    decreases |paths|
  {
    if paths == [] {
    } else {
      assert paths[0] in paths;
      HeightsBound(fs, paths[1..], b);
    }
  }
}
