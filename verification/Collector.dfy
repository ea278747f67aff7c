/** Listing the files of the commit tree (src/firehol/mod.rs, `collect_ipset_files`). */
module Collector {
  import opened Wrappers
  import opened Text

  /** A tree of the repository; a name that is not UTF-8 is `None`, as is a subtree that cannot be read. */
  datatype Tree = Tree(entries: seq<Entry>)
  datatype Entry = Entry(name: Option<string>, node: Node)
  datatype Node = Subtree(tree: Option<Tree>) | Blob | Other

  datatype CollectError = NameNotUtf8 | CannotReadTree(name: string)

  const COUNTRY_DIR_SUFFIX := "_country"

  predicate IsIpsetFile(name: string) {
    EndsWith(name, ".ipset") || EndsWith(name, ".netset")
  }

  predicate Ignored(ignoreCountry: bool, name: string) {
    ignoreCountry && EndsWith(name, COUNTRY_DIR_SUFFIX)
  }

  /** Both predicates by the last characters of the name. */
  lemma SuffixMeaning(ignoreCountry: bool, name: string)
    ensures IsIpsetFile(name) <==> exists stem :: name == stem + ".ipset" || name == stem + ".netset"
    ensures Ignored(ignoreCountry, name) <==> ignoreCountry && exists stem :: name == stem + "_country"
  {
    SuffixStem(name, ".ipset");
    SuffixStem(name, ".netset");
    SuffixStem(name, "_country");
  }

  lemma SuffixStem(name: string, suffix: string)
    ensures EndsWith(name, suffix) <==> exists stem :: name == stem + suffix
  {
    if EndsWith(name, suffix) {
      assert name == name[..|name| - |suffix|] + suffix;
    }
    if stem :| name == stem + suffix {
      assert name[|name| - |suffix|..] == suffix;
    }
  }

  // ----- one place in the tree -----

  /** Positions from the root down. */
  type Route = seq<nat>

  /** The path of the list file at `route`, if there is one that no ignored directory hides. */
  function ListFileAt(ignore: bool, tree: Tree, route: Route): Option<seq<string>>
    decreases |route|
  {
    if route == [] || |tree.entries| <= route[0] || tree.entries[route[0]].name.None? then None
    else
      var name := tree.entries[route[0]].name.value;
      match tree.entries[route[0]].node
      case Other => None
      case Blob => if |route| == 1 && IsIpsetFile(name) then Some([name]) else None
      case Subtree(sub) =>
        if Ignored(ignore, name) || sub.None? then None
        else
          match ListFileAt(ignore, sub.value, route[1..])
          case Some(path) => Some([name] + path)
          case None => None
  }

  /** What is wrong with the entry at `route`, if no ignored directory hides it. */
  function BrokenAt(ignore: bool, tree: Tree, route: Route): Option<CollectError>
    decreases |route|
  {
    if route == [] || |tree.entries| <= route[0] then None
    else
      var entry := tree.entries[route[0]];
      if entry.name.None? then (if |route| == 1 then Some(NameNotUtf8) else None)
      else if !entry.node.Subtree? || Ignored(ignore, entry.name.value) then None
      else if entry.node.tree.None? then (if |route| == 1 then Some(CannotReadTree(entry.name.value)) else None)
      else BrokenAt(ignore, entry.node.tree.value, route[1..])
  }

  // ----- the whole tree -----

  datatype Found = Found(route: Route, path: seq<string>)

  /** Files found in the subtree `name` at position `i`, seen from its parent. */
  function Under(i: nat, name: string, found: seq<Found>): (r: seq<Found>)
    ensures |r| == |found|
    ensures forall k :: 0 <= k < |r| ==> r[k] == Found([i] + found[k].route, [name] + found[k].path)
  {
    if found == [] then []
    else
      Under(i, name, found[..|found| - 1])
      + [Found([i] + found[|found| - 1].route, [name] + found[|found| - 1].path)]
  }

  /** The list files below the first `n` entries, in tree order. */
  function Collected(ignore: bool, tree: Tree, n: nat): seq<Found>
    requires n <= |tree.entries|
    decreases tree, n
  {
    if n == 0 then []
    else Collected(ignore, tree, n - 1) + CollectedEntry(ignore, tree.entries[n - 1], n - 1)
  }

  function CollectedEntry(ignore: bool, entry: Entry, i: nat): seq<Found>
    decreases entry
  {
    if entry.name.None? then []
    else
      match entry.node
      case Other => []
      case Blob => if IsIpsetFile(entry.name.value) then [Found([i], [entry.name.value])] else []
      case Subtree(sub) =>
        if Ignored(ignore, entry.name.value) || sub.None? then []
        else Under(i, entry.name.value, Collected(ignore, sub.value, |sub.value.entries|))
  }

  /** The first error met while walking the first `n` entries in tree order. */
  function FirstError(ignore: bool, tree: Tree, n: nat): Option<CollectError>
    requires n <= |tree.entries|
    decreases tree, n
  {
    if n == 0 then None
    else if FirstError(ignore, tree, n - 1).Some? then FirstError(ignore, tree, n - 1)
    else EntryError(ignore, tree.entries[n - 1])
  }

  function EntryError(ignore: bool, entry: Entry): Option<CollectError>
    decreases entry
  {
    if entry.name.None? then Some(NameNotUtf8)
    else if !entry.node.Subtree? || Ignored(ignore, entry.name.value) then None
    else if entry.node.tree.None? then Some(CannotReadTree(entry.name.value))
    else FirstError(ignore, entry.node.tree.value, |entry.node.tree.value.entries|)
  }

  /** The paths found, below `prefix`. */
  function Paths(prefix: seq<string>, found: seq<Found>): (r: seq<seq<string>>)
    ensures |r| == |found| && forall k :: 0 <= k < |r| ==> r[k] == prefix + found[k].path
  {
    if found == [] then []
    else Paths(prefix, found[..|found| - 1]) + [prefix + found[|found| - 1].path]
  }

  lemma PathsAppend(prefix: seq<string>, a: seq<Found>, b: seq<Found>)
    ensures Paths(prefix, a + b) == Paths(prefix, a) + Paths(prefix, b)
  {}

  lemma PathsUnder(prefix: seq<string>, i: nat, name: string, found: seq<Found>)
    ensures Paths(prefix, Under(i, name, found)) == Paths(prefix + [name], found)
  {
    hide Paths, Under;
    forall k | 0 <= k < |found| ensures prefix + ([name] + found[k].path) == prefix + [name] + found[k].path {}
  }

  // ----- the walk -----

  class Walk {
    const ignoreCountry: bool
    var prefix: seq<string>
    var files: seq<seq<string>>

    constructor (ignoreCountry: bool)
      ensures this.ignoreCountry == ignoreCountry && prefix == [] && files == []
    {
      this.ignoreCountry, prefix, files := ignoreCountry, [], [];
    }

    /** The shared prefix is back to what it was on every return, errors included. */
    method CollectRecursive(tree: Tree) returns (r: Result<(), CollectError>)
      modifies this
      ensures prefix == old(prefix)
      ensures
        match FirstError(ignoreCountry, tree, |tree.entries|)
        case Some(error) => r == Err(error)
        case None =>
          && r == Ok(())
          && files == old(files) + Paths(prefix, Collected(ignoreCountry, tree, |tree.entries|))
      decreases tree
    {
      hide Paths, CollectedEntry, EntryError, Collected, FirstError, Ignored, IsIpsetFile, Under;
      CollectedNone(ignoreCountry, tree);
      assert Paths(prefix, []) == [];
      for i := 0 to |tree.entries|
        invariant prefix == old(prefix)
        invariant FirstError(ignoreCountry, tree, i).None?
        invariant files == old(files) + Paths(prefix, Collected(ignoreCountry, tree, i))
      {
        var entry := tree.entries[i];
        PathsAppend(prefix, Collected(ignoreCountry, tree, i), CollectedEntry(ignoreCountry, entry, i));
        OneMore(ignoreCountry, tree, i);
        EntryCases(ignoreCountry, entry, i);
        ErrorStays(ignoreCountry, tree, i + 1, |tree.entries|);
        if entry.name.None? {
          return Err(NameNotUtf8);
        }
        var name := entry.name.value;
        match entry.node
        case Subtree(sub) =>
          if Ignored(ignoreCountry, name) {
            continue;
          }
          if sub.None? {
            return Err(CannotReadTree(name));
          }
          PathsUnder(prefix, i, name, Collected(ignoreCountry, sub.value, |sub.value.entries|));
          prefix := prefix + [name];
          var result := CollectRecursive(sub.value);
          prefix := prefix[..|prefix| - 1];
          if result.Err? {
            return result;
          }
        case Blob =>
          if IsIpsetFile(name) {
            files := files + [prefix + [name]];
          }
          assert IsIpsetFile(name) ==> Paths(prefix, [Found([i], [name])]) == [prefix + [name]];
        case Other =>
      }
      return Ok(());
    }
  }

  lemma CollectedNone(ignore: bool, tree: Tree)
    ensures Collected(ignore, tree, 0) == [] && FirstError(ignore, tree, 0).None?
  {}

  lemma OneMore(ignore: bool, tree: Tree, i: nat)
    requires i < |tree.entries|
    ensures
      Collected(ignore, tree, i + 1) == Collected(ignore, tree, i) + CollectedEntry(ignore, tree.entries[i], i)
    ensures
      FirstError(ignore, tree, i).None? ==> FirstError(ignore, tree, i + 1) == EntryError(ignore, tree.entries[i])
  {}

  lemma EntryCases(ignore: bool, entry: Entry, i: nat)
    ensures entry.name.None? ==> EntryError(ignore, entry) == Some(NameNotUtf8)
    ensures entry.name.Some? && entry.node.Subtree? && !Ignored(ignore, entry.name.value) ==>
      match entry.node.tree
      case None => EntryError(ignore, entry) == Some(CannotReadTree(entry.name.value))
      case Some(sub) =>
        && EntryError(ignore, entry) == FirstError(ignore, sub, |sub.entries|)
        && CollectedEntry(ignore, entry, i) ==
           Under(i, entry.name.value, Collected(ignore, sub, |sub.entries|))
    ensures entry.name.Some? && (entry.node.Subtree? ==> Ignored(ignore, entry.name.value)) ==>
      && EntryError(ignore, entry).None?
      && CollectedEntry(ignore, entry, i) ==
         if entry.node.Blob? && IsIpsetFile(entry.name.value) then [Found([i], [entry.name.value])] else []
  {}

  lemma {:induction false} ErrorStays(ignore: bool, tree: Tree, n: nat, m: nat)
    requires n <= m <= |tree.entries|
    ensures FirstError(ignore, tree, n).Some? ==> FirstError(ignore, tree, m) == FirstError(ignore, tree, n)
  {
    if n < m { ErrorStays(ignore, tree, n, m - 1); }
  }

  /** `collect_ipset_files` */
  method CollectIpsetFiles(ignoreCountry: bool, tree: Tree) returns (r: Result<seq<seq<string>>, CollectError>)
    ensures
      match FirstError(ignoreCountry, tree, |tree.entries|)
      case Some(error) => r == Err(error)
      case None => r == Ok(Paths([], Collected(ignoreCountry, tree, |tree.entries|)))
  {
    var walk := new Walk(ignoreCountry);
    var result := walk.CollectRecursive(tree);
    if result.Err? {
      return Err(result.error);
    }
    assert walk.files == Paths([], Collected(ignoreCountry, tree, |tree.entries|));
    return Ok(walk.files);
  }

  // ----- exactly the list files, in tree order -----

  /** The walk finds a path exactly where a list file is that no ignored directory hides. */
  lemma {:induction false} CollectedExactly(ignore: bool, tree: Tree, n: nat, f: Found)
    requires n <= |tree.entries|
    ensures
      f in Collected(ignore, tree, n) <==>
      f.route != [] && f.route[0] < n && ListFileAt(ignore, tree, f.route) == Some(f.path)
    decreases tree, n
  {
    if n > 0 {
      CollectedExactly(ignore, tree, n - 1, f);
      EntryExactly(ignore, tree, n - 1, f);
    }
  }

  lemma {:induction false} EntryExactly(ignore: bool, tree: Tree, i: nat, f: Found)
    requires i < |tree.entries|
    ensures
      f in CollectedEntry(ignore, tree.entries[i], i) <==>
      f.route != [] && f.route[0] == i && ListFileAt(ignore, tree, f.route) == Some(f.path)
    decreases tree, i
  {
    var entry := tree.entries[i];
    if entry.name.Some? && entry.node.Subtree? && !Ignored(ignore, entry.name.value) && entry.node.tree.Some? {
      var sub := entry.node.tree.value;
      InUnder(i, entry.name.value, Collected(ignore, sub, |sub.entries|), f);
      ListFileBelow(ignore, tree, i, f);
      if f.route != [] && f.path != [] {
        CollectedExactly(ignore, sub, |sub.entries|, Found(f.route[1..], f.path[1..]));
      }
    } else if entry.node.Blob? && f.route != [] && f.route[0] == i && |f.route| == 1 {
      assert f.route == [i];
    }
  }

  lemma InUnder(i: nat, name: string, found: seq<Found>, f: Found)
    ensures
      f in Under(i, name, found) <==>
      && f.route != [] && f.route[0] == i && f.path != [] && f.path[0] == name
      && Found(f.route[1..], f.path[1..]) in found
  {
    hide Under;
    if f in Under(i, name, found) {
      var k :| 0 <= k < |found| && Under(i, name, found)[k] == f;
      assert f.route[1..] == found[k].route && f.path[1..] == found[k].path;
    }
    if f.route != [] && f.route[0] == i && f.path != [] && f.path[0] == name
       && Found(f.route[1..], f.path[1..]) in found {
      var k :| 0 <= k < |found| && found[k] == Found(f.route[1..], f.path[1..]);
      assert Under(i, name, found)[k] == f;
    }
  }

  /** A list file in a subtree, seen from its parent. */
  lemma ListFileBelow(ignore: bool, tree: Tree, i: nat, f: Found)
    requires i < |tree.entries|
    requires
      var entry := tree.entries[i];
      entry.name.Some? && entry.node.Subtree? && !Ignored(ignore, entry.name.value) && entry.node.tree.Some?
    ensures
      var entry := tree.entries[i];
      var sub := entry.node.tree.value;
      f.route != [] && f.route[0] == i && ListFileAt(ignore, tree, f.route) == Some(f.path) <==>
      && f.route != [] && f.route[0] == i && f.path != [] && f.path[0] == entry.name.value
      && f.route[1..] != [] && f.route[1] < |sub.entries|
      && ListFileAt(ignore, sub, f.route[1..]) == Some(f.path[1..])
  {
    if f.route != [] && f.route[0] == i {
      var entry := tree.entries[i];
      var below := ListFileAt(ignore, entry.node.tree.value, f.route[1..]);
      if below.Some? {
        assert ListFileAt(ignore, tree, f.route) == Some([entry.name.value] + below.value);
        assert ([entry.name.value] + below.value)[1..] == below.value;
        assert f.path != [] ==> f.path == [f.path[0]] + f.path[1..];
      }
    }
  }

  /** Tree order. */
  predicate Before(a: Route, b: Route) {
    b != [] && (a == [] || a[0] < b[0] || (a[0] == b[0] && Before(a[1..], b[1..])))
  }

  /** The files come in tree order, so no file comes twice. */
  lemma {:induction false} CollectedInOrder(ignore: bool, tree: Tree, n: nat, i: nat, j: nat)
    requires n <= |tree.entries| && i < j < |Collected(ignore, tree, n)|
    ensures Before(Collected(ignore, tree, n)[i].route, Collected(ignore, tree, n)[j].route)
    decreases tree, n
  {
    hide ListFileAt, IsIpsetFile, Ignored;
    var done, last := Collected(ignore, tree, n - 1), CollectedEntry(ignore, tree.entries[n - 1], n - 1);
    if j < |done| {
      CollectedInOrder(ignore, tree, n - 1, i, j);
    } else if i < |done| {
      CollectedExactly(ignore, tree, n - 1, done[i]);
      EntryExactly(ignore, tree, n - 1, last[j - |done|]);
    } else {
      var entry := tree.entries[n - 1];
      if entry.node.Subtree? {
        var sub := entry.node.tree.value;
        var inner := Collected(ignore, sub, |sub.entries|);
        var a, b := i - |done|, j - |done|;
        CollectedInOrder(ignore, sub, |sub.entries|, a, b);
        hide Collected;
        assert last[a].route[1..] == inner[a].route && last[b].route[1..] == inner[b].route;
      }
    }
  }

  /** The walk fails exactly if some entry outside ignored directories is broken. */
  lemma {:induction false} FailsIffBroken(ignore: bool, tree: Tree, n: nat)
    requires n <= |tree.entries|
    ensures
      FirstError(ignore, tree, n).Some? <==>
      exists route: Route :: route != [] && route[0] < n && BrokenAt(ignore, tree, route).Some?
    decreases tree, n
  {
    if n > 0 {
      FailsIffBroken(ignore, tree, n - 1);
      EntryFailsIffBroken(ignore, tree, n - 1);
    }
  }

  lemma {:induction false} EntryFailsIffBroken(ignore: bool, tree: Tree, i: nat)
    requires i < |tree.entries|
    ensures
      EntryError(ignore, tree.entries[i]).Some? <==>
      exists route: Route :: route != [] && route[0] == i && BrokenAt(ignore, tree, route).Some?
    decreases tree, i
  {
    var entry := tree.entries[i];
    if entry.name.Some? && entry.node.Subtree? && !Ignored(ignore, entry.name.value) && entry.node.tree.Some? {
      var sub := entry.node.tree.value;
      FailsIffBroken(ignore, sub, |sub.entries|);
      if FirstError(ignore, sub, |sub.entries|).Some? {
        var inner: Route :| inner != [] && inner[0] < |sub.entries| && BrokenAt(ignore, sub, inner).Some?;
        var route := [i] + inner;
        assert route[1..] == inner;
        assert BrokenAt(ignore, tree, route).Some?;
      }
      forall route: Route | route != [] && route[0] == i && BrokenAt(ignore, tree, route).Some?
        ensures FirstError(ignore, sub, |sub.entries|).Some?
      {
        var inner := route[1..];
        assert BrokenAt(ignore, sub, inner).Some?;
        assert inner != [] && inner[0] < |sub.entries|;
      }
    } else if EntryError(ignore, entry).Some? {
      assert BrokenAt(ignore, tree, [i]).Some?;
    }
  }
}
