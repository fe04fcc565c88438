/**
 * `glob` and `_globWalk`: the walk over a directory graph with symbolic links.
 *
 * Every directory has an identity key (device and inode).  Links are followed, so the
 * graph may have cycles; the walk keeps the keys of the directories on its way down.
 * How often each path is yielded is the number of ways its names can be aligned with the
 * pattern, provided the descent to it repeats no key.
 */
module GlobWalk {
  import opened Sequences

  type Key = nat
  type Path = seq<string>

  /** A name in a directory; `target` is None when `stat` on it fails. */
  datatype Entry = Entry(name: string, target: Option<Key>)

  /** The listing of a directory is None when it cannot be read. */
  datatype Node = File | Dir(listing: Option<seq<Entry>>)

  type Graph = map<Key, Node>

  /** `globPatternToRegex`: the compiled segment as a compile on names, None where it throws. */
  type Compiler = string -> Option<string -> bool>

  predicate Compiles(compile: Compiler, segment: string) { compile(segment).Some? }

  predicate Accepts(compile: Compiler, segment: string, name: string) {
    compile(segment).Some? && compile(segment).value(name)
  }

  const DEEP: string := "**"

  /** `readdir`; a failure ends the walk there, as an empty listing does. */
  function ReadDir(g: Graph, at: Option<Key>): seq<Entry> {
    if at.Some? && at.value in g && g[at.value].Dir? then
      match g[at.value].listing case None => [] case Some(entries) => entries
    else []
  }

  predicate IsDirectory(g: Graph, target: Option<Key>) {
    target.Some? && target.value in g && g[target.value].Dir?
  }

  predicate IsFile(g: Graph, target: Option<Key>) {
    target.Some? && target.value in g && g[target.value].File?
  }

  function Directories(g: Graph): set<Key> {
    set k | k in g && g[k].Dir?
  }

  lemma DescentShrinks(g: Graph, visited: set<Key>, target: Option<Key>)
    requires IsDirectory(g, target) && target.value !in visited
    ensures |Directories(g) - (visited + {target.value})| < |Directories(g) - visited|
  {
    var all, rest := Directories(g) - visited, Directories(g) - (visited + {target.value});
    assert all == rest + {target.value};
  }

  // ----- the walk -----

  /** What happens at a path: it is yielded, or compiling a segment throws there. */
  datatype Item = Yield(path: Path) | SyntaxError(path: Path)

  /** The paths yielded before the walk ends or throws. */
  datatype Run = Run(yielded: seq<Path>, threw: bool)

  /** A walk stops at the first error. */
  function Cut(items: seq<Item>): Run {
    if items == [] then Run([], false)
    else if items[0].SyntaxError? then Run([], true)
    else var rest := Cut(items[1..]); Run([items[0].path] + rest.yielded, rest.threw)
  }

  /** One run after another, which never starts if the first threw. */
  function Then(first: Run, second: Run): Run {
    if first.threw then first else Run(first.yielded + second.yielded, second.threw)
  }

  lemma {:induction false} CutConcat(a: seq<Item>, b: seq<Item>)
    ensures Cut(a + b) == Then(Cut(a), Cut(b))
  {
    if a == [] {
      assert a + b == b;
    } else {
      assert (a + b)[1..] == a[1..] + b;
      CutConcat(a[1..], b);
    }
  }

  lemma {:induction false} CutThrows(items: seq<Item>)
    ensures Cut(items).threw <==> exists i :: 0 <= i < |items| && items[i].SyntaxError?
  {
    if items != [] {
      CutThrows(items[1..]);
      assert forall i | 1 <= i < |items| :: items[i] == items[1..][i - 1];
      assert forall i | 0 <= i < |items[1..]| :: items[1..][i] == items[i + 1];
    }
  }

  /** Each path is yielded as often as the full walk has it, or less if the run throws. */
  lemma {:induction false} CutTimes(items: seq<Item>, p: Path)
    ensures multiset(Cut(items).yielded)[p] <= multiset(items)[Yield(p)]
    ensures !Cut(items).threw ==> multiset(Cut(items).yielded)[p] == multiset(items)[Yield(p)]
  {
    if items != [] {
      assert items == [items[0]] + items[1..];
      CutTimes(items[1..], p);
    }
  }

  function Walk(g: Graph, compile: Compiler, path: Path, at: Option<Key>, parts: seq<string>, visited: set<Key>): seq<Item>
    decreases |Directories(g) - visited|, |parts|, 2, 0
  {
    if parts == [] then []
    else
      var here :=
        if parts[0] != DEEP then if Compiles(compile, parts[0]) then [] else [SyntaxError(path)]
        else if |parts| > 1 then Walk(g, compile, path, at, parts[1..], visited)
        else [Yield(path)];
      here + WalkEntries(g, compile, path, ReadDir(g, at), parts, visited)
  }

  function WalkEntries(g: Graph, compile: Compiler, path: Path, entries: seq<Entry>, parts: seq<string>, visited: set<Key>): seq<Item>
    requires parts != []
    decreases |Directories(g) - visited|, |parts|, 1, |entries|
  {
    if entries == [] then []
    else WalkEntry(g, compile, path, entries[0], parts, visited) + WalkEntries(g, compile, path, entries[1..], parts, visited)
  }

  function WalkEntry(g: Graph, compile: Compiler, path: Path, entry: Entry, parts: seq<string>, visited: set<Key>): seq<Item>
    requires parts != []
    decreases |Directories(g) - visited|, |parts|, 0, 0
  {
    var fullPath := path + [entry.name];
    var deep := parts[0] == DEEP;
    if !deep && !Accepts(compile, parts[0], entry.name) then []
    else if !deep && |parts| == 1 then [Yield(fullPath)]
    else if IsDirectory(g, entry.target) then
      if entry.target.value in visited then []
      else
        DescentShrinks(g, visited, entry.target);
        Walk(g, compile, fullPath, entry.target, if deep then parts else parts[1..], visited + {entry.target.value})
    else if deep && |parts| == 1 && IsFile(g, entry.target) then [Yield(fullPath)]
    else []
  }

  lemma EntriesStep(g: Graph, compile: Compiler, path: Path, entries: seq<Entry>, i: nat, parts: seq<string>, visited: set<Key>)
    requires parts != [] && i < |entries|
    ensures WalkEntries(g, compile, path, entries[i..], parts, visited) ==
            WalkEntry(g, compile, path, entries[i], parts, visited) + WalkEntries(g, compile, path, entries[i + 1..], parts, visited)
  {
  }

  lemma EntriesEnd(g: Graph, compile: Compiler, path: Path, entries: seq<Entry>, parts: seq<string>, visited: set<Key>)
    requires parts != []
    ensures entries[0..] == entries
    ensures WalkEntries(g, compile, path, entries[|entries|..], parts, visited) == []
  {
  }

  method GlobWalk(g: Graph, compile: Compiler, path: Path, at: Option<Key>, parts: seq<string>, visited: set<Key>)
    returns (run: Run)
    ensures run == Cut(Walk(g, compile, path, at, parts, visited))
    decreases |Directories(g) - visited|, |parts|
  {
    hide WalkEntry, WalkEntries, ReadDir, Directories, Cut;
    CutNothing(path);
    run := Run([], false);
    if |parts| == 0 {
      return;
    }
    var currentPattern, remainingParts := parts[0], parts[1..];
    ghost var here: seq<Item> := [];
    if currentPattern == DEEP {
      if |remainingParts| > 0 {
        run := GlobWalk(g, compile, path, at, remainingParts, visited);
        here := Walk(g, compile, path, at, remainingParts, visited);
      } else {
        run := Run([path], false);
        here := [Yield(path)];
      }
    } else if !Compiles(compile, currentPattern) {
      run := Run([], true);
      here := [SyntaxError(path)];
    }
    var entries := ReadDir(g, at);
    ghost var below := WalkEntries(g, compile, path, entries, parts, visited);
    assert Walk(g, compile, path, at, parts, visited) == here + below;
    CutConcat(here, below);
    if run.threw {
      return;
    }
    EntriesEnd(g, compile, path, entries, parts, visited);
    for i := 0 to |entries|
      invariant Then(run, Cut(WalkEntries(g, compile, path, entries[i..], parts, visited))) == Then(Cut(here), Cut(below))
      invariant !run.threw
    {
      hide Walk;
      EntriesStep(g, compile, path, entries, i, parts, visited);
      CutConcat(WalkEntry(g, compile, path, entries[i], parts, visited), WalkEntries(g, compile, path, entries[i + 1..], parts, visited));
      var found := GlobEntry(g, compile, path, entries[i], parts, visited);
      run := Run(run.yielded + found.yielded, found.threw);
      if run.threw {
        return;
      }
    }
  }

  lemma CutNothing(path: Path)
    ensures Cut([]) == Run([], false) && Cut([Yield(path)]) == Run([path], false) && Cut([SyntaxError(path)]) == Run([], true)
  {
  }

  /** The body of the two loops over directory entries. */
  method GlobEntry(g: Graph, compile: Compiler, path: Path, entry: Entry, parts: seq<string>, visited: set<Key>)
    returns (run: Run)
    requires parts != []
    ensures run == Cut(WalkEntry(g, compile, path, entry, parts, visited))
    decreases |Directories(g) - visited|, |parts|, 0
  {
    hide Walk, Directories, IsFile, Cut;
    var currentPattern, remainingParts := parts[0], parts[1..];
    var fullPath := path + [entry.name];
    CutNothing(fullPath);
    run := Run([], false);
    if currentPattern == DEEP {
      if IsDirectory(g, entry.target) {
        var key := entry.target.value;
        if key in visited {
          return;
        }
        DescentShrinks(g, visited, entry.target);
        run := GlobWalk(g, compile, fullPath, entry.target, parts, visited + {key});
      } else if IsFile(g, entry.target) && |remainingParts| == 0 {
        run := Run([fullPath], false);
      }
    } else {
      if !Accepts(compile, currentPattern, entry.name) {
        return;
      }
      if |remainingParts| == 0 {
        run := Run([fullPath], false);
      } else if IsDirectory(g, entry.target) {
        var key := entry.target.value;
        if key in visited {
          return;
        }
        DescentShrinks(g, visited, entry.target);
        run := GlobWalk(g, compile, fullPath, entry.target, remainingParts, visited + {key});
      }
    }
  }

  /** The walk of `glob`, from a base whose own key counts as visited, as if errors were passed over. */
  function FullWalk(g: Graph, compile: Compiler, root: Option<Key>, parts: seq<string>): seq<Item> {
    Walk(g, compile, [], root, parts, RootKeys(root))
  }

  function RootKeys(root: Option<Key>): set<Key> {
    if root.Some? then {root.value} else {}
  }

  function Glob(g: Graph, compile: Compiler, root: Option<Key>, parts: seq<string>): Run {
    Cut(FullWalk(g, compile, root, parts))
  }

  /** `stat` on the base failing leaves the set empty; the walk then finds nothing to read. */
  method GlobFrom(g: Graph, compile: Compiler, root: Option<Key>, parts: seq<string>) returns (run: Run)
    ensures run == Glob(g, compile, root, parts)
  {
    var initVisited: set<Key> := {};
    if root.Some? {
      initVisited := initVisited + {root.value};
      assert initVisited == {root.value};
    }
    run := GlobWalk(g, compile, [], root, parts, initVisited);
  }

  // ----- what should be yielded -----

  /** The number of ways to align names with pattern parts, `**` taking any run of names. */
  function Alignments(compile: Compiler, parts: seq<string>, names: Path): nat
    decreases |parts| + |names|
  {
    if parts == [] then if names == [] then 1 else 0
    else if parts[0] == DEEP then
      Alignments(compile, parts[1..], names) + if names == [] then 0 else Alignments(compile, parts, names[1..])
    else if names != [] && Accepts(compile, parts[0], names[0]) then Alignments(compile, parts[1..], names[1..])
    else 0
  }

  datatype Outcome = Blocked | StatFails | AtFile | NewDirectory | OldDirectory

  function Lookup(entries: seq<Entry>, name: string): (found: Option<Entry>) {
    if entries == [] then None
    else if entries[0].name == name then Some(entries[0])
    else Lookup(entries[1..], name)
  }

  function Kind(g: Graph, target: Option<Key>, visited: set<Key>): Outcome {
    if IsDirectory(g, target) then if target.value in visited then OldDirectory else NewDirectory
    else if IsFile(g, target) then AtFile
    else StatFails
  }

  /** Follow names down from `at` without entering a directory twice. */
  function Follow(g: Graph, at: Option<Key>, names: Path, visited: set<Key>): Outcome
    requires names != []
    decreases |names|
  {
    match Lookup(ReadDir(g, at), names[0])
    case None => Blocked
    case Some(entry) =>
      var kind := Kind(g, entry.target, visited);
      if |names| == 1 then kind
      else if kind != NewDirectory then Blocked
      else Follow(g, entry.target, names[1..], visited + {entry.target.value})
  }

  predicate EndsDeep(parts: seq<string>) {
    parts != [] && parts[|parts| - 1] == DEEP
  }

  /**
   * How often the path `names` should be yielded.  A last plain segment accepts any entry;
   * a last `**` accepts a directory not entered before, or a file found by `**` itself.
   */
  function Expected(g: Graph, compile: Compiler, at: Option<Key>, parts: seq<string>, names: Path, visited: set<Key>): nat {
    if names == [] then Alignments(compile, parts, [])
    else match Follow(g, at, names, visited)
      case Blocked => 0
      case NewDirectory => Alignments(compile, parts, names)
      case AtFile => Alignments(compile, parts, if EndsDeep(parts) then names[..|names| - 1] else names)
      case _ => if EndsDeep(parts) then 0 else Alignments(compile, parts, names)
  }

  predicate DistinctNames(entries: seq<Entry>) {
    forall i, j | 0 <= i < j < |entries| :: entries[i].name != entries[j].name
  }

  predicate IsName(name: string) { name != "" && '/' !in name }

  /** Directories list proper names, each once. */
  ghost predicate IsGraph(g: Graph) {
    forall k | k in g && g[k].Dir? && g[k].listing.Some? ::
      && DistinctNames(g[k].listing.value)
      && forall i | 0 <= i < |g[k].listing.value| :: IsName(g[k].listing.value[i].name)
  }

  // ----- everything yielded lies below the path the walk is at -----

  lemma {:induction false} WalkBelow(g: Graph, compile: Compiler, path: Path, at: Option<Key>, parts: seq<string>, visited: set<Key>)
    ensures forall p | p in Walk(g, compile, path, at, parts, visited) :: path <= p.path
    decreases |Directories(g) - visited|, |parts|, 2, 0
  {
    if parts != [] {
      if parts[0] == DEEP && |parts| > 1 {
        WalkBelow(g, compile, path, at, parts[1..], visited);
      }
      EntriesBelow(g, compile, path, ReadDir(g, at), parts, visited);
    }
  }

  lemma {:induction false} EntriesBelow(g: Graph, compile: Compiler, path: Path, entries: seq<Entry>, parts: seq<string>, visited: set<Key>)
    requires parts != []
    ensures forall p | p in WalkEntries(g, compile, path, entries, parts, visited) ::
      |p.path| > |path| && path <= p.path && exists i :: 0 <= i < |entries| && p.path[|path|] == entries[i].name
    decreases |Directories(g) - visited|, |parts|, 1, |entries|
  {
    if entries != [] {
      EntryBelow(g, compile, path, entries[0], parts, visited);
      EntriesBelow(g, compile, path, entries[1..], parts, visited);
      forall p | p in WalkEntries(g, compile, path, entries, parts, visited)
        ensures |p.path| > |path| && path <= p.path && exists i :: 0 <= i < |entries| && p.path[|path|] == entries[i].name
      {
        if p in WalkEntry(g, compile, path, entries[0], parts, visited) {
          assert p.path[|path|] == entries[0].name;
        } else {
          var i :| 0 <= i < |entries[1..]| && p.path[|path|] == entries[1..][i].name;
          assert entries[1..][i] == entries[i + 1];
        }
      }
    }
  }

  lemma {:induction false} EntryBelow(g: Graph, compile: Compiler, path: Path, entry: Entry, parts: seq<string>, visited: set<Key>)
    requires parts != []
    ensures forall p | p in WalkEntry(g, compile, path, entry, parts, visited) :: path + [entry.name] <= p.path
    decreases |Directories(g) - visited|, |parts|, 0, 0
  {
    if IsDirectory(g, entry.target) && entry.target.value !in visited {
      DescentShrinks(g, visited, entry.target);
      WalkBelow(g, compile, path + [entry.name], entry.target, if parts[0] == DEEP then parts else parts[1..],
                visited + {entry.target.value});
    }
  }

  // ----- how often a path occurs -----

  function Times(items: seq<Item>, item: Item): nat { multiset(items)[item] }

  lemma TimesConcat(a: seq<Item>, b: seq<Item>, item: Item)
    ensures Times(a + b, item) == Times(a, item) + Times(b, item)
  {
  }

  lemma TimesZero(items: seq<Item>, item: Item)
    requires item !in items
    ensures Times(items, item) == 0
  {
  }

  /** Only the entry with the right name contributes to a path. */
  lemma {:induction false} TimesInEntries(g: Graph, compile: Compiler, path: Path, entries: seq<Entry>, parts: seq<string>, visited: set<Key>, item: Item)
    requires parts != [] && DistinctNames(entries) && path < item.path
    ensures Times(WalkEntries(g, compile, path, entries, parts, visited), item) ==
            match Lookup(entries, item.path[|path|])
            case None => 0
            case Some(entry) => Times(WalkEntry(g, compile, path, entry, parts, visited), item)
    decreases |entries|
  {
    if entries != [] {
      var first := WalkEntry(g, compile, path, entries[0], parts, visited);
      var rest := WalkEntries(g, compile, path, entries[1..], parts, visited);
      hide WalkEntry;
      TimesConcat(first, rest, item);
      if entries[0].name == item.path[|path|] {
        EntriesBelow(g, compile, path, entries[1..], parts, visited);
        assert forall i | 0 <= i < |entries[1..]| :: entries[1..][i] == entries[i + 1];
        TimesZero(rest, item);
      } else {
        EntryBelow(g, compile, path, entries[0], parts, visited);
        forall q | q in first
          ensures |q.path| > |path| && q.path[|path|] == entries[0].name
        {
          assert q.path[|path|] == (path + [entries[0].name])[|path|];
        }
        TimesZero(first, item);
        TimesInEntries(g, compile, path, entries[1..], parts, visited, item);
      }
    }
  }

  /** What one entry contributes, by the number of names left to match. */
  function EntryShare(g: Graph, compile: Compiler, parts: seq<string>, names: Path, entry: Entry, visited: set<Key>): nat
    requires parts != [] && names != []
  {
    var deep := parts[0] == DEEP;
    if !deep && !Accepts(compile, parts[0], entry.name) then 0
    else if !deep && |parts| == 1 then if |names| == 1 then 1 else 0
    else if Kind(g, entry.target, visited) == NewDirectory then
      Expected(g, compile, entry.target, if deep then parts else parts[1..], names[1..], visited + {entry.target.value})
    else if deep && |parts| == 1 && IsFile(g, entry.target) && |names| == 1 then 1
    else 0
  }

  /** What the first name of a path says about the outcome of the descent. */
  lemma FollowFirst(g: Graph, at: Option<Key>, names: Path, visited: set<Key>)
    requires names != []
    ensures match Lookup(ReadDir(g, at), names[0])
            case None => Follow(g, at, names, visited) == Blocked
            case Some(entry) =>
              var kind := Kind(g, entry.target, visited);
              && kind != Blocked
              && entry.name == names[0]
              && (|names| == 1 ==> Follow(g, at, names, visited) == kind)
              && (|names| > 1 && kind != NewDirectory ==> Follow(g, at, names, visited) == Blocked)
              && (kind == NewDirectory ==> entry.target.Some?)
              && (|names| > 1 && kind == NewDirectory ==>
                    Follow(g, at, names, visited) == Follow(g, entry.target, names[1..], visited + {entry.target.value}))
              && (kind == AtFile <==> IsFile(g, entry.target))
  {
    LookupName(ReadDir(g, at), names[0]);
  }

  lemma ExpectedByFirstName(g: Graph, compile: Compiler, at: Option<Key>, parts: seq<string>, names: Path, visited: set<Key>)
    requires parts != [] && names != []
    ensures Expected(g, compile, at, parts, names, visited) ==
            (if parts[0] == DEEP && |parts| > 1 then Expected(g, compile, at, parts[1..], names, visited) else 0) +
            match Lookup(ReadDir(g, at), names[0])
            case None => 0
            case Some(entry) => EntryShare(g, compile, parts, names, entry, visited)
  {
    FollowFirst(g, at, names, visited);
    match Lookup(ReadDir(g, at), names[0]) {
      case None =>
      case Some(entry) =>
        var rest, tail, init := parts[1..], names[1..], names[..|names| - 1];
        assert rest != [] ==> EndsDeep(rest) == EndsDeep(parts);
        assert rest == [] ==> EndsDeep(parts) == (parts[0] == DEEP);
        PlainEnds(compile, parts);
        hide Kind, ReadDir, Lookup, EndsDeep, IsFile, IsDirectory, Follow;
        if |names| == 1 {
          assert tail == [] && init == [];
          FirstAlignments(compile, parts, names);
        } else {
          assert init[0] == names[0] && init[1..] == tail[..|tail| - 1];
          FirstAlignments(compile, parts, names);
          FirstAlignments(compile, parts, init);
        }
        FirstAlignments(compile, parts, []);
        hide Alignments;
    }
  }

  lemma FirstAlignments(compile: Compiler, parts: seq<string>, names: Path)
    requires parts != []
    ensures Alignments(compile, parts, names) ==
            if parts[0] == DEEP then
              Alignments(compile, parts[1..], names) + if names == [] then 0 else Alignments(compile, parts, names[1..])
            else if names != [] && Accepts(compile, parts[0], names[0]) then Alignments(compile, parts[1..], names[1..])
            else 0
  {
  }

  lemma PlainEnds(compile: Compiler, parts: seq<string>)
    requires parts != []
    ensures !EndsDeep(parts) ==> Alignments(compile, parts, []) == 0
    ensures !EndsDeep(parts) && |parts| > 1 ==> Alignments(compile, parts[1..], []) == 0
    ensures Alignments(compile, [], []) == 1
    ensures forall names: Path | names != [] :: Alignments(compile, [], names) == 0
  {
  }

  lemma {:induction false} LookupName(entries: seq<Entry>, name: string)
    ensures Lookup(entries, name).Some? ==> Lookup(entries, name).value.name == name
  {
    if entries != [] {
      LookupName(entries[1..], name);
    }
  }

  /** What happens at the path itself, or below it with the first `**` standing for nothing. */
  function Here(g: Graph, compile: Compiler, path: Path, at: Option<Key>, parts: seq<string>, visited: set<Key>): seq<Item>
    requires parts != []
  {
    if parts[0] != DEEP then if Compiles(compile, parts[0]) then [] else [SyntaxError(path)]
    else if |parts| > 1 then Walk(g, compile, path, at, parts[1..], visited)
    else [Yield(path)]
  }

  /** A walk is what happens here and what happens at the one entry with the right name. */
  lemma WalkTimes(g: Graph, compile: Compiler, path: Path, at: Option<Key>, parts: seq<string>, visited: set<Key>, item: Item)
    requires IsGraph(g) && parts != [] && path <= item.path
    ensures Times(Walk(g, compile, path, at, parts, visited), item) == Times(Here(g, compile, path, at, parts, visited), item) +
            if item.path == path then 0
            else match Lookup(ReadDir(g, at), item.path[|path|])
                 case None => 0
                 case Some(entry) => Times(WalkEntry(g, compile, path, entry, parts, visited), item)
  {
    var entries := ReadDir(g, at);
    var below := WalkEntries(g, compile, path, entries, parts, visited);
    assert Walk(g, compile, path, at, parts, visited) == Here(g, compile, path, at, parts, visited) + below;
    hide Walk, Here, WalkEntry, WalkEntries, ReadDir;
    TimesConcat(Here(g, compile, path, at, parts, visited), below, item);
    if item.path == path {
      EntriesBelow(g, compile, path, entries, parts, visited);
      TimesZero(below, item);
    } else {
      assert DistinctNames(entries) by { ListingIsDistinct(g, at); }
      TimesInEntries(g, compile, path, entries, parts, visited, item);
    }
  }

  lemma ListingIsDistinct(g: Graph, at: Option<Key>)
    requires IsGraph(g)
    ensures DistinctNames(ReadDir(g, at))
  {
  }

  /** The full walk has every path exactly as often as expected. */
  lemma {:induction false} WalkYields(g: Graph, compile: Compiler, path: Path, at: Option<Key>, parts: seq<string>, visited: set<Key>, names: Path)
    requires IsGraph(g) && parts != []
    ensures Times(Walk(g, compile, path, at, parts, visited), Yield(path + names)) == Expected(g, compile, at, parts, names, visited)
    decreases |Directories(g) - visited|, |parts|
  {
    WalkTimes(g, compile, path, at, parts, visited, Yield(path + names));
    if parts[0] == DEEP && |parts| > 1 {
      WalkYields(g, compile, path, at, parts[1..], visited, names);
    }
    hide Walk, WalkEntry, ReadDir, Lookup, Follow, Kind, EndsDeep, IsGraph;
    if names == [] {
      assert path + names == path;
      FirstAlignments(compile, parts, []);
      assert |parts| == 1 ==> parts[1..] == [];
    } else {
      hide Alignments, Expected;
      ExpectedByFirstName(g, compile, at, parts, names, visited);
      assert (path + names)[|path|] == names[0];
      LookupName(ReadDir(g, at), names[0]);
      match Lookup(ReadDir(g, at), names[0]) {
        case None =>
        case Some(entry) => EntryYields(g, compile, path, entry, parts, visited, names);
      }
    }
  }

  lemma {:induction false} EntryYields(g: Graph, compile: Compiler, path: Path, entry: Entry, parts: seq<string>, visited: set<Key>, names: Path)
    requires IsGraph(g) && parts != [] && names != [] && entry.name == names[0]
    ensures Times(WalkEntry(g, compile, path, entry, parts, visited), Yield(path + names)) == EntryShare(g, compile, parts, names, entry, visited)
    decreases |Directories(g) - visited|, |parts|, 0
  {
    var fullPath, tail := path + [entry.name], names[1..];
    assert path + names == fullPath + tail;
    assert path + names == fullPath <==> |names| == 1;
    if Kind(g, entry.target, visited) == NewDirectory && (parts[0] == DEEP || |parts| > 1) {
      DescentShrinks(g, visited, entry.target);
      WalkYields(g, compile, fullPath, entry.target, if parts[0] == DEEP then parts else parts[1..],
                 visited + {entry.target.value}, tail);
    }
  }

  // ----- how often an error occurs -----

  /** The number of ways in which names align with the parts before one that does not compile. */
  function Breaks(compile: Compiler, parts: seq<string>, names: Path): nat
    decreases |parts| + |names|
  {
    if parts == [] then 0
    else if parts[0] == DEEP then
      Breaks(compile, parts[1..], names) + if names == [] then 0 else Breaks(compile, parts, names[1..])
    else if !Compiles(compile, parts[0]) then if names == [] then 1 else 0
    else if names != [] && Accepts(compile, parts[0], names[0]) then Breaks(compile, parts[1..], names[1..])
    else 0
  }

  /** How often the walk should throw in the directory `names`. */
  function ExpectedErrors(g: Graph, compile: Compiler, at: Option<Key>, parts: seq<string>, names: Path, visited: set<Key>): nat {
    if names == [] || Follow(g, at, names, visited) == NewDirectory then Breaks(compile, parts, names) else 0
  }

  lemma ErrorsByFirstName(g: Graph, compile: Compiler, at: Option<Key>, parts: seq<string>, names: Path, visited: set<Key>)
    requires parts != [] && names != []
    ensures ExpectedErrors(g, compile, at, parts, names, visited) ==
            (if parts[0] == DEEP && |parts| > 1 then ExpectedErrors(g, compile, at, parts[1..], names, visited) else 0) +
            match Lookup(ReadDir(g, at), names[0])
            case None => 0
            case Some(entry) => EntryErrors(g, compile, parts, names, entry, visited)
  {
    FollowFirst(g, at, names, visited);
    var rest, tail := parts[1..], names[1..];
    assert Breaks(compile, [], names) == 0 && Breaks(compile, [], tail) == 0;
    assert Breaks(compile, parts, names) ==
      if parts[0] == DEEP then Breaks(compile, rest, names) + Breaks(compile, parts, tail)
      else if Accepts(compile, parts[0], names[0]) then Breaks(compile, rest, tail)
      else 0;
    hide Kind, ReadDir, Lookup, IsFile, IsDirectory, Follow, Breaks;
    assert |names| == 1 ==> tail == [];
  }

  function EntryErrors(g: Graph, compile: Compiler, parts: seq<string>, names: Path, entry: Entry, visited: set<Key>): nat
    requires parts != [] && names != []
  {
    var deep := parts[0] == DEEP;
    if !deep && (!Accepts(compile, parts[0], entry.name) || |parts| == 1) then 0
    else if Kind(g, entry.target, visited) == NewDirectory then
      ExpectedErrors(g, compile, entry.target, if deep then parts else parts[1..], names[1..], visited + {entry.target.value})
    else 0
  }

  lemma ErrorsHere(g: Graph, compile: Compiler, path: Path, at: Option<Key>, parts: seq<string>, visited: set<Key>)
    requires parts != [] && (parts[0] == DEEP ==> |parts| == 1)
    ensures Times(Here(g, compile, path, at, parts, visited), SyntaxError(path)) == Breaks(compile, parts, [])
  {
    hide Walk;
    assert |parts| == 1 ==> parts[1..] == [] && Breaks(compile, parts[1..], []) == 0;
    assert Times([Yield(path)], SyntaxError(path)) == 0 && Times([SyntaxError(path)], SyntaxError(path)) == 1;
  }

  /** The full walk has every error exactly as often as expected. */
  lemma {:induction false} WalkThrows(g: Graph, compile: Compiler, path: Path, at: Option<Key>, parts: seq<string>, visited: set<Key>, names: Path)
    requires IsGraph(g) && parts != []
    ensures Times(Walk(g, compile, path, at, parts, visited), SyntaxError(path + names)) ==
            ExpectedErrors(g, compile, at, parts, names, visited)
    decreases |Directories(g) - visited|, |parts|
  {
    WalkTimes(g, compile, path, at, parts, visited, SyntaxError(path + names));
    if parts[0] == DEEP && |parts| > 1 {
      WalkThrows(g, compile, path, at, parts[1..], visited, names);
    }
    hide Walk, WalkEntry, ReadDir, Lookup, Follow, Kind, IsGraph, Times;
    if names == [] {
      assert path + names == path;
      if parts[0] != DEEP || |parts| == 1 {
        hide Here, Breaks;
        ErrorsHere(g, compile, path, at, parts, visited);
      }
    } else {
      hide Breaks, ExpectedErrors, EntryErrors;
      NoErrorsHere(g, compile, path, at, parts, visited, names);
      ErrorsByFirstName(g, compile, at, parts, names, visited);
      assert (path + names)[|path|] == names[0];
      LookupName(ReadDir(g, at), names[0]);
      match Lookup(ReadDir(g, at), names[0]) {
        case None =>
        case Some(entry) => EntryThrows(g, compile, path, entry, parts, visited, names);
      }
    }
  }

  /** Nothing happens to a longer path here, unless `**` stands for nothing first. */
  lemma NoErrorsHere(g: Graph, compile: Compiler, path: Path, at: Option<Key>, parts: seq<string>, visited: set<Key>, names: Path)
    requires parts != [] && names != []
    ensures Times(Here(g, compile, path, at, parts, visited), SyntaxError(path + names)) ==
            if parts[0] == DEEP && |parts| > 1 then Times(Walk(g, compile, path, at, parts[1..], visited), SyntaxError(path + names)) else 0
  {
    hide Walk;
    assert |path + names| > |path|;
  }

  lemma {:induction false} EntryThrows(g: Graph, compile: Compiler, path: Path, entry: Entry, parts: seq<string>, visited: set<Key>, names: Path)
    requires IsGraph(g) && parts != [] && names != [] && entry.name == names[0]
    ensures Times(WalkEntry(g, compile, path, entry, parts, visited), SyntaxError(path + names)) ==
            EntryErrors(g, compile, parts, names, entry, visited)
    decreases |Directories(g) - visited|, |parts|, 0
  {
    var fullPath, tail := path + [entry.name], names[1..];
    assert path + names == fullPath + tail;
    if Kind(g, entry.target, visited) == NewDirectory && (parts[0] == DEEP || |parts| > 1) {
      DescentShrinks(g, visited, entry.target);
      WalkThrows(g, compile, fullPath, entry.target, if parts[0] == DEEP then parts else parts[1..],
                 visited + {entry.target.value}, tail);
    }
  }

  // ----- the theorems about glob -----

  /** How often `glob` yields a path. */
  function Yields(run: Run, p: Path): nat { multiset(run.yielded)[p] }

  /**
   * A path is yielded exactly as often as its names align with the pattern; when a segment that
   * does not compile stops the walk, at most as often.
   */
  lemma GlobYields(g: Graph, compile: Compiler, root: Option<Key>, parts: seq<string>, names: Path)
    requires IsGraph(g) && parts != []
    ensures var run, expected := Glob(g, compile, root, parts), Expected(g, compile, root, parts, names, RootKeys(root));
            Yields(run, names) <= expected && (!run.threw ==> Yields(run, names) == expected)
  {
    WalkYields(g, compile, [], root, parts, RootKeys(root), names);
    assert [] + names == names;
    CutTimes(FullWalk(g, compile, root, parts), names);
  }

  function DeepCount(parts: seq<string>): nat {
    if parts == [] then 0 else (if parts[0] == DEEP then 1 else 0) + DeepCount(parts[1..])
  }

  lemma {:induction false} AlignmentLengths(compile: Compiler, parts: seq<string>, names: Path)
    ensures DeepCount(parts) == 0 && Alignments(compile, parts, names) > 0 ==> |names| == |parts|
    ensures DeepCount(parts) <= 1 && Alignments(compile, parts, names) > 0 ==> |names| + 1 >= |parts|
    ensures DeepCount(parts) <= 1 ==> Alignments(compile, parts, names) <= 1
    decreases |parts| + |names|
  {
    if parts != [] {
      AlignmentLengths(compile, parts[1..], names);
      if names != [] {
        AlignmentLengths(compile, parts, names[1..]);
        AlignmentLengths(compile, parts[1..], names[1..]);
      }
    }
  }

  /** With at most one `**` no path is yielded twice, whatever the graph. */
  lemma NoDuplicates(g: Graph, compile: Compiler, root: Option<Key>, parts: seq<string>, names: Path)
    requires IsGraph(g) && parts != [] && DeepCount(parts) <= 1
    ensures Yields(Glob(g, compile, root, parts), names) <= 1
  {
    hide Alignments, Follow, Glob;
    GlobYields(g, compile, root, parts, names);
    AlignmentLengths(compile, parts, names);
    AlignmentLengths(compile, parts, []);
    if names != [] {
      AlignmentLengths(compile, parts, names[..|names| - 1]);
    }
  }
}
