/** Which patterns can make `glob` yield a path twice. */
module GlobDuplicates {
  import opened Sequences
  import opened GlobWalk
  import opened GlobTheorems

  /** Every part other than `**` accepts some name. */
  ghost predicate CanMatch(compile: Compiler, parts: seq<string>) {
    forall i | 0 <= i < |parts| && parts[i] != DEEP :: AcceptsSome(compile, parts[i])
  }

  ghost predicate AcceptsSome(compile: Compiler, segment: string) {
    exists name: string :: IsName(name) && Accepts(compile, segment, name)
  }

  predicate AreNames(names: Path) {
    forall i | 0 <= i < |names| :: IsName(names[i])
  }

  lemma {:induction false} NothingAligns(compile: Compiler, parts: seq<string>, names: Path, i: nat)
    requires i < |parts| && parts[i] != DEEP && !AcceptsSome(compile, parts[i]) && AreNames(names)
    ensures Alignments(compile, parts, names) == 0
    decreases |parts| + |names|
  {
    if i > 0 {
      NothingAligns(compile, parts[1..], names, i - 1);
    }
    if names != [] {
      if i > 0 {
        NothingAligns(compile, parts[1..], names[1..], i - 1);
      }
      NothingAligns(compile, parts, names[1..], i);
    }
  }

  lemma {:induction false} SomeNames(compile: Compiler, parts: seq<string>) returns (names: Path)
    requires CanMatch(compile, parts)
    ensures Alignments(compile, parts, names) > 0 && AreNames(names)
  {
    if parts == [] {
      names := [];
    } else {
      assert forall i | 0 <= i < |parts[1..]| :: parts[1..][i] == parts[i + 1];
      names := SomeNames(compile, parts[1..]);
      if parts[0] != DEEP {
        assert AcceptsSome(compile, parts[0]);
        var name: string :| IsName(name) && Accepts(compile, parts[0], name);
        assert ([name] + names)[1..] == names;
        names := [name] + names;
      }
    }
  }

  // ----- two alignments -----

  /** Dropping names under a leading `**` gains no alignments. */
  lemma {:induction false} DeepSkips(compile: Compiler, parts: seq<string>, names: Path, k: nat)
    requires parts != [] && parts[0] == DEEP && k <= |names|
    ensures Alignments(compile, parts, names) >= Alignments(compile, parts, names[k..]) >= Alignments(compile, parts[1..], names[k..])
  {
    if k == 0 {
      assert names[0..] == names;
    } else {
      DeepSkips(compile, parts, names[1..], k - 1);
      assert names[1..][k - 1..] == names[k..];
    }
  }

  predicate Fits(compile: Compiler, plain: seq<string>, names: Path) {
    |names| == |plain| && forall i | 0 <= i < |plain| :: plain[i] != DEEP && Accepts(compile, plain[i], names[i])
  }

  lemma {:induction false} PlainPrefix(compile: Compiler, plain: seq<string>, fitting: Path, parts: seq<string>, names: Path)
    requires Fits(compile, plain, fitting)
    ensures Alignments(compile, plain + parts, fitting + names) == Alignments(compile, parts, names)
  {
    if plain == [] {
      assert plain + parts == parts && fitting + names == names;
    } else {
      PlainPrefix(compile, plain[1..], fitting[1..], parts, names);
      assert (plain + parts)[1..] == plain[1..] + parts && (fitting + names)[1..] == fitting[1..] + names;
    }
  }

  lemma {:induction false} FirstDeep(compile: Compiler, parts: seq<string>) returns (plain: seq<string>, fitting: Path, rest: seq<string>)
    requires CanMatch(compile, parts) && DeepCount(parts) >= 1
    ensures parts == plain + rest && Fits(compile, plain, fitting) && AreNames(fitting)
    ensures rest != [] && rest[0] == DEEP && CanMatch(compile, rest)
  {
    if parts[0] == DEEP {
      plain, fitting, rest := [], [], parts;
    } else {
      assert forall i | 0 <= i < |parts[1..]| :: parts[1..][i] == parts[i + 1];
      assert AcceptsSome(compile, parts[0]);
      var name: string :| IsName(name) && Accepts(compile, parts[0], name);
      var plain', fitting';
      plain', fitting', rest := FirstDeep(compile, parts[1..]);
      plain, fitting := [parts[0]] + plain', [name] + fitting';
    }
  }

  /** The names between two `**`, said twice, are found by leaving either copy to a `**`. */
  lemma TwoDeeps(compile: Compiler, parts: seq<string>) returns (names: Path)
    requires CanMatch(compile, parts) && DeepCount(parts) >= 2 && parts[0] == DEEP
    ensures names != [] && AreNames(names) && Alignments(compile, parts, names) >= 2
  {
    var after := parts[1..];
    assert forall i | 0 <= i < |after| :: after[i] == parts[i + 1];
    var plain, fitting, rest := FirstDeep(compile, after);
    assert forall i | 0 <= i < |rest[1..]| :: rest[1..][i] == rest[i + 1];
    var last := SomeNames(compile, rest[1..]);
    var again := if plain == [] then ["d"] else fitting;
    names := fitting + (again + last);
    hide Alignments, CanMatch;
    DeepSkips(compile, rest, again + last, |again|);
    assert (again + last)[|again|..] == last;
    PlainPrefix(compile, plain, fitting, rest, again + last);
    assert names[|again|..] == fitting + last;
    PlainPrefix(compile, plain, fitting, rest, last);
    DeepSkips(compile, rest, last, 0);
    assert last[0..] == last;
    EitherWay(compile, parts, names, |again|);
  }

  lemma EitherWay(compile: Compiler, parts: seq<string>, names: Path, k: nat)
    requires parts != [] && parts[0] == DEEP && 0 < k <= |names|
    ensures Alignments(compile, parts, names) >= Alignments(compile, parts[1..], names) + Alignments(compile, parts[1..], names[k..])
  {
    FirstAlignments(compile, parts, names);
    hide Alignments;
    DeepSkips(compile, parts, names[1..], k - 1);
    assert names[1..][k - 1..] == names[k..];
  }

  lemma {:induction false} TwoAlignments(compile: Compiler, parts: seq<string>) returns (names: Path)
    requires CanMatch(compile, parts) && DeepCount(parts) >= 2
    ensures names != [] && AreNames(names) && Alignments(compile, parts, names) >= 2
  {
    if parts[0] == DEEP {
      names := TwoDeeps(compile, parts);
    } else {
      assert forall i | 0 <= i < |parts[1..]| :: parts[1..][i] == parts[i + 1];
      var rest := TwoAlignments(compile, parts[1..]);
      assert AcceptsSome(compile, parts[0]);
      var name: string :| IsName(name) && Accepts(compile, parts[0], name);
      names := [name] + rest;
      assert names[1..] == rest;
    }
  }

  // ----- a directory for every name -----

  /** A chain of directories, each holding the next. */
  function Chain(names: Path): Graph {
    map k: nat | k <= |names| :: Dir(Some(if k < |names| then [Entry(names[k], Some(k + 1))] else []))
  }

  lemma ChainIsGraph(names: Path)
    requires AreNames(names)
    ensures IsGraph(Chain(names))
  {
  }

  lemma {:induction false} ChainIsFollowed(names: Path, k: nat, visited: set<Key>)
    requires k < |names| && forall v | v in visited :: v <= k
    ensures Follow(Chain(names), Some(k), names[k..], visited) == NewDirectory
    decreases |names| - k
  {
    assert Lookup(ReadDir(Chain(names), Some(k)), names[k]) == Some(Entry(names[k], Some(k + 1)));
    if k + 1 < |names| {
      ChainIsFollowed(names, k + 1, visited + {k + 1});
      assert names[k..][1..] == names[k + 1..];
    }
  }

  lemma YieldedTwice(compile: Compiler, parts: seq<string>) returns (g: Graph, names: Path)
    requires parts != [] && CanMatch(compile, parts) && DeepCount(parts) >= 2
    ensures IsGraph(g) && Yields(Glob(g, compile, Some(0), parts), names) >= 2
  {
    hide Alignments, Follow, Glob, StuckAt;
    names := TwoAlignments(compile, parts);
    g := Chain(names);
    ChainIsGraph(names);
    ChainIsFollowed(names, 0, RootKeys(Some(0)));
    assert names[0..] == names;
    assert Expected(g, compile, Some(0), parts, names, RootKeys(Some(0))) >= 2;
    forall names, i ensures !StuckAt(compile, parts, names, i) {
      NeverStuck(compile, parts, names, i);
    }
    GlobThrowsExactly(g, compile, Some(0), parts);
    GlobYields(g, compile, Some(0), parts, names);
  }

  lemma NeverStuck(compile: Compiler, parts: seq<string>, names: Path, i: int)
    requires CanMatch(compile, parts)
    ensures !StuckAt(compile, parts, names, i)
  {
  }

  lemma {:induction false} FollowedAreNames(g: Graph, at: Option<Key>, names: Path, visited: set<Key>)
    requires IsGraph(g) && names != [] && Follow(g, at, names, visited) != Blocked
    ensures AreNames(names)
    decreases |names|
  {
    FollowFirst(g, at, names, visited);
    ListedIsName(g, at, names[0]);
    if |names| > 1 {
      var entry := Lookup(ReadDir(g, at), names[0]).value;
      FollowedAreNames(g, entry.target, names[1..], visited + {entry.target.value});
    }
  }

  lemma ListedIsName(g: Graph, at: Option<Key>, name: string)
    requires IsGraph(g) && Lookup(ReadDir(g, at), name).Some?
    ensures IsName(name)
  {
    var entries := ReadDir(g, at);
    assert forall i | 0 <= i < |entries| :: IsName(entries[i].name);
    LookupIn(entries, name);
  }

  lemma {:induction false} LookupIn(entries: seq<Entry>, name: string)
    requires Lookup(entries, name).Some?
    ensures exists i :: 0 <= i < |entries| && entries[i].name == name
  {
    if entries[0].name != name {
      LookupIn(entries[1..], name);
      var i :| 0 <= i < |entries[1..]| && entries[1..][i].name == name;
      assert entries[i + 1].name == name;
    }
  }

  lemma NeverYielded(g: Graph, compile: Compiler, root: Option<Key>, parts: seq<string>, names: Path)
    requires IsGraph(g) && parts != [] && !CanMatch(compile, parts)
    ensures Yields(Glob(g, compile, root, parts), names) == 0
  {
    hide Alignments, Follow, Glob;
    GlobYields(g, compile, root, parts, names);
    var i :| 0 <= i < |parts| && parts[i] != DEEP && !AcceptsSome(compile, parts[i]);
    NothingAligns(compile, parts, [], i);
    if names != [] && Follow(g, root, names, RootKeys(root)) != Blocked {
      FollowedAreNames(g, root, names, RootKeys(root));
      NothingAligns(compile, parts, names, i);
      NothingAligns(compile, parts, names[..|names| - 1], i);
    }
  }

  /**
   * No graph makes a pattern yield a path twice if and only if it has at most one `**`, or some
   * other part that accepts no name and so lets nothing through.
   */
  lemma DuplicatesExactly(compile: Compiler, parts: seq<string>)
    requires parts != []
    ensures (forall g: Graph, root: Option<Key>, names: Path | IsGraph(g) :: Yields(Glob(g, compile, root, parts), names) <= 1)
            <==> DeepCount(parts) <= 1 || !CanMatch(compile, parts)
  {
    hide Glob, IsGraph, CanMatch, Yields;
    if DeepCount(parts) <= 1 {
      forall g: Graph, root: Option<Key>, names: Path | IsGraph(g) ensures Yields(Glob(g, compile, root, parts), names) <= 1 {
        NoDuplicates(g, compile, root, parts, names);
      }
    } else if !CanMatch(compile, parts) {
      forall g: Graph, root: Option<Key>, names: Path | IsGraph(g) ensures Yields(Glob(g, compile, root, parts), names) <= 1 {
        NeverYielded(g, compile, root, parts, names);
      }
    } else {
      var g, names := YieldedTwice(compile, parts);
    }
  }
}
