/**
 * What `glob` yields, without reference to how it walks: alignment of names with the
 * pattern, and a descent that enters no directory twice.
 */
module GlobTheorems {
  import opened Sequences
  import opened GlobPattern
  import opened GlobMeaning
  import opened GlobWalk

  // ----- descents, read off the graph alone -----

  /** The directory lists the entry. */
  ghost predicate Lists(g: Graph, at: Option<Key>, entry: Entry) {
    && at.Some? && at.value in g && g[at.value].Dir? && g[at.value].listing.Some?
    && entry in g[at.value].listing.value
  }

  /**
   * `names` lead to an entry with the given target, through the directories `entered` on the way to
   * the last name.
   */
  ghost predicate Leads(g: Graph, at: Option<Key>, names: Path, entered: seq<Key>, target: Option<Key>)
    decreases entered
  {
    if entered == [] then |names| == 1 && Lists(g, at, Entry(names[0], target))
    else
      && |names| > 1
      && Lists(g, at, Entry(names[0], Some(entered[0])))
      && entered[0] in g && g[entered[0]].Dir?
      && Leads(g, Some(entered[0]), names[1..], entered[1..], target)
  }

  /** No directory is entered twice, and the base is not entered again. */
  ghost predicate EntersOnce(root: Option<Key>, entered: seq<Key>) {
    && (forall i | 0 <= i < |entered| :: root != Some(entered[i]))
    && (forall i, j | 0 <= i < j < |entered| :: entered[i] != entered[j])
  }

  // ----- descents against the walk's visited set -----

  /** No directory is entered twice, and none that was visited before. */
  ghost predicate EntersFresh(entered: seq<Key>, visited: set<Key>) {
    && (forall i | 0 <= i < |entered| :: entered[i] !in visited)
    && (forall i, j | 0 <= i < j < |entered| :: entered[i] != entered[j])
  }

  function Keys(entered: seq<Key>): set<Key> {
    set k | k in entered
  }

  lemma EntersFreshStep(entered: seq<Key>, visited: set<Key>)
    requires entered != []
    ensures EntersFresh(entered, visited) <==> entered[0] !in visited && EntersFresh(entered[1..], visited + {entered[0]})
    ensures visited + {entered[0]} + Keys(entered[1..]) == visited + Keys(entered)
  {
  }

  lemma NothingEntered(visited: set<Key>)
    ensures EntersFresh([], visited) && visited + Keys([]) == visited
  {
  }

  /** The walk starts with the base alone visited. */
  lemma OnlyTheBaseIsVisited(root: Option<Key>, entered: seq<Key>)
    ensures EntersFresh(entered, RootKeys(root)) <==> EntersOnce(root, entered)
    ensures forall k :: k in RootKeys(root) + Keys(entered) <==> root == Some(k) || k in entered
  {
  }

  /** What is looked up in a directory is what it lists. */
  lemma LookupIsListed(g: Graph, at: Option<Key>, name: string)
    requires IsGraph(g)
    ensures var found := Lookup(ReadDir(g, at), name);
            && (found.Some? ==> found.value.name == name && Lists(g, at, found.value))
            && (forall target | Lists(g, at, Entry(name, target)) :: found == Some(Entry(name, target)))
  {
    LookupEntry(ReadDir(g, at), name);
    ListingIsDistinct(g, at);
  }

  lemma {:induction false} LookupEntry(entries: seq<Entry>, name: string)
    ensures Lookup(entries, name).Some? ==> Lookup(entries, name).value.name == name && Lookup(entries, name).value in entries
    ensures forall entry | entry in entries && entry.name == name && DistinctNames(entries) :: Lookup(entries, name) == Some(entry)
  {
    if entries != [] {
      LookupEntry(entries[1..], name);
      assert forall i | 0 <= i < |entries[1..]| :: entries[1..][i] == entries[i + 1];
      assert forall entry | entry in entries :: entry == entries[0] || entry in entries[1..];
    }
  }

  /** The descent of the walk is not blocked exactly when names lead through fresh directories. */
  lemma {:induction false} FindEntered(g: Graph, at: Option<Key>, names: Path, visited: set<Key>)
    returns (entered: seq<Key>, target: Option<Key>)
    requires IsGraph(g) && names != [] && Follow(g, at, names, visited) != Blocked
    ensures Leads(g, at, names, entered, target) && EntersFresh(entered, visited) && |names| == |entered| + 1
    ensures Follow(g, at, names, visited) == Kind(g, target, visited + Keys(entered))
    decreases |names|
  {
    FollowFirst(g, at, names, visited);
    LookupIsListed(g, at, names[0]);
    var entry := Lookup(ReadDir(g, at), names[0]).value;
    hide Lookup, ReadDir, IsGraph, Lists;
    if |names| == 1 {
      entered, target := [], entry.target;
      assert entry == Entry(names[0], target);
      NothingEntered(visited);
    } else {
      var first := entry.target.value;
      var rest;
      rest, target := FindEntered(g, entry.target, names[1..], visited + {first});
      entered := [first] + rest;
      assert entry == Entry(names[0], Some(first));
      hide EntersFresh, Keys;
      assert entered[0] == first && entered[1..] == rest;
      EntersFreshStep(entered, visited);
    }
  }

  lemma {:induction false} EnteredIsFollowed(g: Graph, at: Option<Key>, names: Path, entered: seq<Key>, target: Option<Key>, visited: set<Key>)
    requires IsGraph(g) && Leads(g, at, names, entered, target) && EntersFresh(entered, visited)
    ensures |names| == |entered| + 1
    ensures Follow(g, at, names, visited) == Kind(g, target, visited + Keys(entered)) != Blocked
    decreases |names|
  {
    FollowFirst(g, at, names, visited);
    LookupIsListed(g, at, names[0]);
    hide Lookup, ReadDir, IsGraph, Lists;
    if entered == [] {
      NothingEntered(visited);
    } else {
      hide EntersFresh, Keys;
      EntersFreshStep(entered, visited);
      EnteredIsFollowed(g, Some(entered[0]), names[1..], entered[1..], target, visited + {entered[0]});
    }
  }

  // ----- matching names against parts -----

  /** `**` stands for any run of names, every other part for one matching name. */
  ghost predicate Matches(compile: Compiler, parts: seq<string>, names: Path)
    decreases parts
  {
    if parts == [] then names == []
    else if parts[0] == "**" then exists k | 0 <= k <= |names| :: Matches(compile, parts[1..], names[k..])
    else
      && names != [] && compile(parts[0]).Some? && compile(parts[0]).value(names[0])
      && Matches(compile, parts[1..], names[1..])
  }

  lemma {:induction false} AlignedIffMatches(compile: Compiler, parts: seq<string>, names: Path)
    ensures Alignments(compile, parts, names) > 0 <==> Matches(compile, parts, names)
    decreases |parts| + |names|
  {
    if parts != [] {
      AlignedIffMatches(compile, parts[1..], names);
      assert names[0..] == names;
      if names != [] {
        AlignedIffMatches(compile, parts, names[1..]);
        AlignedIffMatches(compile, parts[1..], names[1..]);
        if parts[0] == DEEP {
          assert forall k | 1 <= k <= |names| :: names[k..] == names[1..][k - 1..];
          if Matches(compile, parts, names[1..]) {
            var k :| 0 <= k <= |names[1..]| && Matches(compile, parts[1..], names[1..][k..]);
            assert Matches(compile, parts[1..], names[k + 1..]);
          }
          if k :| 1 <= k <= |names| && Matches(compile, parts[1..], names[k..]) {
            assert Matches(compile, parts[1..], names[1..][k - 1..]);
          }
        }
      }
    }
  }

  /** The last name may end where the pattern does; a last `**` takes a directory once, or a file by itself. */
  ghost predicate EndMatches(g: Graph, compile: Compiler, root: Option<Key>, parts: seq<string>, names: Path, entered: seq<Key>,
                             target: Option<Key>)
    requires parts != [] && names != []
  {
    if parts[|parts| - 1] != "**" then Matches(compile, parts, names)
    else
      && target.Some? && target.value in g
      && if g[target.value].Dir? then target != root && target.value !in entered && Matches(compile, parts, names)
         else Matches(compile, parts, names[..|names| - 1])
  }

  /** A way to a path that the walk may take. */
  ghost predicate Reaches(g: Graph, compile: Compiler, root: Option<Key>, parts: seq<string>, names: Path, entered: seq<Key>,
                          target: Option<Key>)
    requires parts != []
  {
    && names != []
    && Leads(g, root, names, entered, target)
    && EntersOnce(root, entered)
    && EndMatches(g, compile, root, parts, names, entered, target)
  }

  lemma ExpectedByKind(g: Graph, compile: Compiler, root: Option<Key>, parts: seq<string>, names: Path, entered: seq<Key>, target: Option<Key>)
    requires parts != [] && names != []
    requires Follow(g, root, names, RootKeys(root)) == Kind(g, target, RootKeys(root) + Keys(entered)) != Blocked
    ensures Expected(g, compile, root, parts, names, RootKeys(root)) > 0 <==>
            EndMatches(g, compile, root, parts, names, entered, target)
  {
    AlignedIffMatches(compile, parts, names);
    AlignedIffMatches(compile, parts, names[..|names| - 1]);
    OnlyTheBaseIsVisited(root, entered);
    hide Alignments, Matches, Follow, RootKeys, Keys;
  }

  /**
   * Over any graph, cycles included: `glob` yields a path below the base exactly when it is reached
   * through directories entered once, the base not again, and its names match the pattern, unless it
   * throws before.
   */
  lemma GlobMembership(g: Graph, compile: Compiler, root: Option<Key>, parts: seq<string>, names: Path)
    requires IsGraph(g) && parts != [] && names != []
    ensures var run := Glob(g, compile, root, parts);
            && (names in run.yielded ==> exists entered, target :: Reaches(g, compile, root, parts, names, entered, target))
            && ((exists entered, target :: Reaches(g, compile, root, parts, names, entered, target)) && !run.threw ==> names in run.yielded)
  {
    hide Glob, Alignments, Follow, Expected, IsGraph, EndMatches, Leads, EntersOnce, EntersFresh, RootKeys, Keys;
    GlobYields(g, compile, root, parts, names);
    if Follow(g, root, names, RootKeys(root)) == Blocked {
      ExpectedWhenBlocked(g, compile, root, parts, names);
    }
    if Follow(g, root, names, RootKeys(root)) != Blocked {
      var entered, target := FindEntered(g, root, names, RootKeys(root));
      OnlyTheBaseIsVisited(root, entered);
      ExpectedByKind(g, compile, root, parts, names, entered, target);
      assert Expected(g, compile, root, parts, names, RootKeys(root)) > 0 ==> Reaches(g, compile, root, parts, names, entered, target);
    }
    forall entered, target | Reaches(g, compile, root, parts, names, entered, target)
      ensures Expected(g, compile, root, parts, names, RootKeys(root)) > 0
    {
      OnlyTheBaseIsVisited(root, entered);
      EnteredIsFollowed(g, root, names, entered, target, RootKeys(root));
      ExpectedByKind(g, compile, root, parts, names, entered, target);
    }
  }

  lemma ExpectedWhenBlocked(g: Graph, compile: Compiler, root: Option<Key>, parts: seq<string>, names: Path)
    requires names != [] && Follow(g, root, names, RootKeys(root)) == Blocked
    ensures Expected(g, compile, root, parts, names, RootKeys(root)) == 0
  {
  }

  // ----- segments that do not compile -----

  /** Names align with the parts before a segment that does not compile. */
  ghost predicate StuckAt(compile: Compiler, parts: seq<string>, names: Path, i: int) {
    0 <= i < |parts| && parts[i] != "**" && compile(parts[i]).None? && Matches(compile, parts[..i], names)
  }

  /** `**` takes no name, or one more. */
  lemma DeepMatches(compile: Compiler, parts: seq<string>, names: Path)
    requires parts != [] && parts[0] == DEEP
    ensures Matches(compile, parts, names) <==>
            Matches(compile, parts[1..], names) || (names != [] && Matches(compile, parts, names[1..]))
  {
    AlignedIffMatches(compile, parts, names);
    AlignedIffMatches(compile, parts[1..], names);
    if names != [] {
      AlignedIffMatches(compile, parts, names[1..]);
    }
  }

  lemma StuckStep(compile: Compiler, parts: seq<string>, names: Path, i: int)
    requires parts != []
    ensures StuckAt(compile, parts, names, i) <==>
            if parts[0] == DEEP then
              (i > 0 && StuckAt(compile, parts[1..], names, i - 1)) || (names != [] && StuckAt(compile, parts, names[1..], i))
            else if i == 0 then !Compiles(compile, parts[0]) && names == []
            else names != [] && Accepts(compile, parts[0], names[0]) && StuckAt(compile, parts[1..], names[1..], i - 1)
  {
    if 0 < i < |parts| {
      var before := parts[..i];
      assert before[0] == parts[0] && before[1..] == parts[1..][..i - 1] && parts[i] == parts[1..][i - 1];
      if parts[0] == DEEP {
        hide Matches;
        DeepMatches(compile, before, names);
      }
    }
  }

  lemma {:induction false} BreaksIffStuck(compile: Compiler, parts: seq<string>, names: Path)
    ensures Breaks(compile, parts, names) > 0 <==> exists i :: StuckAt(compile, parts, names, i)
    decreases |parts| + |names|
  {
    if parts != [] {
      var rest := parts[1..];
      forall i: int
        ensures StuckAt(compile, parts, names, i) <==>
                if parts[0] == DEEP then
                  (i > 0 && StuckAt(compile, rest, names, i - 1)) || (names != [] && StuckAt(compile, parts, names[1..], i))
                else if i == 0 then !Compiles(compile, parts[0]) && names == []
                else names != [] && Accepts(compile, parts[0], names[0]) && StuckAt(compile, rest, names[1..], i - 1)
      {
        StuckStep(compile, parts, names, i);
      }
      BreaksIffStuck(compile, rest, names);
      if names != [] {
        BreaksIffStuck(compile, parts, names[1..]);
        BreaksIffStuck(compile, rest, names[1..]);
      }
      hide StuckAt;
      if i :| StuckAt(compile, rest, names, i) && parts[0] == DEEP {
        assert StuckAt(compile, parts, names, i + 1);
      }
      if names != [] {
        if i :| StuckAt(compile, rest, names[1..], i) && parts[0] != DEEP && Accepts(compile, parts[0], names[0]) {
          assert StuckAt(compile, parts, names, i + 1);
        }
      }
      if parts[0] != DEEP && !Compiles(compile, parts[0]) && names == [] {
        assert StuckAt(compile, parts, names, 0);
      }
    }
  }

  /** The walk enters the directory that `names` lead to. */
  ghost predicate Visits(g: Graph, root: Option<Key>, names: Path) {
    names == [] || exists entered, target: Key ::
      && Leads(g, root, names, entered, Some(target)) && EntersOnce(root, entered)
      && target in g && g[target].Dir? && root != Some(target) && target !in entered
  }

  lemma VisitsIfFollowed(g: Graph, root: Option<Key>, names: Path)
    requires IsGraph(g)
    ensures Visits(g, root, names) <==> names == [] || Follow(g, root, names, RootKeys(root)) == NewDirectory
  {
    hide Follow, Leads, EntersOnce, EntersFresh, RootKeys, Keys, IsGraph;
    if names != [] {
      if Follow(g, root, names, RootKeys(root)) == NewDirectory {
        var entered, target := FindEntered(g, root, names, RootKeys(root));
        OnlyTheBaseIsVisited(root, entered);
        assert Leads(g, root, names, entered, Some(target.value));
      }
      forall entered, target: Key | Leads(g, root, names, entered, Some(target)) && EntersOnce(root, entered)
        ensures Follow(g, root, names, RootKeys(root)) == Kind(g, Some(target), RootKeys(root) + Keys(entered))
        ensures target in RootKeys(root) + Keys(entered) <==> root == Some(target) || target in entered
      {
        OnlyTheBaseIsVisited(root, entered);
        EnteredIsFollowed(g, root, names, entered, Some(target), RootKeys(root));
      }
    }
  }

  /**
   * `glob` throws exactly when its walk enters some directory, the base included, whose names match
   * the parts before a segment that does not compile.
   */
  lemma GlobThrowsExactly(g: Graph, compile: Compiler, root: Option<Key>, parts: seq<string>)
    requires IsGraph(g) && parts != []
    ensures Glob(g, compile, root, parts).threw <==>
            exists names, i :: Visits(g, root, names) && StuckAt(compile, parts, names, i)
  {
    hide FullWalk, Breaks, StuckAt, Visits, Follow;
    var items := FullWalk(g, compile, root, parts);
    CutThrows(items);
    forall names: Path
      ensures SyntaxError(names) in items <==> Visits(g, root, names) && exists i :: StuckAt(compile, parts, names, i)
    {
      ErrorsInFullWalk(g, compile, root, parts, names);
      VisitsIfFollowed(g, root, names);
      BreaksIffStuck(compile, parts, names);
    }
    if Glob(g, compile, root, parts).threw {
      var k :| 0 <= k < |items| && items[k].SyntaxError?;
      assert SyntaxError(items[k].path) in items;
    }
    if names, i :| Visits(g, root, names) && StuckAt(compile, parts, names, i) {
      assert SyntaxError(names) in items;
    }
  }

  lemma ErrorsInFullWalk(g: Graph, compile: Compiler, root: Option<Key>, parts: seq<string>, names: Path)
    requires IsGraph(g) && parts != []
    ensures SyntaxError(names) in FullWalk(g, compile, root, parts) <==>
            ExpectedErrors(g, compile, root, parts, names, RootKeys(root)) > 0
  {
    hide Walk, ExpectedErrors;
    WalkThrows(g, compile, [], root, parts, RootKeys(root), names);
    assert [] + names == names;
  }

  /** The base itself is yielded exactly when every part is `**`. */
  lemma BaseYielded(g: Graph, compile: Compiler, root: Option<Key>, parts: seq<string>)
    requires IsGraph(g) && parts != []
    ensures [] in Glob(g, compile, root, parts).yielded <==> forall i | 0 <= i < |parts| :: parts[i] == "**"
  {
    hide Glob, Alignments, IsGraph;
    GlobYields(g, compile, root, parts, []);
    BaseAlignments(compile, parts);
    if forall i | 0 <= i < |parts| :: parts[i] == "**" {
      GlobThrowsExactly(g, compile, root, parts);
    }
  }

  lemma {:induction false} BaseAlignments(compile: Compiler, parts: seq<string>)
    ensures Alignments(compile, parts, []) > 0 <==> forall i | 0 <= i < |parts| :: parts[i] == "**"
  {
    if parts != [] {
      BaseAlignments(compile, parts[1..]);
      assert forall i | 0 <= i < |parts[1..]| :: parts[1..][i] == parts[i + 1];
      assert forall i | 1 <= i < |parts| :: parts[i] == parts[1..][i - 1];
    }
  }

  // ----- with compiled segments -----

  /** `compile` is what the model of the compiler and of ECMA-262 say about the parts. */
  ghost predicate IsCompiled(compile: Compiler, parts: seq<string>, fold: Fold) {
    forall i | 0 <= i < |parts| && parts[i] != "**" :: CompiledAs(compile(parts[i]), NewRegExp("^" + Emit(parts[i]) + "$"), fold)
  }

  ghost predicate CompiledAs(accepts: Option<string -> bool>, regex: Option<seq<Term>>, fold: Fold) {
    && (accepts.Some? <==> regex.Some?)
    && (regex.Some? ==> forall name: string :: accepts.value(name) <==> Test(regex.value, name, fold))
  }

  /** No segment escapes a wildcard, and no class has a range out of order. */
  ghost predicate IsFaithful(parts: seq<string>) {
    forall i | 0 <= i < |parts| && parts[i] != "**" :: !HasEscapedWildcard(parts[i]) && AllInOrder(Items(parts[i]))
  }

  /** The names match the pattern by what its segments denote. */
  ghost predicate Denotes(parts: seq<string>, names: Path, fold: Fold)
    decreases parts
  {
    if parts == [] then names == []
    else if parts[0] == "**" then exists k | 0 <= k <= |names| :: Denotes(parts[1..], names[k..], fold)
    else names != [] && GlobMatches(Items(parts[0]), names[0], fold) && Denotes(parts[1..], names[1..], fold)
  }

  lemma FaithfulTail(compile: Compiler, parts: seq<string>, fold: Fold)
    requires parts != [] && IsCompiled(compile, parts, fold) && IsFaithful(parts)
    ensures IsCompiled(compile, parts[1..], fold) && IsFaithful(parts[1..])
  {
  }

  lemma CompiledSegment(accepts: Option<string -> bool>, segment: string, fold: Fold)
    requires CompiledAs(accepts, NewRegExp("^" + Emit(segment) + "$"), fold)
    requires !HasEscapedWildcard(segment) && AllInOrder(Items(segment))
    ensures accepts.Some? && forall name :: accepts.value(name) <==> GlobMatches(Items(segment), name, fold)
  {
    CompiledTokens(segment);
    TermsOfPattern(segment);
    forall name: string ensures accepts.value(name) <==> GlobMatches(Items(segment), name, fold) {
      TermsMatch(Items(segment), name, fold);
    }
  }

  /** From the text of the segments to the names: what the compiled parts match is what they denote. */
  lemma {:induction false} CompiledMatches(compile: Compiler, parts: seq<string>, names: Path, fold: Fold)
    requires IsCompiled(compile, parts, fold) && IsFaithful(parts)
    ensures Matches(compile, parts, names) <==> Denotes(parts, names, fold)
    decreases parts
  {
    if parts != [] {
      FaithfulTail(compile, parts, fold);
      var rest := parts[1..];
      if parts[0] == DEEP {
        forall k | 0 <= k <= |names|
          ensures Matches(compile, rest, names[k..]) <==> Denotes(rest, names[k..], fold)
        {
          CompiledMatches(compile, rest, names[k..], fold);
        }
      } else {
        assert parts[0] == parts[..1][0];
        CompiledSegment(compile(parts[0]), parts[0], fold);
        if names != [] {
          CompiledMatches(compile, rest, names[1..], fold);
        }
      }
    }
  }

  /** Reached through directories entered once, with names that the text of the pattern denotes. */
  ghost predicate Finds(g: Graph, root: Option<Key>, parts: seq<string>, names: Path, entered: seq<Key>, target: Option<Key>, fold: Fold)
    requires parts != []
  {
    && names != []
    && Leads(g, root, names, entered, target)
    && EntersOnce(root, entered)
    && if parts[|parts| - 1] != "**" then Denotes(parts, names, fold)
       else
         && target.Some? && target.value in g
         && if g[target.value].Dir? then target != root && target.value !in entered && Denotes(parts, names, fold)
            else Denotes(parts, names[..|names| - 1], fold)
  }

  /**
   * From the text of a pattern to paths: without escaped wildcards and with ranges in order, `glob`
   * does not throw and yields exactly the paths below the base that the text denotes.
   */
  lemma GlobFindsWhatIsDenoted(g: Graph, compile: Compiler, root: Option<Key>, parts: seq<string>, names: Path, fold: Fold)
    requires IsGraph(g) && parts != [] && names != []
    requires IsCompiled(compile, parts, fold) && IsFaithful(parts)
    ensures !Glob(g, compile, root, parts).threw
    ensures names in Glob(g, compile, root, parts).yielded <==> exists entered, target :: Finds(g, root, parts, names, entered, target, fold)
  {
    hide Glob, IsGraph, Leads, EntersOnce, Matches, Denotes, Visits;
    GlobMembership(g, compile, root, parts, names);
    GlobThrowsExactly(g, compile, root, parts);
    forall i | 0 <= i < |parts| && parts[i] != "**" ensures compile(parts[i]).Some? {
      CompiledSegment(compile(parts[i]), parts[i], fold);
    }
    CompiledMatches(compile, parts, names, fold);
    CompiledMatches(compile, parts, names[..|names| - 1], fold);
    forall entered, target
      ensures Reaches(g, compile, root, parts, names, entered, target) <==> Finds(g, root, parts, names, entered, target, fold)
    {
    }
  }
}
