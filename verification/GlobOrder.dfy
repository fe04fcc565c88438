/** In which order `glob` yields. */
module GlobOrder {
  import opened Sequences
  import opened GlobWalk

  /** The position of a name in a listing. */
  ghost predicate ListedBefore(listing: seq<Entry>, a: string, b: string) {
    exists i, j :: 0 <= i <= j < |listing| && listing[i].name == a && listing[j].name == b
  }

  /** What happens below a path is in the order of the listing there. */
  ghost predicate InListingOrder(items: seq<Item>, path: Path, listing: seq<Entry>) {
    && (forall i | 0 <= i < |items| :: |items[i].path| > |path|)
    && (forall i, j | 0 <= i <= j < |items| :: ListedBefore(listing, items[i].path[|path|], items[j].path[|path|]))
  }

  lemma {:induction false} EntriesInOrder(g: Graph, compile: Compiler, path: Path, entries: seq<Entry>, parts: seq<string>, visited: set<Key>)
    requires parts != []
    ensures InListingOrder(WalkEntries(g, compile, path, entries, parts, visited), path, entries)
    decreases |entries|
  {
    var items := WalkEntries(g, compile, path, entries, parts, visited);
    EntriesBelow(g, compile, path, entries, parts, visited);
    assert forall i | 0 <= i < |items| :: items[i] in items;
    if entries != [] {
      var first, rest := WalkEntry(g, compile, path, entries[0], parts, visited), WalkEntries(g, compile, path, entries[1..], parts, visited);
      assert items == first + rest;
      EntriesInOrder(g, compile, path, entries[1..], parts, visited);
      EntryBelow(g, compile, path, entries[0], parts, visited);
      FirstThenRest(first, rest, path, entries);
    }
  }

  lemma FirstThenRest(first: seq<Item>, rest: seq<Item>, path: Path, entries: seq<Entry>)
    requires entries != [] && InListingOrder(rest, path, entries[1..])
    requires forall p | p in first :: path + [entries[0].name] <= p.path
    ensures InListingOrder(first + rest, path, entries)
  {
    var items, name := first + rest, entries[0].name;
    forall i | 0 <= i < |first| ensures |items[i].path| > |path| && items[i].path[|path|] == name {
      assert items[i] == first[i] && first[i] in first;
      assert (path + [name])[|path|] == name;
    }
    assert forall i | |first| <= i < |items| :: items[i] == rest[i - |first|];
    forall i, j | 0 <= i <= j < |items| ensures ListedBefore(entries, items[i].path[|path|], items[j].path[|path|]) {
      if i < |first| && j < |first| {
        assert entries[0].name == items[i].path[|path|] == items[j].path[|path|];
      } else if i < |first| {
        var k, l :| 0 <= k <= l < |entries[1..]| && entries[1..][k].name == items[j].path[|path|] && entries[1..][l].name == items[j].path[|path|];
        assert entries[l + 1].name == items[j].path[|path|];
      } else {
        var k, l :| 0 <= k <= l < |entries[1..]| && entries[1..][k].name == items[i].path[|path|] && entries[1..][l].name == items[j].path[|path|];
        assert entries[k + 1].name == items[i].path[|path|] && entries[l + 1].name == items[j].path[|path|];
      }
    }
  }

  /**
   * In a directory that can be listed, the walk first takes a leading `**` for nothing, as the rest of
   * the pattern goes there or by yielding the directory, and then follows the listing.
   */
  lemma WalkOrder(g: Graph, compile: Compiler, path: Path, key: Key, parts: seq<string>, visited: set<Key>) returns (below: seq<Item>)
    requires parts != [] && key in g && g[key].Dir? && g[key].listing.Some?
    ensures Walk(g, compile, path, Some(key), parts, visited) ==
            (if parts[0] != "**" then if compile(parts[0]).Some? then [] else [SyntaxError(path)]
             else if |parts| == 1 then [Yield(path)]
             else Walk(g, compile, path, Some(key), parts[1..], visited)) + below
    ensures InListingOrder(below, path, g[key].listing.value)
  {
    below := WalkEntries(g, compile, path, g[key].listing.value, parts, visited);
    EntriesInOrder(g, compile, path, g[key].listing.value, parts, visited);
  }

  /** A run yields what comes before the first error, in order, and throws there. */
  lemma {:induction false} CutExactly(items: seq<Item>) returns (n: nat)
    ensures n <= |items| && |Cut(items).yielded| == n
    ensures forall i | 0 <= i < n :: items[i] == Yield(Cut(items).yielded[i])
    ensures Cut(items).threw <==> n < |items|
    ensures n < |items| ==> items[n].SyntaxError?
  {
    if items == [] || items[0].SyntaxError? {
      n := 0;
    } else {
      var rest := CutExactly(items[1..]);
      n := rest + 1;
      assert forall i | 1 <= i < n :: items[i] == items[1..][i - 1];
    }
  }
}
