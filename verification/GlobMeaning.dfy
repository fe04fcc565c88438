/** The compiled regular expression accepts exactly the names the glob segment denotes. */
module GlobMeaning {
  import opened Sequences
  import opened GlobPattern

  const NOT_SLASH: Atom := Class(true, [Range('/', '/')])

  /** `\*` and `\?` are copied without their backslash and end up as quantifiers. */
  predicate StartsWithEscapedWildcard(pattern: string) {
    |pattern| > 1 && pattern[0] == '\\' && (pattern[1] == '*' || pattern[1] == '?')
  }

  predicate HasEscapedWildcard(pattern: string) {
    pattern != "" && (StartsWithEscapedWildcard(pattern) || HasEscapedWildcard(pattern[Width(pattern)..]))
  }

  predicate RangesInOrder(ranges: seq<Range>) {
    forall i | 0 <= i < |ranges| :: ranges[i].lo <= ranges[i].hi
  }

  predicate InOrder(item: Item) {
    item.OneOf? ==> RangesInOrder(item.ranges)
  }

  predicate AllInOrder(items: seq<Item>) {
    forall i | 0 <= i < |items| :: InOrder(items[i])
  }

  // ----- from emitted text to tokens -----

  function AtomOf(item: Item): Atom {
    match item
    case AnyRun => NOT_SLASH
    case AnyOne => NOT_SLASH
    case Exact(c) => Literal(c)
    case OneOf(negated, ranges) => Class(negated, ranges)
  }

  function FirstTokens(pattern: string): seq<Token>
    requires pattern != ""
  {
    if StartsWithEscapedWildcard(pattern) then [if pattern[1] == '*' then StarToken else QuestionToken]
    else if FirstItem(pattern).AnyRun? then [AtomToken(NOT_SLASH), StarToken]
    else [AtomToken(AtomOf(FirstItem(pattern)))]
  }

  function Tokens(pattern: string): seq<Token> {
    if pattern == "" then [] else FirstTokens(pattern) + Tokens(pattern[Width(pattern)..])
  }

  function Append(tokens: seq<Token>, rest: Option<seq<Token>>): Option<seq<Token>> {
    if rest.None? then None else Some(tokens + rest.value)
  }

  /** The atoms stand for the characters of a class body. */
  ghost predicate Spells(atoms: seq<ClassAtom>, body: string) {
    && |atoms| == |body|
    && forall i | 0 <= i < |body| :: atoms[i].c == body[i] && (body[i] == '-' ==> !atoms[i].escaped)
  }

  lemma {:induction false} ReadDoubled(body: string, rest: string) returns (atoms: seq<ClassAtom>)
    requires ']' !in body
    ensures Spells(atoms, body)
    ensures ReadClassAtoms(DoubleBackslashes(body) + "]" + rest) == Some((atoms, rest))
  {
    var text := DoubleBackslashes(body) + "]" + rest;
    if body == "" {
      assert text == "]" + rest;
      atoms := [];
    } else {
      var tail := ReadDoubled(body[1..], rest);
      var text' := DoubleBackslashes(body[1..]) + "]" + rest;
      atoms := [ClassAtom(body[0], body[0] == '\\')] + tail;
      assert text == (if body[0] == '\\' then "\\\\" else [body[0]]) + text';
      assert text[if body[0] == '\\' then 2 else 1..] == text';
    }
  }

  lemma {:induction false} ReadSpelled(atoms: seq<ClassAtom>, body: string)
    requires Spells(atoms, body)
    ensures ReadRanges(atoms) == if RangesInOrder(ClassRanges(body)) then Some(ClassRanges(body)) else None
  {
    if body != "" {
      var n := if |body| >= 3 && body[1] == '-' then 3 else 1;
      ReadSpelled(atoms[n..], body[n..]);
      var range, ranges := ClassRanges(body)[0], ClassRanges(body[n..]);
      assert ClassRanges(body) == [range] + ranges;
      assert RangesInOrder(ClassRanges(body)) <==> range.lo <= range.hi && RangesInOrder(ranges) by {
        assert forall i | 0 <= i < |ranges| :: ranges[i] == ClassRanges(body)[i + 1];
      }
    }
  }

  lemma LexClass(content: string, rest: string)
    requires ']' !in content
    ensures var item := ClassItem(content);
            Lex("[" + EmitClass(content) + "]" + rest) ==
            if InOrder(item) then Append([AtomToken(AtomOf(item))], Lex(rest)) else None
  {
    hide Lex, ReadRanges, ReadClassAtoms, ClassRanges, RangesInOrder, Spells;
    var negated := content != "" && content[0] == '!';
    var body := if negated then content[1..] else content;
    var inner := if negated then DoubleBackslashes(body) else EmitClass(content);
    var atoms;
    if content != "" && content[0] == '^' {
      atoms := ReadCaret(content, rest);
    } else {
      atoms := ReadDoubled(body, rest);
    }
    ReadSpelled(atoms, body);
    if content != "" {
      DoubledHead(content);
    }
    assert EmitClass(content) == (if negated then "^" else "") + inner;
    assert !negated ==> (inner + "]")[0] != '^';
    hide EmitClass, DoubleBackslashes;
    LexBrackets(negated, inner, atoms, rest);
  }

  lemma LexBrackets(negated: bool, inner: string, atoms: seq<ClassAtom>, rest: string)
    requires ReadClassAtoms(inner + "]" + rest) == Some((atoms, rest))
    requires !negated ==> (inner + "]")[0] != '^'
    ensures Lex("[" + ((if negated then "^" else "") + inner) + "]" + rest) ==
            match ReadRanges(atoms)
            case None => None
            case Some(ranges) => Append([AtomToken(Class(negated, ranges))], Lex(rest))
  {
    hide Lex, ReadRanges, ReadClassAtoms;
    var text := "[" + ((if negated then "^" else "") + inner) + "]" + rest;
    assert text[if negated then 2 else 1..] == inner + "]" + rest;
    assert text[1] == '^' <==> negated by {
      assert !negated ==> text[1] == (inner + "]")[0];
    }
    LexBracket(text, atoms, rest);
  }

  lemma ReadEscapedCaret(text: string, atoms: seq<ClassAtom>, rest: string)
    requires ReadClassAtoms(text) == Some((atoms, rest))
    ensures ReadClassAtoms("\\^" + text) == Some(([ClassAtom('^', true)] + atoms, rest))
  {
    assert ("\\^" + text)[2..] == text;
  }

  /** A leading `^` is escaped and so stays a member of the class. */
  lemma ReadCaret(content: string, rest: string) returns (atoms: seq<ClassAtom>)
    requires ']' !in content && content != "" && content[0] == '^'
    ensures Spells(atoms, content)
    ensures ReadClassAtoms("\\" + DoubleBackslashes(content) + "]" + rest) == Some((atoms, rest))
  {
    var tail := ReadDoubled(content[1..], rest);
    atoms := [ClassAtom('^', true)] + tail;
    DoubledHead(content);
    var doubled := DoubleBackslashes(content[1..]) + "]" + rest;
    hide DoubleBackslashes, ReadClassAtoms;
    ReadEscapedCaret(doubled, tail, rest);
    assert "\\" + DoubleBackslashes(content) + "]" + rest == "\\^" + doubled;
  }

  lemma LexBracket(text: string, atoms: seq<ClassAtom>, rest: string)
    requires |text| > 1 && text[0] == '['
    requires ReadClassAtoms(text[if text[1] == '^' then 2 else 1..]) == Some((atoms, rest))
    ensures Lex(text) == match ReadRanges(atoms)
                         case None => None
                         case Some(ranges) => Append([AtomToken(Class(text[1] == '^', ranges))], Lex(rest))
  {
  }

  lemma LexEscaped(c: char, rest: string)
    requires rest != ""
    ensures Lex(Escaped(c) + rest) ==
            Append([if c == '*' then StarToken else if c == '?' then QuestionToken else AtomToken(Literal(c))], Lex(rest))
  {
    var text := Escaped(c) + rest;
    assert text[|Escaped(c)|..] == rest;
    assert c in SYNTAX_CHARACTERS <==> c in REGEX_SPECIAL || c == '*' || c == '?';
  }

  lemma LexNotSlash(rest: string)
    requires rest != ""
    ensures Lex("[^/]" + rest) == Append([AtomToken(NOT_SLASH)], Lex(rest))
  {
    var content := "!/";
    assert content[1..] == "/" && "/"[1..] == "";
    assert DoubleBackslashes("/") == "/";
    assert ClassRanges("/") == [Range('/', '/')];
    assert EmitClass(content) == "^/" && ClassItem(content) == OneOf(true, [Range('/', '/')]);
    hide Lex, EmitClass, ClassItem, DoubleBackslashes, ClassRanges;
    LexClass(content, rest);
    assert "[" + "^/" + "]" + rest == "[^/]" + rest;
  }

  lemma LexFragment(pattern: string, rest: string)
    requires pattern != "" && rest != ""
    ensures Lex(Fragment(pattern) + rest) ==
            if InOrder(FirstItem(pattern)) then Append(FirstTokens(pattern), Lex(rest)) else None
  {
    hide Lex, ClassRanges, EmitClass, DoubleBackslashes, RangesInOrder;
    match pattern[0] {
      case '*' =>
        assert "[^/]*" + rest == "[^/]" + ("*" + rest);
        LexNotSlash("*" + rest);
        LexEscaped('*', rest);
        assert Escaped('*') == "*";
        if Lex(rest).Some? {
          assert [AtomToken(NOT_SLASH)] + ([StarToken] + Lex(rest).value) == FirstTokens(pattern) + Lex(rest).value;
        }
      case '?' =>
        LexNotSlash(rest);
      case '[' =>
        match IndexOf(pattern[1..], ']') {
          case None => LexEscaped('[', rest);
          case Some(k) =>
            assert pattern[1..k + 1] == pattern[1..][..k];
            LexClass(pattern[1..k + 1], rest);
        }
      case '\\' =>
        LexEscaped(if |pattern| > 1 then pattern[1] else '\\', rest);
      case c =>
        LexEscaped(c, rest);
    }
  }

  lemma AllInOrderStep(pattern: string)
    requires pattern != ""
    ensures AllInOrder(Items(pattern)) <==> InOrder(FirstItem(pattern)) && AllInOrder(Items(pattern[Width(pattern)..]))
  {
    var items, rest := Items(pattern), Items(pattern[Width(pattern)..]);
    assert items == [FirstItem(pattern)] + rest;
    assert items[0] == FirstItem(pattern);
    hide Items, FirstItem, InOrder, Width;
    assert forall i | 0 <= i < |rest| :: rest[i] == items[i + 1];
    assert forall i | 1 <= i < |items| :: items[i] == rest[i - 1];
  }

  lemma {:induction false} LexEmitted(pattern: string)
    ensures Lex(Emit(pattern) + "$") == if AllInOrder(Items(pattern)) then Some(Tokens(pattern)) else None
  {
    if pattern == "" {
      assert Emit(pattern) + "$" == "$";
    } else {
      var rest := pattern[Width(pattern)..];
      assert Emit(pattern) == Fragment(pattern) + Emit(rest) && Tokens(pattern) == FirstTokens(pattern) + Tokens(rest);
      hide Emit, Tokens, Lex, Fragment, FirstTokens, FirstItem, AllInOrder, Items, InOrder, Width;
      LexEmitted(rest);
      LexFragment(pattern, Emit(rest) + "$");
      AllInOrderStep(pattern);
      assert Emit(pattern) + "$" == Fragment(pattern) + (Emit(rest) + "$");
    }
  }

  lemma CompiledTokens(pattern: string)
    ensures NewRegExp("^" + Emit(pattern) + "$") == if AllInOrder(Items(pattern)) then ReadTerms(Tokens(pattern)) else None
  {
    LexEmitted(pattern);
    hide Lex, Emit, Tokens, Items, ReadTerms, AllInOrder;
    assert ("^" + Emit(pattern) + "$")[1..] == Emit(pattern) + "$";
  }

  // ----- without escaped wildcards: the terms are the items -----

  function TermOf(item: Item): Term {
    Term(AtomOf(item), if item.AnyRun? then Many else Once)
  }

  function Terms(items: seq<Item>): seq<Term> {
    if items == [] then [] else [TermOf(items[0])] + Terms(items[1..])
  }

  lemma {:induction false} TermsOfPattern(pattern: string)
    requires !HasEscapedWildcard(pattern)
    ensures Tokens(pattern) == [] || Tokens(pattern)[0].AtomToken?
    ensures ReadTerms(Tokens(pattern)) == Some(Terms(Items(pattern)))
  {
    if pattern != "" {
      var rest := pattern[Width(pattern)..];
      TermsOfPattern(rest);
      hide Width, FirstItem, HasEscapedWildcard;
      var first := FirstTokens(pattern);
      assert Tokens(pattern)[|first|..] == Tokens(rest);
      assert Items(pattern)[1..] == Items(rest);
    }
  }

  lemma NotSlash(c: char, fold: Fold)
    ensures AtomAccepts(NOT_SLASH, c, fold) <==> fold(c) != fold('/')
  {
    var ranges := NOT_SLASH.ranges;
    assert InRange(ranges[0], c, fold) <==> fold('/') == fold(c);
  }

  lemma SlashFreeStep(name: string, k: nat, fold: Fold)
    requires 1 <= k <= |name|
    ensures SlashFree(name[..k], fold) <==> fold(name[0]) != fold('/') && SlashFree(name[1..][..k - 1], fold)
  {
    var a, b := name[..k], name[1..][..k - 1];
    assert forall i | 0 <= i < |b| :: b[i] == a[i + 1];
    assert forall i | 1 <= i < |a| :: a[i] == b[i - 1];
  }

  lemma {:induction false} ManyMatches(rest: seq<Term>, name: string, fold: Fold)
    ensures Test([Term(NOT_SLASH, Many)] + rest, name, fold) <==>
            exists k | 0 <= k <= |name| :: SlashFree(name[..k], fold) && Test(rest, name[k..], fold)
    decreases |name|
  {
    var terms := [Term(NOT_SLASH, Many)] + rest;
    assert terms[1..] == rest;
    assert name[0..] == name;
    if name != "" {
      NotSlash(name[0], fold);
      ManyMatches(rest, name[1..], fold);
      forall k | 1 <= k <= |name|
        ensures name[k..] == name[1..][k - 1..]
        ensures SlashFree(name[..k], fold) <==> fold(name[0]) != fold('/') && SlashFree(name[1..][..k - 1], fold)
      {
        SlashFreeStep(name, k, fold);
      }
      hide SlashFree;
      if Test(terms, name[1..], fold) && fold(name[0]) != fold('/') {
        var k :| 0 <= k <= |name[1..]| && SlashFree(name[1..][..k], fold) && Test(rest, name[1..][k..], fold);
        assert SlashFree(name[..k + 1], fold) && Test(rest, name[k + 1..], fold);
      }
      if k :| 1 <= k <= |name| && SlashFree(name[..k], fold) && Test(rest, name[k..], fold) {
        assert SlashFree(name[1..][..k - 1], fold) && Test(rest, name[1..][k - 1..], fold);
      }
    }
  }

  lemma {:induction false} TermsMatch(items: seq<Item>, name: string, fold: Fold)
    ensures Test(Terms(items), name, fold) <==> GlobMatches(items, name, fold)
    decreases items
  {
    if items != [] {
      var rest := Terms(items[1..]);
      assert Terms(items)[1..] == rest;
      if items[0].AnyRun? {
        ManyMatches(rest, name, fold);
        forall k | 0 <= k <= |name|
          ensures Test(rest, name[k..], fold) <==> GlobMatches(items[1..], name[k..], fold)
        {
          TermsMatch(items[1..], name[k..], fold);
        }
      } else if name != "" {
        NotSlash(name[0], fold);
        TermsMatch(items[1..], name[1..], fold);
      }
    }
  }

  // ----- with an escaped wildcard: some name is too short for the glob -----

  /** Names the glob denotes have at least this many characters. */
  function Mandatory(items: seq<Item>): nat {
    if items == [] then 0 else (if items[0].AnyRun? then 0 else 1) + Mandatory(items[1..])
  }

  lemma {:induction false} NamesAreLong(items: seq<Item>, name: string, fold: Fold)
    requires GlobMatches(items, name, fold)
    ensures |name| >= Mandatory(items)
    decreases items
  {
    if items != [] {
      if items[0].AnyRun? {
        var k :| 0 <= k <= |name| && GlobMatches(items[1..], name[k..], fold);
        NamesAreLong(items[1..], name[k..], fold);
      } else {
        NamesAreLong(items[1..], name[1..], fold);
      }
    }
  }

  function AtomCount(tokens: seq<Token>): nat {
    if tokens == [] then 0 else (if tokens[0].AtomToken? then 1 else 0) + AtomCount(tokens[1..])
  }

  function StarCount(tokens: seq<Token>): nat {
    if tokens == [] then 0 else (if tokens[0].StarToken? then 1 else 0) + StarCount(tokens[1..])
  }

  function OnceCount(terms: seq<Term>): nat {
    if terms == [] then 0 else (if terms[0].quantifier.Once? then 1 else 0) + OnceCount(terms[1..])
  }

  /** Every star turns an atom of its own into a repeated one. */
  lemma {:induction false} StarsTakeAtoms(tokens: seq<Token>)
    requires ReadTerms(tokens).Some?
    ensures OnceCount(ReadTerms(tokens).value) + StarCount(tokens) <= AtomCount(tokens)
  {
    if tokens != [] {
      var terms := ReadTerms(tokens).value;
      var width := if terms[0].quantifier.Once? then 1 else if |tokens| > 2 && tokens[2].QuestionToken? then 3 else 2;
      StarsTakeAtoms(tokens[width..]);
      assert terms[1..] == ReadTerms(tokens[width..]).value;
      if width >= 2 {
        assert tokens[1..][0] == tokens[1] && tokens[1..][1..] == tokens[2..];
        assert AtomCount(tokens[1..]) == AtomCount(tokens[2..]);
        if width == 3 {
          assert tokens[2..][0] == tokens[2] && tokens[2..][1..] == tokens[3..];
          assert AtomCount(tokens[2..]) == AtomCount(tokens[3..]) && StarCount(tokens[2..]) == StarCount(tokens[3..]);
        }
      }
    }
  }

  lemma {:induction false} CountsConcat(a: seq<Token>, b: seq<Token>)
    ensures AtomCount(a + b) == AtomCount(a) + AtomCount(b)
    ensures StarCount(a + b) == StarCount(a) + StarCount(b)
  {
    if a == [] {
      assert a + b == b;
    } else {
      CountsConcat(a[1..], b);
      assert (a + b)[1..] == a[1..] + b;
    }
  }

  lemma {:induction false} EscapedWildcardsShorten(pattern: string)
    ensures AtomCount(Tokens(pattern)) - StarCount(Tokens(pattern)) <= Mandatory(Items(pattern))
    ensures HasEscapedWildcard(pattern) ==>
      AtomCount(Tokens(pattern)) - StarCount(Tokens(pattern)) < Mandatory(Items(pattern))
  {
    if pattern != "" {
      var first, rest := FirstTokens(pattern), pattern[Width(pattern)..];
      EscapedWildcardsShorten(rest);
      CountsConcat(first, Tokens(rest));
      assert Items(pattern)[1..] == Items(rest);
      assert |first| == 2 ==> first[1..] == [StarToken];
      assert AtomCount(first[1..]) == 0;
    }
  }

  /** Some character other than `/` is accepted by the atom. */
  ghost predicate AtomSatisfiable(atom: Atom, fold: Fold) {
    exists c: char :: c != '/' && AtomAccepts(atom, c, fold)
  }

  ghost predicate AllSatisfiable(items: seq<Item>, fold: Fold) {
    forall i | 0 <= i < |items| :: AtomSatisfiable(AtomOf(items[i]), fold)
  }

  /** Every atom that must match a character can. */
  ghost predicate Alive(terms: seq<Term>, fold: Fold) {
    forall i | 0 <= i < |terms| && terms[i].quantifier.Once? :: AtomSatisfiable(terms[i].atom, fold)
  }

  lemma {:induction false} ShortName(terms: seq<Term>, fold: Fold) returns (name: string)
    requires Alive(terms, fold)
    ensures '/' !in name && Test(terms, name, fold)
    ensures |name| == OnceCount(terms)
  {
    if terms == [] {
      name := "";
    } else {
      name := ShortName(terms[1..], fold);
      if terms[0].quantifier.Once? {
        assert AtomSatisfiable(terms[0].atom, fold);
        var c: char :| c != '/' && AtomAccepts(terms[0].atom, c, fold);
        var longer := [c] + name;
        assert longer[1..] == name;
        name := longer;
      }
    }
  }

  lemma {:induction false} TestedIsAlive(terms: seq<Term>, name: string, fold: Fold)
    requires '/' !in name && Test(terms, name, fold)
    ensures Alive(terms, fold)
    decreases |terms| + |name|
  {
    if terms != [] {
      if terms[0].quantifier.Once? || (!Test(terms[1..], name, fold) && terms[0].quantifier.Optional?) {
        assert name[0] != '/' && AtomAccepts(terms[0].atom, name[0], fold);
        TestedIsAlive(terms[1..], name[1..], fold);
      } else if Test(terms[1..], name, fold) {
        TestedIsAlive(terms[1..], name, fold);
      } else {
        TestedIsAlive(terms, name[1..], fold);
      }
    }
  }

  /** A token that is an atom and is not repeated by a star. */
  predicate IsBareAtom(tokens: seq<Token>, k: nat) {
    k < |tokens| && tokens[k].AtomToken? && (k + 1 < |tokens| ==> !tokens[k + 1].StarToken?)
  }

  lemma {:induction false} OnceIsBare(tokens: seq<Token>, j: nat) returns (k: nat)
    requires ReadTerms(tokens).Some? && j < |ReadTerms(tokens).value| && ReadTerms(tokens).value[j].quantifier.Once?
    ensures IsBareAtom(tokens, k) && tokens[k].atom == ReadTerms(tokens).value[j].atom
  {
    var terms := ReadTerms(tokens).value;
    if j == 0 {
      k := 0;
    } else {
      var width := if terms[0].quantifier.Once? then 1 else if |tokens| > 2 && tokens[2].QuestionToken? then 3 else 2;
      assert terms[1..] == ReadTerms(tokens[width..]).value;
      var k' := OnceIsBare(tokens[width..], j - 1);
      k := width + k';
    }
  }

  lemma {:induction false} BareIsItem(pattern: string, k: nat) returns (i: nat)
    requires IsBareAtom(Tokens(pattern), k)
    ensures i < |Items(pattern)| && !Items(pattern)[i].AnyRun? && AtomOf(Items(pattern)[i]) == Tokens(pattern)[k].atom
  {
    var first, rest := FirstTokens(pattern), pattern[Width(pattern)..];
    assert Tokens(pattern) == first + Tokens(rest);
    assert Items(pattern) == [FirstItem(pattern)] + Items(rest);
    if k < |first| {
      i := 0;
    } else {
      var i' := BareIsItem(rest, k - |first|);
      i := i' + 1;
    }
  }

  lemma {:induction false} DenotedIsSatisfiable(items: seq<Item>, name: string, fold: Fold, i: nat)
    requires '/' !in name && GlobMatches(items, name, fold) && i < |items| && !items[i].AnyRun?
    ensures AtomSatisfiable(AtomOf(items[i]), fold)
    decreases items
  {
    if items[0].AnyRun? {
      var k :| 0 <= k <= |name| && GlobMatches(items[1..], name[k..], fold);
      DenotedIsSatisfiable(items[1..], name[k..], fold, i - 1);
    } else if i == 0 {
      NotSlash(name[0], fold);
      assert name[0] != '/' && AtomAccepts(AtomOf(items[0]), name[0], fold);
    } else {
      DenotedIsSatisfiable(items[1..], name[1..], fold, i - 1);
    }
  }

  /** An expression that can match nothing comes from a segment that denotes nothing. */
  lemma DenotedIsAlive(pattern: string, name: string, fold: Fold)
    requires ReadTerms(Tokens(pattern)).Some? && '/' !in name && GlobMatches(Items(pattern), name, fold)
    ensures Alive(ReadTerms(Tokens(pattern)).value, fold)
  {
    hide ReadTerms, Tokens, Items, GlobMatches, AtomSatisfiable;
    var terms := ReadTerms(Tokens(pattern)).value;
    forall j | 0 <= j < |terms| && terms[j].quantifier.Once? ensures AtomSatisfiable(terms[j].atom, fold) {
      var k := OnceIsBare(Tokens(pattern), j);
      var i := BareIsItem(pattern, k);
      DenotedIsSatisfiable(Items(pattern), name, fold, i);
    }
  }

  // ----- the theorem -----

  /** Compilation succeeds, and the expression accepts exactly the denoted names. */
  ghost predicate MeansTheSame(pattern: string, fold: Fold) {
    var regex := NewRegExp("^" + Emit(pattern) + "$");
    && regex.Some?
    && forall name: string | '/' !in name :: Test(regex.value, name, fold) <==> GlobMatches(Items(pattern), name, fold)
  }

  lemma GlobCompiles(pattern: string, fold: Fold)
    requires !HasEscapedWildcard(pattern) && AllInOrder(Items(pattern))
    ensures MeansTheSame(pattern, fold)
  {
    CompiledTokens(pattern);
    TermsOfPattern(pattern);
    forall name: string
      ensures Test(Terms(Items(pattern)), name, fold) <==> GlobMatches(Items(pattern), name, fold)
    {
      TermsMatch(Items(pattern), name, fold);
    }
  }

  /** With an escaped wildcard the expression accepts a name too short to be denoted, or none at all. */
  lemma EscapedWildcardMeaning(pattern: string, fold: Fold)
    requires HasEscapedWildcard(pattern) && AllInOrder(Items(pattern)) && ReadTerms(Tokens(pattern)).Some?
    ensures MeansTheSame(pattern, fold) <==> !Alive(ReadTerms(Tokens(pattern)).value, fold)
  {
    hide ReadTerms, Tokens, Items, GlobMatches, Test, Alive, Emit, NewRegExp;
    CompiledTokens(pattern);
    var tokens := Tokens(pattern);
    var terms := ReadTerms(tokens).value;
    if Alive(terms, fold) {
      var name := ShortName(terms, fold);
      StarsTakeAtoms(tokens);
      EscapedWildcardsShorten(pattern);
      if GlobMatches(Items(pattern), name, fold) {
        NamesAreLong(Items(pattern), name, fold);
      }
    } else {
      forall name: string | '/' !in name ensures !Test(terms, name, fold) && !GlobMatches(Items(pattern), name, fold) {
        if Test(terms, name, fold) {
          TestedIsAlive(terms, name, fold);
        }
        if GlobMatches(Items(pattern), name, fold) {
          DenotedIsAlive(pattern, name, fold);
        }
      }
    }
  }

  /**
   * For every segment: the compiled expression means what the segment denotes exactly when every
   * range of a class is in order and no wildcard is escaped, or, where one is, when the expression
   * compiles and has a class that no character can match, so that neither side has any name.
   */
  lemma GlobMeaningExactly(pattern: string, fold: Fold)
    ensures MeansTheSame(pattern, fold) <==>
            && AllInOrder(Items(pattern))
            && (HasEscapedWildcard(pattern) ==>
                  ReadTerms(Tokens(pattern)).Some? && !Alive(ReadTerms(Tokens(pattern)).value, fold))
  {
    hide ReadTerms, Tokens, Items, Alive, Emit, NewRegExp, Test, GlobMatches, HasEscapedWildcard;
    CompiledTokens(pattern);
    if AllInOrder(Items(pattern)) {
      if !HasEscapedWildcard(pattern) {
        GlobCompiles(pattern, fold);
      } else if ReadTerms(Tokens(pattern)).Some? {
        EscapedWildcardMeaning(pattern, fold);
      }
    }
  }

  /** So, for segments whose items can all match something, exactly when no wildcard is escaped and ranges are in order. */
  lemma SatisfiableMeaning(pattern: string, fold: Fold)
    requires HasEscapedWildcard(pattern) ==> AllSatisfiable(Items(pattern), fold)
    ensures MeansTheSame(pattern, fold) <==> !HasEscapedWildcard(pattern) && AllInOrder(Items(pattern))
  {
    hide ReadTerms, Tokens, Items, MeansTheSame, HasEscapedWildcard, AtomSatisfiable;
    GlobMeaningExactly(pattern, fold);
    if HasEscapedWildcard(pattern) && ReadTerms(Tokens(pattern)).Some? {
      var terms := ReadTerms(Tokens(pattern)).value;
      forall j | 0 <= j < |terms| && terms[j].quantifier.Once? ensures AtomSatisfiable(terms[j].atom, fold) {
        var k := OnceIsBare(Tokens(pattern), j);
        var i := BareIsItem(pattern, k);
      }
    }
  }

  // ----- when a segment compiles at all -----

  /** A star follows an atom; a question mark follows an atom, or one quantifier of an atom. */
  ghost predicate QuantifiersFit(tokens: seq<Token>) {
    && (forall k | 0 <= k < |tokens| && tokens[k].StarToken? :: k > 0 && tokens[k - 1].AtomToken?)
    && (forall k | 0 <= k < |tokens| && tokens[k].QuestionToken? ::
          k > 0 && (tokens[k - 1].AtomToken? || (k > 1 && tokens[k - 2].AtomToken?)))
  }

  lemma FitsAfter(tokens: seq<Token>, width: nat)
    requires 0 < width < |tokens| && tokens[width].AtomToken?
    ensures QuantifiersFit(tokens) <==> QuantifiersFit(tokens[..width]) && QuantifiersFit(tokens[width..])
  {
    var first, rest := tokens[..width], tokens[width..];
    assert forall k | 0 <= k < width :: first[k] == tokens[k];
    assert forall k | 0 <= k < |rest| :: rest[k] == tokens[width + k];
    assert forall k | width <= k < |tokens| :: tokens[k] == rest[k - width];
  }

  lemma {:induction false} ReadsIfFits(tokens: seq<Token>)
    ensures ReadTerms(tokens).Some? <==> QuantifiersFit(tokens)
  {
    if tokens != [] && tokens[0].AtomToken? {
      var quantified := |tokens| > 1 && !tokens[1].AtomToken?;
      var width := if !quantified then 1 else if |tokens| > 2 && tokens[2].QuestionToken? then 3 else 2;
      ReadsIfFits(tokens[width..]);
      if |tokens| == width {
        assert tokens[width..] == [];
      } else if tokens[width].AtomToken? {
        FitsAfter(tokens, width);
        assert QuantifiersFit(tokens[..width]);
      } else {
        assert !QuantifiersFit(tokens[width..]) by { assert tokens[width..][0] == tokens[width]; }
        assert !QuantifiersFit(tokens);
      }
    }
  }

  /**
   * `globPatternToRegex` does not throw exactly when every class range is in order and the wildcards
   * whose escape was dropped land where the grammar allows a quantifier.
   */
  lemma CompilesExactly(pattern: string)
    ensures NewRegExp("^" + Emit(pattern) + "$").Some? <==> AllInOrder(Items(pattern)) && QuantifiersFit(Tokens(pattern))
  {
    hide NewRegExp, Emit, AllInOrder, Items, Tokens, QuantifiersFit, ReadTerms;
    CompiledTokens(pattern);
    ReadsIfFits(Tokens(pattern));
  }

  /** A class such as `[z-a]` denotes no name, but compiling it throws. */
  lemma RangeOutOfOrder(lo: char, hi: char, fold: Fold)
    requires lo > hi && lo != '!' && lo != ']' && hi != ']'
    ensures var pattern := "[" + [lo, '-', hi] + "]";
            && Items(pattern) == [OneOf(false, [Range(lo, hi)])]
            && NewRegExp("^" + Emit(pattern) + "$") == None && !MeansTheSame(pattern, fold)
  {
    var content := [lo, '-', hi];
    var pattern := "[" + content + "]";
    assert content[3..] == "" && ClassRanges("") == [];
    assert ClassRanges(content) == [Range(lo, hi)];
    assert ClassItem(content) == OneOf(false, [Range(lo, hi)]);
    hide ClassItem, ClassRanges, Items, Emit, NewRegExp;
    BracketedClass(content, "");
    assert "[" + content + "]" + "" == pattern && Items("") == [] by { NoItems(); }
    CompiledTokens(pattern);
    assert Items(pattern)[0].ranges[0] == Range(lo, hi);
    assert !InOrder(Items(pattern)[0]);
  }

  lemma EscapedQuestionMarkRead()
    ensures Items("a\\?") == [Exact('a'), Exact('?')]
    ensures Tokens("a\\?") == [AtomToken(Literal('a')), QuestionToken]
  {
    var pattern := "a\\?";
    assert pattern[1..] == "\\?" && pattern[1..][2..] == "";
    assert Items("") == [] && Tokens("") == [];
    assert Items("\\?") == [Exact('?')] && Tokens("\\?") == [QuestionToken];
  }

  lemma OptionalAccepts(a: char, fold: Fold)
    ensures Test([Term(Literal(a), Optional)], [a], fold)
  {
    var terms := [Term(Literal(a), Optional)];
    assert terms[1..] == [] && [a][1..] == "";
    assert AtomAccepts(Literal(a), [a][0], fold);
  }

  /** The pattern `a\?` compiles to `^a?$`, which accepts `a` and not only `a?`. */
  lemma EscapedQuestionMark(fold: Fold)
    ensures NewRegExp("^" + Emit("a\\?") + "$") == Some([Term(Literal('a'), Optional)])
    ensures Test([Term(Literal('a'), Optional)], "a", fold)
    ensures !GlobMatches(Items("a\\?"), "a", fold)
  {
    var pattern := "a\\?";
    EscapedQuestionMarkRead();
    CompiledTokens(pattern);
    OptionalAccepts('a', fold);
    hide Lex, Items, Tokens, Emit, Test, NewRegExp;
    var items, tokens := [Exact('a'), Exact('?')], [AtomToken(Literal('a')), QuestionToken];
    assert tokens[2..] == [] && ReadTerms([]) == Some([]);
    assert ReadTerms(tokens) == Some([Term(Literal('a'), Optional)] + []);
    assert [Term(Literal('a'), Optional)] + [] == [Term(Literal('a'), Optional)];
    assert AllInOrder(items);
    assert items[1..] == [Exact('?')] && items[1..][1..] == [];
    assert Mandatory(items[1..]) == 1 && Mandatory(items) == 2;
    if GlobMatches(items, "a", fold) {
      NamesAreLong(items, "a", fold);
    }
  }
}
