/**
 * `globPatternToRegex`: the regular expression text compiled from a glob segment, read
 * back by the grammar of ECMA-262 section 22.2 and compared with what the segment denotes.
 *
 * Characters are UTF-16 code units, as in a regular expression without the `u` flag: `UnitChar`
 * says which character stands for which unit.
 * `fold` stands for the Canonicalize operation: the identity when the match is case
 * sensitive, the case folding of the `i` flag when it is not.
 */
module GlobPattern {
  import opened Sequences

  /**
   * Surrogates are no characters of Dafny, so units from 0xD800 on are shifted past the gap.  Only
   * equality, order and ASCII matter below, and those are kept.
   */
  function UnitChar(unit: int): char
    requires 0 <= unit < 0x10000
  {
    (if unit < 0xD800 then unit else unit + 0x800) as char
  }

  lemma UnitCharKeepsOrder(a: int, b: int)
    requires 0 <= a < 0x10000 && 0 <= b < 0x10000
    ensures a < b <==> UnitChar(a) < UnitChar(b)
    ensures a < 0x80 ==> UnitChar(a) as int == a
  {
  }

  type Fold = char -> char

  datatype Range = Range(lo: char, hi: char)

  /** Some character of the range is `c` up to folding. */
  ghost predicate InRange(range: Range, c: char, fold: Fold) {
    exists member: char :: range.lo <= member <= range.hi && fold(member) == fold(c)
  }

  ghost predicate InRanges(ranges: seq<Range>, c: char, fold: Fold) {
    exists i :: 0 <= i < |ranges| && InRange(ranges[i], c, fold)
  }

  // ----- what a glob segment denotes -----

  datatype Item = AnyRun | AnyOne | Exact(c: char) | OneOf(negated: bool, ranges: seq<Range>)

  function IndexOf(s: string, c: char): (at: Option<nat>)
    ensures at.Some? ==> at.value < |s| && s[at.value] == c && c !in s[..at.value]
    ensures at.None? ==> c !in s
  {
    if s == "" then None
    else if s[0] == c then Some(0)
    else match IndexOf(s[1..], c)
      case None => None
      case Some(k) => assert s[..k + 1] == [s[0]] + s[1..][..k]; Some(k + 1)
  }

  /** `a-z` is a range, everything else in a class stands for itself. */
  function ClassRanges(body: string): seq<Range> {
    if body == "" then []
    else if |body| >= 3 && body[1] == '-' then [Range(body[0], body[2])] + ClassRanges(body[3..])
    else [Range(body[0], body[0])] + ClassRanges(body[1..])
  }

  function ClassItem(content: string): Item {
    if content != "" && content[0] == '!' then OneOf(true, ClassRanges(content[1..]))
    else OneOf(false, ClassRanges(content))
  }

  /** How many characters of the pattern its first item takes up. */
  function Width(pattern: string): (n: nat)
    requires pattern != ""
    ensures 1 <= n <= |pattern|
  {
    match pattern[0]
    case '[' => (match IndexOf(pattern[1..], ']') case None => 1 case Some(k) => k + 2)
    case '\\' => if |pattern| > 1 then 2 else 1
    case _ => 1
  }

  function FirstItem(pattern: string): Item
    requires pattern != ""
  {
    match pattern[0]
    case '*' => AnyRun
    case '?' => AnyOne
    case '[' => (match IndexOf(pattern[1..], ']') case None => Exact('[') case Some(k) => ClassItem(pattern[1..k + 1]))
    case '\\' => if |pattern| > 1 then Exact(pattern[1]) else Exact('\\')
    case c => Exact(c)
  }

  function Items(pattern: string): seq<Item> {
    if pattern == "" then [] else [FirstItem(pattern)] + Items(pattern[Width(pattern)..])
  }

  ghost predicate ItemAccepts(item: Item, c: char, fold: Fold)
    requires !item.AnyRun?
  {
    match item
    case AnyOne => fold(c) != fold('/')
    case Exact(e) => fold(e) == fold(c)
    case OneOf(negated, ranges) => negated != InRanges(ranges, c, fold)
  }

  ghost predicate SlashFree(s: string, fold: Fold) {
    forall i | 0 <= i < |s| :: fold(s[i]) != fold('/')
  }

  ghost predicate GlobMatches(items: seq<Item>, name: string, fold: Fold)
    decreases items
  {
    if items == [] then name == ""
    else if items[0].AnyRun? then
      exists k | 0 <= k <= |name| :: SlashFree(name[..k], fold) && GlobMatches(items[1..], name[k..], fold)
    else name != "" && ItemAccepts(items[0], name[0], fold) && GlobMatches(items[1..], name[1..], fold)
  }

  // ----- the compiler -----

  const REGEX_SPECIAL: string := "{}()+.\\[]^$|"

  function Escaped(c: char): string {
    if c in REGEX_SPECIAL then ['\\', c] else [c]
  }

  function DoubleBackslashes(s: string): string {
    if s == "" then "" else (if s[0] == '\\' then "\\\\" else [s[0]]) + DoubleBackslashes(s[1..])
  }

  function EmitClass(content: string): string {
    if content != "" && content[0] == '!' then "^" + DoubleBackslashes(content[1..])
    else if content != "" && content[0] == '^' then "\\" + DoubleBackslashes(content)
    else DoubleBackslashes(content)
  }

  /** The text emitted for the first item of a pattern. */
  function Fragment(pattern: string): string
    requires pattern != ""
  {
    match pattern[0]
    case '*' => "[^/]*"
    case '?' => "[^/]"
    case '[' =>
      (match IndexOf(pattern[1..], ']') case None => "\\[" case Some(k) => "[" + EmitClass(pattern[1..k + 1]) + "]")
    case '\\' => if |pattern| > 1 then Escaped(pattern[1]) else "\\\\"
    case c => Escaped(c)
  }

  /** The text emitted for a pattern, without the anchors. */
  function Emit(pattern: string): string {
    if pattern == "" then "" else Fragment(pattern) + Emit(pattern[Width(pattern)..])
  }

  lemma DoubledHead(content: string)
    requires content != ""
    ensures content[0] != '\\' ==> DoubleBackslashes(content) == [content[0]] + DoubleBackslashes(content[1..])
  {
  }

  lemma EmitStep(pattern: string, i: nat)
    requires i < |pattern|
    ensures var rest := pattern[i..];
            Emit(rest) == Fragment(rest) + Emit(pattern[i + Width(rest)..])
  {
    assert pattern[i..][Width(pattern[i..])..] == pattern[i + Width(pattern[i..])..];
  }

  method GlobPatternToRegex(pattern: string) returns (regex: string)
    ensures regex == "^" + Emit(pattern) + "$"
  {
    hide IndexOf, Emit, EmitClass, DoubleBackslashes, Escaped;
    regex := "^";
    var i := 0;
    assert pattern[0..] == pattern;
    EmitNothing();
    while i < |pattern|
      invariant 0 <= i <= |pattern|
      invariant regex + Emit(pattern[i..]) == "^" + Emit(pattern)
    {
      ghost var start, rest := i, pattern[i..];
      EmitStep(pattern, start);
      var ch := pattern[i];
      var text;
      match ch {
        case '*' =>
          text := "[^/]*";
        case '?' =>
          text := "[^/]";
        case '[' =>
          assert rest[1..] == pattern[i + 1..];
          var end := IndexOf(pattern[i + 1..], ']');
          if end.None? {
            text := "\\[";
          } else {
            var charClass := pattern[i + 1..i + 1 + end.value];
            assert rest == pattern[i..|pattern|];
            SliceOfSlice(pattern, i, |pattern|, 1, end.value + 1);
            assert charClass == rest[1..end.value + 1];
            var doubled := EmittedClass(charClass);
            text := "[" + doubled + "]";
            i := i + 1 + end.value;
          }
        case '\\' =>
          if i + 1 < |pattern| {
            assert rest[1] == pattern[i + 1];
            text := Escaped(pattern[i + 1]);
            i := i + 1;
          } else {
            text := "\\\\";
          }
        case _ =>
          text := Escaped(ch);
      }
      assert text == Fragment(rest);
      regex := regex + text;
      i := i + 1;
      assert i == start + Width(rest);
    }
    assert pattern[i..] == "";
    regex := regex + "$";
  }

  lemma EmitNothing()
    ensures Emit("") == ""
  {
  }

  /** The rewriting of a class: backslashes doubled first, then `!` or a leading `^`. */
  method EmittedClass(content: string) returns (charClass: string)
    ensures charClass == EmitClass(content)
  {
    charClass := DoubleBackslashes(content);
    if content != "" {
      DoubledHead(content);
    }
    if charClass != "" && charClass[0] == '!' {
      charClass := "^" + charClass[1..];
    } else if charClass != "" && charClass[0] == '^' {
      charClass := "\\" + charClass;
    }
  }

  // ----- the items of a segment, read off its text -----

  lemma NoItems()
    ensures Items("") == []
  {
  }

  /** A segment is read from the left: what stands for itself, the two wildcards, and what is escaped. */
  lemma ItemsOfText(c: char, rest: string)
    ensures c !in "*?[\\" ==> Items([c] + rest) == [Exact(c)] + Items(rest)
    ensures Items("*" + rest) == [AnyRun] + Items(rest)
    ensures Items("?" + rest) == [AnyOne] + Items(rest)
    ensures Items("\\" + [c] + rest) == [Exact(c)] + Items(rest)
    ensures Items("\\") == [Exact('\\')]
  {
    assert ([c] + rest)[1..] == rest;
    assert ("*" + rest)[1..] == rest && ("?" + rest)[1..] == rest;
    var escaped := "\\" + [c] + rest;
    assert escaped[0] == '\\' && escaped[1] == c && escaped[2..] == rest;
    assert "\\"[1..] == "";
    var special := "*?[\\";
    assert special[0] == '*' && special[1] == '?' && special[2] == '[' && special[3] == '\\';
    hide IndexOf, ClassItem;
  }

  lemma {:induction false} IndexOfFirst(head: string, c: char, rest: string)
    requires c !in head
    ensures IndexOf(head + [c] + rest, c) == Some(|head|)
  {
    if head != "" {
      IndexOfFirst(head[1..], c, rest);
      assert (head + [c] + rest)[1..] == head[1..] + [c] + rest;
    }
  }

  /** A class ends at the first closing bracket. */
  lemma BracketedClass(content: string, rest: string)
    requires ']' !in content
    ensures Items("[" + content + "]" + rest) == [ClassItem(content)] + Items(rest)
  {
    hide ClassItem;
    var pattern := "[" + content + "]" + rest;
    IndexOfFirst(content, ']', rest);
    assert pattern[1..] == content + [']'] + rest;
    assert pattern[1..|content| + 1] == content && pattern[|content| + 2..] == rest;
  }

  /** Without one, the opening bracket stands for itself. */
  lemma UnclosedBracket(rest: string)
    requires ']' !in rest
    ensures Items("[" + rest) == [Exact('[')] + Items(rest)
  {
    assert ("[" + rest)[1..] == rest;
  }

  /** A leading `!` negates, anything else in a class is a range or a character. */
  lemma ItemsOfClass(lo: char, hi: char, rest: string)
    ensures ClassItem("!" + rest) == OneOf(true, ClassRanges(rest))
    ensures ClassItem("") == OneOf(false, []) && (lo != '!' ==> ClassItem([lo] + rest) == OneOf(false, ClassRanges([lo] + rest)))
    ensures ClassRanges([lo, '-', hi] + rest) == [Range(lo, hi)] + ClassRanges(rest)
    ensures |rest| < 2 || rest[0] != '-' ==> ClassRanges([lo] + rest) == [Range(lo, lo)] + ClassRanges(rest)
  {
    assert ("!" + rest)[1..] == rest && ([lo] + rest)[1..] == rest;
    var range := [lo, '-', hi] + rest;
    assert range[0] == lo && range[1] == '-' && range[2] == hi && range[3..] == rest;
  }

  // ----- reading a regular expression: ECMA-262 section 22.2.1, without the u flag -----

  datatype Atom = Literal(c: char) | Class(negated: bool, ranges: seq<Range>)

  datatype Token = AtomToken(atom: Atom) | StarToken | QuestionToken

  /** SyntaxCharacter of ECMA-262; a backslash before one is an IdentityEscape. */
  const SYNTAX_CHARACTERS: string := "^$\\.*+?()[]{}|"

  /** A ClassAtom; an escaped character never is the `-` of a range. */
  datatype ClassAtom = ClassAtom(c: char, escaped: bool)

  function ReadClassAtoms(text: string): Option<(seq<ClassAtom>, string)> {
    if text == "" then None
    else if text[0] == ']' then Some(([], text[1..]))
    else
      var width := if text[0] == '\\' then 2 else 1;
      if |text| < width || (width == 2 && text[1] !in SYNTAX_CHARACTERS) then None
      else match ReadClassAtoms(text[width..])
        case None => None
        case Some((atoms, rest)) => Some(([ClassAtom(text[width - 1], width == 2)] + atoms, rest))
  }

  lemma ReadClassAtomsShrinks(text: string)
    ensures var r := ReadClassAtoms(text); r.Some? ==> |r.value.1| < |text|
  {
  }

  /** NonemptyClassRanges; a range out of order is a SyntaxError. */
  function ReadRanges(atoms: seq<ClassAtom>): Option<seq<Range>> {
    if atoms == [] then Some([])
    else
      var isRange := |atoms| >= 3 && atoms[1] == ClassAtom('-', false);
      var range := Range(atoms[0].c, if isRange then atoms[2].c else atoms[0].c);
      if range.lo > range.hi then None
      else match ReadRanges(atoms[if isRange then 3 else 1..])
        case None => None
        case Some(ranges) => Some([range] + ranges)
  }

  /** The tokens of a regular expression text that ends in `$`, None on a SyntaxError. */
  function Lex(text: string): Option<seq<Token>>
    decreases |text|
  {
    if text == "" then None
    else if text == "$" then Some([])
    else match text[0]
      case '*' => Cons(StarToken, Lex(text[1..]))
      case '?' => Cons(QuestionToken, Lex(text[1..]))
      case '\\' =>
        if |text| < 2 || text[1] !in SYNTAX_CHARACTERS then None
        else Cons(AtomToken(Literal(text[1])), Lex(text[2..]))
      case '[' =>
        var negated := |text| > 1 && text[1] == '^';
        var body := text[if negated then 2 else 1..];
        ReadClassAtomsShrinks(body);
        (match ReadClassAtoms(body)
         case None => None
         case Some((atoms, rest)) =>
           match ReadRanges(atoms)
           case None => None
           case Some(ranges) => Cons(AtomToken(Class(negated, ranges)), Lex(rest)))
      case c => if c in SYNTAX_CHARACTERS then None else Cons(AtomToken(Literal(c)), Lex(text[1..]))
  }

  function Cons(token: Token, tokens: Option<seq<Token>>): Option<seq<Token>> {
    match tokens
    case None => None
    case Some(ts) => Some([token] + ts)
  }

  datatype Quantifier = Once | Optional | Many

  datatype Term = Term(atom: Atom, quantifier: Quantifier)

  /** A quantifier needs an atom before it; a `?` after a quantifier only makes it lazy. */
  function ReadTerms(tokens: seq<Token>): Option<seq<Term>> {
    if tokens == [] then Some([])
    else if !tokens[0].AtomToken? then None
    else
      var quantifier :=
        if |tokens| > 1 && tokens[1].StarToken? then Many
        else if |tokens| > 1 && tokens[1].QuestionToken? then Optional
        else Once;
      var width := if quantifier.Once? then 1 else if |tokens| > 2 && tokens[2].QuestionToken? then 3 else 2;
      match ReadTerms(tokens[width..])
      case None => None
      case Some(terms) => Some([Term(tokens[0].atom, quantifier)] + terms)
  }

  /** `new RegExp(text)` for an anchored text; None where the constructor throws. */
  function NewRegExp(text: string): Option<seq<Term>> {
    if text == "" || text[0] != '^' then None
    else match Lex(text[1..])
      case None => None
      case Some(tokens) => ReadTerms(tokens)
  }

  ghost predicate AtomAccepts(atom: Atom, c: char, fold: Fold) {
    match atom
    case Literal(l) => fold(l) == fold(c)
    case Class(negated, ranges) => negated != InRanges(ranges, c, fold)
  }

  /** `regex.test(name)` for an anchored expression (ECMA-262 section 22.2.2). */
  ghost predicate Test(terms: seq<Term>, name: string, fold: Fold)
    decreases |terms| + |name|
  {
    if terms == [] then name == ""
    else
      var once := name != "" && AtomAccepts(terms[0].atom, name[0], fold);
      match terms[0].quantifier
      case Once => once && Test(terms[1..], name[1..], fold)
      case Optional => Test(terms[1..], name, fold) || (once && Test(terms[1..], name[1..], fold))
      case Many => Test(terms[1..], name, fold) || (once && Test(terms, name[1..], fold))
  }
}
