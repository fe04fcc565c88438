/**
 * The part of the POSIX.1-2017 Shell Command Language needed to read back a generated command:
 * quoting (sections 2.2.1 to 2.2.3), token recognition (2.3), reserved words (2.4) and, of the
 * grammar (2.10), simple commands joined by `&&`.
 */
module PosixShell {
  import opened Sequences

  /** A character of a word, and whether it was quoted. */
  datatype Letter = Letter(c: char, quoted: bool)

  datatype Token = Word(letters: seq<Letter>) | Operator(text: string)

  datatype Mode = Bare | Escape | Single | Double | DoubleEscape | InOperator(text: string) | Comment | Unsupported

  /** Tokens delimited so far, the word being read, and where the reader is. */
  datatype Scanner = Scanner(done: seq<Token>, word: Option<seq<Letter>>, mode: Mode)

  const Beginning := Scanner([], None, Bare)

  predicate StartsOperator(c: char) { c in "&|;()<>\n" }

  predicate IsLongOperator(s: string) {
    s in ["&&", "||", ";;", "<<", ">>", "<&", ">&", "<>", ">|", "<<-"]
  }

  function Letters(word: Option<seq<Letter>>): seq<Letter> {
    if word.Some? then word.value else []
  }

  function Keep(sc: Scanner, c: char, quoted: bool, mode: Mode): Scanner {
    Scanner(sc.done, Some(Letters(sc.word) + [Letter(c, quoted)]), mode)
  }

  /** Ends the word being read, if any. */
  function Delimit(sc: Scanner): Scanner {
    if sc.word.Some? then Scanner(sc.done + [Word(sc.word.value)], None, Bare) else sc.(mode := Bare)
  }

  function StepBare(sc: Scanner, c: char): Scanner {
    if c == '\\' then sc.(mode := Escape)
    else if c == '\'' then Scanner(sc.done, Some(Letters(sc.word)), Single)
    else if c == '"' then Scanner(sc.done, Some(Letters(sc.word)), Double)
    else if c == '$' || c == '`' then sc.(mode := Unsupported)
    else if StartsOperator(c) then Delimit(sc).(mode := InOperator([c]))
    else if c == ' ' || c == '\t' then Delimit(sc)
    else if c == '#' && sc.word.None? then sc.(mode := Comment)
    else Keep(sc, c, false, Bare)
  }

  function Step(sc: Scanner, c: char): Scanner {
    match sc.mode
    case Bare => StepBare(sc, c)
    case Escape => if c == '\n' then sc.(mode := Bare) else Keep(sc, c, true, Bare)
    case Single => if c == '\'' then sc.(mode := Bare) else Keep(sc, c, true, Single)
    case Double =>
      if c == '"' then sc.(mode := Bare)
      else if c == '\\' then sc.(mode := DoubleEscape)
      else if c == '$' || c == '`' then sc.(mode := Unsupported)
      else Keep(sc, c, true, Double)
    case DoubleEscape =>
      if c == '\n' then sc.(mode := Double)
      else if c == '$' || c == '`' || c == '"' || c == '\\' then Keep(sc, c, true, Double)
      else Keep(Keep(sc, '\\', true, Double), c, true, Double)
    case InOperator(text) =>
      if IsLongOperator(text + [c]) then sc.(mode := InOperator(text + [c]))
      else StepBare(Scanner(sc.done + [Operator(text)], None, Bare), c)
    case Comment => if c == '\n' then sc.(mode := InOperator("\n")) else sc
    case Unsupported => sc
  }

  function Scan(sc: Scanner, s: string): Scanner {
    if s == [] then sc else Step(Scan(sc, s[..|s| - 1]), s[|s| - 1])
  }

  /** The tokens of a text; None where a quote is left open or an expansion begins. */
  function Tokens(s: string): Option<seq<Token>> {
    var sc := Scan(Beginning, s);
    match sc.mode
    case Bare => Some(Delimit(sc).done)
    case InOperator(text) => Some(sc.done + [Operator(text)])
    case Comment => Some(sc.done)
    case _ => None
  }

  // ----- simple commands -----

  datatype SimpleCommand = SimpleCommand(assignments: seq<(string, string)>, argv: seq<string>)

  /** Quote removal. */
  function Text(letters: seq<Letter>): (s: string)
    ensures |s| == |letters| && forall i | 0 <= i < |s| :: s[i] == letters[i].c
  {
    seq(|letters|, i requires 0 <= i < |letters| => letters[i].c)
  }

  predicate IsNameStart(c: char) { 'A' <= c <= 'Z' || 'a' <= c <= 'z' || c == '_' }

  predicate IsNameChar(c: char) { IsNameStart(c) || '0' <= c <= '9' }

  predicate IsName(s: string) {
    s != [] && IsNameStart(s[0]) && forall i | 0 <= i < |s| :: IsNameChar(s[i])
  }

  /** The position of the first unquoted equals sign at or after `i`. */
  function EqualsFrom(letters: seq<Letter>, i: nat): (k: nat)
    requires i <= |letters|
    ensures i <= k <= |letters|
    ensures forall j | i <= j < k :: letters[j] != Letter('=', false)
    ensures k < |letters| ==> letters[k] == Letter('=', false)
    decreases |letters| - i
  {
    if i == |letters| || letters[i] == Letter('=', false) then i else EqualsFrom(letters, i + 1)
  }

  /** Rule 7 of section 2.10.2: an unquoted name, an unquoted equals sign, anything. */
  predicate IsAssignment(letters: seq<Letter>) {
    var k := EqualsFrom(letters, 0);
    k < |letters| && IsName(Text(letters[..k])) && forall j | 0 <= j < k :: !letters[j].quoted
  }

  predicate IsReserved(letters: seq<Letter>) {
    && (forall j | 0 <= j < |letters| :: !letters[j].quoted)
    && Text(letters) in ["if", "then", "else", "elif", "fi", "do", "done", "case", "esac", "while", "until", "for", "in", "!", "{", "}"]
  }

  function SplitAssignment(letters: seq<Letter>): (string, string)
    requires IsAssignment(letters)
  {
    var k := EqualsFrom(letters, 0);
    (Text(letters[..k]), Text(letters[k + 1..]))
  }

  /** Leading assignment words are assignments, all later words are arguments. */
  function SimpleFrom(words: seq<seq<Letter>>): SimpleCommand {
    if words != [] && IsAssignment(words[0]) then
      var rest := SimpleFrom(words[1..]);
      rest.(assignments := [SplitAssignment(words[0])] + rest.assignments)
    else SimpleCommand([], seq(|words|, i requires 0 <= i < |words| => Text(words[i])))
  }

  /** None where the words begin another kind of command or are none at all. */
  function Simple(words: seq<seq<Letter>>): Option<SimpleCommand> {
    if words == [] || IsReserved(words[0]) then None else Some(SimpleFrom(words))
  }

  /** Simple commands joined by `&&`; None for any other command. */
  function Commands(tokens: seq<Token>, words: seq<seq<Letter>>): Option<seq<SimpleCommand>>
    decreases |tokens|
  {
    if tokens == [] then
      var last := Simple(words);
      if last.Some? then Some([last.value]) else None
    else if tokens[0].Word? then Commands(tokens[1..], words + [tokens[0].letters])
    else
      var first, rest := Simple(words), Commands(tokens[1..], []);
      if tokens[0].text == "&&" && first.Some? && rest.Some? then Some([first.value] + rest.value) else None
  }

  /** What a shell is asked to do: None where the text is not a list of simple commands. */
  function Meaning(s: string): Option<seq<SimpleCommand>> {
    var tokens := Tokens(s);
    if tokens.Some? then Commands(tokens.value, []) else None
  }

  lemma {:induction false} ScanConcat(sc: Scanner, a: string, b: string)
    ensures Scan(sc, a + b) == Scan(Scan(sc, a), b)
  {
    hide Step;
    if b == [] {
      assert a + b == a;
    } else {
      ScanConcat(sc, a, b[..|b| - 1]);
      assert (a + b)[..|a + b| - 1] == a + b[..|b| - 1];
    }
  }
}
