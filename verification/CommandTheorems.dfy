/** A POSIX shell reads the printed command back as what it was printed from. */
module CommandTheorems {
  import opened Sequences
  import opened PosixShell
  import opened RemoteCommand

  function Spelled(s: string, quoted: bool): (letters: seq<Letter>)
    ensures |letters| == |s| && forall i | 0 <= i < |s| :: letters[i] == Letter(s[i], quoted)
  {
    seq(|s|, i requires 0 <= i < |s| => Letter(s[i], quoted))
  }

  /** Letters, digits and the few signs that need no quotes. */
  predicate IsBareChar(c: char) {
    'A' <= c <= 'Z' || 'a' <= c <= 'z' || '0' <= c <= '9'
    || c == '_' || c == '.' || c == '/' || c == ':' || c == '=' || c == '@' || c == '%' || c == '^' || c == ',' || c == '+' || c == '-'
  }

  predicate IsBare(arg: string) {
    arg != "" && forall i | 0 <= i < |arg| :: IsBareChar(arg[i])
  }

  lemma SafeIsBareChar(c: char)
    ensures IsSafeChar(c) <==> IsBareChar(c)
  {
    var signs := "_./:=@%^,+-";
    assert signs[0] == '_' && signs[1] == '.' && signs[2] == '/' && signs[3] == ':' && signs[4] == '=' && signs[5] == '@';
    assert signs[6] == '%' && signs[7] == '^' && signs[8] == ',' && signs[9] == '+' && signs[10] == '-';
  }

  lemma SafeIsBare(arg: string)
    ensures IsSafe(arg) <==> IsBare(arg)
  {
    hide IsSafeChar, IsBareChar;
    forall i | 0 <= i < |arg| ensures IsSafeChar(arg[i]) <==> IsBareChar(arg[i]) {
      SafeIsBareChar(arg[i]);
    }
  }

  lemma {:induction false} EscapingKeepsLength(s: string)
    ensures |EscapeQuotes(s)| >= |s|
  {
    if s != [] {
      EscapingKeepsLength(s[..|s| - 1]);
    }
  }

  /** An argument is printed as it is exactly when it is not empty and holds only such characters. */
  lemma QuotedUnlessBare(arg: string)
    ensures ShellQuote(arg) == arg <==> IsBare(arg)
  {
    hide IsSafe, IsBare, EscapeQuotes;
    SafeIsBare(arg);
    EscapingKeepsLength(arg);
    if arg == "" {
      EmptyIsNotBare();
    }
  }

  lemma EmptyIsNotBare()
    ensures !IsBare("") && ShellQuote("") == "''"
  {
  }

  /** The word an argument is read back as. */
  function ArgWord(arg: string): seq<Letter> { Spelled(arg, !IsBare(arg)) }

  function EntryWord(entry: (string, string)): seq<Letter> {
    Spelled(entry.0 + "=", false) + ArgWord(entry.1)
  }

  function ArgWords(args: seq<string>): (w: seq<seq<Letter>>)
    ensures |w| == |args|
  {
    seq(|args|, i requires 0 <= i < |args| => ArgWord(args[i]))
  }

  function EntryWords(env: seq<(string, string)>): (w: seq<seq<Letter>>)
    ensures |w| == |env|
  {
    seq(|env|, i requires 0 <= i < |env| => EntryWord(env[i]))
  }

  function AsTokens(words: seq<seq<Letter>>): (t: seq<Token>)
    ensures |t| == |words|
  {
    seq(|words|, i requires 0 <= i < |words| => Word(words[i]))
  }

  /** The scanner between two characters of a word. */
  function Reading(sc: Scanner, letters: seq<Letter>): Scanner {
    Scanner(sc.done, Some(Letters(sc.word) + letters), Bare)
  }

  // ----- reading quoted text -----

  lemma SafeIsPlain(c: char)
    requires IsSafeChar(c)
    ensures c !in "\\'\"$` \t#" && !StartsOperator(c)
  {
  }

  lemma StepSafe(sc: Scanner, c: char)
    requires sc.mode == Bare && IsSafeChar(c)
    ensures Step(sc, c) == Keep(sc, c, false, Bare)
  {
    hide IsSafeChar, StartsOperator, Keep;
    SafeIsPlain(c);
    var special := "\\'\"$` \t#";
    assert special[0] == '\\' && special[1] == '\'' && special[2] == '"' && special[3] == '$';
    assert special[4] == '`' && special[5] == ' ' && special[6] == '\t';
  }

  lemma ScanSnoc(sc: Scanner, s: string, c: char)
    ensures Scan(sc, s + [c]) == Step(Scan(sc, s), c)
  {
    assert (s + [c])[..|s|] == s;
  }

  lemma {:induction false} ScanSafe(sc: Scanner, s: string)
    requires sc.mode == Bare && s != [] && forall i | 0 <= i < |s| :: IsSafeChar(s[i])
    ensures Scan(sc, s) == Reading(sc, Spelled(s, false))
  {
    hide Step, IsSafeChar;
    var init, c := s[..|s| - 1], s[|s| - 1];
    if init == [] {
      assert Scan(sc, init) == sc;
      StepSafe(sc, c);
      assert Spelled(s, false) == [Letter(c, false)];
    } else {
      ScanSafe(sc, init);
      StepSafe(Scan(sc, init), c);
      assert Letters(sc.word) + Spelled(s, false) == Letters(sc.word) + Spelled(init, false) + [Letter(c, false)];
    }
  }

  function Inside(sc: Scanner, letters: seq<Letter>): Scanner {
    Scanner(sc.done, Some(Letters(sc.word) + letters), Single)
  }

  lemma StepEscaped(sc: Scanner, c: char)
    requires sc.mode == Single && sc.word.Some?
    ensures Scan(sc, if c == '\'' then "'\"'\"'" else [c]) == Inside(sc, [Letter(c, true)])
  {
    if c == '\'' {
      var s := "'\"'\"'";
      assert s == "" + ['\''] + ['"'] + ['\''] + ['"'] + ['\''];
      ScanSnoc(sc, "", '\'');
      ScanSnoc(sc, "" + ['\''], '"');
      ScanSnoc(sc, "" + ['\''] + ['"'], '\'');
      ScanSnoc(sc, "" + ['\''] + ['"'] + ['\''], '"');
      ScanSnoc(sc, "" + ['\''] + ['"'] + ['\''] + ['"'], '\'');
    } else {
      ScanSnoc(sc, "", c);
      assert "" + [c] == [c];
    }
  }

  lemma {:induction false} ScanEscaped(sc: Scanner, s: string)
    requires sc.mode == Single && sc.word.Some?
    ensures Scan(sc, EscapeQuotes(s)) == Inside(sc, Spelled(s, true))
  {
    hide Step;
    if s == [] {
      assert sc.word.value + Spelled(s, true) == sc.word.value;
    } else {
      var init, c := s[..|s| - 1], s[|s| - 1];
      ScanEscaped(sc, init);
      ScanConcat(sc, EscapeQuotes(init), if c == '\'' then "'\"'\"'" else [c]);
      StepEscaped(Scan(sc, EscapeQuotes(init)), c);
      assert Letters(sc.word) + Spelled(s, true) == Letters(sc.word) + Spelled(init, true) + [Letter(c, true)];
    }
  }

  /** A quoted argument adds exactly its own characters to the word being read. */
  lemma ScanQuoted(sc: Scanner, arg: string)
    requires sc.mode == Bare
    ensures Scan(sc, ShellQuote(arg)) == Reading(sc, ArgWord(arg))
  {
    hide Step, IsSafeChar, Scan, IsBareChar;
    SafeIsBare(arg);
    if IsSafe(arg) {
      ScanSafe(sc, arg);
    } else {
      var begun := Scan(sc, "'");
      OpenQuote(sc);
      ScanEscaped(begun, arg);
      ScanConcat(sc, "'", EscapeQuotes(arg));
      var inside := Scan(sc, "'" + EscapeQuotes(arg));
      ScanConcat(sc, "'" + EscapeQuotes(arg), "'");
      CloseQuote(inside);
      assert ShellQuote(arg) == "'" + EscapeQuotes(arg) + "'";
      assert Letters(sc.word) + [] + Spelled(arg, true) == Letters(sc.word) + ArgWord(arg);
    }
  }

  lemma OpenQuote(sc: Scanner)
    requires sc.mode == Bare
    ensures Scan(sc, "'") == Inside(sc, [])
  {
    ScanSnoc(sc, "", '\'');
    assert "" + ['\''] == "'";
    assert Letters(sc.word) + [] == Letters(sc.word);
  }

  lemma CloseQuote(sc: Scanner)
    requires sc.mode == Single
    ensures Scan(sc, "'") == sc.(mode := Bare)
  {
  }

  // ----- reading words and operators -----

  /** Read from between two words, `part` is the word `letters`, not yet delimited. */
  ghost predicate ReadsAs(part: string, letters: seq<Letter>) {
    forall sc: Scanner | sc.mode == Bare && sc.word == None :: Scan(sc, part) == Scanner(sc.done, Some(letters), Bare)
  }

  lemma ArgReads(arg: string)
    ensures ReadsAs(ShellQuote(arg), ArgWord(arg))
  {
    hide Scan, ShellQuote, ArgWord;
    forall sc: Scanner | sc.mode == Bare && sc.word == None
      ensures Scan(sc, ShellQuote(arg)) == Scanner(sc.done, Some(ArgWord(arg)), Bare)
    {
      ScanQuoted(sc, arg);
      assert [] + ArgWord(arg) == ArgWord(arg);
    }
  }

  lemma EntryReads(entry: (string, string))
    requires IsVariableName(entry.0)
    ensures ReadsAs(Assignment(entry), EntryWord(entry))
  {
    hide Scan, ShellQuote, ArgWord;
    var head := entry.0 + "=";
    forall sc: Scanner | sc.mode == Bare && sc.word == None
      ensures Scan(sc, Assignment(entry)) == Scanner(sc.done, Some(EntryWord(entry)), Bare)
    {
      ScanSafe(sc, head);
      ScanQuoted(Scan(sc, head), entry.1);
      ScanConcat(sc, head, ShellQuote(entry.1));
      assert [] + Spelled(head, false) == Spelled(head, false);
    }
  }

  lemma ScanBlank(sc: Scanner)
    requires sc.mode == Bare
    ensures Scan(sc, " ") == Delimit(sc)
  {
  }

  /** Joined words are read back one by one. */
  lemma {:induction false} ScanJoin(sc: Scanner, parts: seq<string>, words: seq<seq<Letter>>)
    requires sc.mode == Bare && sc.word == None
    requires |parts| == |words| > 0 && forall i | 0 <= i < |parts| :: ReadsAs(parts[i], words[i])
    ensures Scan(sc, Join(parts)) == Scanner(sc.done + AsTokens(words[..|words| - 1]), Some(words[|words| - 1]), Bare)
    decreases |parts|
  {
    hide Scan;
    var n := |parts| - 1;
    if n == 0 {
      assert ReadsAs(parts[0], words[0]);
      assert sc.done + AsTokens(words[..0]) == sc.done;
    } else {
      ScanJoin(sc, parts[..n], words[..n]);
      ScanConcat(sc, Join(parts[..n]), " ");
      ScanConcat(sc, Join(parts[..n]) + " ", parts[n]);
      var before := Scan(sc, Join(parts[..n]));
      ScanBlank(before);
      assert ReadsAs(parts[n], words[n]);
      assert before.done + [Word(words[n - 1])] == sc.done + AsTokens(words[..n]) by {
        assert words[..n][..n - 1] == words[..n - 1];
        assert AsTokens(words[..n]) == AsTokens(words[..n - 1]) + [Word(words[n - 1])];
      }
    }
  }

  lemma ScanAnd(sc: Scanner)
    requires sc.mode == Bare && sc.word.Some?
    ensures Scan(sc, " && ") == Scanner(sc.done + [Word(sc.word.value), Operator("&&")], None, Bare)
  {
    hide Step;
    var s := "" + [' '] + ['&'] + ['&'] + [' '];
    assert s == " && ";
    ScanSnoc(sc, "", ' ');
    ScanSnoc(sc, "" + [' '], '&');
    ScanSnoc(sc, "" + [' '] + ['&'], '&');
    ScanSnoc(sc, "" + [' '] + ['&'] + ['&'], ' ');
    StepAnd(sc);
  }

  lemma StepAnd(sc: Scanner)
    requires sc.mode == Bare && sc.word.Some?
    ensures Step(Step(Step(Step(sc, ' '), '&'), '&'), ' ') == Scanner(sc.done + [Word(sc.word.value), Operator("&&")], None, Bare)
  {
    hide IsLongOperator;
    AndExtends();
    var delimited := Scanner(sc.done + [Word(sc.word.value)], None, Bare);
    assert Step(sc, ' ') == delimited;
    assert Step(delimited, '&') == delimited.(mode := InOperator("&"));
    assert Step(delimited.(mode := InOperator("&")), '&') == delimited.(mode := InOperator("&&"));
  }

  lemma AndExtends()
    ensures ['&'] == "&" && "&" + ['&'] == "&&" && "&&" + [' '] == "&& "
    ensures IsLongOperator("&&") && !IsLongOperator("&& ")
  {
  }

  // ----- the whole command -----

  function CdTokens(cwd: string): seq<Token> {
    if cwd == "" then [] else [Word(Spelled("cd", false)), Word(ArgWord(cwd)), Operator("&&")]
  }

  lemma ScanCd(cwd: string)
    requires cwd != ""
    ensures Scan(Beginning, "cd " + ShellQuote(cwd) + " && ") == Scanner(CdTokens(cwd), None, Bare)
  {
    hide Scan, ShellQuote, ArgWord, IsSafeChar;
    var parts, words := ["cd", ShellQuote(cwd)], [Spelled("cd", false), ArgWord(cwd)];
    assert ReadsAs("cd", Spelled("cd", false)) by {
      ArgReads("cd");
      CdIsSafe();
    }
    ArgReads(cwd);
    ScanJoin(Beginning, parts, words);
    assert Join(parts) == "cd " + ShellQuote(cwd) by {
      assert parts[..1] == ["cd"];
      assert "cd" + " " + ShellQuote(cwd) == "cd " + ShellQuote(cwd);
    }
    ScanAnd(Scan(Beginning, Join(parts)));
    ScanConcat(Beginning, Join(parts), " && ");
    assert AsTokens(words[..1]) == [Word(words[0])];
  }

  lemma CdIsSafe()
    ensures ShellQuote("cd") == "cd" && ArgWord("cd") == Spelled("cd", false)
  {
  }

  /** Assignments and arguments after whatever came before. */
  lemma ScanRest(sc: Scanner, args: seq<string>, env: seq<(string, string)>)
    requires sc.mode == Bare && sc.word == None && AllNamed(env)
    ensures var end := Scan(sc, if env == [] then Join(Quoted(args)) else Join(Assignments(env)) + " " + Join(Quoted(args)));
            end.mode == Bare && Delimit(end).done == sc.done + AsTokens(EntryWords(env)) + AsTokens(ArgWords(args))
  {
    hide Scan, ShellQuote, ArgWord, EntryWord, Assignment, IsVariableName;
    var middle := sc;
    if env != [] {
      forall i | 0 <= i < |env| ensures ReadsAs(Assignments(env)[i], EntryWords(env)[i]) {
        EntryReads(env[i]);
      }
      ScanJoin(sc, Assignments(env), EntryWords(env));
      ScanBlank(Scan(sc, Join(Assignments(env))));
      ScanConcat(sc, Join(Assignments(env)), " ");
      ScanConcat(sc, Join(Assignments(env)) + " ", Join(Quoted(args)));
      middle := Scan(sc, Join(Assignments(env)) + " ");
      AllWords(EntryWords(env));
    }
    assert middle.mode == Bare && middle.word == None;
    assert middle.done == sc.done + AsTokens(EntryWords(env));
    if args == [] {
      NothingRead(middle);
      assert middle.done + AsTokens(ArgWords(args)) == middle.done;
    } else {
      forall i | 0 <= i < |args| ensures ReadsAs(Quoted(args)[i], ArgWords(args)[i]) {
        ArgReads(args[i]);
      }
      ScanJoin(middle, Quoted(args), ArgWords(args));
      AllWords(ArgWords(args));
    }
  }

  lemma NothingRead(sc: Scanner)
    ensures Scan(sc, Join([])) == sc
  {
  }

  lemma AllWords(words: seq<seq<Letter>>)
    requires words != []
    ensures AsTokens(words) == AsTokens(words[..|words| - 1]) + [Word(words[|words| - 1])]
  {
  }

  /**
   * Tokenizing the printed command gives `cd`, the directory and `&&`, then each `KEY=value`, then
   * every argument, each with exactly its own characters.
   */
  lemma TokensOfCommand(args: seq<string>, cwd: string, env: seq<(string, string)>)
    requires AllNamed(env)
    ensures Tokens(Command(args, cwd, env)) == Some(CdTokens(cwd) + AsTokens(EntryWords(env)) + AsTokens(ArgWords(args)))
  {
    hide Scan, ShellQuote, AsTokens, Delimit;
    var rest := if env == [] then Join(Quoted(args)) else Join(Assignments(env)) + " " + Join(Quoted(args));
    if cwd == "" {
      ScanRest(Beginning, args, env);
      assert [] + AsTokens(EntryWords(env)) == AsTokens(EntryWords(env));
    } else {
      ScanCd(cwd);
      ScanRest(Scanner(CdTokens(cwd), None, Bare), args, env);
      ScanConcat(Beginning, "cd " + ShellQuote(cwd) + " && ", rest);
      assert Command(args, cwd, env) == "cd " + ShellQuote(cwd) + " && " + rest;
    }
  }

  /** The characters of those words are the argument, or the key, an equals sign and the value. */
  lemma WordsSpellTheirTexts(arg: string, entry: (string, string))
    ensures Text(ArgWord(arg)) == arg && Text(EntryWord(entry)) == entry.0 + "=" + entry.1
  {
  }

  // ----- what the shell makes of the words -----

  /** An argument printed bare that looks like `NAME=...`. */
  predicate LooksAssigned(arg: string) {
    IsBare(arg) && exists k | 0 <= k < |arg| :: arg[k] == '=' && IsName(arg[..k])
  }

  /** An argument that names a reserved word made of safe characters. */
  predicate IsReservedName(arg: string) {
    arg in ["if", "then", "else", "elif", "fi", "do", "done", "case", "esac", "while", "until", "for", "in"]
  }

  lemma FirstEquals(letters: seq<Letter>, k: nat)
    requires k < |letters| && letters[k] == Letter('=', false)
    requires forall j | 0 <= j < k :: letters[j] != Letter('=', false)
    ensures EqualsFrom(letters, 0) == k
  {
  }

  lemma ArgIsAssignment(arg: string)
    ensures IsAssignment(ArgWord(arg)) <==> LooksAssigned(arg)
  {
    var word := ArgWord(arg);
    var k := EqualsFrom(word, 0);
    if LooksAssigned(arg) {
      var i :| 0 <= i < |arg| && arg[i] == '=' && IsName(arg[..i]);
      assert forall j | 0 <= j < i :: IsNameChar(arg[..i][j]);
      FirstEquals(word, i);
      assert Text(word[..i]) == arg[..i];
    }
    if IsAssignment(word) {
      assert word[k] == Letter(arg[k], !IsBare(arg));
      assert Text(word[..k]) == arg[..k];
    }
  }

  /** The names that are accepted are the names of the shell. */
  lemma NameIsName(key: string)
    ensures IsVariableName(key) <==> IsName(key)
    ensures IsName(key) ==> '=' !in key
  {
    if key != "" {
      assert IsName(key) ==> IsNameChar(key[0]);
      assert IsVariableName(key) ==> forall i | 0 <= i < |key| :: IsNameChar(key[i]);
      assert IsName(key) ==> forall i | 1 <= i < |key| :: IsNameChar(key[i]);
    }
  }

  /** No reserved word holds an equals sign. */
  lemma NotReserved(word: seq<Letter>, k: nat)
    requires k < |word| && word[k].c == '='
    ensures !IsReserved(word)
  {
    hide EqualsFrom;
    assert Text(word)[k] == '=';
  }

  /** A word with an unquoted equals sign behind a name is an assignment and no reserved word. */
  lemma NamedWord(word: seq<Letter>, key: string)
    requires IsName(key) && '=' !in key
    requires |word| > |key| && word[|key|] == Letter('=', false)
    requires forall i | 0 <= i < |key| :: word[i] == Letter(key[i], false)
    ensures IsAssignment(word) && EqualsFrom(word, 0) == |key| && Text(word[..|key|]) == key && !IsReserved(word)
  {
    hide IsName, IsReserved, EqualsFrom;
    FirstEquals(word, |key|);
    NotReserved(word, |key|);
    assert Text(word[..|key|]) == key;
  }

  lemma EntryIsAssignment(entry: (string, string))
    requires IsVariableName(entry.0)
    ensures IsAssignment(EntryWord(entry)) && SplitAssignment(EntryWord(entry)) == entry
    ensures !IsReserved(EntryWord(entry))
  {
    hide IsVariableName, IsName, IsBare, IsReserved, IsAssignment;
    var (key, value) := entry;
    var word := EntryWord(entry);
    NameIsName(key);
    NamedWord(word, key);
    assert Text(word[|key| + 1..]) == value;
  }

  lemma ReservedIsSafe(arg: string)
    requires IsReservedName(arg)
    ensures IsBare(arg)
  {
  }

  lemma ArgIsReserved(arg: string)
    ensures IsReserved(ArgWord(arg)) <==> IsReservedName(arg)
  {
    assert Text(ArgWord(arg)) == arg;
    if IsReservedName(arg) {
      ReservedIsSafe(arg);
    }
    if IsReserved(ArgWord(arg)) {
      assert ArgWord(arg)[0].quoted == !IsBare(arg);
      assert IsBareChar(arg[0]);
    }
  }

  lemma CdIsPlain()
    ensures !IsAssignment(Spelled("cd", false)) && !IsReserved(Spelled("cd", false))
  {
  }

  lemma SimpleArgs(args: seq<string>)
    requires args != [] ==> !LooksAssigned(args[0])
    ensures SimpleFrom(ArgWords(args)) == SimpleCommand([], args)
  {
    hide IsAssignment, ArgWord;
    if args != [] {
      ArgIsAssignment(args[0]);
    }
    forall i | 0 <= i < |args| ensures Text(ArgWords(args)[i]) == args[i] {
      WordsSpellTheirTexts(args[i], ("", ""));
    }
    assert SimpleFrom(ArgWords(args)).argv == args;
  }

  lemma {:induction false} SimpleEntries(env: seq<(string, string)>, words: seq<seq<Letter>>)
    requires AllNamed(env)
    ensures SimpleFrom(EntryWords(env) + words) ==
            SimpleCommand(env + SimpleFrom(words).assignments, SimpleFrom(words).argv)
    decreases |env|
  {
    hide IsAssignment, IsReserved, EntryWord, IsVariableName;
    if env == [] {
      assert EntryWords(env) + words == words;
      assert env + SimpleFrom(words).assignments == SimpleFrom(words).assignments;
    } else {
      EntryIsAssignment(env[0]);
      SimpleEntries(env[1..], words);
      var all := EntryWords(env) + words;
      assert all[0] == EntryWord(env[0]) && all[1..] == EntryWords(env[1..]) + words;
      hide EntryWords;
      assert [env[0]] + (env[1..] + SimpleFrom(words).assignments) == env + SimpleFrom(words).assignments;
    }
  }

  /** A command of a valid environment and at least one argument, as the shell takes it. */
  lemma SimpleRest(args: seq<string>, env: seq<(string, string)>)
    requires AllNamed(env) && args != []
    ensures Simple(EntryWords(env) + ArgWords(args)) == Some(SimpleCommand(env, args))
            <==> !LooksAssigned(args[0]) && (env == [] ==> !IsReservedName(args[0]))
  {
    hide IsAssignment, IsReserved, EntryWord, ArgWord, IsVariableName, LooksAssigned, IsReservedName;
    var words := EntryWords(env) + ArgWords(args);
    SimpleEntries(env, ArgWords(args));
    ArgIsAssignment(args[0]);
    if env == [] {
      ArgIsReserved(args[0]);
      assert words[0] == ArgWord(args[0]);
    } else {
      EntryIsAssignment(env[0]);
      assert words[0] == EntryWord(env[0]);
    }
    if !LooksAssigned(args[0]) {
      SimpleArgs(args);
      assert env + [] == env;
    } else {
      assert |SimpleFrom(ArgWords(args)).assignments| > 0;
      assert |SimpleFrom(words).assignments| > |env|;
    }
  }

  lemma {:induction false} CommandsOfWords(words: seq<seq<Letter>>, before: seq<seq<Letter>>)
    ensures Commands(AsTokens(words), before) ==
            if Simple(before + words).Some? then Some([Simple(before + words).value]) else None
    decreases |words|
  {
    hide Simple;
    if words == [] {
      assert before + words == before;
    } else {
      CommandsOfWords(words[1..], before + [words[0]]);
      assert AsTokens(words)[1..] == AsTokens(words[1..]);
      assert before + [words[0]] + words[1..] == before + words;
    }
  }

  lemma CommandsAfterCd(cwd: string, tokens: seq<Token>)
    requires cwd != ""
    ensures var rest := Commands(tokens, []);
            Commands(CdTokens(cwd) + tokens, []) ==
            if rest.Some? then Some([SimpleCommand([], ["cd", cwd])] + rest.value) else None
  {
    hide IsAssignment, IsReserved, ArgWord, LooksAssigned;
    var cd, dir := Spelled("cd", false), ArgWord(cwd);
    var all := CdTokens(cwd) + tokens;
    assert all[1..][1..] == [Operator("&&")] + tokens && all[1..][0] == Word(dir);
    assert all[1..][1..][1..] == tokens;
    assert [] + [cd] + [dir] == [cd, dir];
    assert Commands(all, []) == Commands(all[1..], [] + [cd]) == Commands(all[1..][1..], [cd, dir]);
    CdIsPlain();
    WordsSpellTheirTexts(cwd, ("", ""));
    assert Text(cd) == "cd";
    assert SimpleFrom([cd, dir]).argv == ["cd", cwd];
  }

  /**
   * The shell changes to the directory and then runs exactly the given arguments under exactly the
   * given assignments, if and only if the first argument is not itself shell syntax printed bare:
   * no `NAME=...` of safe characters and, without assignments, no reserved word.
   */
  lemma CommandMeaningExactly(args: seq<string>, cwd: string, env: seq<(string, string)>)
    requires AllNamed(env) && args != []
    ensures Meaning(Command(args, cwd, env)) ==
            Some((if cwd == "" then [] else [SimpleCommand([], ["cd", cwd])]) + [SimpleCommand(env, args)])
            <==> !LooksAssigned(args[0]) && (env == [] ==> !IsReservedName(args[0]))
  {
    hide Command, Tokens, IsVariableName, LooksAssigned, IsReservedName, ArgWord, EntryWord, Simple, CdTokens;
    TokensOfCommand(args, cwd, env);
    SimpleRest(args, env);
    var words := EntryWords(env) + ArgWords(args);
    CommandsOfWords(words, []);
    assert [] + words == words;
    assert AsTokens(words) == AsTokens(EntryWords(env)) + AsTokens(ArgWords(args));
    assert CdTokens(cwd) + AsTokens(EntryWords(env)) + AsTokens(ArgWords(args)) == CdTokens(cwd) + AsTokens(words);
    hide Commands, EntryWords, ArgWords, AsTokens;
    if cwd == "" {
      NoCd();
      assert [] + AsTokens(words) == AsTokens(words);
      assert [] + [SimpleCommand(env, args)] == [SimpleCommand(env, args)];
    } else {
      CommandsAfterCd(cwd, AsTokens(words));
      if Simple(words).Some? {
        SecondDecides(SimpleCommand([], ["cd", cwd]), Simple(words).value, SimpleCommand(env, args));
      }
    }
  }

  lemma SecondDecides(first: SimpleCommand, a: SimpleCommand, b: SimpleCommand)
    ensures [first] + [a] == [first] + [b] <==> a == b
  {
    assert ([first] + [a])[1] == a && ([first] + [b])[1] == b;
  }

  lemma NoCd()
    ensures CdTokens("") == []
  {
  }

  lemma AssignmentWord(key: string, value: string)
    requires IsBare(key + "=" + value)
    ensures ArgWord(key + "=" + value) == EntryWord((key, value))
  {
    var arg := key + "=" + value;
    assert forall i | 0 <= i < |value| :: value[i] == arg[|key| + 1 + i];
  }

  /** The word between assignments and arguments may be counted with either. */
  lemma WordMoves(env: seq<(string, string)>, entry: (string, string), arg: string, args: seq<string>)
    requires ArgWord(arg) == EntryWord(entry)
    ensures AsTokens(EntryWords(env)) + AsTokens(ArgWords([arg] + args)) == AsTokens(EntryWords(env + [entry])) + AsTokens(ArgWords(args))
  {
    hide ArgWord, EntryWord;
    var words := EntryWords(env) + ([ArgWord(arg)] + ArgWords(args));
    assert ArgWords([arg] + args) == [ArgWord(arg)] + ArgWords(args);
    assert EntryWords(env + [entry]) == EntryWords(env) + [EntryWord(entry)];
    TokensConcat(EntryWords(env), [ArgWord(arg)] + ArgWords(args));
    TokensConcat(EntryWords(env) + [EntryWord(entry)], ArgWords(args));
    assert EntryWords(env) + [EntryWord(entry)] + ArgWords(args) == words;
  }

  lemma TokensConcat(a: seq<seq<Letter>>, b: seq<seq<Letter>>)
    ensures AsTokens(a + b) == AsTokens(a) + AsTokens(b)
  {
  }

  /** Otherwise a bare `NAME=value` argument is taken for one more assignment. */
  lemma BareAssignmentIsTaken(key: string, value: string, args: seq<string>, cwd: string, env: seq<(string, string)>)
    requires AllNamed(env) && IsVariableName(key) && IsBare(key + "=" + value)
    ensures Meaning(Command([key + "=" + value] + args, cwd, env)) == Meaning(Command(args, cwd, env + [(key, value)]))
  {
    hide Command, Tokens, IsVariableName, IsSafeChar, ArgWord, EntryWord, ArgWords, EntryWords, AsTokens, CdTokens;
    var arg, more := key + "=" + value, env + [(key, value)];
    TokensOfCommand([arg] + args, cwd, env);
    TokensOfCommand(args, cwd, more);
    AssignmentWord(key, value);
    WordMoves(env, (key, value), arg, args);
    assert CdTokens(cwd) + AsTokens(EntryWords(env)) + AsTokens(ArgWords([arg] + args))
        == CdTokens(cwd) + (AsTokens(EntryWords(env)) + AsTokens(ArgWords([arg] + args)));
    assert CdTokens(cwd) + AsTokens(EntryWords(more)) + AsTokens(ArgWords(args))
        == CdTokens(cwd) + (AsTokens(EntryWords(more)) + AsTokens(ArgWords(args)));
  }
}
