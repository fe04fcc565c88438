/** The command printer of the SSH back end: quoting, inline assignments and the `cd` prefix. */
module RemoteCommand {
  import opened Sequences

  datatype Result<T> = Ok(value: T) | InvalidName(key: string)

  predicate IsSafeChar(c: char) {
    'A' <= c <= 'Z' || 'a' <= c <= 'z' || '0' <= c <= '9' || c in "_./:=@%^,+-"
  }

  predicate IsSafe(s: string) {
    s != [] && forall i | 0 <= i < |s| :: IsSafeChar(s[i])
  }

  /** `replaceAll` of each single quote by `'"'"'`. */
  function EscapeQuotes(s: string): string {
    if s == [] then ""
    else EscapeQuotes(s[..|s| - 1]) + if s[|s| - 1] == '\'' then "'\"'\"'" else [s[|s| - 1]]
  }

  function ShellQuote(arg: string): string {
    if arg == "" then "''"
    else if IsSafe(arg) then arg
    else "'" + EscapeQuotes(arg) + "'"
  }

  /** `/^[A-Za-z_][A-Za-z0-9_]*$/`. */
  predicate IsVariableName(key: string) {
    && key != ""
    && ('A' <= key[0] <= 'Z' || 'a' <= key[0] <= 'z' || key[0] == '_')
    && forall i | 1 <= i < |key| :: 'A' <= key[i] <= 'Z' || 'a' <= key[i] <= 'z' || '0' <= key[i] <= '9' || key[i] == '_'
  }

  /** `join(' ')`. */
  function Join(parts: seq<string>): string {
    if parts == [] then ""
    else if |parts| == 1 then parts[0]
    else Join(parts[..|parts| - 1]) + " " + parts[|parts| - 1]
  }

  function Quoted(args: seq<string>): (q: seq<string>)
    ensures |q| == |args|
  {
    seq(|args|, i requires 0 <= i < |args| => ShellQuote(args[i]))
  }

  function Assignment(entry: (string, string)): string {
    entry.0 + "=" + ShellQuote(entry.1)
  }

  function Assignments(env: seq<(string, string)>): (q: seq<string>)
    ensures |q| == |env|
  {
    seq(|env|, i requires 0 <= i < |env| => Assignment(env[i]))
  }

  /** The entries of an absent environment are none. */
  function Entries(env: Option<seq<(string, string)>>): seq<(string, string)> {
    if env.Some? then env.value else []
  }

  ghost predicate AllNamed(env: seq<(string, string)>) {
    forall i | 0 <= i < |env| :: IsVariableName(env[i].0)
  }

  /** The printed command when all names are valid. */
  function Command(args: seq<string>, cwd: string, env: seq<(string, string)>): string {
    var plain := Join(Quoted(args));
    var prefixed := if env == [] then plain else Join(Assignments(env)) + " " + plain;
    if cwd == "" then prefixed else "cd " + ShellQuote(cwd) + " && " + prefixed
  }

  /** `_buildExecCommand`; `env` lists the entries of the environment in property order. */
  method BuildExecCommand(args: seq<string>, cwd: string, env: Option<seq<(string, string)>>) returns (r: Result<string>)
    ensures r.Ok? <==> AllNamed(Entries(env))
    ensures r.Ok? ==> r.value == Command(args, cwd, Entries(env))
    ensures r.InvalidName? ==>
              exists k | 0 <= k < |Entries(env)| :: r.key == Entries(env)[k].0 && !IsVariableName(r.key) && AllNamed(Entries(env)[..k])
  {
    var command := Join(Quoted(args));
    if env.Some? {
      var entries := env.value;
      var assignments: seq<string> := [];
      for i := 0 to |entries|
        invariant assignments == Assignments(entries[..i])
        invariant AllNamed(entries[..i])
      {
        var key, value := entries[i].0, entries[i].1;
        if !IsVariableName(key) {
          return InvalidName(key);
        }
        assignments := assignments + [key + "=" + ShellQuote(value)];
      }
      assert entries[..|entries|] == entries;
      if |assignments| > 0 {
        command := Join(assignments) + " " + command;
      }
    }
    if cwd != "" {
      command := "cd " + ShellQuote(cwd) + " && " + command;
    }
    return Ok(command);
  }
}
