/** The argument vectors the supervisor hands to the shell: the wrapper
    that replays captured standard input into the child, and the
    `bash -c` commands of the `become` and `execute` actions with the
    stdin placeholder substituted. */
module Commands {
  import opened Wrappers
  import opened Text

  const Bash := Ascii("bash")
  const DashC := Ascii("-c")
  /** Runs the positional parameters as a command reading the file named
      by `$0`, then removes that file. */
  const ReplayScript := Ascii("\"$@\" <\"$0\"; rm \"$0\"")
  const StdinPlaceholder := Ascii("__stdin_file__")

  /** The child's command when standard input was captured to a file:
      the original command is run by bash with its input redirected from
      that file. */
  function ReplayCommand(stdinFile: Bytes, cmd: seq<Bytes>): (argv: seq<Bytes>)
  {
    [Bash, DashC, ReplayScript, stdinFile] + cmd
  }

  /** The command line of an action: `bash -c <arg>`. */
  function ShellCommand(arg: Bytes): (argv: seq<Bytes>)
  {
    [Bash, DashC, arg]
  }

  /** How `bash -c script [name [params...]]` binds its operands: the
      script, `$0`, and the positional parameters `"$@"`. */
  datatype ShellCall = ShellCall(script: Bytes, dollarZero: Option<Bytes>, params: seq<Bytes>)

  function ShellOperands(argv: seq<Bytes>): Option<ShellCall> {
    if |argv| >= 3 && argv[0] == Bash && argv[1] == DashC then
      Some(ShellCall(argv[2], if |argv| >= 4 then Some(argv[3]) else None, if |argv| >= 4 then argv[4..] else []))
    else None
  }

  /** In the replay wrapper `$0` is the captured file and `"$@"` is the
      original command, every word of it unchanged. */
  lemma ReplayOperands(stdinFile: Bytes, cmd: seq<Bytes>)
    ensures ShellOperands(ReplayCommand(stdinFile, cmd)) == Some(ShellCall(ReplayScript, Some(stdinFile), cmd))
  {
    var argv := ReplayCommand(stdinFile, cmd);
    assert argv[4..] == cmd;
  }

  /** An action's command is the whole script, with no `$0` and no
      parameters. */
  lemma ShellCommandOperands(arg: Bytes)
    ensures ShellOperands(ShellCommand(arg)) == Some(ShellCall(arg, None, []))
  {
  }

  /** Go's nil-pointer dereference when the name of a stdin file that
      was never created is asked for. */
  datatype Fault = NilDereference

  /** The substitution as the program writes it: it asks the captured
      file for its name unconditionally, so it fails when standard input
      was a terminal and no file exists. */
  function SubstituteAsWritten(arg: Bytes, stdinFile: Option<Bytes>): (r: Result<Bytes, Fault>)
    ensures r.Err? <==> stdinFile.None?
  {
    match stdinFile
    case None => Err(NilDereference)
    case Some(name) => Ok(ReplaceAll(arg, StdinPlaceholder, name))
  }

  /** Binding `ctrl-e` to `become(nvim a.json)` and running from a
      terminal: the argument holds no placeholder at all, yet the
      substitution as written fails. */
  lemma AsWrittenFailsWithoutPlaceholder()
    ensures SubstituteAsWritten(Ascii("nvim a.json"), None) == Err(NilDereference)
    ensures forall i | 0 <= i < 11 :: !OccursAt(Ascii("nvim a.json"), StdinPlaceholder, i)
  {
  }

  /** The substitution the rest of the model uses: the placeholder is
      replaced by the file's name when there is a file, and the argument
      is left as it is when there is none. */
  function Substitute(arg: Bytes, stdinFile: Option<Bytes>): (r: Bytes)
    ensures stdinFile.None? ==> r == arg
  {
    match stdinFile
    case None => arg
    case Some(name) => ReplaceAll(arg, StdinPlaceholder, name)
  }

  /** Where the program does not fail, the corrected substitution agrees
      with it. */
  lemma SubstituteAgrees(arg: Bytes, stdinFile: Option<Bytes>)
    ensures SubstituteAsWritten(arg, stdinFile).Ok? ==> SubstituteAsWritten(arg, stdinFile).value == Substitute(arg, stdinFile)
  {
  }

  /** An argument without the placeholder is passed on unchanged. */
  lemma SubstituteAbsent(arg: Bytes, stdinFile: Option<Bytes>)
    requires forall i | 0 <= i < |arg| :: !OccursAt(arg, StdinPlaceholder, i)
    ensures Substitute(arg, stdinFile) == arg
  {
    if stdinFile.Some? {
      ReplaceAllAbsent(arg, StdinPlaceholder, stdinFile.value);
    }
  }

  /** The leftmost placeholder is replaced by the file's name, the text
      before it is kept, and substitution goes on after it. */
  lemma SubstituteFirst(before: Bytes, after: Bytes, name: Bytes)
    requires forall i | 0 <= i < |before| :: !OccursAt(before + StdinPlaceholder + after, StdinPlaceholder, i)
    ensures Substitute(before + StdinPlaceholder + after, Some(name))
         == before + name + Substitute(after, Some(name))
  {
    ReplaceAllAfter(before, StdinPlaceholder, name, after);
  }

  /** `cat __stdin_file__` with the file `/tmp/in` becomes `cat /tmp/in`. */
  lemma SubstituteExample()
    ensures Substitute(Ascii("cat __stdin_file__"), Some(Ascii("/tmp/in"))) == Ascii("cat /tmp/in")
  {
    var before := Ascii("cat ");
    var s := before + StdinPlaceholder + [];
    assert Ascii("cat __stdin_file__") == s;
    forall i | 0 <= i < |before| ensures !OccursAt(s, StdinPlaceholder, i) {
      assert s[i] != StdinPlaceholder[0];
    }
    SubstituteFirst(before, [], Ascii("/tmp/in"));
    assert before + Ascii("/tmp/in") + [] == Ascii("cat /tmp/in");
  }

  /** An underscore before the placeholder does not stop it from being
      replaced: `cat my_file __stdin_file__` becomes `cat my_file /tmp/in`. */
  lemma SubstituteAfterUnderscore()
    ensures Substitute(Ascii("cat my_file __stdin_file__"), Some(Ascii("/tmp/in"))) == Ascii("cat my_file /tmp/in")
  {
    var before := Ascii("cat my_file ");
    var s := before + StdinPlaceholder + [];
    assert Ascii("cat my_file __stdin_file__") == s;
    forall i | 0 <= i < |before| ensures !OccursAt(s, StdinPlaceholder, i) {
      assert s[i] != StdinPlaceholder[0] || s[i + 1] != StdinPlaceholder[1];
    }
    SubstituteFirst(before, [], Ascii("/tmp/in"));
    assert before + Ascii("/tmp/in") + [] == Ascii("cat my_file /tmp/in");
  }
}
