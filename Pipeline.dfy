/**
 * What `CliManager.Run` does before it invokes anything: parse the input, then build the
 * command, each stage passing on the first error. `CliManager.ParseAndBuild` and
 * `CliManager.ParseLineAndBuild` are proved to compute exactly these.
 */
module Pipeline {
  import opened Common
  import opened Text
  import opened Parameters
  import opened Models
  import opened Tokenizer
  import opened Resolver

  /** `Build(Parse(commandArgs))`. */
  function Dispatch(cmds: seq<CommandDef>, description: string, sink: Option<SinkToken>, ary: seq<string>)
    : Result<CliCommand>
    reads ParamsOf(cmds)
  {
    match Tokenize(ary)
    case Failure(e) => Failure(e)
    case Success(pr) => BuildSpec(cmds, description, sink, pr)
  }

  /** `Build(Parse(commandString))`. */
  function DispatchLine(cmds: seq<CommandDef>, description: string, sink: Option<SinkToken>, cmdString: string)
    : Result<CliCommand>
    reads ParamsOf(cmds)
  {
    match TokenizeLine(cmdString)
    case Failure(e) => Failure(e)
    case Success(pr) => BuildSpec(cmds, description, sink, pr)
  }

  /** A blank line is refused before any command is looked up; any other line is dispatched as
      the pieces between its spaces. */
  lemma DispatchLineSplits(cmds: seq<CommandDef>, description: string, sink: Option<SinkToken>, cmdString: string)
    ensures IsBlank(cmdString) ==> DispatchLine(cmds, description, sink, cmdString) == Failure(UNREADABLE_COMMAND)
    ensures !IsBlank(cmdString) ==>
      DispatchLine(cmds, description, sink, cmdString) == Dispatch(cmds, description, sink, Split(cmdString, ' '))
  {
  }

  // ---------------------------------------------------------------- a worked example

  /** A `greet` command, alias `g`, with one text parameter `name` at ordinal 1. */
  function Greet(p: CliParameter, action: ActionToken): CommandDef {
    CommandDef("greet", ["g"], [p], "Say hello", action)
  }

  /** The `name` parameter: the alias `n`, ordinal 1, the default validator, and a type such
      as `string` whose converter accepts every value. */
  ghost predicate IsNameParameter(p: CliParameter)
    reads p
  {
    p.name == "name" && p.aliases == ["n"] && p.ordinal == 1 && p.validator.DefaultConversion? &&
    p.dataType.converter.Some? && forall v :: p.dataType.converter.value(v)
  }

  lemma LowerGreet()
    ensures Lower("greet") == "greet" && Lower("g") == "g" && Lower("name") == "name" && Lower("n") == "n"
  {
    LowerUnchanged("greet");
    LowerUnchanged("g");
    LowerUnchanged("name");
    LowerUnchanged("n");
  }

  /** The one registered `greet` is what `greet` and `g` look up. */
  lemma GreetIsFound(p: CliParameter, action: ActionToken)
    ensures FindCommand([Greet(p, action)], "greet") == Success(Some(Greet(p, action)))
    ensures FindCommand([Greet(p, action)], "g") == Success(Some(Greet(p, action)))
  {
    assert [Greet(p, action)][1..] == [];
  }

  /** A single raw entry whose key the `name` parameter matches binds `name` to its value. */
  lemma GreetBinds(p: CliParameter, key: string, value: string)
    requires IsNameParameter(p) && ParameterMatches(p, key)
    ensures Resolve([p], "greet", [(key, value)]) == Success(map["name" := value])
  {
    assert Accepted([p], (key, value));
    ResolveSnoc([p], "greet", [], (key, value));
    assert [] + [(key, value)] == [(key, value)];
  }

  /** A command, a dash-token of a lower-case name and a bare value parse to that one named
      entry. */
  lemma NamedTokens(cmd: string, name: string, v: string)
    requires Lower(cmd) != "help"
    requires '-' !in name && name != [] && !IsWhiteSpace(name[0]) && name != "help"
    requires forall i :: 0 <= i < |name| ==> !IsUpper(name[i])
    requires v != "" && v[0] != '-'
    ensures Tokenize([cmd, "-" + name, v]) == Success(ParseResult(cmd, [(name, v)], false))
  {
    GoodDashToken(name);
    OneNamedValue(cmd, "-" + name, v);
  }

  /** The tokens of `g Alice`: one positional entry, keyed "1". */
  lemma GreetByAliasTokens()
    ensures Tokenize(["g", "Alice"]) == Success(ParseResult("g", [("1", "Alice")], false))
  {
    var ary := ["g", "Alice"];
    LowerGreet();
    var lowered := Lower("Alice");
    assert lowered[0] == 'a' && '-' !in lowered && |lowered| == 5;
    RemoveDashesRemovesAll(lowered);
    assert ary[1..] == [] + ["Alice"];
    PositionalToken([], "Alice");
    assert NatToString(1) == "1";
    TokenizeOrdinary(ary);
  }

  /** Building `greet` or `g` with one entry binds the entry's value, or fails as the entry
      does, whatever the sink. */
  lemma GreetBuild(p: CliParameter, action: ActionToken, description: string, sink: Option<SinkToken>,
                   typed: string, entry: (string, string))
    requires typed == "greet" || typed == "g"
    ensures var r := Resolve([p], "greet", [entry]);
      BuildSpec([Greet(p, action)], description, sink, ParseResult(typed, [entry], false)) ==
        if r.Success? then Success(CliCommand(RunCommand(action), r.value)) else Failure(r.error)
  {
    var cmds := [Greet(p, action)];
    LowerGreet();
    assert CommandMatches(cmds[0], Lower(typed));
    BuildRunsCommand(cmds, description, sink, ParseResult(typed, [entry], false), 0);
  }

  /** `greet -name Alice` runs `greet` with `name` bound to `Alice`. */
  lemma GreetByName(p: CliParameter, action: ActionToken, description: string, sink: Option<SinkToken>)
    requires IsNameParameter(p)
    ensures Dispatch([Greet(p, action)], description, sink, ["greet", "-name", "Alice"]) ==
      Success(CliCommand(RunCommand(action), map["name" := "Alice"]))
  {
    LowerGreet();
    assert "name"[0] != "help"[0];
    NamedTokens("greet", "name", "Alice");
    assert "-" + "name" == "-name";
    assert ParameterMatches(p, "name");
    GreetBinds(p, "name", "Alice");
    GreetBuild(p, action, description, sink, "greet", ("name", "Alice"));
  }

  /** `greet -n Alice` runs `greet` the same way, through the parameter's alias. */
  lemma GreetByParameterAlias(p: CliParameter, action: ActionToken, description: string, sink: Option<SinkToken>)
    requires IsNameParameter(p)
    ensures Dispatch([Greet(p, action)], description, sink, ["greet", "-n", "Alice"]) ==
      Success(CliCommand(RunCommand(action), map["name" := "Alice"]))
  {
    LowerGreet();
    assert "n"[0] != "help"[0];
    NamedTokens("greet", "n", "Alice");
    assert "-" + "n" == "-n";
    assert ParameterMatches(p, "n");
    GreetBinds(p, "n", "Alice");
    GreetBuild(p, action, description, sink, "greet", ("n", "Alice"));
  }

  /** `g Alice` runs `greet` too: the positional key "1" is the parameter's ordinal. */
  lemma GreetByAlias(p: CliParameter, action: ActionToken, description: string, sink: Option<SinkToken>)
    requires IsNameParameter(p)
    ensures Dispatch([Greet(p, action)], description, sink, ["g", "Alice"]) ==
      Success(CliCommand(RunCommand(action), map["name" := "Alice"]))
  {
    GreetByAliasTokens();
    assert IntToString(p.ordinal) == "1";
    GreetBinds(p, "1", "Alice");
    GreetBuild(p, action, description, sink, "g", ("1", "Alice"));
  }

  /** Resolving `bogus` against the `name` parameter fails with the missing-parameter message. */
  lemma GreetBogusFails(p: CliParameter)
    requires IsNameParameter(p)
    ensures Resolve([p], "greet", [("bogus", "X")]) ==
      Failure(Thrown(BuildCliParseException, "Command '" + "greet" + "' has no parameter defined '" + "bogus" + "'."))
  {
    LowerGreet();
    LowerUnchanged("bogus");
    assert IntToString(1) == "1";
    assert "bogus" != "n";
    assert !ParameterMatches(p, "bogus");
    assert [p][1..] == [];
    assert FirstMatch([p], "bogus") == None;
    NotNumeric("bogus");
    NamedMessage("greet", "bogus");
    ResolveSnoc([p], "greet", [], ("bogus", "X"));
    assert [] + [("bogus", "X")] == [("bogus", "X")];
  }

  /** `greet -bogus X` fails: no parameter is named, aliased or numbered `bogus`. */
  lemma GreetUnknownParameter(p: CliParameter, action: ActionToken, description: string, sink: Option<SinkToken>)
    requires IsNameParameter(p)
    ensures Dispatch([Greet(p, action)], description, sink, ["greet", "-bogus", "X"]) ==
      Failure(Thrown(BuildCliParseException, "Command '" + "greet" + "' has no parameter defined '" + "bogus" + "'."))
  {
    LowerGreet();
    LowerUnchanged("bogus");
    assert "bogus"[0] != "help"[0];
    NamedTokens("greet", "bogus", "X");
    assert "-" + "bogus" == "-bogus";
    GreetBogusFails(p);
    GreetBuild(p, action, description, sink, "greet", ("bogus", "X"));
  }

  /** The command line of space-free words, the first not starting with white space, is
      dispatched like the words themselves. */
  lemma DispatchWords(cmds: seq<CommandDef>, description: string, sink: Option<SinkToken>, words: seq<string>)
    requires |words| >= 1 && words[0] != "" && !IsWhiteSpace(words[0][0])
    requires forall k :: 0 <= k < |words| ==> ' ' !in words[k]
    ensures DispatchLine(cmds, description, sink, Join(words, " ")) == Dispatch(cmds, description, sink, words)
  {
    var line := Join(words, " ");
    JoinStart(words, " ");
    assert line[0] == words[0][0];
    SplitJoin(words, ' ');
    DispatchLineSplits(cmds, description, sink, line);
  }

  /** The command line `greet -name Alice` is dispatched like its three words. */
  lemma GreetLine(p: CliParameter, action: ActionToken, description: string, sink: Option<SinkToken>)
    requires IsNameParameter(p)
    ensures DispatchLine([Greet(p, action)], description, sink, Join(["greet", "-name", "Alice"], " ")) ==
      Success(CliCommand(RunCommand(action), map["name" := "Alice"]))
  {
    var words := ["greet", "-name", "Alice"];
    assert ' ' !in words[0] && ' ' !in words[1] && ' ' !in words[2];
    DispatchWords([Greet(p, action)], description, sink, words);
    GreetByName(p, action, description, sink);
  }
}
