/**
 * `CliManager`: the registry of command definitions, the tokenizer of command lines, the
 * binder of parsed commands to definitions, and the generators of help text. Each method
 * runs the loops of the C# `CliManager` and is proved to compute the function its `ensures`
 * names; the properties are proved about those functions in `Tokenizer`, `Resolver`,
 * `HelpText`, `Registry` and `Pipeline`.
 */
module Cli {
  import opened Common
  import opened Text
  import opened Parameters
  import opened Models
  import opened Tokenizer
  import opened HelpText
  import opened Resolver
  import opened Registry
  import opened Pipeline

  class CliManager {
    /** `_CommandCollection`, in registration order. */
    var commands: seq<CommandDef>
    /** `CliDescriptionText`; "" where C# starts with null. */
    var description: string
    /** `HelpCommand`; `None` is null. */
    var helpCommand: Option<SinkToken>

    /** What registration keeps: names lower-cased, and no command reachable by the name of a
        later one. */
    ghost predicate Valid()
      reads this
    {
      RegistryInvariant(commands)
    }

    constructor ()
      ensures commands == [] && description == "" && helpCommand == None
      ensures Valid()
    {
      commands := [];
      description := "";
      helpCommand := None;
    }

    // -------------------------------------------------------------- running

    /** The part of `Run(string[], onError)` before the invoke: parse, then build, the first
        exception being what `onError` would receive. */
    method ParseAndBuild(ary: seq<string>) returns (r: Result<CliCommand>)
      ensures r == Dispatch(commands, description, helpCommand, ary)
    {
      var parsed := Parse(ary);
      if parsed.Failure? {
        return Failure(parsed.error);
      }
      r := Build(parsed.value);
    }

    /** The part of `Run(string, onError)` before the invoke. */
    method ParseLineAndBuild(cmdString: string) returns (r: Result<CliCommand>)
      ensures r == DispatchLine(commands, description, helpCommand, cmdString)
    {
      var parsed := ParseLine(cmdString);
      if parsed.Failure? {
        return Failure(parsed.error);
      }
      r := Build(parsed.value);
    }

    // -------------------------------------------------------------- registration

    /** `AddCommandDefinition`: refuses a name or alias already taken and a repeated parameter
        name or alias, and otherwise stores the definition under its lower-cased name. */
    method AddCommandDefinition(def: CommandDef) returns (err: Option<Error>)
      requires Valid()
      modifies this`commands
      ensures Valid()
      ensures err == RegistrationError(old(commands), def)
      ensures err.None? ==> commands == old(commands) + [Registered(def)]
      ensures err.Some? ==> commands == old(commands)
    {
      var commandNames := CommandNames(commands);
      var lowered := Lower(def.name);
      if lowered !in commandNames {
        var paramNames := ParamNames(def.parameters);
        var k := 0;
        while k < |paramNames|
          invariant 0 <= k <= |paramNames|
          invariant RepeatedFrom(paramNames, k) == Repeated(paramNames)
        {
          var pn := paramNames[k];
          if Count(paramNames, pn) > 1 {
            return Some(DuplicateParameter(lowered, pn));
          }
          k := k + 1;
        }
        RegistrationKeepsInvariant(commands, def);
        commands := commands + [Registered(def)];
        err := None;
      } else {
        err := Some(DuplicateCommand(lowered));
      }
    }

    // -------------------------------------------------------------- parsing

    /** `Parse(string[])`. */
    method Parse(ary: seq<string>) returns (r: Result<ParseResult>)
      ensures r == Tokenize(ary)
    {
      var cmdName := "";
      var cmdParams: RawParams := [];
      var readingParam := false;
      var curParamName := "";
      var i := 0;
      while i < |ary|
        invariant 0 <= i <= |ary|
        invariant i == 0 ==> cmdName == "" && cmdParams == [] && !readingParam && curParamName == ""
        invariant i >= 1 ==> cmdName == ary[0] && Lower(ary[0]) != "help"
        invariant i >= 2 ==> RemoveDashes(Lower(ary[1])) != "help"
        invariant i >= 1 ==> Scan(ary[1..i]) == Success(ScanState(cmdParams, readingParam, curParamName))
        invariant DistinctKeys(cmdParams)
      {
        if i == 0 {
          cmdName := ary[i];
          if Lower(cmdName) == "help" {
            TokenizeHelp(ary);
            return Success(ParseResult("help", [], true));
          }
        } else if i == 1 && RemoveDashes(Lower(ary[i])) == "help" {
          TokenizeHelp(ary);
          return Success(ParseResult(cmdName, [], true));
        } else {
          var x := ary[i];
          ScanNext(ary, i);
          var next := ParseToken(cmdParams, readingParam, curParamName, x);
          if next.Failure? {
            TokenizeScans(ary, i + 1);
            return Failure(next.error);
          }
          cmdParams, readingParam, curParamName := next.value.params, next.value.readingParam, next.value.curParamName;
        }
        i := i + 1;
      }
      if |ary| > 0 {
        TokenizeScans(ary, |ary|);
      } else {
        assert Tokenize(ary) == Success(ParseResult("", [], false));
      }
      r := Success(ParseResult(cmdName, cmdParams, false));
    }

    /** The body of `Parse`'s loop for a token after the command name: a bare token is the
        value of a pending name, or else the next positional value; a dash-token first records
        a pending name as a flag, then becomes the pending name without its dashes. An empty
        token fails at `Substring(0, 1)`. */
    method ParseToken(cmdParams: RawParams, readingParam: bool, curParamName: string, x: string)
      returns (r: Result<ScanState>)
      requires DistinctKeys(cmdParams)
      ensures r == Step(ScanState(cmdParams, readingParam, curParamName), x)
    {
      if x == "" {
        return Failure(Fault(ArgumentOutOfRange));
      }
      var params, reading := cmdParams, readingParam;
      if reading && x[0] != '-' {
        params := Put(params, curParamName, x);
        reading := false;
        return Success(ScanState(params, reading, curParamName));
      } else if reading && x[0] == '-' {
        params := Put(params, curParamName, "");
        reading := false;
      }
      if x[0] == '-' {
        reading := true;
        var name := RemoveDashes(x);
        if IsBlank(name) {
          return Failure(UNREADABLE_NAME);
        }
        r := Success(ScanState(params, reading, name));
      } else {
        var o := |params| + 1;
        params := Put(params, NatToString(o), x);
        r := Success(ScanState(params, reading, curParamName));
      }
    }

    /** `Parse(string)`: a blank line is refused, any other is split at every space. */
    method ParseLine(cmdString: string) returns (r: Result<ParseResult>)
      ensures r == TokenizeLine(cmdString)
    {
      if !IsBlank(cmdString) {
        var parts := Split(cmdString, ' ');
        r := Parse(parts);
      } else {
        r := Failure(UNREADABLE_COMMAND);
      }
    }

    // -------------------------------------------------------------- binding

    /** `Build(parseResult)`. */
    method Build(pr: ParseResult) returns (r: Result<CliCommand>)
      ensures r == BuildSpec(commands, description, helpCommand, pr)
    {
      if pr.commandName == "help" {
        r := GenerateHelpCommand();
        return;
      }
      var lookup := FindCommand(commands, Lower(pr.commandName));
      if lookup.Failure? {
        return Failure(lookup.error);
      }
      var cmdDef := lookup.value;
      if pr.help {
        r := GenerateCommandHelpCommand(cmdDef);
        return;
      }
      if cmdDef.Some? {
        var def := cmdDef.value;
        var realParams := BindParameters(def, pr.rawParameters);
        if realParams.Failure? {
          return Failure(realParams.error);
        }
        r := Success(CliCommand(RunCommand(def.command), realParams.value));
      } else {
        r := Failure(Thrown(BuildCliParseException, "Command '" + pr.commandName + "' not found."));
      }
    }

    /** The loop of `Build` over the raw keys of a command that was found: each key goes to
        the first parameter it matches, whose validator must accept the raw value. */
    method BindParameters(def: CommandDef, rawParams: RawParams) returns (r: Result<map<string, string>>)
      ensures r == Resolve(def.parameters, def.name, rawParams)
    {
      var realParams: map<string, string> := map[];
      var j := 0;
      while j < |rawParams|
        invariant 0 <= j <= |rawParams|
        invariant Resolve(def.parameters, def.name, rawParams[..j]) == Success(realParams)
      {
        var k := rawParams[j].0;
        ResolveSnoc(def.parameters, def.name, rawParams[..j], rawParams[j]);
        assert rawParams[..j + 1] == rawParams[..j] + [rawParams[j]];
        var found := FirstMatch(def.parameters, k);
        if found.Some? {
          var cliParam := def.parameters[found.value];
          if !cliParam.Validate(rawParams[j].1) {
            ResolveStopsAtFailure(def.parameters, def.name, rawParams, j + 1);
            return Failure(Thrown(BuildCliParseException, cliParam.ValidatorErrorMessage()));
          }
          realParams := realParams[cliParam.name := rawParams[j].1];
        } else {
          ResolveStopsAtFailure(def.parameters, def.name, rawParams, j + 1);
          return Failure(Thrown(BuildCliParseException, NoParameterMessage(def.name, k)));
        }
        j := j + 1;
      }
      assert rawParams[..j] == rawParams;
      r := Success(realParams);
    }

    // -------------------------------------------------------------- help

    /** `GenerateHelpCommand()`. */
    method GenerateHelpCommand() returns (r: Result<CliCommand>)
      ensures r == GlobalHelpCommand(helpCommand, commands, description)
    {
      if helpCommand.None? {
        return Failure(NO_HELP_SINK);
      }
      var text := GenerateHelpText();
      r := Success(CliCommand(ShowHelp, map["HelpText" := text]));
    }

    /** `GenerateHelpCommand(cmdDef)`; `None` is a null definition. */
    method GenerateCommandHelpCommand(cmdDef: Option<CommandDef>) returns (r: Result<CliCommand>)
      ensures r == CommandHelpCommand(helpCommand, cmdDef)
    {
      if helpCommand.None? {
        return Failure(NO_HELP_SINK);
      }
      var text := GenerateCommandHelpText(cmdDef);
      if text.Failure? {
        return Failure(text.error);
      }
      r := Success(CliCommand(ShowHelp, map["HelpText" := text.value]));
    }

    /** `GenerateHelpText()`: the overview of every registered command. */
    method GenerateHelpText() returns (txt: string)
      ensures txt == GlobalHelpText(commands, description)
    {
      txt := "";
      if !IsBlank(description) {
        txt := txt + ("\nDescription: " + description + "\n\n");
      }
      txt := txt + "Commands:\n";
      assert txt == Header(description) + "Commands:\n";
      txt := AppendCommandLines(txt);
      txt := txt + FOOTER;
    }

    /** The loop of `GenerateHelpText()` over the registered commands: one line per command
        with its dashed parameter names. */
    method AppendCommandLines(start: string) returns (txt: string)
      ensures txt == start + CommandLines(commands)
    {
      txt := start;
      var c := 0;
      while c < |commands|
        invariant 0 <= c <= |commands|
        invariant txt == start + CommandLines(commands[..c])
      {
        var cmd := commands[c];
        var p := "";
        var q := 0;
        while q < |cmd.parameters|
          invariant 0 <= q <= |cmd.parameters|
          invariant p == ParamList(cmd.parameters[..q])
        {
          var s := cmd.parameters[q].name;
          if p == "" {
            p := p + ("-" + s);
          } else {
            p := p + (", -" + s);
          }
          assert cmd.parameters[..q + 1][..q] == cmd.parameters[..q];
          q := q + 1;
        }
        assert cmd.parameters[..q] == cmd.parameters;
        var line := "\n" + cmd.name + " " + p + "\n";
        assert line == CommandLine(cmd);
        txt := txt + line;
        CommandLinesStep(start, commands, c);
        c := c + 1;
      }
      assert commands[..c] == commands;
    }

    /** `GenerateHelpText(cmdDef)`: the page of one command; a null definition is dereferenced. */
    method GenerateCommandHelpText(cmdDef: Option<CommandDef>) returns (r: Result<string>)
      ensures cmdDef.None? ==> r == Failure(Fault(NullReference))
      ensures cmdDef.Some? ==> r == Success(CommandHelpText(cmdDef.value))
    {
      if cmdDef.None? {
        return Failure(Fault(NullReference));
      }
      var def := cmdDef.value;
      var txt := "";
      txt := txt + ("\nCommand: " + def.name + "\n");
      ghost var head := txt;
      assert head == "\nCommand: " + def.name + "\n";
      if |def.aliases| > 0 {
        var a := CommaString(def.aliases);
        txt := txt + ("Aliases: " + a + "\n");
      }
      assert txt == head + AliasLine("Aliases: ", def.aliases);
      ghost var named := txt;
      if !IsBlank(def.description) {
        txt := txt + ("Description: " + def.description + "\n");
      }
      assert txt == named + DescriptionLine("Description: ", def.description);
      ghost var opening := txt;
      if |def.parameters| > 0 {
        txt := txt + "\nParameters:\n";
        txt := AppendParameterSections(txt, def.parameters);
        ConcatAssociates(opening, "\nParameters:\n", ParameterSections(def.parameters));
        assert txt == CommandHelpText(def);
      } else {
        assert txt == opening + "";
      }
      r := Success(txt);
    }

    /** The loop of `GenerateHelpText(cmdDef)` over the parameters, in declared order. */
    method AppendParameterSections(txt: string, ps: seq<CliParameter>) returns (t: string)
      ensures t == txt + ParameterSections(ps)
    {
      t := txt;
      var q := 0;
      while q < |ps|
        invariant 0 <= q <= |ps|
        invariant t == txt + ParameterSections(ps[..q])
      {
        t := AppendParameterSection(t, ps[q]);
        ParameterSectionsStep(txt, ps, q);
        q := q + 1;
      }
      assert ps[..q] == ps;
    }

    /** One pass of the loop of `GenerateHelpText(cmdDef)` over the parameters. */
    method AppendParameterSection(txt: string, param: CliParameter) returns (t: string)
      ensures t == txt + ParameterSection(param)
    {
      t := txt;
      t := t + ("\n\tParameter: " + param.name + "\n");
      t := t + ("\tData Type: " + param.dataType.name + "\n");
      if |param.aliases| > 0 {
        var a := CommaString(param.aliases);
        t := t + ("\tAliases: " + a + "\n");
      }
      if !IsBlank(param.description) {
        t := t + ("\tDescription: " + param.description + "\n");
      }
      AppendFour(txt, "\n\tParameter: " + param.name + "\n", "\tData Type: " + param.dataType.name + "\n",
        AliasLine("\tAliases: ", param.aliases), DescriptionLine("\tDescription: ", param.description));
    }

    /** `CommaString(lst)`. */
    method CommaString(lst: seq<string>) returns (r: string)
      ensures r == CommaJoin(lst)
    {
      r := "";
      var k := 0;
      while k < |lst|
        invariant 0 <= k <= |lst|
        invariant r == CommaJoin(lst[..k])
      {
        var s := lst[k];
        if r == "" {
          r := r + s;
        } else {
          r := r + (", " + s);
        }
        assert lst[..k + 1][..k] == lst[..k];
        k := k + 1;
      }
      assert lst[..k] == lst;
    }
  }

  lemma AppendFour(t: string, a: string, b: string, c: string, d: string)
    ensures t + a + b + c + d == t + (a + b + c + d)
  {
  }
}
