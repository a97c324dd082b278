/**
 * What `CliManager.Build` computes, as functions: the command lookup, the match of every raw
 * key against the declared parameters, validation, and the help commands. `CliManager.Build`
 * is proved to compute exactly `BuildSpec`.
 */
module Resolver {
  import opened Common
  import opened Text
  import opened Parameters
  import opened Models
  import opened HelpText

  const NO_HELP_SINK: Error := Thrown(NotImplementedException, "A help command has not been defined.")

  // ---------------------------------------------------------------- command lookup

  /** The predicate of the lookup: the stored name, or one of the stored aliases, equals the
      lower-cased input. */
  predicate CommandMatches(c: CommandDef, lowered: string) {
    c.name == lowered || lowered in c.aliases
  }

  /** `Where(...).SingleOrDefault()` over the definitions: no match gives null, one match gives
      that definition, and a second match raises `InvalidOperationException`. */
  function FindCommand(cmds: seq<CommandDef>, lowered: string): (r: Result<Option<CommandDef>>)
    ensures r.Success? && r.value.None? <==>
      forall i :: 0 <= i < |cmds| ==> !CommandMatches(cmds[i], lowered)
    ensures r.Failure? <==>
      exists i, j :: 0 <= i < j < |cmds| && CommandMatches(cmds[i], lowered) && CommandMatches(cmds[j], lowered)
    ensures r.Failure? ==> r.error == Fault(InvalidOperation)
    ensures r.Success? && r.value.Some? ==>
      exists i :: 0 <= i < |cmds| && cmds[i] == r.value.value && CommandMatches(cmds[i], lowered) &&
        forall j :: 0 <= j < |cmds| && j != i ==> !CommandMatches(cmds[j], lowered)
  {
    if cmds == [] then Success(None)
    else
      var tail := cmds[1..];
      assert forall j :: 1 <= j < |cmds| ==> cmds[j] == tail[j - 1];
      match FindCommand(tail, lowered)
      case Failure(e) =>
        assert exists i, j :: 0 <= i < j < |tail| && CommandMatches(tail[i], lowered) && CommandMatches(tail[j], lowered);
        var i, j :| 0 <= i < j < |tail| && CommandMatches(tail[i], lowered) && CommandMatches(tail[j], lowered);
        assert CommandMatches(cmds[i + 1], lowered) && CommandMatches(cmds[j + 1], lowered);
        Failure(e)
      case Success(rest) =>
        if !CommandMatches(cmds[0], lowered) then Success(rest)
        else if rest.Some? then
          var k :| 0 <= k < |tail| && tail[k] == rest.value && CommandMatches(tail[k], lowered);
          assert CommandMatches(cmds[k + 1], lowered);
          Failure(Fault(InvalidOperation))
        else Success(Some(cmds[0]))
  }

  // ---------------------------------------------------------------- parameter lookup

  /** The predicate of the parameter lookup: one disjunction of the lower-cased name, a stored
      alias equal to the lower-cased key, and the ordinal's numeral equal to the key itself. */
  predicate ParameterMatches(p: CliParameter, key: string)
    reads p
  {
    Lower(p.name) == Lower(key) || Lower(key) in p.aliases || IntToString(p.ordinal) == key
  }

  /** `Where(...).FirstOrDefault()` over the declared parameters, as the index of the first
      parameter that matches by any of the three. */
  function FirstMatch(ps: seq<CliParameter>, key: string): (r: Option<nat>)
    reads ps
    ensures r.Some? ==> r.value < |ps|
  {
    if ps == [] then None
    else if ParameterMatches(ps[0], key) then Some(0)
    else
      match FirstMatch(ps[1..], key)
      case None => None
      case Some(i) => Some(i + 1)
  }

  /** The lookup finds nothing exactly when no parameter matches, and otherwise the first
      parameter that does. */
  lemma {:induction false} FirstMatchSpec(ps: seq<CliParameter>, key: string)
    ensures FirstMatch(ps, key).None? <==> forall i :: 0 <= i < |ps| ==> !ParameterMatches(ps[i], key)
    ensures FirstMatch(ps, key).Some? ==> ParameterMatches(ps[FirstMatch(ps, key).value], key)
    ensures FirstMatch(ps, key).Some? ==>
      forall j :: 0 <= j < FirstMatch(ps, key).value ==> !ParameterMatches(ps[j], key)
  {
    if ps != [] && !ParameterMatches(ps[0], key) {
      FirstMatchSpec(ps[1..], key);
      assert forall i :: 1 <= i < |ps| ==> ps[i] == ps[1..][i - 1];
    }
  }

  /** The message for a key that matches no parameter: a key that parses as an `int` is
      reported by its position (spelled "postion"), any other key by itself. */
  function NoParameterMessage(cmdName: string, key: string): string {
    "Command '" + cmdName + "' has no parameter defined " +
    (match TryParseInt32(key)
     case Some(i) => "at postion " + IntToString(i)
     case None => "'" + key + "'") +
    "."
  }

  /** A raw entry that resolves: some parameter matches its key and the first one to match
      accepts its value. */
  predicate Accepted(ps: seq<CliParameter>, entry: (string, string))
    reads ps
  {
    var m := FirstMatch(ps, entry.0);
    m.Some? && ps[m.value].Validate(entry.1)
  }

  /** The declared name of the parameter an accepted entry resolves to. */
  function Target(ps: seq<CliParameter>, entry: (string, string)): string
    reads ps
    requires Accepted(ps, entry)
  {
    ps[FirstMatch(ps, entry.0).value].name
  }

  /** The error a rejected entry raises: the missing parameter, or the matching parameter's
      `ValidatorErrorMessage` as it reads at that moment. */
  function EntryError(ps: seq<CliParameter>, cmdName: string, entry: (string, string)): Error
    reads ps
    requires !Accepted(ps, entry)
  {
    match FirstMatch(ps, entry.0)
    case None => Thrown(BuildCliParseException, NoParameterMessage(cmdName, entry.0))
    case Some(i) => Thrown(BuildCliParseException, ps[i].ValidatorErrorMessage())
  }

  /** One pass of the loop over the raw keys: `realParams[cliParam.Name] = rawParams[k]`. */
  function ResolveEntry(ps: seq<CliParameter>, cmdName: string, bound: map<string, string>, entry: (string, string))
    : Result<map<string, string>>
    reads ps
  {
    if Accepted(ps, entry) then Success(bound[Target(ps, entry) := entry.1])
    else Failure(EntryError(ps, cmdName, entry))
  }

  /** The loop over the raw keys, in enumeration order, stopping at the first error. */
  function Resolve(ps: seq<CliParameter>, cmdName: string, raw: RawParams): Result<map<string, string>>
    reads ps
  {
    if raw == [] then Success(map[])
    else
      match Resolve(ps, cmdName, raw[..|raw| - 1])
      case Failure(e) => Failure(e)
      case Success(bound) => ResolveEntry(ps, cmdName, bound, raw[|raw| - 1])
  }

  lemma ResolveSnoc(ps: seq<CliParameter>, cmdName: string, raw: RawParams, e: (string, string))
    ensures Resolve(ps, cmdName, raw).Failure? ==> Resolve(ps, cmdName, raw + [e]) == Resolve(ps, cmdName, raw)
    ensures Resolve(ps, cmdName, raw).Success? ==>
      Resolve(ps, cmdName, raw + [e]) == ResolveEntry(ps, cmdName, Resolve(ps, cmdName, raw).value, e)
  {
    assert (raw + [e])[..|raw|] == raw;
  }

  /** Once a prefix of the raw entries fails, the whole resolution fails with the same error:
      the loop throws and reads no further. */
  lemma {:induction false} ResolveStopsAtFailure(ps: seq<CliParameter>, cmdName: string, raw: RawParams, n: nat)
    requires n <= |raw| && Resolve(ps, cmdName, raw[..n]).Failure?
    ensures Resolve(ps, cmdName, raw) == Resolve(ps, cmdName, raw[..n])
    decreases |raw|
  {
    if n < |raw| {
      var init := raw[..|raw| - 1];
      assert init[..n] == raw[..n];
      ResolveStopsAtFailure(ps, cmdName, init, n);
    } else {
      assert raw[..n] == raw;
    }
  }

  lemma {:induction false} ResolveFails(ps: seq<CliParameter>, cmdName: string, raw: RawParams)
    ensures Resolve(ps, cmdName, raw).Failure? <==> exists i :: 0 <= i < |raw| && !Accepted(ps, raw[i])
    ensures Resolve(ps, cmdName, raw).Failure? ==>
      exists i :: 0 <= i < |raw| && !Accepted(ps, raw[i]) &&
        (forall j :: 0 <= j < i ==> Accepted(ps, raw[j])) &&
        Resolve(ps, cmdName, raw).error == EntryError(ps, cmdName, raw[i])
  {
    if raw != [] {
      var init, last := raw[..|raw| - 1], raw[|raw| - 1];
      assert raw == init + [last];
      ResolveFails(ps, cmdName, init);
      ResolveSnoc(ps, cmdName, init, last);
      assert forall i :: 0 <= i < |init| ==> init[i] == raw[i];
    }
  }

  /** The map the writes `m[name] = value` build, in order, from an empty map. */
  function MapOf(pairs: seq<(string, string)>): map<string, string> {
    if pairs == [] then map[]
    else MapOf(pairs[..|pairs| - 1])[pairs[|pairs| - 1].0 := pairs[|pairs| - 1].1]
  }

  /** Write `j` of `pairs` is to `name`, its value is what the map holds, and no later write is
      to `name`. */
  predicate LastWrite(pairs: seq<(string, string)>, name: string, j: int) {
    0 <= j < |pairs| && pairs[j].0 == name && name in MapOf(pairs) && MapOf(pairs)[name] == pairs[j].1 &&
    forall k :: j < k < |pairs| ==> pairs[k].0 != name
  }

  /** Every name written is a key, and each key holds the value of the last write to it. */
  lemma {:induction false} MapOfLastWrite(pairs: seq<(string, string)>)
    ensures forall j :: 0 <= j < |pairs| ==> pairs[j].0 in MapOf(pairs)
    ensures forall name :: name in MapOf(pairs) ==> exists j :: LastWrite(pairs, name, j)
  {
    if pairs != [] {
      var init, last := pairs[..|pairs| - 1], pairs[|pairs| - 1];
      MapOfLastWrite(init);
      var m := MapOf(pairs);
      assert forall j :: 0 <= j < |init| ==> init[j] == pairs[j];
      forall name | name in m
        ensures exists j :: LastWrite(pairs, name, j)
      {
        if name == last.0 {
          assert LastWrite(pairs, name, |pairs| - 1);
        } else {
          var j :| LastWrite(init, name, j);
          assert LastWrite(pairs, name, j);
        }
      }
    }
  }

  /** The writes of a resolution whose entries are all accepted: each entry's target name and
      raw value. */
  function Bindings(ps: seq<CliParameter>, raw: RawParams): (r: seq<(string, string)>)
    reads ps
    requires forall k :: 0 <= k < |raw| ==> Accepted(ps, raw[k])
    ensures |r| == |raw|
  {
    if raw == [] then []
    else Bindings(ps, raw[..|raw| - 1]) + [(Target(ps, raw[|raw| - 1]), raw[|raw| - 1].1)]
  }

  lemma {:induction false} BindingsAt(ps: seq<CliParameter>, raw: RawParams)
    requires forall k :: 0 <= k < |raw| ==> Accepted(ps, raw[k])
    ensures forall k :: 0 <= k < |raw| ==> Bindings(ps, raw)[k] == (Target(ps, raw[k]), raw[k].1)
  {
    if raw != [] {
      var init := raw[..|raw| - 1];
      assert forall k :: 0 <= k < |init| ==> init[k] == raw[k];
      BindingsAt(ps, init);
    }
  }

  /** A resolution whose entries are all accepted succeeds with the map its writes build. */
  lemma {:induction false} ResolveBuildsMap(ps: seq<CliParameter>, cmdName: string, raw: RawParams)
    requires forall k :: 0 <= k < |raw| ==> Accepted(ps, raw[k])
    ensures Resolve(ps, cmdName, raw) == Success(MapOf(Bindings(ps, raw)))
  {
    if raw != [] {
      var init, last := raw[..|raw| - 1], raw[|raw| - 1];
      assert raw == init + [last];
      assert forall k :: 0 <= k < |init| ==> init[k] == raw[k];
      ResolveBuildsMap(ps, cmdName, init);
      ResolveSnoc(ps, cmdName, init, last);
      var b := Bindings(ps, raw);
      assert b[..|b| - 1] == Bindings(ps, init);
    }
  }

  /** A successful resolution accepted every raw entry; it holds an entry for the parameter of
      every raw key, under the parameter's declared name; and each value is the raw string of
      the last key that resolved to that name. */
  lemma ResolveSucceeds(ps: seq<CliParameter>, cmdName: string, raw: RawParams)
    requires Resolve(ps, cmdName, raw).Success?
    ensures forall j :: 0 <= j < |raw| ==> Accepted(ps, raw[j])
    ensures var bound := Resolve(ps, cmdName, raw).value;
      forall j :: 0 <= j < |raw| ==> Target(ps, raw[j]) in bound
    ensures var bound := Resolve(ps, cmdName, raw).value;
      forall name :: name in bound ==>
        exists j :: (0 <= j < |raw| && Target(ps, raw[j]) == name && bound[name] == raw[j].1 &&
          (forall k :: j < k < |raw| ==> Target(ps, raw[k]) != name))
  {
    ResolveFails(ps, cmdName, raw);
    ResolveBuildsMap(ps, cmdName, raw);
    var pairs := Bindings(ps, raw);
    BindingsAt(ps, raw);
    MapOfLastWrite(pairs);
    var bound := Resolve(ps, cmdName, raw).value;
    forall name | name in bound
      ensures exists j :: (0 <= j < |raw| && Target(ps, raw[j]) == name && bound[name] == raw[j].1 &&
        (forall k :: j < k < |raw| ==> Target(ps, raw[k]) != name))
    {
      var j :| LastWrite(pairs, name, j);
      assert forall k :: j < k < |raw| ==> Target(ps, raw[k]) == pairs[k].0;
    }
  }

  /** Every key of a successful resolution is the declared name of one of the parameters. */
  lemma ResolvedNamesAreDeclared(ps: seq<CliParameter>, cmdName: string, raw: RawParams)
    requires Resolve(ps, cmdName, raw).Success?
    ensures forall name :: name in Resolve(ps, cmdName, raw).value ==>
      exists i :: 0 <= i < |ps| && ps[i].name == name
  {
    ResolveSucceeds(ps, cmdName, raw);
    var bound := Resolve(ps, cmdName, raw).value;
    forall name | name in bound
      ensures exists i :: 0 <= i < |ps| && ps[i].name == name
    {
      var j :| 0 <= j < |raw| && Target(ps, raw[j]) == name && bound[name] == raw[j].1 &&
        (forall k :: j < k < |raw| ==> Target(ps, raw[k]) != name);
      var i := FirstMatch(ps, raw[j].0).value;
      assert ps[i].name == name;
    }
  }

  /** The three ways of matching are one disjunction: a parameter declared earlier wins by any of
      them, so an ordinal match can hide a later parameter whose name is the key. */
  lemma EarlierMatchWins(ps: seq<CliParameter>, key: string, i: nat, j: nat)
    requires i < j < |ps|
    requires IntToString(ps[i].ordinal) == key
    requires Lower(ps[j].name) == Lower(key)
    ensures FirstMatch(ps, key).Some? && FirstMatch(ps, key).value <= i
    ensures FirstMatch(ps, key) != Some(j)
  {
    assert ParameterMatches(ps[i], key);
    FirstMatchSpec(ps, key);
  }

  /** A key that parses as an `int` is reported by the parsed value. */
  lemma NumericMessage(cmdName: string, key: string, i: int32)
    requires TryParseInt32(key) == Some(i)
    ensures NoParameterMessage(cmdName, key) ==
      "Command '" + cmdName + "' has no parameter defined at postion " + IntToString(i) + "."
  {
  }

  /** A positional key, the numeral of a number, is reported by that same numeral. */
  lemma PositionalMessage(cmdName: string, n: nat)
    requires n <= INT32_MAX
    ensures NoParameterMessage(cmdName, NatToString(n)) ==
      "Command '" + cmdName + "' has no parameter defined at postion " + NatToString(n) + "."
  {
    IntToStringRoundTrip(n);
    assert TryParseInt32(NatToString(n)) == Some(n);
    NumericMessage(cmdName, NatToString(n), n);
  }

  /** Any key that does not parse as an `int` is quoted in the message. */
  lemma NamedMessage(cmdName: string, key: string)
    requires TryParseInt32(key).None?
    ensures NoParameterMessage(cmdName, key) ==
      "Command '" + cmdName + "' has no parameter defined '" + key + "'."
  {
  }

  // ---------------------------------------------------------------- Build

  /** `GenerateHelpCommand()`: the sink's guard, then the overview under the single key
      `HelpText`. */
  function GlobalHelpCommand(sink: Option<SinkToken>, cmds: seq<CommandDef>, description: string): Result<CliCommand>
    reads ParamsOf(cmds)
  {
    if sink.None? then Failure(NO_HELP_SINK)
    else Success(CliCommand(ShowHelp, map["HelpText" := GlobalHelpText(cmds, description)]))
  }

  /** `GenerateHelpCommand(cmdDef)`: the sink's guard, then the page of the command; for a
      command that does not exist, writing the page dereferences null. */
  function CommandHelpCommand(sink: Option<SinkToken>, cmdDef: Option<CommandDef>): Result<CliCommand>
    reads if cmdDef.Some? then set i | 0 <= i < |cmdDef.value.parameters| :: cmdDef.value.parameters[i] else {}
  {
    if sink.None? then Failure(NO_HELP_SINK)
    else if cmdDef.None? then Failure(Fault(NullReference))
    else Success(CliCommand(ShowHelp, map["HelpText" := CommandHelpText(cmdDef.value)]))
  }

  /** `Build(parseResult)` against the registered commands, the description and the help sink. */
  function BuildSpec(cmds: seq<CommandDef>, description: string, sink: Option<SinkToken>, pr: ParseResult)
    : Result<CliCommand>
    reads ParamsOf(cmds)
  {
    if pr.commandName == "help" then GlobalHelpCommand(sink, cmds, description)
    else
      match FindCommand(cmds, Lower(pr.commandName))
      case Failure(e) => Failure(e)
      case Success(None) =>
        if pr.help then CommandHelpCommand(sink, None)
        else Failure(Thrown(BuildCliParseException, "Command '" + pr.commandName + "' not found."))
      case Success(Some(def)) =>
        ParamsOfContains(cmds, def);
        if pr.help then CommandHelpCommand(sink, Some(def))
        else
          match Resolve(def.parameters, def.name, pr.rawParameters)
          case Failure(e) => Failure(e)
          case Success(bound) => Success(CliCommand(RunCommand(def.command), bound))
  }

  /** The name `help` always gets the overview, whatever commands are registered, a command
      named `help` among them; with no sink it is an error. */
  lemma HelpShadowsCommands(cmds: seq<CommandDef>, description: string, sink: Option<SinkToken>, pr: ParseResult)
    requires pr.commandName == "help"
    ensures sink.None? ==> BuildSpec(cmds, description, sink, pr) == Failure(NO_HELP_SINK)
    ensures sink.Some? ==>
      BuildSpec(cmds, description, sink, pr) ==
        Success(CliCommand(ShowHelp, map["HelpText" := GlobalHelpText(cmds, description)]))
  {
  }

  /** A help request for a command works without a sink in neither case: the guard comes before
      the page, and before the command's existence matters. */
  lemma CommandHelpNeedsSink(cmds: seq<CommandDef>, description: string, pr: ParseResult)
    requires pr.commandName != "help" && pr.help
    requires FindCommand(cmds, Lower(pr.commandName)).Success?
    ensures BuildSpec(cmds, description, None, pr) == Failure(NO_HELP_SINK)
  {
  }

  /** `unknown -help` with a sink dereferences the missing definition. */
  lemma UnknownHelpFaults(cmds: seq<CommandDef>, description: string, sink: SinkToken, pr: ParseResult)
    requires pr.commandName != "help" && pr.help
    requires forall i :: 0 <= i < |cmds| ==> !CommandMatches(cmds[i], Lower(pr.commandName))
    ensures BuildSpec(cmds, description, Some(sink), pr) == Failure(Fault(NullReference))
  {
  }

  /** The help commands hand over exactly one parameter, `HelpText`, and invoke the sink. */
  lemma HelpCommandParameters(cmds: seq<CommandDef>, description: string, sink: Option<SinkToken>, pr: ParseResult)
    requires pr.commandName == "help" || pr.help
    requires BuildSpec(cmds, description, sink, pr).Success?
    ensures BuildSpec(cmds, description, sink, pr).value.invoke == ShowHelp
    ensures BuildSpec(cmds, description, sink, pr).value.parameters.Keys == {"HelpText"}
  {
    if pr.commandName != "help" {
      var found := FindCommand(cmds, Lower(pr.commandName));
      if found.value.Some? {
        ParamsOfContains(cmds, found.value.value);
      }
    }
  }

  /** A command that is neither `help` nor registered is reported by the name as typed. */
  lemma CommandNotFound(cmds: seq<CommandDef>, description: string, sink: Option<SinkToken>, pr: ParseResult)
    requires pr.commandName != "help" && !pr.help
    requires forall i :: 0 <= i < |cmds| ==> !CommandMatches(cmds[i], Lower(pr.commandName))
    ensures BuildSpec(cmds, description, sink, pr) ==
      Failure(Thrown(BuildCliParseException, "Command '" + pr.commandName + "' not found."))
  {
  }

  /** An ordinary request for the one matching command runs that command's action with its
      resolved parameters, or fails as their resolution does; the sink does not matter. */
  lemma BuildRunsCommand(cmds: seq<CommandDef>, description: string, sink: Option<SinkToken>, pr: ParseResult, i: nat)
    requires pr.commandName != "help" && !pr.help
    requires i < |cmds| && CommandMatches(cmds[i], Lower(pr.commandName))
    requires forall j :: 0 <= j < |cmds| && j != i ==> !CommandMatches(cmds[j], Lower(pr.commandName))
    ensures var r := Resolve(cmds[i].parameters, cmds[i].name, pr.rawParameters);
      BuildSpec(cmds, description, sink, pr) ==
        if r.Success? then Success(CliCommand(RunCommand(cmds[i].command), r.value)) else Failure(r.error)
  {
    var found := FindCommand(cmds, Lower(pr.commandName));
    assert found.Success? && found.value.Some?;
    var k :| 0 <= k < |cmds| && cmds[k] == found.value.value && CommandMatches(cmds[k], Lower(pr.commandName)) &&
      forall j :: 0 <= j < |cmds| && j != k ==> !CommandMatches(cmds[j], Lower(pr.commandName));
    assert k == i;
    ParamsOfContains(cmds, cmds[i]);
  }

  /** Two definitions that both match the input make every request for it fault, help requests
      included; only the name `help` escapes. */
  lemma AmbiguousCommandFaults(cmds: seq<CommandDef>, description: string, sink: Option<SinkToken>, pr: ParseResult, i: nat, j: nat)
    requires pr.commandName != "help"
    requires i < j < |cmds|
    requires CommandMatches(cmds[i], Lower(pr.commandName)) && CommandMatches(cmds[j], Lower(pr.commandName))
    ensures BuildSpec(cmds, description, sink, pr) == Failure(Fault(InvalidOperation))
  {
  }
}
