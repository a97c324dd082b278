# BuildCli in Dafny

BuildCli is a small C# library for command-line tools. A program registers command
definitions with a `CliManager`. Each definition has a name, aliases, a description, an
action, and declared parameters with names, aliases, an ordinal, a data type and a validator.
The manager then handles one input at a time:

- it tokenizes the arguments, or a command line, into a command name plus raw parameters
  (named `-x value` pairs, `-flag`s and numbered positional values);
- it recognises the `help` command and the `cmd -help` form;
- it binds the raw parameters to the matching command's declared parameters, validating each
  value;
- it builds the help text that it hands to a help sink.

This project models that core and proves properties of it:

- **Data.** `CliManager` and `CliParameter` are Dafny classes, because the library updates
  their fields in place. Definitions, parse results and built commands are datatypes.
- **Operations.** Each manager method runs the same loops as the C# code. Each is proved to
  compute a function from the `Tokenizer`, `Resolver`, `HelpText`, `Registry` or `Pipeline`
  module.
- **Errors.** Every exception becomes an `Error` value: `Thrown(kind, message)` for an
  exception the library throws itself, or `Fault(kind)` for a runtime fault it does not guard
  against.

Modules:

- `Common`: `Option`, `Result` and the errors.
- `Text`: the .NET string operations the pipeline uses: `ToLower`, `Replace("-", "")`,
  `IsNullOrWhiteSpace`, `int.ToString`, `int.TryParse` and `Split(' ')`.
- `Parameters`: `CliParameter`, its defaults, its lazily defaulted error message and its
  replaceable validator.
- `Models`: command definitions and the insertion-ordered raw parameter dictionary.
- `Registry`: what registration accepts or refuses.
- `Tokenizer`: the state machine of `Parse`.
- `Resolver`: command lookup, parameter binding and `Build`.
- `HelpText`: the help texts.
- `Pipeline`: what `Run` computes before it invokes anything, and a worked `greet` example.
- `Cli`: the `CliManager` class.

The model follows the code where the documented behaviour and the code part ways, and it
proves each of these quirks:

- registration checks only the lower-cased name of a new command against the names and
  aliases already stored, never its aliases (`Registry.AliasClash`);
- the repeated-parameter check compares strings case-sensitively
  (`Registry.CaseSensitiveDuplicates`);
- a parameter token loses every dash, not only the leading ones;
- a trailing `-name` with no value is dropped (`Tokenizer.TrailingNameDropped`,
  `Tokenizer.TrailingNameAlone`);
- a `-help` token after the second position is an ordinary parameter named `help`;
- the parameter lookup is one disjunction of name, alias and ordinal, so the first declared
  parameter that matches in any of the three ways wins (`Resolver.EarlierMatchWins`);
- stored aliases are never lower-cased, while the input is (`Registry.UpperCaseAliasesNeverMatch`);
- two definitions that match the same input make `SingleOrDefault` throw;
- `unknown -help` dereferences a null definition;
- an empty token after the command name makes `Substring(0, 1)` throw.

## Model

| member | source | states |
|---|---|---|
| Cli.CliManager.constructor | BuildCli/CliManager.cs:14-17 | a new manager has no commands, no description and no help sink, and satisfies the registry invariant |
| Cli.CliManager.ParseAndBuild | BuildCli/CliManager.cs:35-47 | what `Run(string[], onError)` does before the invoke, `Parse` then `Build`, is exactly `Pipeline.Dispatch`: the first exception, which `onError` would receive, or the command to invoke |
| Cli.CliManager.ParseLineAndBuild | BuildCli/CliManager.cs:54-66 | the same for `Run(string, onError)`: exactly `Pipeline.DispatchLine` |
| Cli.CliManager.AddCommandDefinition | BuildCli/CliManager.cs:71-94 | the error returned is exactly `RegistrationError` of the previous commands; on success the definition is appended with its name lower-cased, on failure nothing changes; the registry invariant is preserved |
| Cli.CliManager.Parse | BuildCli/CliManager.cs:139-200 | the loop over the token array returns exactly `Tokenizer.Tokenize`: the help cases, the first error, or the command name with the scanned raw parameters |
| Cli.CliManager.ParseToken | BuildCli/CliManager.cs:163-195 | one pass of the loop body produces exactly one `Tokenizer.Step` |
| Cli.CliManager.ParseLine | BuildCli/CliManager.cs:202-210 | a blank line is refused with "Failed to read command."; any other line is split at every space and parsed, which is `Tokenizer.TokenizeLine` |
| Cli.CliManager.Build | BuildCli/CliManager.cs:100-137 | the result is exactly `Resolver.BuildSpec` of the manager's commands, description and help sink |
| Cli.CliManager.BindParameters | BuildCli/CliManager.cs:115-133 | the loop over the raw keys computes exactly `Resolver.Resolve` and stops at the first key that fails |
| Cli.CliManager.GenerateHelpCommand | BuildCli/CliManager.cs:212-224 | with no help sink it throws `NotImplementedException`; otherwise it shows the overview under the single key `HelpText` |
| Cli.CliManager.GenerateCommandHelpCommand | BuildCli/CliManager.cs:226-238 | the sink guard comes first; a null definition then faults; otherwise it shows the command's page under `HelpText` |
| Cli.CliManager.GenerateHelpText | BuildCli/CliManager.cs:240-263 | the accumulated string equals `HelpText.GlobalHelpText` |
| Cli.CliManager.AppendCommandLines | BuildCli/CliManager.cs:247-259 | the nested loops append one line per command, in registration order, each with its dashed parameter names |
| Cli.CliManager.GenerateCommandHelpText | BuildCli/CliManager.cs:265-289 | a null definition faults with a null reference; otherwise the accumulated string equals `HelpText.CommandHelpText` |
| Cli.CliManager.AppendParameterSections | BuildCli/CliManager.cs:277-285 | the loop appends the sections of the parameters in declared order |
| Cli.CliManager.AppendParameterSection | BuildCli/CliManager.cs:279-284 | one pass appends exactly `HelpText.ParameterSection` of the parameter |
| Cli.CliManager.CommaString | BuildCli/CliManager.cs:291-300 | the loop computes `HelpText.CommaJoin` |
| Pipeline.Dispatch | BuildCli/CliManager.cs:39-40 | definition: the parse of the array, then `Resolver.BuildSpec` of its result, the parse's error passed on |
| Pipeline.DispatchLine | BuildCli/CliManager.cs:58-59 | definition: the same for a command line, through `Tokenizer.TokenizeLine` |
| Pipeline.DispatchLineSplits | BuildCli/CliManager.cs:202-210 | a blank line fails with "Failed to read command." before any command is looked up; any other line is dispatched as its pieces between spaces |
| Pipeline.DispatchWords | BuildCli/CliManager.cs:54-66 | a line of space-free words, the first not starting with white space, is dispatched exactly like the array of those words |
| Pipeline.GreetIsFound | BuildCli/CliManager.cs:105 | with only `greet` (alias `g`) registered, both `greet` and `g` look it up |
| Pipeline.GreetBinds | BuildCli/CliManager.cs:117-127 | one raw entry whose key matches the `name` parameter binds `name` to its value |
| Pipeline.GreetBuild | BuildCli/CliManager.cs:105-134 | building `greet` or `g` with one raw entry runs `greet` with that entry's binding, or fails as the binding does, whatever the sink |
| Pipeline.GreetByName | BuildCli/CliManager.cs:35-47 | `greet -name Alice` runs `greet` with `name` bound to `Alice` |
| Pipeline.GreetByParameterAlias | BuildCli/CliManager.cs:35-47 | `greet -n Alice` runs `greet` with `name` bound to `Alice`, through the parameter's alias `n` |
| Pipeline.GreetByAlias | BuildCli/CliManager.cs:35-47 | `g Alice` runs `greet` with `name` bound to `Alice`, through the alias and the ordinal |
| Pipeline.GreetBogusFails | BuildCli/CliManager.cs:128-131 | binding the key `bogus` fails with "Command 'greet' has no parameter defined 'bogus'." |
| Pipeline.GreetUnknownParameter | BuildCli/CliManager.cs:35-47 | `greet -bogus X` fails with that same message |
| Pipeline.GreetLine | BuildCli/CliManager.cs:54-66 | the command line `greet -name Alice` runs `greet` with `name` bound to `Alice` |
| Text.RemoveDashes | BuildCli/CliManager.cs:181 | definition of `Replace("-", "")`: every dash deleted, the other characters kept in order (proved in `Text.RemoveDashesRemovesAll` and `Text.RemoveDashesAppend`) |
| Text.IsBlank | BuildCli/CliManager.cs:204 | definition of `IsNullOrWhiteSpace`: every character is white space as `char.IsWhiteSpace` defines it, so "" is blank |
| Text.IntToString | BuildCli/CliManager.cs:119 | definition of `int.ToString()`: a minus sign before the digits of a negative value (the round trip is `Text.IntToStringRoundTrip`) |
| Text.TryParseInt32 | BuildCli/CliManager.cs:131 | definition of `int.TryParse`: optional white space around an optional sign and one or more digits, within the `int` range |
| Text.IsWhiteSpace | BuildCli/CliManager.cs:182 | definition of `char.IsWhiteSpace`: the Unicode space separators, the line and paragraph separators, U+0009 to U+000D, U+0085 and U+00A0 |
| Text.TrimStart | BuildCli/CliManager.cs:131 | the white space `int.TryParse` allows in front is dropped: the result is a suffix of the input that does not start with such white space |
| Text.TrimEnd | BuildCli/CliManager.cs:131 | the white space allowed at the end is dropped: the result is a prefix of the input that does not end with such white space |
| Text.ParseSigned | BuildCli/CliManager.cs:131 | definition: an optional `+` or `-` before the digits, the value negated after `-`, and `None` outside the `int` range |
| Text.ParseDigits | BuildCli/CliManager.cs:131 | definition: one or more ASCII digits read as a decimal number, `None` otherwise |
| Text.Join | BuildCli/CliManager.cs:206 | definition of `string.Join`: the pieces with the separator between neighbours, the reference that `Text.JoinSplit`, `Text.SplitJoin` and `HelpText.CommaJoinOfNonEmpty` are stated against |
| Text.Lower | BuildCli/CliManager.cs:77 | definition of `ToLower`: the same length, each ASCII letter mapped on its own (its properties are `Text.LowerIsLower` and `Text.NoLowerResultHasUpper`) |
| Text.LowerIsLower | BuildCli/CliManager.cs:79 | a lower-cased name has no upper-case letter, and lower-casing it again changes nothing |
| Text.NoLowerResultHasUpper | BuildCli/CliManager.cs:105 | no input lower-cases to a string that holds an upper-case letter |
| Text.RemoveDashesRemovesAll | BuildCli/CliManager.cs:181 | no dash is left, nothing is added, and a string without dashes is unchanged |
| Text.RemoveDashesAppend | BuildCli/CliManager.cs:181 | deleting dashes distributes over concatenation |
| Text.NatToString | BuildCli/CliManager.cs:193-194 | a positional key is a nonempty string of digits, with two or more digits exactly from 10 on |
| Text.DigitsValueOfNatToString | BuildCli/CliManager.cs:193-194 | reading a number's digits back gives the number |
| Text.NatToStringInjective | BuildCli/CliManager.cs:193-194 | different positions get different keys |
| Text.IntToStringRoundTrip | BuildCli/CliManager.cs:131 | `int.TryParse` of any `int` printed by `ToString` gives that `int` back |
| Text.Split | BuildCli/CliManager.cs:206 | a split gives at least one piece, and no piece holds the separator |
| Text.JoinSplit | BuildCli/CliManager.cs:206 | joining the pieces of a split gives the line back |
| Text.SplitJoin | BuildCli/CliManager.cs:206 | splitting a join of separator-free pieces gives the pieces back |
| Text.NotNumeric | BuildCli/CliManager.cs:131 | a key that starts with anything but white space, a sign or a digit does not parse as an `int` |
| Parameters.DefaultValidator | BuildCli/Models/CliParameter.cs:21-38 | definition of the default validation: a value is accepted exactly when the current data type has a converter that converts it |
| Parameters.CliParameter.DefaultValidatorErrorMessage | BuildCli/Models/CliParameter.cs:122-125 | definition: the name, " could not be parsed as type ", the type's full name and a period |
| Parameters.CliParameter.Validate | BuildCli/Models/CliParameter.cs:84-100 | definition of calling `Validator`: the default validation against the current data type, or the custom function assigned last |
| Parameters.CliParameter.Validator | BuildCli/Models/CliParameter.cs:84-90 | definition of the `Validator` getter: the validator stored last, which `Parameters.CliParameter.Validate` runs |
| Parameters.TextAcceptsEverything | BuildCli/Models/CliParameter.cs:18-31 | the default validator of a string-typed parameter accepts every value |
| Parameters.CliParameter.constructor | BuildCli/Models/CliParameter.cs:15-40 | the defaults are type string, no aliases, the conversion validator and no explicit message |
| Parameters.CliParameter.ValidatorErrorMessage | BuildCli/Models/CliParameter.cs:70-75 | definition of the getter: the explicit message when one is set, otherwise the default message computed when it is read (its content is `Parameters.DefaultMessageNamesParameter`) |
| Parameters.CliParameter.SetValidatorErrorMessage | BuildCli/Models/CliParameter.cs:76-79 | the setter stores the value; a later read returns it, and storing null brings the default back |
| Parameters.CliParameter.SetCustomValidator | BuildCli/Models/CliParameter.cs:94-100 | the custom validator replaces the conversion check outright: validation then agrees with it on every value |
| Parameters.DefaultMessageNamesParameter | BuildCli/Models/CliParameter.cs:122-125 | the default message starts with the parameter's name and carries its type's full name verbatim just before the closing period |
| Parameters.DefaultValidationFollowsDataType | BuildCli/Models/CliParameter.cs:21-38 | a direct consequence of `Parameters.CliParameter.Validate`'s definition: while the default validator is in place, validation converts to the data type the parameter has at that moment |
| Parameters.ValidationIgnoresMetadata | BuildCli/Models/CliParameter.cs:44-100 | a frame consequence rather than a property of its own: changing the name, aliases, description or ordinal does not change validation or an explicit message |
| Models.Put | BuildCli/CliManager.cs:167-194 | a dictionary write keeps keys distinct, overwrites an existing key in its place and appends a new key at the end |
| Models.PutEntries | BuildCli/CliManager.cs:167-194 | after a write, every entry was there before or is the one written |
| Registry.Names | BuildCli/CliManager.cs:74 | the stored names, one per command, in order |
| Registry.Aliases | BuildCli/CliManager.cs:75 | a string is listed exactly when it is an alias of some stored command |
| Registry.CommandNames | BuildCli/CliManager.cs:73-75 | a string is among the taken names exactly when some stored command matches it by name or alias |
| Registry.ParamNamesOnly | BuildCli/CliManager.cs:82 | definition: the parameter names, one per parameter, in declared order (the same shape as `Registry.Names`, over parameter objects) |
| Registry.CountPositions | BuildCli/CliManager.cs:87 | a string counts at least once, or at least twice, exactly when it stands at one position, or at two |
| Registry.RepeatedFromSpec | BuildCli/CliManager.cs:85-89 | the loop from a position finds nothing exactly when no later string repeats; otherwise it finds the first one that does |
| Registry.RepeatedSpec | BuildCli/CliManager.cs:85-89 | nothing repeats exactly when the names and aliases are pairwise different, and a repeated string stands at two positions |
| Registry.Registered | BuildCli/CliManager.cs:79 | definition of what is stored: the definition with its name lower-cased and every other field as given (the lookup after it is `Registry.RegisteredIsFound`) |
| Registry.ParamAliases | BuildCli/CliManager.cs:83 | definition: every parameter's aliases, parameter by parameter, as `SelectMany` lists them |
| Registry.ParamNames | BuildCli/CliManager.cs:81-83 | definition of `paramNames`: the parameter names, then their aliases, exactly as stored |
| Registry.Count | BuildCli/CliManager.cs:87 | definition of `Where(x => x == pn).Count()`, compared case-sensitively (its meaning is `Registry.CountPositions`) |
| Registry.RepeatedFrom | BuildCli/CliManager.cs:85-89 | definition of the loop from a position on: the first string there that occurs more than once in the whole list (proved in `Registry.RepeatedFromSpec`) |
| Registry.Repeated | BuildCli/CliManager.cs:85-89 | definition of the duplicate loop: the first name or alias, in list order, that occurs more than once (proved in `Registry.RepeatedSpec`) |
| Registry.DuplicateCommand | BuildCli/CliManager.cs:93 | definition: the exception "Duplicate command definition '{name}'." with the lower-cased name |
| Registry.DuplicateParameter | BuildCli/CliManager.cs:88 | definition: the exception "Command definition '{name}' has duplicate parameter name '{pn}'." |
| Registry.RegistrationError | BuildCli/CliManager.cs:73-93 | definition of the two throws: the lower-cased name already taken, then a repeated parameter name or alias (proved in `Registry.RegistrationRules`) |
| Registry.RegistrationRules | BuildCli/CliManager.cs:77-93 | a definition is refused exactly when its lower-cased name matches a stored command or a string repeats among its parameters' names and aliases; the name is checked first |
| Registry.CaseSensitiveDuplicates | BuildCli/CliManager.cs:87 | `Name` and `name` are no duplicates, while `name` twice is one |
| Registry.RegistryInvariant | BuildCli/CliManager.cs:73-93 | definition of `CliManager.Valid()`: every stored name is lower-case and no command is matched by the name of a later one; kept by `Registry.RegistrationKeepsInvariant` and used by `Registry.StoredCommandIsFound` |
| Registry.RegistrationKeepsInvariant | BuildCli/CliManager.cs:77-91 | a successful registration keeps every stored name lower-case and no command reachable by the name of a later one |
| Registry.RegisteredIsFound | BuildCli/CliManager.cs:77-105 | right after registration, the command's name in any case looks up that command |
| Registry.RegisteredAliasIsFound | BuildCli/CliManager.cs:77-105 | right after registration, a lower-case alias of the command that no stored command matches looks up that command, whatever the case of the input |
| Registry.StoredCommandIsFound | BuildCli/CliManager.cs:77-105 | in a registry built by registration, a stored command is found by its own name in any case unless a later command has that name as an alias |
| Registry.AliasClash | BuildCli/CliManager.cs:74-105 | registration checks only the new name, so a definition whose alias a stored command already matches can be accepted (acceptance is `Registry.RegistrationRules`); once it is, every lookup of that alias faults |
| Registry.UpperCaseAliasesNeverMatch | BuildCli/CliManager.cs:105 | an alias with an upper-case letter never matches, so such a command is found by its name alone |
| Resolver.CommandMatches | BuildCli/CliManager.cs:105 | definition of the lookup's predicate: the stored name, or a stored alias, equals the lower-cased input |
| Resolver.ParameterMatches | BuildCli/CliManager.cs:119 | definition of the parameter predicate: the lower-cased name equals the lower-cased key, or a stored alias equals it, or the ordinal's numeral equals the key as typed |
| Resolver.Resolve | BuildCli/CliManager.cs:117-133 | definition of the loop over the raw keys: each entry in enumeration order through `Resolver.ResolveEntry`, stopping at the first failure (proved in `Resolver.ResolveFails` and `Resolver.ResolveSucceeds`) |
| Resolver.ResolveEntry | BuildCli/CliManager.cs:119-127 | definition of one pass: an accepted entry writes its value under the matched parameter's declared name; otherwise `Resolver.EntryError` |
| Resolver.EntryError | BuildCli/CliManager.cs:120-131 | definition: no matching parameter gives the missing-parameter message; a rejected value gives the matching parameter's `ValidatorErrorMessage` |
| Resolver.NoParameterMessage | BuildCli/CliManager.cs:131 | definition: `at postion` and the parsed value for a key that parses as an `int`, otherwise the key in quotes |
| Resolver.GlobalHelpCommand | BuildCli/CliManager.cs:212-224 | definition: with no sink, `NotImplementedException` with "A help command has not been defined."; otherwise the sink's command with the overview as its one `HelpText` parameter |
| Resolver.CommandHelpCommand | BuildCli/CliManager.cs:226-238 | definition: the same sink guard first; then a null definition faults with a null reference, and otherwise the command's page is the one `HelpText` parameter |
| Resolver.BuildSpec | BuildCli/CliManager.cs:100-137 | definition of `Build`: `help` first, then the lookup and its fault, then a help request, then binding or the not-found error (proved in the `Resolver` lemmas below) |
| Resolver.FindCommand | BuildCli/CliManager.cs:105 | no match gives null, two matches fault with `InvalidOperation`, and a single match is that definition |
| Resolver.FirstMatch | BuildCli/CliManager.cs:119 | a found parameter index lies within the declared parameters |
| Resolver.FirstMatchSpec | BuildCli/CliManager.cs:119 | nothing is found exactly when no parameter matches; otherwise the first parameter that matches is found |
| Resolver.EarlierMatchWins | BuildCli/CliManager.cs:119 | a parameter whose ordinal is the key shadows a later parameter whose name is the key |
| Resolver.ResolveStopsAtFailure | BuildCli/CliManager.cs:117-133 | once a prefix of the raw entries fails, the whole binding fails with the same error |
| Resolver.ResolveFails | BuildCli/CliManager.cs:117-133 | binding fails exactly when some entry is not accepted, and then with the first such entry's error |
| Resolver.MapOfLastWrite | BuildCli/CliManager.cs:126 | every written name is a key, and each key holds the value of the last write to it |
| Resolver.Bindings | BuildCli/CliManager.cs:126 | one write per raw entry |
| Resolver.BindingsAt | BuildCli/CliManager.cs:126 | each write stores the raw value under the matched parameter's declared name |
| Resolver.ResolveBuildsMap | BuildCli/CliManager.cs:117-134 | when every entry is accepted, binding succeeds with the map those writes build |
| Resolver.ResolveSucceeds | BuildCli/CliManager.cs:117-134 | a successful binding accepted every entry, holds every matched parameter's name, and gives each name the value of the last raw key that resolved to it |
| Resolver.ResolvedNamesAreDeclared | BuildCli/CliManager.cs:126 | every bound name is the declared name of a parameter |
| Resolver.NumericMessage | BuildCli/CliManager.cs:131 | a key that parses as an `int` is reported "at postion" with the parsed value |
| Resolver.PositionalMessage | BuildCli/CliManager.cs:131 | a positional key is reported by that same numeral |
| Resolver.NamedMessage | BuildCli/CliManager.cs:131 | any other key is quoted |
| Resolver.HelpShadowsCommands | BuildCli/CliManager.cs:102-103 | the name `help` always gets the overview, even when a command named `help` is registered; with no sink it throws |
| Resolver.CommandHelpNeedsSink | BuildCli/CliManager.cs:107-109 | a help request for a command throws without a sink, whether or not the command exists |
| Resolver.UnknownHelpFaults | BuildCli/CliManager.cs:105-109 | with a sink, `unknown -help` faults with a null reference |
| Resolver.HelpCommandParameters | BuildCli/CliManager.cs:212-238 | a built help command invokes the sink with exactly one parameter, `HelpText` |
| Resolver.CommandNotFound | BuildCli/CliManager.cs:136 | an unregistered command is reported by its name as typed |
| Resolver.BuildRunsCommand | BuildCli/CliManager.cs:115-134 | an ordinary request for the one matching command runs its action with the bound parameters, or fails as the binding does |
| Resolver.AmbiguousCommandFaults | BuildCli/CliManager.cs:105 | when two definitions match the input, every request for it faults, help requests included |
| Tokenizer.Tokenize | BuildCli/CliManager.cs:139-200 | definition of `Parse(string[])`: an empty array gives an empty command name; `help` first in any case asks for the overview; `help` second, lower-cased and without dashes, asks for help on the first token; otherwise the first token with the scan of the rest, or the scan's first error |
| Tokenizer.TokenizeLine | BuildCli/CliManager.cs:202-210 | definition of `Parse(string)`: a blank line is refused; any other is tokenized as its pieces between single spaces |
| Tokenizer.BadToken | BuildCli/CliManager.cs:165-185 | definition: a token that stops the loop, either "" (`Substring(0, 1)` throws) or a dash-token that is blank once its dashes are gone |
| Tokenizer.TokenError | BuildCli/CliManager.cs:165-185 | definition: the fault for "", and "Unable to read parameter name." for a blank dash-token |
| Tokenizer.FlushPending | BuildCli/CliManager.cs:172-176 | definition: a pending name is recorded as a flag with "" when another dash-token follows it |
| Tokenizer.Step | BuildCli/CliManager.cs:163-195 | a token stops the parse exactly when it is empty or a dash-token blank without its dashes, with that token's error; otherwise keys stay distinct |
| Tokenizer.Scan | BuildCli/CliManager.cs:147-198 | a successful scan has distinct keys |
| Tokenizer.TokenizeHelp | BuildCli/CliManager.cs:149-160 | a parse is a help request exactly when the first token is `help` in any case, or the second is `help` once lower-cased and stripped of dashes; such a request carries no raw parameters |
| Tokenizer.TokenizeCommandOnly | BuildCli/CliManager.cs:139-199 | an empty array, and a lone command name, parse to no raw parameters |
| Tokenizer.TokenizeOrdinary | BuildCli/CliManager.cs:139-199 | an input that is no help request is its command name plus the scan of the rest |
| Tokenizer.ScanFails | BuildCli/CliManager.cs:163-185 | the scan fails exactly when some token is bad, and then with the first bad token's error |
| Tokenizer.ScanStopsAtFailure | BuildCli/CliManager.cs:178-185 | once a prefix fails, the whole scan fails with the same error |
| Tokenizer.TokenizeScans | BuildCli/CliManager.cs:139-199 | a parse that is no help request is the scan of the tokens up to its first failure, or of all of them |
| Tokenizer.PositionalToken | BuildCli/CliManager.cs:191-195 | a bare token with no pending name is stored under the number of keys so far plus one |
| Tokenizer.NamedValue | BuildCli/CliManager.cs:165-189 | a dash-token then a bare token records the dash-free name with that value |
| Tokenizer.NamedFlag | BuildCli/CliManager.cs:172-189 | a dash-token then another dash-token records the first as a flag with "" and leaves the second pending |
| Tokenizer.TrailingNameDropped | BuildCli/CliManager.cs:178-199 | after at least one token beyond the command name, a trailing well-formed dash-token is not recorded, and which one it is does not change the parse |
| Tokenizer.TrailingNameAlone | BuildCli/CliManager.cs:147-199 | a command name followed by a lone well-formed dash-token that asks for no help parses to no raw parameters |
| Tokenizer.OneNamedValue | BuildCli/CliManager.cs:163-199 | a command name, a well-formed dash-token and a bare value parse to that one named entry |
| Tokenizer.StepEntries | BuildCli/CliManager.cs:163-195 | every entry after a step was there before, or is the pending name with a value or "", or the next positional key with the token |
| Tokenizer.ScanKeys | BuildCli/CliManager.cs:178-195 | every recorded key, and a pending name, is dash-free and not blank |
| Tokenizer.ScanValues | BuildCli/CliManager.cs:163-195 | every recorded value is "" or an input token that does not start with a dash, and there are no more entries than tokens |
| Tokenizer.NumberedKeys | BuildCli/CliManager.cs:193-194 | the i-th of all-bare tokens is keyed by the numeral of i + 1 |
| Tokenizer.PositionalTokens | BuildCli/CliManager.cs:191-195 | tokens that are all bare are numbered 1, 2, 3, ... in order |
| Tokenizer.LateHelpIsParameter | BuildCli/CliManager.cs:157-189 | a `-help` token after the second position is an ordinary parameter named `help` |
| Tokenizer.ScanNamedValue | BuildCli/CliManager.cs:163-190 | `-x 5` scans to the single entry x = 5 |
| Tokenizer.ScanFlagThenValue | BuildCli/CliManager.cs:163-195 | a dash-token, another dash-token and a bare value scan to the first name as a flag with "" and the second name with the value |
| Tokenizer.FlagThenNamedValue | BuildCli/CliManager.cs:139-199 | `cmd -a -b v` with distinct lower-case names parses to a = "" then b = v, in that order |
| Tokenizer.ExampleFlagThenValue | BuildCli/CliManager.cs:139-199 | `cmd -flag -y 3` parses to flag = "" then y = 3 |
| Tokenizer.ExampleNamedValue | BuildCli/CliManager.cs:139-200 | `cmd -x 5` parses to command `cmd` with x = 5 |
| Tokenizer.ExamplePositional | BuildCli/CliManager.cs:191-195 | `cmd val1 val2` parses to keys "1" and "2" |
| Tokenizer.ExampleDashedHelp | BuildCli/CliManager.cs:157-160 | `cmd --HeLp` is a help request for `cmd` |
| Tokenizer.ExampleErrors | BuildCli/CliManager.cs:163-185 | `cmd - 5` cannot read the name, and `cmd "" 5` faults at `Substring` |
| Tokenizer.ExampleLines | BuildCli/CliManager.cs:202-210 | the line `cmd ` faults on its empty second piece, and a blank line is refused |
| HelpText.CommaJoin | BuildCli/CliManager.cs:291-300 | definition of `CommaString`: each string appended, after ", " unless nothing has accumulated yet (proved in `HelpText.CommaJoinOfNonEmpty`) |
| HelpText.CommaJoinOfNonEmpty | BuildCli/CliManager.cs:291-300 | over nonempty strings, `CommaString` is the join with ", ", and it is "" only for the empty list |
| HelpText.CommaJoinDropsEmptyHead | BuildCli/CliManager.cs:291-300 | an empty string in front leaves no trace |
| HelpText.CommaJoinEmptyTail | BuildCli/CliManager.cs:294-298 | an empty string after a nonempty one leaves a dangling ", ", unlike one in front |
| HelpText.ParamList | BuildCli/CliManager.cs:249-257 | definition of one overview line's list: each name after a dash, after ", " unless nothing has accumulated yet (proved in `HelpText.ParamListIsJoined`) |
| HelpText.DashedNames | BuildCli/CliManager.cs:252-256 | each parameter name after a dash, in declared order |
| HelpText.ParamListIsJoined | BuildCli/CliManager.cs:249-257 | an overview line lists the dashed names joined by ", ", and lists nothing only for a command without parameters |
| HelpText.CommandLinesAppend | BuildCli/CliManager.cs:247-259 | the lines of two lists of commands are the lines of the first, then those of the second |
| HelpText.CommandLinesInOrder | BuildCli/CliManager.cs:247-259 | every command has its own line, after the lines of earlier commands and before those of later ones |
| HelpText.Header | BuildCli/CliManager.cs:243-244 | definition: the description header, written only when the description is not blank |
| HelpText.CommandLine | BuildCli/CliManager.cs:249-258 | definition: one overview line, a newline, the name, a space, the parameter list and a newline |
| HelpText.CommandLines | BuildCli/CliManager.cs:247-259 | definition: one overview line per command in collection order (proved in `HelpText.CommandLinesAppend` and `HelpText.CommandLinesInOrder`) |
| HelpText.GlobalHelpText | BuildCli/CliManager.cs:240-263 | definition of the overview: the description header when the description is not blank, `Commands:`, one line per command and the footer (proved in `HelpText.GlobalHelpLayout`) |
| HelpText.GlobalHelpLayout | BuildCli/CliManager.cs:240-263 | the overview opens with the description header exactly when the description is not blank, otherwise with `Commands:`, and always ends with the `-help` footer |
| HelpText.ParameterSectionsAppend | BuildCli/CliManager.cs:277-285 | the sections of two lists of parameters are those of the first, then those of the second |
| HelpText.ParameterSectionsInOrder | BuildCli/CliManager.cs:277-285 | each parameter's section comes after those declared before it and before those declared after it |
| HelpText.AliasLine | BuildCli/CliManager.cs:269-270 | definition: the label and the `CommaString` of the aliases, written only when there are aliases (also lines 281-282) |
| HelpText.DescriptionLine | BuildCli/CliManager.cs:271-272 | definition: the label and the description, written only when it is not blank (also lines 283-284) |
| HelpText.ParameterSections | BuildCli/CliManager.cs:277-285 | definition: the sections in declared order (proved in `HelpText.ParameterSectionsAppend` and `HelpText.ParameterSectionsInOrder`) |
| HelpText.ParameterSection | BuildCli/CliManager.cs:279-284 | definition of one parameter section: name, type name, the alias line when there are aliases and the description line when it is not blank |
| HelpText.CommandHelpText | BuildCli/CliManager.cs:265-289 | definition of a command's page: the name, the alias line, the description line, and the `Parameters:` header with the sections when there are parameters (proved in `HelpText.CommandHelpOpening` and `HelpText.CommandHelpAliases`) |
| HelpText.CommandHelpOpening | BuildCli/CliManager.cs:265-285 | the page opens with the command's name, and each section with the parameter's name and type name |
| HelpText.CommandHelpAliases | BuildCli/CliManager.cs:268-272 | the alias line follows the command line exactly when the command has aliases |

## Left out

- The two `Run` overloads (`BuildCli/CliManager.cs:35-66`) are modelled up to the invoke, as
  `ParseAndBuild` and `ParseLineAndBuild`. The `try`/`catch` that hands the exception to the
  `onError` callback, and the call of the built command's delegate, are not modelled: the
  result is the error `onError` would receive or the command that would be invoked.
- Invoking delegates is not modelled: the command's action, the help sink and a custom
  validator's side effects. An action and a sink are opaque tokens, and a built command
  records which one it would invoke.
- A custom validator that throws is not modelled. A validator is a total function
  `string -> bool`.
- `TypeDescriptor.GetConverter` and `ConvertFromString` are a parameter of the model: a type
  carries an optional predicate for the strings its converter accepts.
- `Type.Name` and `Type.ToString()` are labels carried by the type, with no reflection behind
  them.
- `BuildCliParseException` is a kind of `Error`, not a class. `ParseResult.Error` is never
  written by the library and is not modelled.
- The commented-out `DefaultValidator` method (`BuildCli/Models/CliParameter.cs:104-120`) is
  not modelled.
- Null command names, parameter names, aliases and tokens are not modelled. A null
  `Description`, `CliDescriptionText` or command line is represented by "", which
  `IsNullOrWhiteSpace` treats alike.
- A null `DataType` is not modelled: every parameter has a type. In C# it makes
  `DefaultValidatorErrorMessage` (`BuildCli/Models/CliParameter.cs:124`) and the help page
  (`BuildCli/CliManager.cs:280`) throw a null reference, and the default validator return false.
- A null `CustomValidator` is not modelled: a custom validator is always a function. In C#
  assigning null makes `Build` throw a null reference when it calls the validator
  (`BuildCli/CliManager.cs:122`).
- Parameters.CliParameter.constructor: `Name` and `Description` start as "" instead of null.
- Text.Lower: lower-cases only ASCII letters. Culture-specific and non-ASCII case mappings of
  `ToLower` are not modelled.
- Text.TryParseInt32 follows the invariant culture only. Culture-specific signs and trailing
  NUL characters are not modelled.
- Cli.CliManager.AddCommandDefinition: C# lower-cases the caller's definition object in place
  before it checks the parameters, so the name stays lower-cased even when a duplicate
  parameter is then refused. The model stores a lower-cased copy and leaves the caller's value
  untouched.
- Concurrency, and aliasing between definitions registered twice, are not modelled.
