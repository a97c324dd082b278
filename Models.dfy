/**
 * The shapes the pipeline passes around: a command definition, the raw parameters a parse
 * produces, the parse result and the bound command that `Build` returns.
 */
module Models {
  import opened Common
  import opened Parameters

  /** The `Command` delegate of a definition, kept only as an identity. */
  type ActionToken = nat

  /** `CliCommandDefinition`. `description` is "" where C# would hold null; its only use,
      `string.IsNullOrWhiteSpace`, treats the two alike. */
  datatype CommandDef = CommandDef(
    name: string,
    aliases: seq<string>,
    parameters: seq<CliParameter>,
    description: string,
    command: ActionToken)

  /** Every parameter object reachable from a list of definitions. */
  function ParamsOf(cmds: seq<CommandDef>): set<CliParameter> {
    set i, j | 0 <= i < |cmds| && 0 <= j < |cmds[i].parameters| :: cmds[i].parameters[j]
  }

  lemma ParamsOfContains(cmds: seq<CommandDef>, c: CommandDef)
    requires c in cmds
    ensures forall p :: p in c.parameters ==> p in ParamsOf(cmds)
  {
    var i :| 0 <= i < |cmds| && cmds[i] == c;
    forall p | p in c.parameters
      ensures p in ParamsOf(cmds)
    {
      var j :| 0 <= j < |c.parameters| && c.parameters[j] == p;
      assert cmds[i].parameters[j] == p;
    }
  }

  // ---------------------------------------------------------------- raw parameters

  /**
   * The `Dictionary<string, string>` of raw parameters, as its entries in enumeration order.
   * A .NET dictionary into which nothing is ever removed enumerates in insertion order, and
   * overwriting a key keeps its slot; `DistinctKeys` is its key invariant.
   */
  type RawParams = seq<(string, string)>

  predicate DistinctKeys(d: RawParams) {
    forall i, j :: 0 <= i < j < |d| ==> d[i].0 != d[j].0
  }

  predicate HasKey(d: RawParams, k: string) {
    exists i :: 0 <= i < |d| && d[i].0 == k
  }

  /** `d[k] = v`: overwrite in place when the key is there, append otherwise. */
  function Put(d: RawParams, k: string, v: string): (r: RawParams)
    requires DistinctKeys(d)
    ensures DistinctKeys(r)
    ensures HasKey(d, k) ==> |r| == |d|
    ensures HasKey(d, k) ==> forall i :: 0 <= i < |d| ==> r[i] == if d[i].0 == k then (k, v) else d[i]
    ensures !HasKey(d, k) ==> r == d + [(k, v)]
  {
    if d == [] then [(k, v)]
    else if d[0].0 == k then [(k, v)] + d[1..]
    else [d[0]] + Put(d[1..], k, v)
  }

  /** Every entry after `d[k] = v` was there before or is the one written. */
  lemma PutEntries(d: RawParams, k: string, v: string)
    requires DistinctKeys(d)
    ensures forall e :: e in Put(d, k, v) ==> e in d || e == (k, v)
  {
    var r := Put(d, k, v);
    forall e | e in r
      ensures e in d || e == (k, v)
    {
      var i :| 0 <= i < |r| && r[i] == e;
      if HasKey(d, k) {
        assert r[i] == if d[i].0 == k then (k, v) else d[i];
      } else {
        assert r == d + [(k, v)];
      }
    }
  }

  /** What `Parse` returns. A help request keeps no raw parameters (null in C#). */
  datatype ParseResult = ParseResult(commandName: string, rawParameters: RawParams, help: bool)

  /** The `Invoke` delegate of a bound command: the definition's action, or the lambda that
      hands `HelpText` to the manager's `HelpCommand` sink when it is called. */
  datatype Invocation = RunCommand(action: ActionToken) | ShowHelp

  /** `CliCommand`: the action to invoke and the parameters it is given. */
  datatype CliCommand = CliCommand(invoke: Invocation, parameters: map<string, string>)

  /** The manager's `HelpCommand` delegate, kept only as an identity. */
  type SinkToken = nat
}
