/**
 * What `CliManager.AddCommandDefinition` decides, as functions: the names already taken, the
 * case-sensitive search for a repeated parameter name, and the error a definition is refused
 * with. `CliManager.AddCommandDefinition` is proved to decide exactly this.
 */
module Registry {
  import opened Common
  import opened Text
  import opened Parameters
  import opened Models
  import opened Resolver

  // ---------------------------------------------------------------- names in use

  /** The names of the commands, in order. */
  function Names(cmds: seq<CommandDef>): (r: seq<string>)
    ensures |r| == |cmds|
    ensures forall i :: 0 <= i < |cmds| ==> r[i] == cmds[i].name
  {
    if cmds == [] then [] else Names(cmds[..|cmds| - 1]) + [cmds[|cmds| - 1].name]
  }

  /** All aliases of the commands, command by command. */
  function Aliases(cmds: seq<CommandDef>): (r: seq<string>)
    ensures forall x :: x in r <==> exists i :: 0 <= i < |cmds| && x in cmds[i].aliases
  {
    if cmds == [] then []
    else
      var init := cmds[..|cmds| - 1];
      var rest := Aliases(init);
      assert forall i :: 0 <= i < |init| ==> init[i] == cmds[i];
      rest + cmds[|cmds| - 1].aliases
  }

  /** `commandNames`: the stored names, then the stored aliases. A string is among them
      exactly when some registered command matches it. */
  function CommandNames(cmds: seq<CommandDef>): (r: seq<string>)
    ensures forall x :: x in r <==> exists i :: 0 <= i < |cmds| && CommandMatches(cmds[i], x)
  {
    Names(cmds) + Aliases(cmds)
  }

  /** The names of the parameters, in declared order. */
  function ParamNamesOnly(ps: seq<CliParameter>): (r: seq<string>)
    reads ps
    ensures |r| == |ps|
    ensures forall i :: 0 <= i < |ps| ==> r[i] == ps[i].name
  {
    if ps == [] then [] else ParamNamesOnly(ps[..|ps| - 1]) + [ps[|ps| - 1].name]
  }

  /** All aliases of the parameters, parameter by parameter. */
  function ParamAliases(ps: seq<CliParameter>): seq<string>
    reads ps
  {
    if ps == [] then [] else ParamAliases(ps[..|ps| - 1]) + ps[|ps| - 1].aliases
  }

  /** `paramNames`: the parameter names, then their aliases, exactly as stored. */
  function ParamNames(ps: seq<CliParameter>): seq<string>
    reads ps
  {
    ParamNamesOnly(ps) + ParamAliases(ps)
  }

  // ---------------------------------------------------------------- repeated strings

  /** `paramNames.Where(x => x == pn).Count()`, an ordinal (case-sensitive) comparison. */
  function Count(xs: seq<string>, x: string): nat {
    if xs == [] then 0 else (if xs[0] == x then 1 else 0) + Count(xs[1..], x)
  }

  predicate Distinct(xs: seq<string>) {
    forall i, j :: 0 <= i < j < |xs| ==> xs[i] != xs[j]
  }

  /** A string occurs at least once, and at least twice, exactly when it stands at one
      position, and at two positions. */
  lemma {:induction false} CountPositions(xs: seq<string>, x: string)
    ensures Count(xs, x) >= 1 <==> exists i :: 0 <= i < |xs| && xs[i] == x
    ensures Count(xs, x) >= 2 <==> exists i, j :: 0 <= i < j < |xs| && xs[i] == x && xs[j] == x
  {
    if xs != [] {
      var tail := xs[1..];
      CountPositions(tail, x);
      assert forall k :: 1 <= k < |xs| ==> xs[k] == tail[k - 1];
      if Count(xs, x) >= 2 {
        if xs[0] == x {
          var j :| 0 <= j < |tail| && tail[j] == x;
          assert xs[0] == x && xs[j + 1] == x;
        } else {
          var i, j :| 0 <= i < j < |tail| && tail[i] == x && tail[j] == x;
          assert xs[i + 1] == x && xs[j + 1] == x;
        }
      }
      if exists i, j :: 0 <= i < j < |xs| && xs[i] == x && xs[j] == x {
        var i, j :| 0 <= i < j < |xs| && xs[i] == x && xs[j] == x;
        if i == 0 {
          assert tail[j - 1] == x;
        } else {
          assert tail[i - 1] == x && tail[j - 1] == x;
        }
      }
      if Count(xs, x) >= 1 && xs[0] != x {
        var i :| 0 <= i < |tail| && tail[i] == x;
        assert xs[i + 1] == x;
      }
    }
  }

  /** The loop over `paramNames` from position `k` on: the first string found there that
      occurs more than once in the whole list. */
  function RepeatedFrom(xs: seq<string>, k: nat): (r: Option<string>)
    requires k <= |xs|
    decreases |xs| - k
  {
    if k == |xs| then None
    else if Count(xs, xs[k]) > 1 then Some(xs[k])
    else RepeatedFrom(xs, k + 1)
  }

  /** The first string of the list, in list order, that occurs more than once. */
  function Repeated(xs: seq<string>): Option<string> {
    RepeatedFrom(xs, 0)
  }

  lemma {:induction false} RepeatedFromSpec(xs: seq<string>, k: nat)
    requires k <= |xs|
    ensures RepeatedFrom(xs, k).None? <==> forall i :: k <= i < |xs| ==> Count(xs, xs[i]) <= 1
    ensures RepeatedFrom(xs, k).Some? ==>
      exists i :: k <= i < |xs| && xs[i] == RepeatedFrom(xs, k).value && Count(xs, xs[i]) > 1 &&
        forall h :: k <= h < i ==> Count(xs, xs[h]) <= 1
    decreases |xs| - k
  {
    if k < |xs| {
      RepeatedFromSpec(xs, k + 1);
    }
  }

  /** A list has no repeated string exactly when its strings are pairwise different, and a
      repeated string stands at two positions. */
  lemma RepeatedSpec(xs: seq<string>)
    ensures Repeated(xs).None? <==> Distinct(xs)
    ensures Repeated(xs).Some? ==>
      exists i, j :: 0 <= i < j < |xs| && xs[i] == Repeated(xs).value && xs[j] == Repeated(xs).value
  {
    RepeatedFromSpec(xs, 0);
    if Repeated(xs).None? {
      forall i, j | 0 <= i < j < |xs|
        ensures xs[i] != xs[j]
      {
        if xs[i] == xs[j] {
          CountPositions(xs, xs[i]);
          assert false;
        }
      }
    } else {
      var v := Repeated(xs).value;
      CountPositions(xs, v);
    }
  }

  // ---------------------------------------------------------------- registration

  function DuplicateCommand(lowered: string): Error {
    Thrown(GeneralException, "Duplicate command definition '" + lowered + "'.")
  }

  function DuplicateParameter(lowered: string, pn: string): Error {
    Thrown(GeneralException, "Command definition '" + lowered + "' has duplicate parameter name '" + pn + "'.")
  }

  /** The error `AddCommandDefinition` throws, if any: a lower-cased name that is already a
      stored name or a stored alias, then the first repeated parameter name or alias. */
  function RegistrationError(existing: seq<CommandDef>, def: CommandDef): Option<Error>
    reads def.parameters
  {
    var lowered := Lower(def.name);
    if lowered in CommandNames(existing) then Some(DuplicateCommand(lowered))
    else
      match Repeated(ParamNames(def.parameters))
      case Some(pn) => Some(DuplicateParameter(lowered, pn))
      case None => None
  }

  /** The definition as it is stored: its name lower-cased. */
  function Registered(def: CommandDef): (r: CommandDef)
    ensures r.name == Lower(def.name)
    ensures r.aliases == def.aliases && r.parameters == def.parameters
    ensures r.description == def.description && r.command == def.command
  {
    def.(name := Lower(def.name))
  }

  /** A definition is refused exactly when its lower-cased name matches a registered command,
      or when a string repeats, with the same case, among its parameters' names and aliases;
      the name is checked first. */
  lemma RegistrationRules(existing: seq<CommandDef>, def: CommandDef)
    ensures RegistrationError(existing, def).Some? <==>
      (exists i :: 0 <= i < |existing| && CommandMatches(existing[i], Lower(def.name))) ||
      !Distinct(ParamNames(def.parameters))
    ensures (exists i :: 0 <= i < |existing| && CommandMatches(existing[i], Lower(def.name))) ==>
      RegistrationError(existing, def) == Some(DuplicateCommand(Lower(def.name)))
  {
    RepeatedSpec(ParamNames(def.parameters));
  }

  /** Parameter names that differ only in case are no duplicates. */
  lemma CaseSensitiveDuplicates()
    ensures Repeated(["Name", "name"]).None?
    ensures Repeated(["name", "name"]) == Some("name")
  {
    var a, b := ["Name", "name"], ["name", "name"];
    assert Count(a, "Name") == 1 && Count(a, "name") == 1 by {
      assert a[1..] == ["name"] && a[1..][1..] == [];
    }
    assert Count(b, "name") == 2 by {
      assert b[1..] == ["name"] && b[1..][1..] == [];
    }
  }

  /** What the registry keeps true: every stored name is lower-case, and no command's name is
      the name or an alias of a command registered before it. */
  predicate RegistryInvariant(cmds: seq<CommandDef>) {
    (forall i :: 0 <= i < |cmds| ==> Lower(cmds[i].name) == cmds[i].name) &&
    (forall i, j :: 0 <= i < j < |cmds| ==> !CommandMatches(cmds[i], cmds[j].name))
  }

  /** A successful registration keeps the invariant. */
  lemma RegistrationKeepsInvariant(existing: seq<CommandDef>, def: CommandDef)
    requires RegistryInvariant(existing)
    requires RegistrationError(existing, def).None?
    ensures RegistryInvariant(existing + [Registered(def)])
  {
    var cmds := existing + [Registered(def)];
    LowerIsLower(def.name);
    assert forall i :: 0 <= i < |existing| ==> cmds[i] == existing[i];
  }

  /** Right after it is registered, a command is what its name, in any case, looks up. */
  lemma RegisteredIsFound(existing: seq<CommandDef>, def: CommandDef, input: string)
    requires RegistrationError(existing, def).None?
    requires Lower(input) == Lower(def.name)
    ensures FindCommand(existing + [Registered(def)], Lower(input)) == Success(Some(Registered(def)))
  {
    var cmds := existing + [Registered(def)];
    var lowered := Lower(input);
    assert forall i :: 0 <= i < |existing| ==> cmds[i] == existing[i];
    assert forall i :: 0 <= i < |existing| ==> !CommandMatches(cmds[i], lowered);
    assert CommandMatches(cmds[|existing|], lowered);
    var r := FindCommand(cmds, lowered);
    assert r.Success? && r.value.Some?;
    var k :| 0 <= k < |cmds| && cmds[k] == r.value.value && CommandMatches(cmds[k], lowered) &&
      forall j :: 0 <= j < |cmds| && j != k ==> !CommandMatches(cmds[j], lowered);
    assert k == |existing|;
  }

  /** Right after it is registered, a command is also what each of its aliases looks up, when
      the alias is the lower-cased input and no registered command matches it. */
  lemma RegisteredAliasIsFound(existing: seq<CommandDef>, def: CommandDef, alias: string, input: string)
    requires alias in def.aliases && Lower(input) == alias
    requires forall i :: 0 <= i < |existing| ==> !CommandMatches(existing[i], alias)
    ensures FindCommand(existing + [Registered(def)], Lower(input)) == Success(Some(Registered(def)))
  {
    var stored := Registered(def);
    var cmds := existing + [stored];
    assert forall i :: 0 <= i < |existing| ==> cmds[i] == existing[i];
    assert cmds[|existing|] == stored && alias in stored.aliases;
    var r := FindCommand(cmds, alias);
    assert r.Success? && r.value.Some?;
    var k :| 0 <= k < |cmds| && cmds[k] == r.value.value && CommandMatches(cmds[k], alias) &&
      forall j :: 0 <= j < |cmds| && j != k ==> !CommandMatches(cmds[j], alias);
    assert k == |existing|;
  }

  /** In a registry that keeps the invariant, a stored command is what its own name, in any
      case, looks up, unless a command registered after it took that name as an alias. */
  lemma StoredCommandIsFound(cmds: seq<CommandDef>, i: nat, input: string)
    requires RegistryInvariant(cmds)
    requires i < |cmds| && Lower(input) == cmds[i].name
    requires forall j :: i < j < |cmds| ==> cmds[i].name !in cmds[j].aliases
    ensures FindCommand(cmds, Lower(input)) == Success(Some(cmds[i]))
  {
    var name := cmds[i].name;
    assert forall j :: 0 <= j < |cmds| && j != i ==> !CommandMatches(cmds[j], name) by {
      forall j | 0 <= j < |cmds| && j != i
        ensures !CommandMatches(cmds[j], name)
      {
        if j < i {
          assert !CommandMatches(cmds[j], cmds[i].name);
        } else {
          assert !CommandMatches(cmds[i], cmds[j].name);
        }
      }
    }
    var r := FindCommand(cmds, name);
    assert CommandMatches(cmds[i], name);
    assert r.Success? && r.value.Some?;
    var k :| 0 <= k < |cmds| && cmds[k] == r.value.value && CommandMatches(cmds[k], name) &&
      forall j :: 0 <= j < |cmds| && j != k ==> !CommandMatches(cmds[j], name);
    assert k == i;
  }

  /** A new command's aliases are not checked against the registered commands: an alias that
      a registered command already matches makes every lookup of it fault. */
  lemma AliasClash(existing: seq<CommandDef>, def: CommandDef, alias: string, i: nat)
    requires RegistrationError(existing, def).None?
    requires alias in def.aliases
    requires i < |existing| && CommandMatches(existing[i], alias)
    ensures FindCommand(existing + [Registered(def)], alias) == Failure(Fault(InvalidOperation))
  {
    var cmds := existing + [Registered(def)];
    assert cmds[i] == existing[i];
    assert CommandMatches(cmds[|existing|], alias);
  }

  /** Stored aliases are not lower-cased, and the input is: an alias with an upper-case letter
      never matches, so a command whose aliases all have one is found by its name alone. */
  lemma UpperCaseAliasesNeverMatch(c: CommandDef, input: string)
    requires forall k :: 0 <= k < |c.aliases| ==> exists m :: 0 <= m < |c.aliases[k]| && IsUpper(c.aliases[k][m])
    ensures CommandMatches(c, Lower(input)) <==> c.name == Lower(input)
  {
    forall k | 0 <= k < |c.aliases|
      ensures Lower(input) != c.aliases[k]
    {
      NoLowerResultHasUpper(input, c.aliases[k]);
    }
  }
}
