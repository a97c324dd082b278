/**
 * The text the two help commands hand to the help sink, as functions: the overview of every
 * registered command, and the page for one command. `CliManager.GenerateHelpText`,
 * `CliManager.GenerateCommandHelpText` and `CliManager.CommaString` build the same strings
 * by accumulation and are proved equal to these.
 */
module HelpText {
  import opened Text
  import opened Parameters
  import opened Models

  const FOOTER: string :=
    "\nFor more help on the usage of individual commands enter the name of the command followed by '-help'."

  // ---------------------------------------------------------------- CommaString

  /** What `CommaString` accumulates: each string is appended, after ", " unless nothing has
      accumulated yet. */
  function CommaJoin(lst: seq<string>): string {
    if lst == [] then ""
    else
      var r := CommaJoin(lst[..|lst| - 1]);
      var s := lst[|lst| - 1];
      if r == "" then r + s else r + (", " + s)
  }

  /** For strings that are all nonempty, `CommaString` is `string.Join(", ", lst)`; it is ""
      exactly for the empty list. */
  lemma {:induction false} CommaJoinOfNonEmpty(lst: seq<string>)
    requires forall k :: 0 <= k < |lst| ==> lst[k] != ""
    ensures CommaJoin(lst) == Join(lst, ", ")
    ensures CommaJoin(lst) == "" <==> lst == []
  {
    if lst != [] {
      var init := lst[..|lst| - 1];
      CommaJoinOfNonEmpty(init);
      if init == [] {
        assert lst == [lst[0]];
      } else {
        assert lst == init + [lst[|lst| - 1]];
        JoinSnoc(init, lst[|lst| - 1], ", ");
      }
    }
  }

  /** An empty string at the front leaves no trace: nothing has accumulated after it. */
  lemma {:induction false} CommaJoinDropsEmptyHead(lst: seq<string>)
    ensures CommaJoin([""] + lst) == CommaJoin(lst)
  {
    if lst != [] {
      var init := lst[..|lst| - 1];
      var all := [""] + lst;
      assert all[..|all| - 1] == [""] + init;
      assert all[|all| - 1] == lst[|lst| - 1];
      CommaJoinDropsEmptyHead(init);
    }
  }

  /** An empty string after a nonempty one is written as a dangling separator, unlike the
      empty string in front. */
  lemma CommaJoinEmptyTail(a: string)
    requires a != ""
    ensures CommaJoin([a, ""]) == a + ", "
    ensures CommaJoin(["", a]) == a
  {
    assert [a, ""][..1] == [a];
    assert [a][..0] == [];
    CommaJoinDropsEmptyHead([a]);
    assert [""] + [a] == ["", a];
  }

  // ---------------------------------------------------------------- the overview

  /** The parameter list of one overview line: the names, each after a dash, the second and
      later ones after ", ". */
  function ParamList(ps: seq<CliParameter>): string
    reads ps
  {
    if ps == [] then ""
    else
      var p := ParamList(ps[..|ps| - 1]);
      var s := ps[|ps| - 1].name;
      if p == "" then p + ("-" + s) else p + (", -" + s)
  }

  /** The list of the first `q + 1` parameters extends that of the first `q`. */
  lemma ParamListSnoc(ps: seq<CliParameter>, q: nat)
    requires q < |ps|
    ensures var p := ParamList(ps[..q]);
      ParamList(ps[..q + 1]) == if p == "" then p + ("-" + ps[q].name) else p + (", -" + ps[q].name)
  {
    assert ps[..q + 1][..q] == ps[..q];
  }

  /** The parameter names, each after a dash. */
  function DashedNames(ps: seq<CliParameter>): (r: seq<string>)
    reads ps
    ensures |r| == |ps|
    ensures forall k :: 0 <= k < |ps| ==> r[k] == "-" + ps[k].name
  {
    if ps == [] then [] else DashedNames(ps[..|ps| - 1]) + ["-" + ps[|ps| - 1].name]
  }

  /** An overview line lists the dashed names joined by ", ", since a dashed name is never
      empty, and it lists nothing only for a command without parameters. */
  lemma {:induction false} ParamListIsJoined(ps: seq<CliParameter>)
    ensures ParamList(ps) == Join(DashedNames(ps), ", ")
    ensures ParamList(ps) == "" <==> ps == []
  {
    if ps != [] {
      var init := ps[..|ps| - 1];
      ParamListIsJoined(init);
      var names := DashedNames(ps);
      assert names[..|ps| - 1] == DashedNames(init);
      if init == [] {
        assert names == ["-" + ps[0].name];
      } else {
        assert names == DashedNames(init) + [names[|ps| - 1]];
        JoinSnoc(DashedNames(init), names[|ps| - 1], ", ");
      }
    }
  }

  /** `\n{cmd.Name} {p}\n`. */
  function CommandLine(c: CommandDef): string
    reads c.parameters
  {
    "\n" + c.name + " " + ParamList(c.parameters) + "\n"
  }

  /** One overview line per command, in collection order. */
  function CommandLines(cmds: seq<CommandDef>): string
    reads ParamsOf(cmds)
  {
    if cmds == [] then ""
    else CommandLines(cmds[..|cmds| - 1]) + CommandLine(cmds[|cmds| - 1])
  }

  /** The description header, written only when the description is not blank. */
  function Header(description: string): string {
    if IsBlank(description) then "" else "\nDescription: " + description + "\n\n"
  }

  /** The text of the `help` command. */
  function GlobalHelpText(cmds: seq<CommandDef>, description: string): string
    reads ParamsOf(cmds)
  {
    Header(description) + "Commands:\n" + CommandLines(cmds) + FOOTER
  }

  /** The lines of two lists of commands are the lines of the first, then those of the second. */
  lemma {:induction false} CommandLinesAppend(a: seq<CommandDef>, b: seq<CommandDef>)
    ensures CommandLines(a + b) == CommandLines(a) + CommandLines(b)
  {
    if b == [] {
      assert a + b == a;
    } else {
      var init := b[..|b| - 1];
      assert (a + b)[..|a + b| - 1] == a + init;
      assert (a + b)[|a + b| - 1] == b[|b| - 1];
      CommandLinesAppend(a, init);
    }
  }

  /** Text followed by the lines of the first `c` commands, then the next line, is the text
      followed by the lines of the first `c + 1`. */
  lemma CommandLinesStep(txt: string, cmds: seq<CommandDef>, c: nat)
    requires c < |cmds|
    ensures txt + CommandLines(cmds[..c]) + CommandLine(cmds[c]) == txt + CommandLines(cmds[..c + 1])
  {
    CommandLinesSnoc(cmds, c);
    ConcatAssociates(txt, CommandLines(cmds[..c]), CommandLine(cmds[c]));
  }

  /** Every command has its own line, after the lines of the commands registered before it and
      before the lines of those registered after it. */
  lemma CommandLinesInOrder(cmds: seq<CommandDef>, i: nat)
    requires i < |cmds|
    ensures CommandLines(cmds) == CommandLines(cmds[..i]) + CommandLine(cmds[i]) + CommandLines(cmds[i + 1..])
  {
    assert cmds == cmds[..i + 1] + cmds[i + 1..];
    CommandLinesAppend(cmds[..i + 1], cmds[i + 1..]);
    CommandLinesSnoc(cmds, i);
  }

  /** The lines of the first `c + 1` commands: those of the first `c`, then the next. */
  lemma CommandLinesSnoc(cmds: seq<CommandDef>, c: nat)
    requires c < |cmds|
    ensures CommandLines(cmds[..c + 1]) == CommandLines(cmds[..c]) + CommandLine(cmds[c])
  {
    assert cmds[..c + 1][..c] == cmds[..c];
  }

  /** The overview opens with the description header exactly when the description is not
      blank, otherwise with `Commands:`, and it always ends with the `-help` footer. */
  lemma GlobalHelpLayout(cmds: seq<CommandDef>, description: string)
    ensures var text := GlobalHelpText(cmds, description);
      !IsBlank(description) <==> "\nDescription: " + description + "\n\n" <= text
    ensures var text := GlobalHelpText(cmds, description);
      IsBlank(description) <==> "Commands:\n" <= text
    ensures var text := GlobalHelpText(cmds, description);
      |text| >= |FOOTER| && text[|text| - |FOOTER|..] == FOOTER
  {
    var header := "\nDescription: " + description + "\n\n";
    var commands := "Commands:\n";
    var lines := CommandLines(cmds);
    var text := GlobalHelpText(cmds, description);
    assert text == Header(description) + commands + lines + FOOTER;
    PrefixOfAppend(commands, lines, FOOTER, "");
    SuffixOfAppend(Header(description) + commands + lines, FOOTER);
    if IsBlank(description) {
      assert text == commands + lines + FOOTER;
      FirstCharDiffers(header, text);
    } else {
      PrefixOfAppend(header, commands, lines, FOOTER);
      FirstCharDiffers(commands, text);
    }
  }

  lemma SuffixOfAppend(a: string, b: string)
    ensures |a + b| >= |b| && (a + b)[|a + b| - |b|..] == b
  {
  }

  /** A string is no prefix of a text that starts with another character. */
  lemma FirstCharDiffers(a: string, text: string)
    requires a != [] && text != [] && a[0] != text[0]
    ensures !(a <= text)
  {
  }

  // ---------------------------------------------------------------- the page of one command

  /** The description line under its label, written only when the description is not blank. */
  function DescriptionLine(tag: string, description: string): string {
    if IsBlank(description) then "" else tag + description + "\n"
  }

  /** The alias line under its label, written only when there are aliases. */
  function AliasLine(tag: string, aliases: seq<string>): string {
    if |aliases| > 0 then tag + CommaJoin(aliases) + "\n" else ""
  }

  /** The section of one parameter. */
  function ParameterSection(p: CliParameter): string
    reads p
  {
    ("\n\tParameter: " + p.name + "\n") + ("\tData Type: " + p.dataType.name + "\n") +
    AliasLine("\tAliases: ", p.aliases) + DescriptionLine("\tDescription: ", p.description)
  }

  /** The sections of the parameters, in declared order. */
  function ParameterSections(ps: seq<CliParameter>): string
    reads ps
  {
    if ps == [] then "" else ParameterSections(ps[..|ps| - 1]) + ParameterSection(ps[|ps| - 1])
  }

  /** The text of `cmd -help` for a command that exists. */
  function CommandHelpText(def: CommandDef): string
    reads def.parameters
  {
    ("\nCommand: " + def.name + "\n") +
    AliasLine("Aliases: ", def.aliases) +
    DescriptionLine("Description: ", def.description) +
    (if |def.parameters| > 0 then "\nParameters:\n" + ParameterSections(def.parameters) else "")
  }

  lemma {:induction false} ParameterSectionsAppend(a: seq<CliParameter>, b: seq<CliParameter>)
    ensures ParameterSections(a + b) == ParameterSections(a) + ParameterSections(b)
  {
    if b == [] {
      assert a + b == a;
    } else {
      var init := b[..|b| - 1];
      assert (a + b)[..|a + b| - 1] == a + init;
      assert (a + b)[|a + b| - 1] == b[|b| - 1];
      ParameterSectionsAppend(a, init);
      ConcatAssociates(ParameterSections(a), ParameterSections(init), ParameterSection(b[|b| - 1]));
    }
  }

  /** Each parameter's section follows those of the parameters declared before it and comes
      before those declared after it. */
  lemma ParameterSectionsInOrder(ps: seq<CliParameter>, i: nat)
    requires i < |ps|
    ensures ParameterSections(ps) ==
      ParameterSections(ps[..i]) + ParameterSection(ps[i]) + ParameterSections(ps[i + 1..])
  {
    assert ps == ps[..i + 1] + ps[i + 1..];
    ParameterSectionsAppend(ps[..i + 1], ps[i + 1..]);
    ParameterSectionsSnoc(ps, i);
  }

  /** The sections of the first `q + 1` parameters: those of the first `q`, then the next. */
  lemma ParameterSectionsSnoc(ps: seq<CliParameter>, q: nat)
    requires q < |ps|
    ensures ParameterSections(ps[..q + 1]) == ParameterSections(ps[..q]) + ParameterSection(ps[q])
  {
    assert ps[..q + 1][..q] == ps[..q];
  }

  /** Text followed by the sections of the first `q` parameters, then the next section, is
      the text followed by the sections of the first `q + 1`. */
  lemma ParameterSectionsStep(txt: string, ps: seq<CliParameter>, q: nat)
    requires q < |ps|
    ensures txt + ParameterSections(ps[..q]) + ParameterSection(ps[q]) == txt + ParameterSections(ps[..q + 1])
  {
    ParameterSectionsSnoc(ps, q);
    ConcatAssociates(txt, ParameterSections(ps[..q]), ParameterSection(ps[q]));
  }

  lemma ConcatAssociates(a: string, b: string, c: string)
    ensures a + (b + c) == a + b + c
  {
  }

  lemma PrefixOfAppend(a: string, b: string, c: string, d: string)
    ensures a <= a + b + c + d
  {
    assert (a + b + c + d)[..|a|] == a;
  }

  /** The page opens with the command's name, and a parameter's section with the parameter's
      name and its type name. */
  lemma CommandHelpOpening(def: CommandDef, p: CliParameter)
    ensures "\nCommand: " + def.name + "\n" <= CommandHelpText(def)
    ensures ("\n\tParameter: " + p.name + "\n") + ("\tData Type: " + p.dataType.name + "\n") <= ParameterSection(p)
  {
    PrefixOfAppend("\nCommand: " + def.name + "\n", AliasLine("Aliases: ", def.aliases),
      DescriptionLine("Description: ", def.description),
      if |def.parameters| > 0 then "\nParameters:\n" + ParameterSections(def.parameters) else "");
    var top := ("\n\tParameter: " + p.name + "\n") + ("\tData Type: " + p.dataType.name + "\n");
    PrefixOfAppend(top, AliasLine("\tAliases: ", p.aliases), DescriptionLine("\tDescription: ", p.description), "");
  }

  /** The alias line is there exactly when there are aliases: the text after the command line
      starts with `Aliases: ` then, and with a description, the parameters or nothing
      otherwise. */
  lemma CommandHelpAliases(def: CommandDef)
    ensures var head := "\nCommand: " + def.name + "\n";
      |def.aliases| > 0 <==> head + "Aliases: " <= CommandHelpText(def)
  {
    var head := "\nCommand: " + def.name + "\n";
    var aliases := AliasLine("Aliases: ", def.aliases);
    var description := DescriptionLine("Description: ", def.description);
    var params := if |def.parameters| > 0 then "\nParameters:\n" + ParameterSections(def.parameters) else "";
    assert CommandHelpText(def) == head + aliases + description + params;
    if |def.aliases| > 0 {
      assert aliases == "Aliases: " + (CommaJoin(def.aliases) + "\n");
      LabelledPrefix(head, "Aliases: ", CommaJoin(def.aliases) + "\n", description, params);
    } else {
      assert aliases == "";
      assert description == "" || description[0] == 'D';
      assert params == "" || params[0] == '\n';
      NoLabelledPrefix(head, description, params);
    }
  }

  lemma LabelledPrefix(head: string, tag: string, value: string, b: string, c: string)
    ensures head + tag <= head + (tag + value) + b + c
  {
    assert head + (tag + value) + b + c == (head + tag) + (value + b + c);
    assert ((head + tag) + (value + b + c))[..|head + tag|] == head + tag;
  }

  lemma NoLabelledPrefix(head: string, b: string, c: string)
    requires b == "" || b[0] == 'D'
    requires c == "" || c[0] == '\n'
    ensures !(head + "Aliases: " <= head + "" + b + c)
  {
    var text := head + "" + b + c;
    var prefix := head + "Aliases: ";
    assert prefix[|head|] == 'A';
    if |text| > |head| {
      assert text[|head|] == (b + c)[0];
      assert (b + c)[0] != 'A';
    }
  }
}
