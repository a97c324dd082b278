/**
 * What `CliManager.Parse` computes, as functions: the state machine its loop runs over the
 * tokens after the command name, and the whole parse of a token array or a command line.
 * `CliManager.Parse` and `CliManager.ParseLine` are proved to compute exactly these.
 */
module Tokenizer {
  import opened Common
  import opened Text
  import opened Models

  const UNREADABLE_NAME: Error := Thrown(BuildCliParseException, "Unable to read parameter name.")
  const UNREADABLE_COMMAND: Error := Thrown(BuildCliParseException, "Failed to read command.")

  /** The loop's variables: `cmdParams`, `readingParam` and `curParamName`. */
  datatype ScanState = ScanState(params: RawParams, readingParam: bool, curParamName: string)

  const START: ScanState := ScanState([], false, "")

  /** A token that stops the parse: an empty one (`Substring(0, 1)` throws), or a dash-token
      that is blank once its dashes are gone. */
  predicate BadToken(x: string) {
    x == "" || (x[0] == '-' && IsBlank(RemoveDashes(x)))
  }

  function TokenError(x: string): Error
    requires BadToken(x)
  {
    if x == "" then Fault(ArgumentOutOfRange) else UNREADABLE_NAME
  }

  /** The pending name recorded as a flag, as happens when another dash-token follows it. */
  function FlushPending(st: ScanState): (params: RawParams)
    requires DistinctKeys(st.params)
  {
    if st.readingParam then Put(st.params, st.curParamName, "") else st.params
  }

  /** One pass of the loop body, for a token after the command name. */
  function Step(st: ScanState, x: string): (r: Result<ScanState>)
    requires DistinctKeys(st.params)
    ensures r.Failure? <==> BadToken(x)
    ensures r.Failure? ==> r.error == TokenError(x)
    ensures r.Success? ==> DistinctKeys(r.value.params)
  {
    if x == "" then Failure(Fault(ArgumentOutOfRange))
    else if st.readingParam && x[0] != '-' then
      Success(ScanState(Put(st.params, st.curParamName, x), false, st.curParamName))
    else
      var params := FlushPending(st);
      if x[0] == '-' then
        var name := RemoveDashes(x);
        if IsBlank(name) then Failure(UNREADABLE_NAME) else Success(ScanState(params, true, name))
      else
        Success(ScanState(Put(params, NatToString(|params| + 1), x), false, st.curParamName))
  }

  /** The loop run over `ts`, the tokens after the command name, stopping at the first error. */
  function Scan(ts: seq<string>): (r: Result<ScanState>)
    ensures r.Success? ==> DistinctKeys(r.value.params)
  {
    if ts == [] then Success(START)
    else
      match Scan(ts[..|ts| - 1])
      case Failure(e) => Failure(e)
      case Success(st) => Step(st, ts[|ts| - 1])
  }

  /** `Parse(string[])`. */
  function Tokenize(ary: seq<string>): Result<ParseResult> {
    if ary == [] then Success(ParseResult("", [], false))
    else if Lower(ary[0]) == "help" then Success(ParseResult("help", [], true))
    else if |ary| >= 2 && RemoveDashes(Lower(ary[1])) == "help" then Success(ParseResult(ary[0], [], true))
    else
      match Scan(ary[1..])
      case Failure(e) => Failure(e)
      case Success(st) => Success(ParseResult(ary[0], st.params, false))
  }

  /** `Parse(string)`. */
  function TokenizeLine(cmdString: string): Result<ParseResult> {
    if IsBlank(cmdString) then Failure(UNREADABLE_COMMAND) else Tokenize(Split(cmdString, ' '))
  }

  // ---------------------------------------------------------------- help requests

  /** A parse is a help request exactly when the first token is `help` in any case, or the
      second token is `help` once lower-cased and stripped of every dash; a help request has
      no raw parameters and names `help` or the first token. */
  lemma TokenizeHelp(ary: seq<string>)
    ensures (Tokenize(ary).Success? && Tokenize(ary).value.help) <==>
      (|ary| >= 1 && Lower(ary[0]) == "help") ||
      (|ary| >= 2 && RemoveDashes(Lower(ary[1])) == "help")
    ensures |ary| >= 1 && Lower(ary[0]) == "help" ==>
      Tokenize(ary) == Success(ParseResult("help", [], true))
    ensures |ary| >= 2 && Lower(ary[0]) != "help" && RemoveDashes(Lower(ary[1])) == "help" ==>
      Tokenize(ary) == Success(ParseResult(ary[0], [], true))
  {
  }

  /** An empty token array, and a lone command name, parse to no raw parameters. */
  lemma TokenizeCommandOnly(cmd: string)
    requires Lower(cmd) != "help"
    ensures Tokenize([]) == Success(ParseResult("", [], false))
    ensures Tokenize([cmd]) == Success(ParseResult(cmd, [], false))
  {
    assert [cmd][1..] == [];
  }

  // ---------------------------------------------------------------- errors

  /** The scan fails exactly when some token is bad, and then with the first bad token's error. */
  lemma {:induction false} ScanFails(ts: seq<string>)
    ensures Scan(ts).Failure? <==> exists i :: 0 <= i < |ts| && BadToken(ts[i])
    ensures Scan(ts).Failure? ==>
      exists i :: (0 <= i < |ts| && BadToken(ts[i]) &&
        (forall j :: 0 <= j < i ==> !BadToken(ts[j])) && Scan(ts).error == TokenError(ts[i]))
  {
    if ts != [] {
      var init, x := ts[..|ts| - 1], ts[|ts| - 1];
      assert ts == init + [x];
      ScanSnoc(init, x);
      ScanFails(init);
      assert forall i :: 0 <= i < |init| ==> init[i] == ts[i];
      if Scan(init).Failure? {
        var i :| 0 <= i < |init| && BadToken(init[i]) &&
          (forall j :: 0 <= j < i ==> !BadToken(init[j])) && Scan(init).error == TokenError(init[i]);
        assert ts[i] == init[i];
      } else {
        assert forall i :: 0 <= i < |init| ==> !BadToken(ts[i]);
        if BadToken(x) {
          assert BadToken(ts[|ts| - 1]);
        }
      }
    }
  }

  /** Once a prefix of the tokens fails, the scan of all of them fails with the same error:
      the loop throws and reads no further. */
  lemma {:induction false} ScanStopsAtFailure(ts: seq<string>, n: nat)
    requires n <= |ts| && Scan(ts[..n]).Failure?
    ensures Scan(ts) == Scan(ts[..n])
    decreases |ts|
  {
    if n < |ts| {
      var init := ts[..|ts| - 1];
      assert init[..n] == ts[..n];
      ScanStopsAtFailure(init, n);
    } else {
      assert ts[..n] == ts;
    }
  }

  /** A parse that is no help request is the scan of the tokens after the command name. */
  lemma TokenizeScans(ary: seq<string>, n: nat)
    requires 1 <= n <= |ary| && Lower(ary[0]) != "help"
    requires |ary| >= 2 ==> RemoveDashes(Lower(ary[1])) != "help"
    requires n == |ary| || Scan(ary[1..n]).Failure?
    ensures Scan(ary[1..n]).Failure? ==> Tokenize(ary) == Failure(Scan(ary[1..n]).error)
    ensures Scan(ary[1..n]).Success? ==> Tokenize(ary) == Success(ParseResult(ary[0], Scan(ary[1..n]).value.params, false))
  {
    TokenizeOrdinary(ary);
    var ts := ary[1..];
    assert ts[..n - 1] == ary[1..n];
    if n < |ary| {
      ScanStopsAtFailure(ts, n - 1);
    } else {
      assert ts == ary[1..n];
    }
  }

  // ---------------------------------------------------------------- what a scan records

  /** A scan of `ts` followed by one more token is that token's step after the scan of `ts`. */
  lemma ScanSnoc(ts: seq<string>, x: string)
    ensures Scan(ts + [x]) == match Scan(ts)
      case Failure(e) => Failure(e)
      case Success(st) => Step(st, x)
  {
    assert (ts + [x])[..|ts|] == ts;
  }

  /** The scan of the tokens at positions 1 to `i` is the step of token `i` after the scan of
      those at positions 1 to `i - 1`. */
  lemma ScanNext(ary: seq<string>, i: nat)
    requires 1 <= i < |ary|
    ensures Scan(ary[1..i + 1]) == match Scan(ary[1..i])
      case Failure(e) => Failure(e)
      case Success(st) => Step(st, ary[i])
  {
    var ts := ary[1..i];
    assert ary[1..i + 1] == ts + [ary[i]];
    ScanSnoc(ts, ary[i]);
  }

  /** A bare token with no pending name is stored under the next positional key, the number of
      keys already recorded plus one. */
  lemma PositionalToken(ts: seq<string>, x: string)
    requires Scan(ts).Success? && !Scan(ts).value.readingParam
    requires x != "" && x[0] != '-'
    ensures var st := Scan(ts).value;
      Scan(ts + [x]) == Success(ScanState(Put(st.params, NatToString(|st.params| + 1), x), false, st.curParamName))
  {
    ScanSnoc(ts, x);
  }

  /** A dash-token followed by a bare token records the dash-free name with that token as its
      value, and consumes the token. */
  lemma NamedValue(ts: seq<string>, x: string, y: string)
    requires Scan(ts).Success?
    requires x != "" && x[0] == '-' && !IsBlank(RemoveDashes(x))
    requires y != "" && y[0] != '-'
    ensures var st := Scan(ts).value;
      Scan(ts + [x, y]) == Success(ScanState(Put(FlushPending(st), RemoveDashes(x), y), false, RemoveDashes(x)))
  {
    ScanSnoc(ts, x);
    assert ts + [x, y] == (ts + [x]) + [y];
    ScanSnoc(ts + [x], y);
  }

  /** A dash-token followed by another dash-token records the first name as a flag, with the
      value "", and leaves the second one pending. */
  lemma NamedFlag(ts: seq<string>, x: string, y: string)
    requires Scan(ts).Success?
    requires x != "" && x[0] == '-' && !IsBlank(RemoveDashes(x))
    requires y != "" && y[0] == '-' && !IsBlank(RemoveDashes(y))
    ensures var st := Scan(ts).value;
      Scan(ts + [x, y]) == Success(ScanState(Put(FlushPending(st), RemoveDashes(x), ""), true, RemoveDashes(y)))
  {
    ScanSnoc(ts, x);
    assert ts + [x, y] == (ts + [x]) + [y];
    ScanSnoc(ts + [x], y);
  }

  /** A trailing dash-token is never recorded: nothing flushes the pending name after the loop,
      so the parse does not depend on which well-formed dash-token comes last. */
  lemma TrailingNameDropped(ary: seq<string>, x: string, y: string)
    requires |ary| >= 2 && Lower(ary[0]) != "help" && RemoveDashes(Lower(ary[1])) != "help"
    requires Scan(ary[1..]).Success?
    requires x != "" && x[0] == '-' && !IsBlank(RemoveDashes(x))
    requires y != "" && y[0] == '-' && !IsBlank(RemoveDashes(y))
    ensures Tokenize(ary + [x]) == Success(ParseResult(ary[0], FlushPending(Scan(ary[1..]).value), false))
    ensures Tokenize(ary + [x]) == Tokenize(ary + [y])
  {
    assert (ary + [x])[1..] == ary[1..] + [x];
    assert (ary + [y])[1..] == ary[1..] + [y];
    ScanSnoc(ary[1..], x);
    ScanSnoc(ary[1..], y);
  }

  /** A command name followed by a lone dash-token that asks for no help parses to no raw
      parameters: the trailing name is dropped at position 1 too. */
  lemma TrailingNameAlone(cmd: string, x: string)
    requires Lower(cmd) != "help"
    requires x != "" && x[0] == '-' && !IsBlank(RemoveDashes(x))
    requires RemoveDashes(Lower(x)) != "help"
    ensures Tokenize([cmd, x]) == Success(ParseResult(cmd, [], false))
  {
    var ary := [cmd, x];
    assert ary[1..] == [] + [x];
    ScanSnoc([], x);
    TokenizeOrdinary(ary);
  }

  /** A command name, one well-formed dash-token and a bare value parse to that one named
      entry. */
  lemma OneNamedValue(cmd: string, x: string, v: string)
    requires Lower(cmd) != "help"
    requires x != "" && x[0] == '-' && !IsBlank(RemoveDashes(x))
    requires RemoveDashes(Lower(x)) != "help"
    requires v != "" && v[0] != '-'
    ensures Tokenize([cmd, x, v]) == Success(ParseResult(cmd, [(RemoveDashes(x), v)], false))
  {
    var ary := [cmd, x, v];
    assert ary[1..] == [] + [x, v];
    NamedValue([], x, v);
    TokenizeOrdinary(ary);
  }

  /** Every entry a step leaves was there before or is the one it writes: the pending name
      with a bare token or with "", or the next positional number with a bare token; a name
      left pending is the token without its dashes. */
  lemma StepEntries(st: ScanState, x: string)
    requires DistinctKeys(st.params) && Step(st, x).Success?
    ensures forall e :: e in Step(st, x).value.params ==>
      e in st.params ||
      (st.readingParam && e == (st.curParamName, x) && x[0] != '-') ||
      (st.readingParam && e == (st.curParamName, "")) ||
      (x[0] != '-' && e == (NatToString(|FlushPending(st)| + 1), x))
    ensures Step(st, x).value.readingParam ==>
      x[0] == '-' && Step(st, x).value.curParamName == RemoveDashes(x) && !IsBlank(RemoveDashes(x))
    ensures !Step(st, x).value.readingParam ==> Step(st, x).value.curParamName == st.curParamName
  {
    if st.readingParam && x[0] != '-' {
      PutEntries(st.params, st.curParamName, x);
    } else {
      var params := FlushPending(st);
      if st.readingParam {
        PutEntries(st.params, st.curParamName, "");
      }
      if x[0] != '-' {
        PutEntries(params, NatToString(|params| + 1), x);
      }
    }
  }

  /** Every key a scan records is free of dashes and not blank, whether it is a name or a
      positional number, and so is a pending name. */
  lemma {:induction false} ScanKeys(ts: seq<string>)
    requires Scan(ts).Success?
    ensures var st := Scan(ts).value;
      (forall e :: e in st.params ==> '-' !in e.0 && !IsBlank(e.0)) &&
      (st.readingParam ==> '-' !in st.curParamName && !IsBlank(st.curParamName))
  {
    if ts != [] {
      var init := ts[..|ts| - 1];
      var x := ts[|ts| - 1];
      ScanKeys(init);
      var st := Scan(init).value;
      StepEntries(st, x);
      RemoveDashesRemovesAll(x);
      var key := NatToString(|FlushPending(st)| + 1);
      assert !IsBlank(key) && '-' !in key by {
        assert !IsWhiteSpace(key[0]);
      }
    }
  }

  /** Every value a scan records is "" or a token of the input that does not start with a
      dash, and there are no more entries than tokens. */
  lemma {:induction false} ScanValues(ts: seq<string>)
    requires Scan(ts).Success?
    ensures var st := Scan(ts).value;
      (forall e :: e in st.params ==> e.1 == "" || (e.1 in ts && e.1[0] != '-')) &&
      |st.params| <= |ts|
  {
    if ts != [] {
      var init := ts[..|ts| - 1];
      var x := ts[|ts| - 1];
      ScanValues(init);
      assert forall v :: v in init ==> v in ts;
      assert x in ts;
      StepEntries(Scan(init).value, x);
    }
  }

  /** Bare tokens alone are numbered 1, 2, 3, ... in order. */
  function Numbered(ts: seq<string>): (r: RawParams)
    ensures |r| == |ts|
  {
    if ts == [] then [] else Numbered(ts[..|ts| - 1]) + [(NatToString(|ts|), ts[|ts| - 1])]
  }

  lemma {:induction false} NumberedKeys(ts: seq<string>, i: nat)
    requires i < |ts|
    ensures Numbered(ts)[i] == (NatToString(i + 1), ts[i])
  {
    if i < |ts| - 1 {
      NumberedKeys(ts[..|ts| - 1], i);
    }
  }

  lemma {:induction false} PositionalTokens(ts: seq<string>)
    requires forall i :: 0 <= i < |ts| ==> ts[i] != "" && ts[i][0] != '-'
    ensures Scan(ts) == Success(ScanState(Numbered(ts), false, ""))
  {
    if ts != [] {
      var init := ts[..|ts| - 1];
      var last := ts[|ts| - 1];
      assert ts == init + [last];
      assert forall i :: 0 <= i < |init| ==> init[i] == ts[i];
      PositionalTokens(init);
      var d := Numbered(init);
      var key := NatToString(|ts|);
      PositionalToken(init, last);
      assert !HasKey(d, key) by {
        forall i | 0 <= i < |d|
          ensures d[i].0 != key
        {
          NumberedKeys(init, i);
          if d[i].0 == key {
            NatToStringInjective(i + 1, |ts|);
          }
        }
      }
    }
  }

  /** A help token (`-help`, `--help`, `-he-lp`, ...) after the second position is no help
      request: it is an ordinary parameter named `help`, holding the token after it. */
  lemma LateHelpIsParameter(ary: seq<string>, x: string, v: string)
    requires |ary| >= 2 && Lower(ary[0]) != "help" && RemoveDashes(Lower(ary[1])) != "help"
    requires Scan(ary[1..]).Success?
    requires x != "" && x[0] == '-' && RemoveDashes(x) == "help"
    requires v != "" && v[0] != '-'
    ensures Tokenize(ary + [x, v]) ==
      Success(ParseResult(ary[0], Put(FlushPending(Scan(ary[1..]).value), "help", v), false))
  {
    var ts := ary[1..];
    assert !IsBlank(RemoveDashes(x)) by {
      assert !IsWhiteSpace(RemoveDashes(x)[0]);
    }
    assert (ary + [x, v])[1..] == ts + [x, v];
    NamedValue(ts, x, v);
  }

  // ---------------------------------------------------------------- examples

  lemma LowerUnchanged(s: string)
    requires forall i :: 0 <= i < |s| ==> !IsUpper(s[i])
    ensures Lower(s) == s
  {
  }

  lemma DashedName(name: string)
    requires '-' !in name
    ensures RemoveDashes("-" + name) == name
  {
    assert ("-" + name)[1..] == name;
    RemoveDashesRemovesAll(name);
  }

  /** A well-formed dash-token: its name is dash-free and starts with a non-blank character. */
  lemma GoodDashToken(name: string)
    requires '-' !in name && name != [] && !IsWhiteSpace(name[0])
    requires forall i :: 0 <= i < |name| ==> !IsUpper(name[i])
    ensures !BadToken("-" + name) && RemoveDashes("-" + name) == name
    ensures RemoveDashes(Lower("-" + name)) == name
  {
    DashedName(name);
    LowerUnchanged("-" + name);
  }

  /** An input that is not a help request is its command name and the scan of the rest. */
  lemma TokenizeOrdinary(ary: seq<string>)
    requires |ary| >= 1 && Lower(ary[0]) != "help"
    requires |ary| >= 2 ==> RemoveDashes(Lower(ary[1])) != "help"
    ensures Tokenize(ary) == match Scan(ary[1..])
      case Failure(e) => Failure(e)
      case Success(st) => Success(ParseResult(ary[0], st.params, false))
  {
  }

  lemma ScanNamedValue()
    ensures Scan(["-x", "5"]) == Success(ScanState([("x", "5")], false, "x"))
  {
    GoodDashToken("x");
    ScanSnoc([], "-x");
    assert [] + ["-x"] == ["-x"];
    ScanSnoc(["-x"], "5");
  }

  /** A flag followed by a named value: the flag is recorded with "" when the second
      dash-token arrives, and the value then goes to the second name. */
  lemma ScanFlagThenValue(x: string, y: string, v: string)
    requires x != "" && x[0] == '-' && !IsBlank(RemoveDashes(x))
    requires y != "" && y[0] == '-' && !IsBlank(RemoveDashes(y))
    requires v != "" && v[0] != '-'
    requires RemoveDashes(x) != RemoveDashes(y)
    ensures Scan([x, y, v]) ==
      Success(ScanState([(RemoveDashes(x), ""), (RemoveDashes(y), v)], false, RemoveDashes(y)))
  {
    var flag := [(RemoveDashes(x), "")];
    NamedFlag([], x, y);
    assert [] + [x, y] == [x, y];
    assert Put([], RemoveDashes(x), "") == flag;
    assert Scan([x, y]) == Success(ScanState(flag, true, RemoveDashes(y)));
    ScanSnoc([x, y], v);
    assert [x, y] + [v] == [x, y, v];
    assert !HasKey(flag, RemoveDashes(y));
    var params := [(RemoveDashes(x), ""), (RemoveDashes(y), v)];
    assert Put(flag, RemoveDashes(y), v) == flag + [(RemoveDashes(y), v)] == params;
  }

  /** `cmd -a -b v` for lower-case dash-free names: `a` is a flag and `b` has the value `v`. */
  lemma FlagThenNamedValue(cmd: string, a: string, b: string, v: string)
    requires Lower(cmd) != "help"
    requires '-' !in a && a != [] && !IsWhiteSpace(a[0]) && a != "help"
    requires forall i :: 0 <= i < |a| ==> !IsUpper(a[i])
    requires '-' !in b && b != [] && !IsWhiteSpace(b[0])
    requires forall i :: 0 <= i < |b| ==> !IsUpper(b[i])
    requires v != "" && v[0] != '-' && a != b
    ensures Tokenize([cmd, "-" + a, "-" + b, v]) == Success(ParseResult(cmd, [(a, ""), (b, v)], false))
  {
    var ary := [cmd, "-" + a, "-" + b, v];
    GoodDashToken(a);
    GoodDashToken(b);
    assert ary[1..] == ["-" + a, "-" + b, v];
    ScanFlagThenValue("-" + a, "-" + b, v);
    TokenizeOrdinary(ary);
  }

  lemma ExampleFlagThenValue()
    ensures Tokenize(["cmd", "-flag", "-y", "3"]) ==
      Success(ParseResult("cmd", [("flag", ""), ("y", "3")], false))
  {
    assert "flag"[0] != "help"[0] && "flag"[0] != "y"[0];
    FlagThenNamedValue("cmd", "flag", "y", "3");
    assert "-" + "flag" == "-flag" && "-" + "y" == "-y";
  }

  lemma ExampleNamedValue()
    ensures Tokenize(["cmd", "-x", "5"]) == Success(ParseResult("cmd", [("x", "5")], false))
  {
    var ary := ["cmd", "-x", "5"];
    ScanNamedValue();
    assert ary[1..] == ["-x", "5"];
    GoodDashToken("x");
    assert "-" + "x" == ary[1];
    assert Lower(ary[0]) != "help";
    TokenizeOrdinary(ary);
  }

  lemma ExamplePositional()
    ensures Tokenize(["cmd", "val1", "val2"]) ==
      Success(ParseResult("cmd", [("1", "val1"), ("2", "val2")], false))
  {
    var ary := ["cmd", "val1", "val2"];
    var ts := ["val1", "val2"];
    assert ary[1..] == ts;
    LowerUnchanged("val1");
    assert RemoveDashes(Lower(ary[1])) == RemoveDashes("val1");
    RemoveDashesRemovesAll("val1");
    PositionalTokens(ts);
    NumberedKeys(ts, 0);
    NumberedKeys(ts, 1);
    assert NatToString(1) == "1" && NatToString(2) == "2";
    assert Numbered(ts) == [("1", "val1"), ("2", "val2")];
    assert Lower(ary[0]) != "help";
    TokenizeOrdinary(ary);
  }

  lemma LowerDashedHelp()
    ensures Lower("--HeLp") == "--help"
  {
    var l := Lower("--HeLp");
    assert l[0] == '-' && l[1] == '-' && l[2] == 'h' && l[3] == 'e' && l[4] == 'l' && l[5] == 'p';
  }

  lemma RemoveDashedHelp()
    ensures RemoveDashes("--help") == "help"
  {
    assert "--help" == "-" + "-help";
    assert ("-" + "-help")[1..] == "-help";
    DashedName("help");
  }

  lemma ExampleDashedHelp()
    ensures Tokenize(["cmd", "--HeLp"]) == Success(ParseResult("cmd", [], true))
  {
    LowerDashedHelp();
    RemoveDashedHelp();
  }

  lemma ExampleErrors()
    ensures Tokenize(["cmd", "-", "5"]) == Failure(UNREADABLE_NAME)
    ensures Tokenize(["cmd", "", "5"]) == Failure(Fault(ArgumentOutOfRange))
  {
    var ary1 := ["cmd", "-", "5"];
    var ary2 := ["cmd", "", "5"];
    assert ary1[1..] == ["-", "5"];
    assert ary2[1..] == ["", "5"];
    DashedName("");
    ScanFails(["-", "5"]);
    ScanFails(["", "5"]);
    assert BadToken(["-", "5"][0]) && BadToken(["", "5"][0]);
    assert Lower(ary1[0]) != "help";
    TokenizeOrdinary(ary1);
    TokenizeOrdinary(ary2);
  }

  lemma ExampleLines()
    ensures TokenizeLine("cmd ") == Failure(Fault(ArgumentOutOfRange))
    ensures TokenizeLine("  ") == Failure(UNREADABLE_COMMAND)
  {
    assert !IsWhiteSpace("cmd "[0]);
    assert "cmd " == "cmd" + [' '] + "";
    SplitAtSeparator("cmd", ' ', "");
    var ary := ["cmd", ""];
    assert Split("cmd ", ' ') == ary;
    assert ary[1..] == [""];
    ScanFails([""]);
    assert BadToken([""][0]);
    assert Lower(ary[0]) != "help";
    TokenizeOrdinary(ary);
  }
}
