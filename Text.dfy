/**
 * The string operations of the .NET base library that the command pipeline relies on:
 * `ToLower`, `Replace("-", "")`, `string.IsNullOrWhiteSpace`, `int.ToString`,
 * `int.TryParse` and `Split(' ')`.
 */
module Text {
  import opened Common

  /** The range of C#'s `int`. */
  const INT32_MIN: int := -0x8000_0000
  const INT32_MAX: int := 0x7FFF_FFFF

  type int32 = x: int | INT32_MIN <= x <= INT32_MAX

  // ---------------------------------------------------------------- lower-casing

  /** `char.ToLower` restricted to ASCII: 'A'..'Z' map to 'a'..'z', everything else is kept. */
  function LowerChar(c: char): char {
    if 'A' <= c <= 'Z' then (c as int - 'A' as int + 'a' as int) as char else c
  }

  predicate IsUpper(c: char) {
    'A' <= c <= 'Z'
  }

  /** `string.ToLower`, character by character. */
  function Lower(s: string): (r: string)
    ensures |r| == |s|
    ensures forall i :: 0 <= i < |s| ==> r[i] == LowerChar(s[i])
  {
    seq(|s|, i requires 0 <= i < |s| => LowerChar(s[i]))
  }

  /** A lower-cased string holds no upper-case letter, so lower-casing it again changes nothing. */
  lemma LowerIsLower(s: string)
    ensures forall i :: 0 <= i < |Lower(s)| ==> !IsUpper(Lower(s)[i])
    ensures Lower(Lower(s)) == Lower(s)
  {
    var t := Lower(s);
    assert forall i :: 0 <= i < |t| ==> Lower(t)[i] == t[i];
  }

  /** No string lower-cases to a string that contains an upper-case letter. */
  lemma NoLowerResultHasUpper(s: string, t: string)
    requires exists i :: 0 <= i < |t| && IsUpper(t[i])
    ensures Lower(s) != t
  {
    LowerIsLower(s);
  }

  // ---------------------------------------------------------------- dashes

  /** `s.Replace("-", "")`: every dash is deleted, wherever it stands. */
  function RemoveDashes(s: string): string {
    if s == [] then []
    else (if s[0] == '-' then [] else [s[0]]) + RemoveDashes(s[1..])
  }

  /** No dash is left, nothing else is added, and a string without dashes is unchanged. */
  lemma {:induction false} RemoveDashesRemovesAll(s: string)
    ensures '-' !in RemoveDashes(s)
    ensures |RemoveDashes(s)| <= |s|
    ensures '-' !in s ==> RemoveDashes(s) == s
  {
    if s != [] {
      RemoveDashesRemovesAll(s[1..]);
      assert '-' !in s ==> s == [s[0]] + s[1..];
    }
  }

  /** Deleting dashes distributes over concatenation, so it deletes them everywhere. */
  lemma {:induction false} RemoveDashesAppend(a: string, b: string)
    ensures RemoveDashes(a + b) == RemoveDashes(a) + RemoveDashes(b)
  {
    if a == [] {
      assert a + b == b;
    } else {
      assert (a + b)[1..] == a[1..] + b;
      RemoveDashesAppend(a[1..], b);
    }
  }

  // ---------------------------------------------------------------- white space

  /** `char.IsWhiteSpace`: the Unicode space separators, line and paragraph separators,
      U+0009 to U+000D, U+0085 and U+00A0. */
  predicate IsWhiteSpace(c: char) {
    || c == ' '
    || '\t' <= c <= '\r'
    || c == '\U{85}'
    || c == '\U{A0}'
    || c == '\U{1680}'
    || '\U{2000}' <= c <= '\U{200A}'
    || c == '\U{2028}'
    || c == '\U{2029}'
    || c == '\U{202F}'
    || c == '\U{205F}'
    || c == '\U{3000}'
  }

  /** `string.IsNullOrWhiteSpace`; a null string is represented by "", which it treats alike. */
  predicate IsBlank(s: string) {
    forall i :: 0 <= i < |s| ==> IsWhiteSpace(s[i])
  }

  // ---------------------------------------------------------------- decimal numerals

  predicate IsDigit(c: char) {
    '0' <= c <= '9'
  }

  predicate AllDigits(s: string) {
    forall i :: 0 <= i < |s| ==> IsDigit(s[i])
  }

  function DigitChar(d: nat): (c: char)
    requires d < 10
    ensures IsDigit(c)
  {
    ('0' as int + d) as char
  }

  function DigitValue(c: char): nat
    requires IsDigit(c)
  {
    c as int - '0' as int
  }

  /** `n.ToString()` for a non-negative `int`: its decimal digits, most significant first. */
  function NatToString(n: nat): (r: string)
    ensures |r| >= 1 && AllDigits(r)
    ensures n >= 10 <==> |r| >= 2
  {
    if n < 10 then [DigitChar(n)] else NatToString(n / 10) + [DigitChar(n % 10)]
  }

  /** `i.ToString()` for any `int`, with the minus sign written in front. */
  function IntToString(i: int): string {
    if i < 0 then "-" + NatToString(-i) else NatToString(i)
  }

  /** The value of a string of decimal digits, read most significant first. */
  function DigitsValue(s: string): nat
    requires AllDigits(s)
  {
    if s == [] then 0 else DigitsValue(s[..|s| - 1]) * 10 + DigitValue(s[|s| - 1])
  }

  /** Reading the digits of `n` back gives `n`. */
  lemma {:induction false} DigitsValueOfNatToString(n: nat)
    ensures DigitsValue(NatToString(n)) == n
  {
    var r := NatToString(n);
    if n >= 10 {
      DigitsValueOfNatToString(n / 10);
      assert r[..|r| - 1] == NatToString(n / 10);
    } else {
      assert r[..0] == [];
    }
  }

  /** Different numbers have different numerals, so positional keys never collide. */
  lemma {:induction false} NatToStringInjective(a: nat, b: nat)
    requires NatToString(a) == NatToString(b)
    ensures a == b
  {
    DigitsValueOfNatToString(a);
    DigitsValueOfNatToString(b);
  }

  // ---------------------------------------------------------------- int.TryParse

  /** The white space `NumberStyles.Integer` skips around a number: U+0009 to U+000D and U+0020. */
  predicate IsNumberWhite(c: char) {
    '\t' <= c <= '\r' || c == ' '
  }

  function TrimStart(s: string): (r: string)
    ensures |r| <= |s|
    ensures r == s[|s| - |r|..]
    ensures |r| > 0 ==> !IsNumberWhite(r[0])
  {
    if s != [] && IsNumberWhite(s[0]) then TrimStart(s[1..]) else s
  }

  function TrimEnd(s: string): (r: string)
    ensures r <= s
    ensures |r| > 0 ==> !IsNumberWhite(r[|r| - 1])
  {
    if s != [] && IsNumberWhite(s[|s| - 1]) then TrimEnd(s[..|s| - 1]) else s
  }

  /** `int.TryParse(s, out i)` with the invariant culture: optional white space, an optional
      '+' or '-', one or more ASCII digits, optional white space, and a value that fits an `int`. */
  function TryParseInt32(s: string): Option<int32> {
    ParseSigned(TrimEnd(TrimStart(s)))
  }

  /** The sign and digits that remain once the surrounding white space is trimmed. */
  function ParseSigned(t: string): Option<int32> {
    if |t| > 0 && (t[0] == '+' || t[0] == '-') then
      var magnitude := ParseDigits(t[1..]);
      if magnitude.None? then None
      else if t[0] == '-' then (var v: int := 0 - magnitude.value as int; if v >= INT32_MIN then Some(v) else None)
      else (if magnitude.value <= INT32_MAX then Some(magnitude.value) else None)
    else
      var magnitude := ParseDigits(t);
      if magnitude.Some? && magnitude.value <= INT32_MAX then Some(magnitude.value) else None
  }

  function ParseDigits(d: string): Option<nat> {
    if |d| > 0 && AllDigits(d) then Some(DigitsValue(d)) else None
  }

  lemma AllDigitsNotWhite(s: string)
    requires AllDigits(s)
    ensures TrimStart(s) == s && TrimEnd(s) == s
  {
  }

  /** Every `int` survives printing and parsing back. */
  lemma IntToStringRoundTrip(i: int32)
    ensures TryParseInt32(IntToString(i)) == Some(i)
  {
    var m: nat := if i < 0 then -(i as int) else i as int;
    var digits := NatToString(m);
    DigitsValueOfNatToString(m);
    assert ParseDigits(digits) == Some(m);
    if i < 0 {
      var s := "-" + digits;
      assert s[1..] == digits;
      assert TrimStart(s) == s;
      assert TrimEnd(s) == s by {
        assert s[|s| - 1] == digits[|digits| - 1];
      }
      assert ParseSigned(s) == Some(i);
    } else {
      AllDigitsNotWhite(digits);
      assert ParseSigned(digits) == Some(i);
    }
  }

  /** A string that starts with anything but white space, a sign or a digit is no number. */
  lemma NotNumeric(s: string)
    requires s != [] && !IsNumberWhite(s[0]) && !IsDigit(s[0]) && s[0] != '+' && s[0] != '-'
    ensures TryParseInt32(s).None?
  {
    var t := TrimEnd(TrimStart(s));
    assert TrimStart(s) == s;
    if t != [] {
      assert t[0] == s[0];
      assert !AllDigits(t);
    }
  }

  // ---------------------------------------------------------------- Split and Join

  /** `s.Split(sep)`: the pieces between separators, empty ones included. */
  function Split(s: string, sep: char): (parts: seq<string>)
    ensures |parts| >= 1
    ensures forall k :: 0 <= k < |parts| ==> sep !in parts[k]
  {
    if s == [] then [""]
    else
      var rest := Split(s[1..], sep);
      if s[0] == sep then [""] + rest else [[s[0]] + rest[0]] + rest[1..]
  }

  /** `string.Join(sep, parts)`: the pieces with `sep` between neighbours. */
  function Join(parts: seq<string>, sep: string): string {
    if parts == [] then ""
    else if |parts| == 1 then parts[0]
    else parts[0] + sep + Join(parts[1..], sep)
  }

  /** A join starts with the first piece. */
  lemma JoinStart(parts: seq<string>, sep: string)
    requires |parts| >= 1
    ensures parts[0] <= Join(parts, sep)
  {
  }

  /** Joining one more piece puts the separator before it. */
  lemma {:induction false} JoinSnoc(parts: seq<string>, x: string, sep: string)
    requires parts != []
    ensures Join(parts + [x], sep) == Join(parts, sep) + sep + x
  {
    var all := parts + [x];
    assert all[0] == parts[0] && all[1..] == parts[1..] + [x];
    if |parts| == 1 {
      assert all[1..] == [x];
    } else {
      JoinSnoc(parts[1..], x, sep);
    }
  }

  /** Joining the pieces of a split gives the input back. */
  lemma {:induction false} JoinSplit(s: string, sep: char)
    ensures Join(Split(s, sep), [sep]) == s
  {
    if s != [] {
      var rest := Split(s[1..], sep);
      JoinSplit(s[1..], sep);
      if s[0] == sep {
        assert ([""] + rest)[1..] == rest;
      } else {
        var parts := [[s[0]] + rest[0]] + rest[1..];
        if |rest| == 1 {
          assert rest[0] == s[1..] && rest[1..] == [];
          assert [s[0]] + s[1..] == s;
          assert parts == [s];
        } else {
          assert parts[1..] == rest[1..];
          assert Join(rest, [sep]) == rest[0] + [sep] + Join(rest[1..], [sep]);
        }
      }
    }
  }

  lemma {:induction false} SplitNoSeparator(a: string, sep: char)
    requires sep !in a
    ensures Split(a, sep) == [a]
  {
    if a != [] {
      SplitNoSeparator(a[1..], sep);
      assert [a[0]] + a[1..] == a;
    }
  }

  lemma {:induction false} SplitAtSeparator(a: string, sep: char, b: string)
    requires sep !in a
    ensures Split(a + [sep] + b, sep) == [a] + Split(b, sep)
  {
    if a == [] {
      assert (a + [sep] + b)[1..] == b;
    } else {
      var s := a + [sep] + b;
      assert s[1..] == a[1..] + [sep] + b;
      SplitAtSeparator(a[1..], sep, b);
      assert [a[0]] + a[1..] == a;
    }
  }

  /** Splitting a join of separator-free pieces gives the pieces back. */
  lemma {:induction false} SplitJoin(parts: seq<string>, sep: char)
    requires |parts| >= 1
    requires forall k :: 0 <= k < |parts| ==> sep !in parts[k]
    ensures Split(Join(parts, [sep]), sep) == parts
  {
    if |parts| == 1 {
      SplitNoSeparator(parts[0], sep);
    } else {
      SplitJoin(parts[1..], sep);
      SplitAtSeparator(parts[0], sep, Join(parts[1..], [sep]));
      assert [parts[0]] + parts[1..] == parts;
    }
  }
}
