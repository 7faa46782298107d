/** The few `java.lang.String` and `java.lang.Integer` operations the back end relies on:
    decimal printing (`String.valueOf(int)`), `Integer.parseInt`, `lastIndexOf`, `contains`,
    `replace`, splitting generated code into lines and joining lines again. Strings are Dafny
    `seq<char>`; only ASCII behaviour is modelled. */
module Strings {
  import opened Wrappers
  import Int32

  predicate IsDigit(c: char) {
    '0' <= c <= '9'
  }

  predicate AllDigits(s: string) {
    forall i :: 0 <= i < |s| ==> IsDigit(s[i])
  }

  function DigitValue(c: char): (d: nat)
    requires IsDigit(c)
    ensures d < 10
  {
    (c as int) - ('0' as int)
  }

  function DigitChar(d: nat): (c: char)
    requires d < 10
    ensures IsDigit(c) && DigitValue(c) == d
  {
    (('0' as int) + d) as char
  }

  /** Decimal text of `n`, most significant digit first, without leading zeros. */
  function NatToString(n: nat): (s: string)
    ensures |s| >= 1 && AllDigits(s)
    ensures (s[0] == '0') == (n == 0)
    ensures n == 0 ==> s == "0"
  {
    if n < 10 then [DigitChar(n)] else NatToString(n / 10) + [DigitChar(n % 10)]
  }

  /** `String.valueOf(int)`: a minus sign, when negative, before the magnitude. */
  function IntToString(v: int): (s: string)
    ensures |s| >= 1
    ensures (s[0] == '-') == (v < 0)
    ensures v < 0 ==> s[1..] == NatToString(-v)
    ensures v >= 0 ==> s == NatToString(v)
  {
    if v < 0 then "-" + NatToString(-v) else NatToString(v)
  }

  /** The number a string of decimal digits denotes. */
  function DigitsValue(s: string): nat
    requires AllDigits(s)
  {
    if s == [] then 0 else DigitsValue(s[..|s| - 1]) * 10 + DigitValue(s[|s| - 1])
  }

  /** `Integer.parseInt(s)`: an optional sign and at least one digit, whose value fits in an
      `int`; anything else raises `NumberFormatException` (here `None`). */
  function ParseInt(s: string): (r: Option<int>)
    ensures r.Some? ==> Int32.IsInt32(r.value)
    ensures r.Some? ==> |s| >= 1 && (IsDigit(s[0]) || s[0] == '-' || s[0] == '+')
  {
    if |s| == 0 then None
    else
      var start := if s[0] == '-' || s[0] == '+' then 1 else 0;
      var digits := s[start..];
      if |digits| == 0 || !AllDigits(digits) then None
      else
        var m: int := DigitsValue(digits);
        var v := if s[0] == '-' then -m else m;
        if Int32.IsInt32(v) then Some(v) else None
  }

  lemma {:induction false} DigitsValueOfNatToString(n: nat)
    ensures DigitsValue(NatToString(n)) == n
    decreases n
  {
    if n >= 10 {
      var s := NatToString(n);
      assert s[..|s| - 1] == NatToString(n / 10);
      DigitsValueOfNatToString(n / 10);
    }
  }

  /** Printing an `int` and parsing it back gives the same `int`. */
  lemma ParseIntOfIntToString(v: int)
    requires Int32.IsInt32(v)
    ensures ParseInt(IntToString(v)) == Some(v)
  {
    var s := IntToString(v);
    if v < 0 {
      DigitsValueOfNatToString(-v);
    } else {
      DigitsValueOfNatToString(v);
    }
  }

  /** Different numbers print differently. */
  lemma IntToStringInjective(a: int, b: int)
    requires Int32.IsInt32(a) && Int32.IsInt32(b)
    requires IntToString(a) == IntToString(b)
    ensures a == b
  {
    ParseIntOfIntToString(a);
    ParseIntOfIntToString(b);
  }

  /** A decimal is one word. */
  lemma NoSpaceInNumeral(v: int)
    ensures ' ' !in IntToString(v)
  {
    var s := IntToString(v);
    if v < 0 {
      assert s == "-" + NatToString(-v);
      assert forall i :: 1 <= i < |s| ==> s[i] == NatToString(-v)[i - 1];
    }
  }

  /** `s.lastIndexOf(c)`: the last position holding `c`, or -1. */
  function LastIndexOf(s: string, c: char): (r: int)
    ensures -1 <= r < |s|
    ensures r == -1 <==> c !in s
    ensures r >= 0 ==> s[r] == c && forall j :: r < j < |s| ==> s[j] != c
  {
    if s == [] then -1
    else if s[|s| - 1] == c then |s| - 1
    else LastIndexOf(s[..|s| - 1], c)
  }

  /** The first position holding `c`, or -1. */
  function IndexOf(s: string, c: char): (r: int)
    ensures -1 <= r < |s|
    ensures r == -1 <==> c !in s
    ensures r >= 0 ==> s[r] == c && forall j :: 0 <= j < r ==> s[j] != c
  {
    if s == [] then -1
    else if s[0] == c then 0
    else var k := IndexOf(s[1..], c); if k == -1 then -1 else k + 1
  }

  /** Where `c` first occurs in a concatenation. */
  lemma IndexOfAppend(a: string, b: string, c: char)
    ensures c in a ==> IndexOf(a + b, c) == IndexOf(a, c)
    ensures c !in a ==> IndexOf(a + b, c) == (if c in b then |a| + IndexOf(b, c) else -1)
  {
    var k := IndexOf(a + b, c);
    if c in a {
      var i := IndexOf(a, c);
      assert (a + b)[i] == c;
    } else if c in b {
      var j := IndexOf(b, c);
      assert (a + b)[|a| + j] == c;
      forall i | 0 <= i < |a| + j ensures (a + b)[i] != c {
        if i >= |a| { assert (a + b)[i] == b[i - |a|]; }
      }
    } else {
      assert c !in a + b;
    }
  }

  /** `s.contains(t)`. */
  predicate Contains(s: string, t: string)
    decreases |s|
  {
    |t| <= |s| && (s[..|t|] == t || (|s| > 0 && Contains(s[1..], t)))
  }

  /** `s.replace(String.valueOf(c), "")`: every occurrence of `c` removed. */
  function RemoveChar(s: string, c: char): (r: string)
    ensures c !in r
    ensures forall x :: x != c ==> (x in r <==> x in s)
    ensures |r| <= |s|
  {
    if s == [] then []
    else (if s[0] == c then [] else [s[0]]) + RemoveChar(s[1..], c)
  }

  /** `s.replaceAll("^L|;$", "")`: a leading `L` and a trailing `;` removed. */
  function StripRef(s: string): (r: string)
    ensures |s| >= 2 && s[0] == 'L' && s[|s| - 1] == ';' ==> r == s[1..|s| - 1]
    ensures (|s| == 0 || (s[0] != 'L' && s[|s| - 1] != ';')) ==> r == s
  {
    var start := if |s| > 0 && s[0] == 'L' then 1 else 0;
    var end := if |s| > 0 && s[|s| - 1] == ';' && |s| - 1 >= start then |s| - 1 else |s|;
    s[start..end]
  }

  /** `s.toLowerCase()` on ASCII letters. */
  function ToLower(s: string): (r: string)
    ensures |r| == |s|
    ensures forall i :: 0 <= i < |s| ==> r[i] == (if 'A' <= s[i] <= 'Z' then (s[i] as int + 32) as char else s[i])
  {
    if s == [] then []
    else [if 'A' <= s[0] <= 'Z' then (s[0] as int + 32) as char else s[0]] + ToLower(s[1..])
  }

  /** The pieces of `s` between newline characters, as a line reader returns them: a final
      newline does not start an empty last line, and the empty text has no lines. */
  function Lines(s: string): (ls: seq<string>)
    ensures forall i :: 0 <= i < |ls| ==> '\n' !in ls[i]
    decreases |s|
  {
    if s == [] then []
    else
      var k := IndexOf(s, '\n');
      if k == -1 then [s] else [s[..k]] + Lines(s[k + 1..])
  }

  /** Every line followed by a newline. */
  function Terminated(ls: seq<string>): string {
    if ls == [] then "" else ls[0] + "\n" + Terminated(ls[1..])
  }

  /** `String.join(sep, ls)`. */
  function Join(ls: seq<string>, sep: string): string {
    if ls == [] then "" else if |ls| == 1 then ls[0] else ls[0] + sep + Join(ls[1..], sep)
  }

  /** Text that ends in a newline (or is empty) is exactly its lines, each terminated again. */
  lemma {:induction false} TerminatedLines(s: string)
    requires s == [] || s[|s| - 1] == '\n'
    ensures Terminated(Lines(s)) == s
    decreases |s|
  {
    if s != [] {
      var k := IndexOf(s, '\n');
      assert k >= 0 by { assert s[|s| - 1] in s; }
      var line, rest := s[..k], s[k + 1..];
      assert rest == [] || rest[|rest| - 1] == '\n';
      assert Lines(s) == [line] + Lines(rest);
      TerminatedLines(rest);
      TerminatedCons(line, Lines(rest));
      SplitAt(s, k);
    }
  }

  lemma TerminatedCons(line: string, ls: seq<string>)
    ensures Terminated([line] + ls) == line + "\n" + Terminated(ls)
  {
    assert ([line] + ls)[1..] == ls;
  }

  lemma SplitAt(s: string, k: int)
    requires 0 <= k < |s| && s[k] == '\n'
    ensures s[..k] + "\n" + s[k + 1..] == s
  {
  }

  /** A first line that holds no newline is split off as the first of the lines. */
  lemma LinesCons(line: string, rest: string)
    requires '\n' !in line
    ensures Lines(line + "\n" + rest) == [line] + Lines(rest)
  {
    var s := line + "\n" + rest;
    assert s == line + ("\n" + rest);
    IndexOfAppend(line, "\n" + rest, '\n');
    assert s[|line|] == '\n';
    assert s[..|line|] == line;
    assert s[|line| + 1..] == rest;
  }

  /** Lines that hold no newline are recovered from their terminated text. */
  lemma {:induction false} LinesOfTerminated(ls: seq<string>)
    requires forall i :: 0 <= i < |ls| ==> '\n' !in ls[i]
    ensures Lines(Terminated(ls)) == ls
    decreases |ls|
  {
    if ls != [] {
      var rest := Terminated(ls[1..]);
      assert Terminated(ls) == ls[0] + "\n" + rest;
      LinesCons(ls[0], rest);
      LinesOfTerminated(ls[1..]);
    }
  }

  lemma ConcatAssoc(a: string, b: string, c: string)
    ensures a + b + c == a + (b + c)
  {
  }

  /** Joining one more piece onto a non-empty list adds the separator and the piece. */
  lemma {:induction false} JoinSnoc(ls: seq<string>, x: string, sep: string)
    requires ls != []
    ensures Join(ls + [x], sep) == Join(ls, sep) + sep + x
    decreases |ls|
  {
    if |ls| == 1 {
      assert (ls + [x])[1..] == [x];
    } else {
      assert (ls + [x])[1..] == ls[1..] + [x];
      JoinSnoc(ls[1..], x, sep);
    }
  }
}
