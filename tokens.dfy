/**
 * The string operations the line interpreter (machine.py) relies on: `str.split()` with no
 * separator, `str.isdigit()` and `int()` on a digit string.
 */
module Tokens {

  /** The characters `str.split()` treats as whitespace. */
  predicate IsSpace(c: char)
  {
    ('\t' <= c <= '\r') || ('\U{1c}' <= c <= '\U{1f}') || c == ' ' || c == '\U{85}' || c == '\U{a0}' ||
    c == '\U{1680}' || ('\U{2000}' <= c <= '\U{200a}') || c == '\U{2028}' || c == '\U{2029}' ||
    c == '\U{202f}' || c == '\U{205f}' || c == '\U{3000}'
  }

  /** A piece `str.split()` can return: non-empty and free of whitespace. */
  predicate IsToken(t: string)
  {
    |t| > 0 && forall i :: 0 <= i < |t| ==> !IsSpace(t[i])
  }

  /** Length of the longest whitespace-free prefix of `s`. */
  function WordEnd(s: string): (k: nat)
    ensures k <= |s|
    ensures forall i :: 0 <= i < k ==> !IsSpace(s[i])
    ensures k < |s| ==> IsSpace(s[k])
  {
    if s == [] || IsSpace(s[0]) then 0 else 1 + WordEnd(s[1..])
  }

  /** `line.split()`: the maximal whitespace-free runs of the line, in order. */
  function Split(line: string): (tokens: seq<string>)
    ensures forall i :: 0 <= i < |tokens| ==> IsToken(tokens[i])
    decreases |line|
  {
    if line == [] then []
    else if IsSpace(line[0]) then Split(line[1..])
    else
      var k := WordEnd(line);
      [line[..k]] + Split(line[k..])
  }

  /** The tokens written out with one space between neighbours. */
  function Unsplit(tokens: seq<string>): string
  {
    if tokens == [] then ""
    else if |tokens| == 1 then tokens[0]
    else tokens[0] + " " + Unsplit(tokens[1..])
  }

  lemma {:induction false} WordEndOfToken(t: string, rest: string)
    requires IsToken(t)
    requires rest == [] || IsSpace(rest[0])
    ensures WordEnd(t + rest) == |t|
    decreases |t|
  {
    if |t| > 1 {
      assert (t + rest)[1..] == t[1..] + rest;
      WordEndOfToken(t[1..], rest);
    } else {
      assert (t + rest)[1..] == rest;
    }
  }

  /** Splitting tokens joined by single spaces gives the tokens back. */
  lemma {:induction false} SplitUnsplit(tokens: seq<string>)
    requires forall i :: 0 <= i < |tokens| ==> IsToken(tokens[i])
    ensures Split(Unsplit(tokens)) == tokens
  {
    if tokens == [] {
    } else if |tokens| == 1 {
      var t := tokens[0];
      WordEndOfToken(t, []);
      assert t + [] == t;
      assert t[|t|..] == [];
    } else {
      var t, rest := tokens[0], Unsplit(tokens[1..]);
      var s := t + " " + rest;
      assert s == t + (" " + rest);
      WordEndOfToken(t, " " + rest);
      assert s[..|t|] == t;
      assert s[|t|..] == " " + rest;
      assert (" " + rest)[1..] == rest;
      SplitUnsplit(tokens[1..]);
      assert Split(" " + rest) == Split(rest);
      assert tokens == [t] + tokens[1..];
    }
  }

  /** A whitespace-free run ends where the string does or at the first whitespace after it. */
  lemma {:induction false} WordEndBefore(a: string, rest: string)
    requires rest == [] || IsSpace(rest[0])
    ensures WordEnd(a + rest) == WordEnd(a)
    decreases |a|
  {
    if a == [] {
      assert a + rest == rest;
    } else if !IsSpace(a[0]) {
      assert (a + rest)[1..] == a[1..] + rest;
      WordEndBefore(a[1..], rest);
    }
  }

  /** A single token splits into itself. */
  lemma SplitToken(t: string)
    requires IsToken(t)
    ensures Split(t) == [t]
  {
    SplitUnsplit([t]);
  }

  /**
   * Any whitespace character separates: the tokens of `a`, a whitespace character and `b` are
   * those of `a` followed by those of `b`. With `SplitToken` this fixes `Split` on every line,
   * whatever whitespace leads, trails or repeats.
   */
  lemma {:induction false} SplitAtSpace(a: string, c: char, b: string)
    requires IsSpace(c)
    ensures Split(a + [c] + b) == Split(a) + Split(b)
    decreases |a|
  {
    var s := a + [c] + b;
    if a == [] {
      assert s[1..] == b;
    } else if IsSpace(a[0]) {
      assert s[1..] == a[1..] + [c] + b;
      SplitAtSpace(a[1..], c, b);
    } else {
      var k := WordEnd(a);
      assert s == a + ([c] + b);
      WordEndBefore(a, [c] + b);
      assert s[..k] == a[..k];
      assert s[k..] == a[k..] + [c] + b;
      SplitAtSpace(a[k..], c, b);
    }
  }

  /** A statement line of the interpreter splits into variable, operator and value, newline or not. */
  lemma SplitExample()
    ensures Split("x -> 3") == ["x", "->", "3"]
    ensures Split("x -> 3\n") == ["x", "->", "3"]
    ensures Split(" \t\n") == []
  {
    assert Unsplit(["x", "->", "3"]) == "x -> 3";
    SplitUnsplit(["x", "->", "3"]);
    SplitAtSpace("x -> 3", '\n', "");
    assert "x -> 3" + ['\n'] + "" == "x -> 3\n";
    assert Split(" \t\n") == Split("\t\n") == Split("\n") == Split("");
  }

  predicate IsDigit(c: char)
  {
    '0' <= c <= '9'
  }

  /** `s.isdigit()` (for ASCII digits): non-empty and made of digits only. */
  predicate IsDigits(s: string)
  {
    |s| > 0 && forall i :: 0 <= i < |s| ==> IsDigit(s[i])
  }

  /** `int(s)` for a digit string, read most significant digit first. */
  function DigitsValue(s: string): nat
  {
    if s == [] then 0 else 10 * DigitsValue(s[..|s| - 1]) + (if IsDigit(s[|s| - 1]) then (s[|s| - 1] - '0') as nat else 0)
  }

  /** The decimal numeral of n, without sign or leading zeros. */
  function Show(n: nat): (s: string)
    ensures IsDigits(s)
  {
    if n < 10 then [('0' as int + n) as char] else Show(n / 10) + [('0' as int + n % 10) as char]
  }

  /** `int(str(n)) == n` for every natural number n. */
  lemma {:induction false} DigitsValueShow(n: nat)
    ensures DigitsValue(Show(n)) == n
  {
    var s := Show(n);
    if n >= 10 {
      DigitsValueShow(n / 10);
      assert s[..|s| - 1] == Show(n / 10);
    } else {
      assert s[..|s| - 1] == [];
    }
  }
}
