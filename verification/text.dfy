/**
 * The few string primitives of Python that the movie tool relies on, restricted to ASCII:
 * `str.strip()`, `str.lower()`, `str.isdigit()`, `int()`, `str(n)` and `str.split()`.
 */
module Text {
  import opened Wrappers

  /** `str.isspace()` on one ASCII character: blank, tab, the line breaks and the separators 0x1C-0x1F. */
  predicate IsSpace(c: char) {
    c == ' ' || c == '\t' || c == '\n' || c == '\r' || c == '\U{0B}' || c == '\U{0C}' ||
    ('\U{1C}' <= c <= '\U{1F}')
  }

  predicate AllSpace(s: string) {
    forall i :: 0 <= i < |s| ==> IsSpace(s[i])
  }

  /** No whitespace at either end: what `strip()` leaves behind. */
  predicate IsStripped(s: string) {
    s == [] || (!IsSpace(s[0]) && !IsSpace(s[|s| - 1]))
  }

  /** `s` without its leading whitespace (`str.lstrip()`). */
  function TrimLeft(s: string): (r: string)
    ensures |r| <= |s|
    ensures r == [] || !IsSpace(r[0])
  {
    if s != [] && IsSpace(s[0]) then TrimLeft(s[1..]) else s
  }

  /** `s` without its trailing whitespace (`str.rstrip()`). */
  function TrimRight(s: string): (r: string)
    ensures |r| <= |s|
    ensures r == [] || !IsSpace(r[|r| - 1])
  {
    if s != [] && IsSpace(s[|s| - 1]) then TrimRight(s[..|s| - 1]) else s
  }

  /** `lstrip` keeps a suffix of its input. */
  lemma {:induction false} TrimLeftIsSuffix(s: string)
    ensures TrimLeft(s) == s[|s| - |TrimLeft(s)|..]
  {
    if s != [] && IsSpace(s[0]) {
      TrimLeftIsSuffix(s[1..]);
      assert s[1..][|s| - 1 - |TrimLeft(s)|..] == s[|s| - |TrimLeft(s)|..];
    }
  }

  /** `rstrip` keeps a prefix of its input. */
  lemma {:induction false} TrimRightIsPrefix(s: string)
    ensures TrimRight(s) == s[..|TrimRight(s)|]
  {
    if s != [] && IsSpace(s[|s| - 1]) {
      TrimRightIsPrefix(s[..|s| - 1]);
      assert s[..|s| - 1][..|TrimRight(s)|] == s[..|TrimRight(s)|];
    }
  }

  /** Only whitespace is removed from the left. */
  lemma {:induction false} TrimLeftDropsSpace(s: string)
    ensures forall i :: 0 <= i < |s| - |TrimLeft(s)| ==> IsSpace(s[i])
  {
    if s != [] && IsSpace(s[0]) {
      TrimLeftDropsSpace(s[1..]);
      assert forall i :: 1 <= i < |s| - |TrimLeft(s)| ==> s[i] == s[1..][i - 1];
    }
  }

  /** Only whitespace is removed from the right. */
  lemma {:induction false} TrimRightDropsSpace(s: string)
    ensures forall i :: |TrimRight(s)| <= i < |s| ==> IsSpace(s[i])
  {
    if s != [] && IsSpace(s[|s| - 1]) {
      TrimRightDropsSpace(s[..|s| - 1]);
    }
  }

  /** Where `Strip(s)` starts in `s`: the number of leading whitespace characters. */
  function StripStart(s: string): nat {
    |s| - |TrimLeft(s)|
  }

  /** `str.strip()`: `s` without the whitespace at both ends. */
  function Strip(s: string): (r: string)
    ensures IsStripped(r) && |r| <= |s|
  {
    var t := TrimLeft(s);
    var r := TrimRight(t);
    TrimRightIsPrefix(t);
    assert r != [] ==> r[0] == t[0];
    r
  }

  /** What `Strip` keeps is the infix of `s` between two runs of whitespace. */
  lemma StripIsInfix(s: string)
    ensures StripStart(s) + |Strip(s)| <= |s|
    ensures Strip(s) == s[StripStart(s)..StripStart(s) + |Strip(s)|]
    ensures forall k :: 0 <= k < StripStart(s) ==> IsSpace(s[k])
    ensures forall k :: StripStart(s) + |Strip(s)| <= k < |s| ==> IsSpace(s[k])
  {
    StripSlice(s);
    TrimLeftDropsSpace(s);
    StripTailIsSpace(s);
  }

  lemma StripSlice(s: string)
    ensures StripStart(s) + |Strip(s)| <= |s|
    ensures Strip(s) == s[StripStart(s)..StripStart(s) + |Strip(s)|]
  {
    var t := TrimLeft(s);
    var i := StripStart(s);
    TrimLeftIsSuffix(s);
    TrimRightIsPrefix(t);
    assert t == s[i..] && Strip(s) == t[..|Strip(s)|];
    assert s[i..][..|Strip(s)|] == s[i..i + |Strip(s)|];
  }

  lemma StripTailIsSpace(s: string)
    ensures forall k :: StripStart(s) + |Strip(s)| <= k < |s| ==> IsSpace(s[k])
  {
    var t := TrimLeft(s);
    var i := StripStart(s);
    TrimLeftIsSuffix(s);
    TrimRightDropsSpace(t);
    forall k | i + |Strip(s)| <= k < |s|
      ensures IsSpace(s[k])
    {
      assert s[k] == t[k - i];
    }
  }

  /** Stripping removes everything exactly when the input is blank. */
  lemma StripEmptyIffBlank(s: string)
    ensures Strip(s) == [] <==> AllSpace(s)
  {
    StripIsInfix(s);
    if Strip(s) != [] {
      assert Strip(s)[0] == s[StripStart(s)];
    }
  }

  /** A string that is already stripped is its own strip. */
  lemma StripOfStripped(s: string)
    requires IsStripped(s)
    ensures Strip(s) == s
  {
    assert TrimLeft(s) == s;
    assert TrimRight(s) == s;
  }

  /** ASCII `str.lower()` on one character. */
  function LowerChar(c: char): (d: char)
    ensures IsSpace(d) <==> IsSpace(c)
    ensures !('A' <= d <= 'Z')
  {
    if 'A' <= c <= 'Z' then (c as int - 'A' as int + 'a' as int) as char else c
  }

  /** `str.lower()`, ASCII letters only. */
  function Lower(s: string): (r: string)
    ensures |r| == |s|
    ensures forall i :: 0 <= i < |s| ==> r[i] == LowerChar(s[i])
  {
    seq(|s|, i requires 0 <= i < |s| => LowerChar(s[i]))
  }

  /** Lower-casing twice is lower-casing once, and it keeps a stripped string stripped. */
  lemma LowerIdempotent(s: string)
    ensures Lower(Lower(s)) == Lower(s)
    ensures IsStripped(s) ==> IsStripped(Lower(s))
  {
  }

  predicate IsDigit(c: char) {
    '0' <= c <= '9'
  }

  /** `str.isdigit()` for ASCII: non-empty and every character a decimal digit. */
  predicate IsDigits(s: string) {
    |s| > 0 && forall i :: 0 <= i < |s| ==> IsDigit(s[i])
  }

  function DigitValue(c: char): (d: nat)
    requires IsDigit(c)
    ensures d < 10
  {
    c as int - '0' as int
  }

  function DigitChar(d: nat): (c: char)
    requires d < 10
    ensures IsDigit(c) && DigitValue(c) == d
  {
    ('0' as int + d) as char
  }

  /** `int(s)` for a string of decimal digits (leading zeros allowed, as in Python). */
  function DigitsValue(s: string): nat
    requires forall i :: 0 <= i < |s| ==> IsDigit(s[i])
  {
    if s == [] then 0 else DigitsValue(s[..|s| - 1]) * 10 + DigitValue(s[|s| - 1])
  }

  /** `str(n)` for a natural number: its shortest decimal spelling, which reads back as `n`. */
  function NatToString(n: nat): (s: string)
    ensures |s| >= 1
  {
    if n < 10 then [DigitChar(n)] else NatToString(n / 10) + [DigitChar(n % 10)]
  }

  /** The spelling is a canonical digit string (no leading zero) that reads back as `n`. */
  lemma {:induction false} NatToStringRoundTrip(n: nat)
    ensures IsDigits(NatToString(n)) && DigitsValue(NatToString(n)) == n
    ensures NatToString(n)[0] != '0' || NatToString(n) == "0"
  {
    var s := NatToString(n);
    if n >= 10 {
      var p := NatToString(n / 10);
      NatToStringRoundTrip(n / 10);
      assert s[..|s| - 1] == p;
      assert s[0] == p[0];
    }
  }

  /** `str(i)` for any integer. */
  function IntToString(i: int): (s: string)
    ensures i >= 0 ==> s == NatToString(i)
    ensures i < 0 ==> s == "-" + NatToString(-i)
  {
    if i < 0 then "-" + NatToString(-i) else NatToString(i)
  }

  /** A digit string without a leading zero has value at least one; with two or more digits, at least ten. */
  lemma {:induction false} CanonicalDigitsValue(s: string)
    requires IsDigits(s) && s[0] != '0'
    ensures DigitsValue(s) >= 1
    ensures |s| >= 2 ==> DigitsValue(s) >= 10
  {
    if |s| >= 2 {
      CanonicalDigitsValue(s[..|s| - 1]);
    }
  }

  /** The converse round trip: a canonical digit string is the spelling of its own value. */
  lemma {:induction false} NatToStringOfDigits(s: string)
    requires IsDigits(s) && (s[0] != '0' || s == "0")
    ensures NatToString(DigitsValue(s)) == s
  {
    var n := DigitsValue(s);
    if |s| == 1 {
      if s[0] != '0' { CanonicalDigitsValue(s); }
      assert n == DigitValue(s[0]);
      assert [DigitChar(n)] == s;
    } else {
      CanonicalDigitsValue(s);
      var p := s[..|s| - 1];
      var d := DigitValue(s[|s| - 1]);
      assert n == DigitsValue(p) * 10 + d;
      assert n / 10 == DigitsValue(p) && n % 10 == d;
      NatToStringOfDigits(p);
      NatToStringRoundTrip(n / 10);
      assert s == p + [s[|s| - 1]];
    }
  }

  /**
   * CPython's default limit on the digits `int()` converts from a decimal string
   * (`sys.get_int_max_str_digits()`, Python 3.11 and later). Every digit counts, leading zeros
   * included; a sign does not.
   */
  const MaxStrDigits: nat := 4300

  const IntLimitHead: string := "Exceeds the limit (4300 digits) for integer string conversion: value has "
  const IntLimitTail: string := " digits; use sys.set_int_max_str_digits() to increase the limit"

  /** The text of the ValueError `int()` raises for a decimal string of `digits` digits over the limit. */
  function IntLimitError(digits: nat): string {
    IntLimitHead + NatToString(digits) + IntLimitTail
  }

  /**
   * `int(s)` for a string of ASCII digits: its value, or None where it raises the ValueError
   * `IntLimitError(|s|)` because the string is over the digit limit.
   */
  function IntOfDigits(s: string): (r: Option<nat>)
    requires IsDigits(s)
    ensures r.Some? <==> |s| <= MaxStrDigits
    ensures r.Some? ==> r.value == DigitsValue(s)
  {
    if |s| > MaxStrDigits then None else Some(DigitsValue(s))
  }

  /**
   * Python `int(token)` for a token of the shape [+|-]digits (underscores are not modelled);
   * None stands for the ValueError of any other token and of a token over the digit limit.
   */
  function ParseInt(s: string): (r: Option<int>)
    ensures r.Some? <==>
      || (IsDigits(s) && |s| <= MaxStrDigits)
      || (|s| >= 2 && (s[0] == '+' || s[0] == '-') && IsDigits(s[1..]) && |s| - 1 <= MaxStrDigits)
  {
    if IsDigits(s) then
      if |s| <= MaxStrDigits then Some(DigitsValue(s)) else None
    else if |s| >= 2 && (s[0] == '+' || s[0] == '-') && IsDigits(s[1..]) then
      if |s| - 1 > MaxStrDigits then None
      else if s[0] == '+' then Some(DigitsValue(s[1..]))
      else Some(0 - DigitsValue(s[1..]))
    else None
  }

  /** The magnitude of an integer. */
  function Abs(i: int): nat {
    if i < 0 then -i else i
  }

  /** `int(str(i)) == i` for every integer whose spelling is within the digit limit. */
  lemma ParseIntOfIntToString(i: int)
    requires |NatToString(Abs(i))| <= MaxStrDigits
    ensures ParseInt(IntToString(i)) == Some(i)
  {
    if i < 0 {
      var s := IntToString(i);
      NatToStringRoundTrip(-i);
      assert s[1..] == NatToString(-i);
      assert !IsDigits(s) by { assert !IsDigit(s[0]); }
    } else {
      NatToStringRoundTrip(i);
    }
  }

  /** The longest prefix of `s` without whitespace. */
  function TakeWord(s: string): (w: string)
    ensures |w| <= |s| && w == s[..|w|]
    ensures forall i :: 0 <= i < |w| ==> !IsSpace(w[i])
    ensures s != [] && !IsSpace(s[0]) ==> |w| >= 1
    ensures |w| < |s| ==> IsSpace(s[|w|])
  {
    if s == [] || IsSpace(s[0]) then [] else [s[0]] + TakeWord(s[1..])
  }

  /** `str.split()` with no separator: the maximal runs of non-whitespace characters, in order. */
  function Words(s: string): (ws: seq<string>)
    decreases |s|
  {
    var t := TrimLeft(s);
    if t == [] then []
    else
      var w := TakeWord(t);
      [w] + Words(t[|w|..])
  }

  /**
   * A stripped string that starts with "g " always has a second word, so
   * `command.split()[1]` cannot fail on it.
   */
  lemma StrippedGotoHasSecondWord(c: string)
    requires IsStripped(c) && |c| >= 2 && c[0] == 'g' && c[1] == ' '
    ensures |Words(c)| >= 2
  {
    assert TrimLeft(c) == c;
    assert TakeWord(c[1..]) == [];
    assert TakeWord(c) == "g";
    var rest := c[1..];
    assert |c| >= 3;
    assert rest[|rest| - 1] == c[|c| - 1];
    TrimLeftDropsSpace(rest);
    assert TrimLeft(rest) != [];
    assert Words(c) == ["g"] + Words(rest);
  }

  /** A non-empty run of non-whitespace characters. */
  predicate IsWord(w: string) {
    w != [] && forall i :: 0 <= i < |w| ==> !IsSpace(w[i])
  }

  /** A single run of non-whitespace is split into exactly itself. */
  lemma {:induction false} WordsOfOneWord(w: string)
    requires IsWord(w)
    ensures TakeWord(w) == w && Words(w) == [w]
  {
    if |w| > 1 {
      WordsOfOneWord(w[1..]);
    } else {
      assert TakeWord(w[1..]) == [];
    }
    assert TrimLeft(w) == w;
    assert w[|w|..] == [];
  }

  /** A word after one blank is split into itself alone. */
  lemma WordsAfterBlank(w: string)
    requires IsWord(w)
    ensures Words(" " + w) == [w]
  {
    var rest := " " + w;
    assert rest[0] == ' ' && rest[1..] == w;
    assert TrimLeft(rest) == TrimLeft(w);
    assert TrimLeft(w) == w;
    WordsOfOneWord(w);
  }

  /** A word runs up to the first whitespace. */
  lemma {:induction false} TakeWordStopsAtSpace(a: string, rest: string)
    requires forall i :: 0 <= i < |a| ==> !IsSpace(a[i])
    requires rest != [] && IsSpace(rest[0])
    ensures TakeWord(a + rest) == a
  {
    if a == [] {
      assert a + rest == rest;
    } else {
      TakeWordStopsAtSpace(a[1..], rest);
      assert (a + rest)[1..] == a[1..] + rest;
      assert [a[0]] + a[1..] == a;
    }
  }

  /** A leading word followed by whitespace is the first item of the split. */
  lemma WordsAfterLeadingWord(a: string, rest: string)
    requires IsWord(a)
    requires rest != [] && IsSpace(rest[0])
    ensures Words(a + rest) == [a] + Words(rest)
  {
    var s := a + rest;
    assert s[0] == a[0];
    assert TrimLeft(s) == s;
    TakeWordStopsAtSpace(a, rest);
    assert s[|a|..] == rest;
  }

  /** One blank in front does not change the split of a string that starts with a word. */
  lemma WordsAfterOneBlank(x: string)
    requires x != [] && !IsSpace(x[0])
    ensures Words(" " + x) == Words(x)
  {
    assert (" " + x)[1..] == x;
    assert TrimLeft(" " + x) == TrimLeft(x);
  }

  /** After one blank, a word followed by nothing or by whitespace is the first item of the split. */
  lemma WordAfterBlank(w: string, rest: string)
    requires IsWord(w)
    requires rest == [] || IsSpace(rest[0])
    ensures Words(" " + (w + rest)) == [w] + Words(rest)
  {
    if rest == [] {
      assert w + rest == w;
      WordsAfterBlank(w);
    } else {
      WordsAfterOneBlank(w + rest);
      WordsAfterLeadingWord(w, rest);
    }
  }

  /**
   * `"g " + w`, followed by nothing or by whitespace and anything else, splits into the command
   * letter, the word `w`, and then the words of the rest.
   */
  lemma GotoWords(w: string, rest: string)
    requires IsWord(w)
    requires rest == [] || IsSpace(rest[0])
    ensures Words("g" + (" " + (w + rest))) == ["g"] + ([w] + Words(rest))
  {
    WordsAfterLeadingWord("g", " " + (w + rest));
    WordAfterBlank(w, rest);
  }
}
