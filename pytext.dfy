/**
 * The Python string built-ins the bot relies on, written out as functions:
 * `str.split(sep)`, the argument-less `str.split()`, `sep.join(parts)`,
 * `int(s)` on a decimal literal and `str(n)` / `'{}'.format(n)` on a
 * natural number.
 */
module PyText {
  import opened Wrappers

  /**
   * The characters Python 2.7's `unicode.isspace` accepts (its Unicode 5.2
   * tables, which still count U+180E); `split()` and `int()` skip them.
   */
  predicate IsSpace(c: char) {
    c == ' ' || ('\t' <= c <= '\r') || ('\U{1c}' <= c <= '\U{1f}')
    || c == '\U{85}' || c == '\U{a0}' || c == '\U{1680}' || c == '\U{180e}'
    || ('\U{2000}' <= c <= '\U{200a}') || c == '\U{2028}' || c == '\U{2029}'
    || c == '\U{202f}' || c == '\U{205f}' || c == '\U{3000}'
  }

  predicate NoSpace(s: string) {
    forall i :: 0 <= i < |s| ==> !IsSpace(s[i])
  }

  // ---------------------------------------------------------------------
  // s.split(sep) with a one-character separator

  /** `s.split(sep)`: the pieces between occurrences of `sep`; never empty. */
  function SplitOn(s: string, sep: char): (parts: seq<string>)
    ensures |parts| >= 1
    ensures forall k :: 0 <= k < |parts| ==> sep !in parts[k]
  {
    if s == [] then [""]
    else
      var rest := SplitOn(s[1..], sep);
      if s[0] == sep then [""] + rest
      else [[s[0]] + rest[0]] + rest[1..]
  }

  /** `sep.join(parts)`. */
  function Join(sep: string, parts: seq<string>): string {
    if |parts| == 0 then ""
    else if |parts| == 1 then parts[0]
    else parts[0] + sep + Join(sep, parts[1..])
  }

  /** Joining the pieces of a split with the separator gives the text back. */
  lemma {:induction false} JoinSplitOn(s: string, sep: char)
    ensures Join([sep], SplitOn(s, sep)) == s
  {
    if s != [] {
      var rest := SplitOn(s[1..], sep);
      JoinSplitOn(s[1..], sep);
      if s[0] == sep {
        assert SplitOn(s, sep) == [""] + rest;
        assert s == [sep] + s[1..];
      } else {
        if |rest| == 1 {
          assert SplitOn(s, sep) == [[s[0]] + rest[0]];
          assert s == [s[0]] + s[1..];
        } else {
          assert SplitOn(s, sep) == [[s[0]] + rest[0]] + rest[1..];
          assert Join([sep], SplitOn(s, sep)) == [s[0]] + rest[0] + [sep] + Join([sep], rest[1..]);
          assert s == [s[0]] + s[1..];
        }
      }
    }
  }

  /** A piece free of the separator splits into itself alone. */
  lemma {:induction false} SplitOnPlain(p: string, sep: char)
    requires sep !in p
    ensures SplitOn(p, sep) == [p]
  {
    if p != [] {
      SplitOnPlain(p[1..], sep);
      assert [p[0]] + p[1..] == p;
    }
  }

  /** A separator-free piece followed by the separator splits off as one part. */
  lemma {:induction false} SplitOnCons(p: string, sep: char, rest: string)
    requires sep !in p
    ensures SplitOn(p + [sep] + rest, sep) == [p] + SplitOn(rest, sep)
  {
    if p == [] {
      assert p + [sep] + rest == [sep] + rest;
      assert ([sep] + rest)[1..] == rest;
    } else {
      var s := p + [sep] + rest;
      assert s[1..] == p[1..] + [sep] + rest;
      SplitOnCons(p[1..], sep, rest);
      assert [p[0]] + p[1..] == p;
    }
  }

  /** Splitting a join of separator-free parts gives the parts back. */
  lemma {:induction false} SplitOnJoin(parts: seq<string>, sep: char)
    requires |parts| >= 1
    requires forall k :: 0 <= k < |parts| ==> sep !in parts[k]
    ensures SplitOn(Join([sep], parts), sep) == parts
  {
    if |parts| == 1 {
      SplitOnPlain(parts[0], sep);
    } else {
      SplitOnJoin(parts[1..], sep);
      SplitOnCons(parts[0], sep, Join([sep], parts[1..]));
      assert [parts[0]] + parts[1..] == parts;
    }
  }

  // ---------------------------------------------------------------------
  // s.split() on runs of whitespace

  /** The text left once the leading whitespace is dropped. */
  function SkipSpace(s: string): (r: string)
    ensures |r| <= |s|
    ensures r == [] || !IsSpace(r[0])
  {
    if s != [] && IsSpace(s[0]) then SkipSpace(s[1..]) else s
  }

  /** The length of the longest whitespace-free prefix. */
  function TokenLen(s: string): (k: nat)
    ensures k <= |s|
    ensures NoSpace(s[..k])
    ensures k == |s| || IsSpace(s[k])
  {
    if s == [] || IsSpace(s[0]) then 0
    else
      var k := 1 + TokenLen(s[1..]);
      assert s[..k] == [s[0]] + s[1..][..k - 1];
      k
  }

  /** `s.split()`: the maximal whitespace-free runs of `s`, in order. */
  function SplitWs(s: string): (tokens: seq<string>)
    ensures forall k :: 0 <= k < |tokens| ==> tokens[k] != [] && NoSpace(tokens[k])
    decreases |s|
  {
    var t := SkipSpace(s);
    if t == [] then []
    else
      var k := TokenLen(t);
      assert k >= 1;
      var token := t[..k];
      var rest := SplitWs(t[k..]);
      assert token != [] && NoSpace(token);
      assert forall j :: 1 <= j < 1 + |rest| ==> ([token] + rest)[j] == rest[j - 1];
      [token] + rest
  }

  /** A word followed by a space and more text: the word is the first token. */
  lemma {:induction false} SplitWsCons(w: string, rest: string)
    requires w != [] && NoSpace(w)
    ensures SplitWs(w + " " + rest) == [w] + SplitWs(rest)
  {
    var s := w + (" " + rest);
    assert s == w + " " + rest;
    assert s[0] == w[0];
    assert SkipSpace(s) == s;
    TokenLenWord(w, " " + rest);
    var k := TokenLen(s);
    assert k == |w|;
    assert s[..k] == w;
    assert s[k..] == " " + rest;
    SplitWsUnfold(s);
    assert SplitWs(s) == [w] + SplitWs(" " + rest);
    calc {
      SplitWs(" " + rest);
      { SplitWsSkip(" " + rest); }
      SplitWs(SkipSpace(" " + rest));
      { SkipSpaceBlank(rest); }
      SplitWs(SkipSpace(rest));
      { SplitWsSkip(rest); }
      SplitWs(rest);
    }
  }

  lemma SkipSpaceBlank(rest: string)
    ensures SkipSpace(" " + rest) == SkipSpace(rest)
  {
    assert (" " + rest)[1..] == rest;
  }

  lemma SplitWsUnfold(s: string)
    requires s != [] && !IsSpace(s[0])
    ensures SplitWs(s) == [s[..TokenLen(s)]] + SplitWs(s[TokenLen(s)..])
  {
    assert SkipSpace(s) == s;
  }

  /** Leading whitespace makes no difference to the tokens. */
  lemma SplitWsSkip(s: string)
    ensures SplitWs(s) == SplitWs(SkipSpace(s))
  {
    var t := SkipSpace(s);
    assert SkipSpace(t) == t;
  }

  lemma {:induction false} TokenLenWord(w: string, rest: string)
    requires NoSpace(w)
    requires rest == [] || IsSpace(rest[0])
    ensures TokenLen(w + rest) == |w|
  {
    if w == [] {
      assert w + rest == rest;
    } else {
      assert (w + rest)[1..] == w[1..] + rest;
      TokenLenWord(w[1..], rest);
    }
  }

  /** A single word splits into itself. */
  lemma SplitWsWord(w: string)
    requires w != [] && NoSpace(w)
    ensures SplitWs(w) == [w]
  {
    assert SkipSpace(w) == w;
    TokenLenWord(w, []);
    assert w + [] == w;
    assert w[|w|..] == [];
  }

  /** Joining whitespace-free words with single spaces and splitting gives the words back. */
  lemma {:induction false} SplitWsJoin(words: seq<string>)
    requires forall k :: 0 <= k < |words| ==> words[k] != [] && NoSpace(words[k])
    ensures SplitWs(Join(" ", words)) == words
  {
    if |words| == 0 {
    } else if |words| == 1 {
      SplitWsWord(words[0]);
    } else {
      var tail := Join(" ", words[1..]);
      assert Join(" ", words) == words[0] + " " + tail;
      SplitWsJoin(words[1..]);
      SplitWsCons(words[0], tail);
      assert [words[0]] + words[1..] == words;
    }
  }

  /**
   * Whitespace squeezed character by character: every run of whitespace
   * between two other characters becomes one space, and whitespace at either
   * end is dropped. `started` says a non-whitespace character was already
   * kept; `gap` says whitespace has been seen since that character.
   */
  function SqueezeFrom(s: string, started: bool, gap: bool): string
    decreases |s|
  {
    if s == [] then ""
    else if IsSpace(s[0]) then SqueezeFrom(s[1..], started, started)
    else (if gap then " " else "") + [s[0]] + SqueezeFrom(s[1..], true, false)
  }

  function Squeeze(s: string): string {
    SqueezeFrom(s, false, false)
  }

  /** Leading whitespace is skipped by the squeeze as it is by the split. */
  lemma {:induction false} SqueezeSkip(s: string, g: bool)
    ensures SqueezeFrom(s, g, g) == SqueezeFrom(SkipSpace(s), g, g)
  {
    if s != [] && IsSpace(s[0]) {
      SqueezeSkip(s[1..], g);
    }
  }

  /** Inside a word the squeeze copies the word's characters. */
  lemma {:induction false} SqueezeWord(w: string, rest: string, g: bool)
    requires w != [] && NoSpace(w)
    ensures SqueezeFrom(w + rest, g, g)
         == (if g then " " else "") + w + SqueezeFrom(rest, true, false)
  {
    var s := w + rest;
    assert s[0] == w[0];
    assert s[1..] == w[1..] + rest;
    if |w| == 1 {
      assert w[1..] + rest == rest;
      assert w == [w[0]];
    } else {
      SqueezeWordTail(w[1..], rest);
      assert w == [w[0]] + w[1..];
    }
  }

  lemma {:induction false} SqueezeWordTail(w: string, rest: string)
    requires NoSpace(w)
    ensures SqueezeFrom(w + rest, true, false) == w + SqueezeFrom(rest, true, false)
  {
    if w == [] {
      assert w + rest == rest;
    } else {
      var s := w + rest;
      assert s[0] == w[0];
      assert s[1..] == w[1..] + rest;
      SqueezeWordTail(w[1..], rest);
      assert w == [w[0]] + w[1..];
    }
  }

  /**
   * `' '.join(s.split())` is `s` with its whitespace squeezed: the tokens
   * are exactly the words of `s`, wherever and however long its runs of
   * whitespace are.
   */
  lemma JoinSplitWs(s: string)
    ensures Join(" ", SplitWs(s)) == Squeeze(s)
  {
    SqueezeSplitWs(s, false);
  }

  lemma {:induction false} SqueezeSplitWs(s: string, g: bool)
    ensures SqueezeFrom(s, g, g)
         == if SplitWs(s) == [] then "" else (if g then " " else "") + Join(" ", SplitWs(s))
    decreases |s|
  {
    var t := SkipSpace(s);
    SqueezeSkip(s, g);
    SplitWsSkip(s);
    if t != [] {
      var k := TokenLen(t);
      var w := t[..k];
      var r := t[k..];
      assert t == w + r;
      SplitWsUnfold(t);
      SqueezeWord(w, r, g);
      var rest := SplitWs(r);
      assert SplitWs(s) == [w] + rest;
      if r == [] {
        assert rest == [];
      } else {
        assert SqueezeFrom(r, true, false) == SqueezeFrom(r[1..], true, true);
        assert SqueezeFrom(r, true, true) == SqueezeFrom(r[1..], true, true);
        SqueezeSplitWs(r, true);
        if rest != [] {
          assert Join(" ", [w] + rest) == w + " " + Join(" ", rest);
        }
      }
    }
  }

  /** Text whose whitespace is single spaces between words, with none at either end. */
  predicate Normalized(s: string) {
    Join(" ", SplitWs(s)) == s
  }

  // ---------------------------------------------------------------------
  // int(s) and str(n)

  predicate IsDigit(c: char) { '0' <= c <= '9' }

  predicate AllDigits(s: string) {
    forall i :: 0 <= i < |s| ==> IsDigit(s[i])
  }

  /** The value of a string of decimal digits (0 for the empty string). */
  function DigitsValue(d: string): nat
    requires AllDigits(d)
  {
    if d == [] then 0
    else 10 * DigitsValue(d[..|d| - 1]) + (d[|d| - 1] as int - '0' as int)
  }

  /** The text without trailing whitespace. */
  function TrimEnd(s: string): (r: string)
    ensures |r| <= |s|
    ensures r == [] || !IsSpace(r[|r| - 1])
  {
    if s != [] && IsSpace(s[|s| - 1]) then TrimEnd(s[..|s| - 1]) else s
  }

  /** `s.strip()`: the text without whitespace at either end. */
  function Strip(s: string): string {
    TrimEnd(SkipSpace(s))
  }

  /**
   * `int(s)` in base 10: surrounding whitespace, then an optional `+` or
   * `-` sign immediately followed by one or more ASCII digits.
   */
  function ParseInt(s: string): (r: Option<int>)
  {
    var t := Strip(s);
    if t != [] && (t[0] == '+' || t[0] == '-') then
      var d := t[1..];
      if d != [] && AllDigits(d) then
        var magnitude: int := DigitsValue(d);
        Some(if t[0] == '-' then -magnitude else magnitude)
      else None
    else if t != [] && AllDigits(t) then Some(DigitsValue(t))
    else None
  }

  function DigitChar(n: nat): (c: char)
    requires n < 10
    ensures IsDigit(c) && c as int - '0' as int == n
  {
    ['0', '1', '2', '3', '4', '5', '6', '7', '8', '9'][n]
  }

  /** `str(n)`: the decimal digits of `n`, without leading zeros. */
  function NatToString(n: nat): (s: string)
    ensures s != [] && AllDigits(s) && DigitsValue(s) == n
    ensures s[0] == '0' ==> n == 0
    ensures |s| > 1 ==> s[0] != '0'
  {
    if n < 10 then [DigitChar(n)]
    else
      var s := NatToString(n / 10) + [DigitChar(n % 10)];
      assert s[..|s| - 1] == NatToString(n / 10);
      s
  }

  lemma DigitNotSpace(c: char)
    requires IsDigit(c)
    ensures !IsSpace(c)
  {
  }

  /** A digit string contains no whitespace. */
  lemma DigitsNoSpace(d: string)
    requires AllDigits(d)
    ensures NoSpace(d) && Strip(d) == d
  {
    if d != [] {
      DigitNotSpace(d[0]);
      DigitNotSpace(d[|d| - 1]);
    }
    forall i | 0 <= i < |d| ensures !IsSpace(d[i]) {
      DigitNotSpace(d[i]);
    }
  }

  /** What SkipSpace leaves is a suffix of its argument. */
  lemma {:induction false} SkipSpaceSuffix(s: string)
    ensures SkipSpace(s) == s[|s| - |SkipSpace(s)|..]
  {
    if s != [] && IsSpace(s[0]) {
      SkipSpaceSuffix(s[1..]);
    }
  }

  /** What TrimEnd leaves is a prefix of its argument. */
  lemma {:induction false} TrimEndPrefix(s: string)
    ensures TrimEnd(s) == s[..|TrimEnd(s)|]
  {
    if s != [] && IsSpace(s[|s| - 1]) {
      TrimEndPrefix(s[..|s| - 1]);
    }
  }

  /** Every character of `s.strip()` is a character of `s`. */
  lemma StripChars(s: string)
    ensures forall i :: 0 <= i < |Strip(s)| ==> Strip(s)[i] in s
  {
    var u := SkipSpace(s);
    SkipSpaceSuffix(s);
    TrimEndPrefix(u);
    forall i | 0 <= i < |Strip(s)| ensures Strip(s)[i] in s {
      assert Strip(s)[i] == u[i] == s[|s| - |u| + i];
    }
  }

  /** `int(str(n)) == n`. */
  lemma ParseIntNatToString(n: nat)
    ensures ParseInt(NatToString(n)) == Some(n)
  {
    DigitsNoSpace(NatToString(n));
  }

  /** `int('-' + str(n)) == -n`. */
  lemma ParseIntNegative(n: nat)
    ensures ParseInt("-" + NatToString(n)) == Some(-(n as int))
  {
    var d := NatToString(n);
    var s := "-" + d;
    assert SkipSpace(s) == s;
    DigitNotSpace(d[|d| - 1]);
    assert TrimEnd(s) == s by { assert s[|s| - 1] == d[|d| - 1]; }
    assert s[1..] == d;
    ParseIntMinus(s);
  }

  /** A minus sign directly followed by digits, with no surrounding whitespace. */
  lemma ParseIntMinus(s: string)
    requires Strip(s) == s && |s| >= 2 && s[0] == '-' && AllDigits(s[1..])
    ensures ParseInt(s) == Some(-(DigitsValue(s[1..]) as int))
  {
  }

  /** Text without any digit never parses as an integer. */
  lemma ParseIntNoDigit(s: string)
    requires forall i :: 0 <= i < |s| ==> !IsDigit(s[i])
    ensures ParseInt(s) == None
  {
    var t := Strip(s);
    StripChars(s);
    if |t| >= 2 {
      assert t[1] in s;
    }
    if |t| >= 1 {
      assert t[0] in s;
    }
  }

  /** Whitespace appended to the text is dropped again by `strip()`. */
  lemma {:induction false} SkipSpaceAppend(s: string, c: char)
    requires IsSpace(c)
    ensures SkipSpace(s + [c]) == if SkipSpace(s) == [] then [] else SkipSpace(s) + [c]
  {
    if s == [] {
      assert [] + [c] == [c];
      assert [c][1..] == [];
    } else {
      assert (s + [c])[0] == s[0];
      assert (s + [c])[1..] == s[1..] + [c];
      if IsSpace(s[0]) {
        SkipSpaceAppend(s[1..], c);
      }
    }
  }

  /**
   * `int()` ignores whitespace added at either end of its argument, so a
   * vote value parses the same however the user pads it.
   */
  lemma ParseIntPadded(s: string, c: char)
    requires IsSpace(c)
    ensures ParseInt([c] + s) == ParseInt(s)
    ensures ParseInt(s + [c]) == ParseInt(s)
  {
    assert ([c] + s)[1..] == s;
    SkipSpaceAppend(s, c);
    var u := SkipSpace(s);
    if u != [] {
      assert (u + [c])[..|u|] == u;
    }
    assert Strip(s + [c]) == Strip(s);
  }
}
