/** The handful of Python `str` operations the pipeline relies on, written
    out over `seq<char>`. Character classes are those of ASCII: Python's
    Unicode case mapping and Unicode character classes are not modelled. */
module Strings {

  predicate IsPrefix(p: string, s: string) {
    |p| <= |s| && s[..|p|] == p
  }

  predicate IsSuffix(p: string, s: string) {
    |p| <= |s| && s[|s| - |p|..] == p
  }

  /** Python's `sub in s`. */
  predicate Contains(s: string, sub: string)
    decreases |s|
  {
    IsPrefix(sub, s) || (|s| > 0 && Contains(s[1..], sub))
  }

  predicate IsUpper(c: char) { 'A' <= c <= 'Z' }

  predicate IsDigit(c: char) { '0' <= c <= '9' }

  predicate IsLetter(c: char) { 'a' <= c <= 'z' || 'A' <= c <= 'Z' }

  /** Python's whitespace class (`str.isspace`, regex `\s`) on ASCII. */
  predicate IsSpace(c: char) {
    c == ' ' || (9 <= c as int <= 13) || (28 <= c as int <= 31)
  }

  /** Python's regex word class `\w`: letters, digits and `_`; a character
      outside ASCII is counted as a word character. */
  predicate IsWordChar(c: char) {
    IsLetter(c) || IsDigit(c) || c == '_' || c as int > 127
  }

  function LowerChar(c: char): (r: char)
    ensures !IsUpper(r)
    ensures !IsUpper(c) ==> r == c
    ensures IsUpper(c) ==> r as int == c as int + 32
  {
    if IsUpper(c) then (c as int + 32) as char else c
  }

  /** Python's `s.lower()` restricted to ASCII letters. */
  function Lower(s: string): (r: string)
    ensures |r| == |s|
    ensures forall i :: 0 <= i < |r| ==> !IsUpper(r[i])
    ensures forall i :: 0 <= i < |r| ==> r[i] == LowerChar(s[i])
  {
    seq(|s|, i requires 0 <= i < |s| => LowerChar(s[i]))
  }

  lemma LowerOfLower(s: string)
    requires forall i :: 0 <= i < |s| ==> !IsUpper(s[i])
    ensures Lower(s) == s
  {
  }

  function TrimLeft(s: string): (r: string)
    ensures IsSuffix(r, s)
    ensures |r| > 0 ==> !IsSpace(r[0])
    ensures forall i :: 0 <= i < |s| - |r| ==> IsSpace(s[i])
  {
    if |s| > 0 && IsSpace(s[0]) then TrimLeft(s[1..]) else s
  }

  function TrimRight(s: string): (r: string)
    ensures IsPrefix(r, s)
    ensures |r| > 0 ==> !IsSpace(r[|r| - 1])
    ensures forall i :: |r| <= i < |s| ==> IsSpace(s[i])
  {
    if |s| > 0 && IsSpace(s[|s| - 1]) then TrimRight(s[..|s| - 1]) else s
  }

  /** Python's `s.strip()`: the text between the first and last
      non-whitespace characters. */
  function Strip(s: string): string {
    TrimRight(TrimLeft(s))
  }

  /** The longest prefix of `s` without whitespace. */
  function Word(s: string): (w: string)
    ensures IsPrefix(w, s)
    ensures forall i :: 0 <= i < |w| ==> !IsSpace(w[i])
    ensures |w| < |s| ==> IsSpace(s[|w|])
  {
    if |s| == 0 || IsSpace(s[0]) then [] else [s[0]] + Word(s[1..])
  }

  /** Python's `s.split()` with no separator: the maximal runs of
      non-whitespace characters, in order. */
  function Split(s: string): (ts: seq<string>)
    decreases |s|
  {
    if |s| == 0 then []
    else if IsSpace(s[0]) then Split(s[1..])
    else
      var w := Word(s);
      [w] + Split(s[|w|..])
  }

  lemma {:induction false} SplitTokensAreWords(s: string)
    ensures forall k :: 0 <= k < |Split(s)| ==> |Split(s)[k]| > 0 && NoSpace(Split(s)[k])
    decreases |s|
  {
    if |s| == 0 {
    } else if IsSpace(s[0]) {
      SplitTokensAreWords(s[1..]);
    } else {
      SplitTokensAreWords(s[|Word(s)|..]);
    }
  }

  /** Every character of every token of `Split(s)` is a character of `s`. */
  lemma {:induction false} SplitChars(s: string, P: char -> bool)
    requires forall i :: 0 <= i < |s| ==> P(s[i])
    ensures forall k, i :: 0 <= k < |Split(s)| && 0 <= i < |Split(s)[k]| ==> P(Split(s)[k][i])
    decreases |s|
  {
    if |s| == 0 {
    } else if IsSpace(s[0]) {
      SplitChars(s[1..], P);
    } else {
      var w := Word(s);
      SplitChars(s[|w|..], P);
      assert forall i :: 0 <= i < |w| ==> w[i] == s[i];
    }
  }

  predicate NoSpace(t: string) {
    forall i :: 0 <= i < |t| ==> !IsSpace(t[i])
  }

  /** Python's `sep.join(xs)`. */
  function Join(xs: seq<string>, sep: string): string
  {
    if |xs| == 0 then ""
    else if |xs| == 1 then xs[0]
    else xs[0] + sep + Join(xs[1..], sep)
  }

  /** A token followed by whitespace splits off as the first word. */
  lemma {:induction false} WordOfTokenThenSpace(t: string, rest: string)
    requires |t| > 0 && NoSpace(t)
    requires |rest| > 0 ==> IsSpace(rest[0])
    ensures Word(t + rest) == t
    decreases |t|
  {
    var s := t + rest;
    assert s[0] == t[0];
    if |t| == 1 {
      assert s[1..] == rest;
      assert Word(rest) == [];
      assert t == [t[0]];
    } else {
      assert s[1..] == t[1..] + rest;
      assert NoSpace(t[1..]) by {
        forall i | 0 <= i < |t[1..]| ensures !IsSpace(t[1..][i]) {
          assert t[1..][i] == t[i + 1];
        }
      }
      WordOfTokenThenSpace(t[1..], rest);
      assert t == [t[0]] + t[1..];
    }
  }

  /** Splitting undoes joining with a single space, provided every token
      is a non-empty run of non-whitespace characters. */
  lemma {:induction false} SplitJoin(ts: seq<string>)
    requires forall k :: 0 <= k < |ts| ==> |ts[k]| > 0 && NoSpace(ts[k])
    ensures Split(Join(ts, " ")) == ts
    decreases |ts|
  {
    if |ts| == 0 {
    } else if |ts| == 1 {
      WordOfTokenThenSpace(ts[0], "");
      assert ts[0] + "" == ts[0];
      assert ts[0][|ts[0]|..] == "";
    } else {
      var t := ts[0];
      var rest := Join(ts[1..], " ");
      var s := t + " " + rest;
      assert s == t + (" " + rest);
      WordOfTokenThenSpace(t, " " + rest);
      assert Word(s) == t;
      assert s[|t|..] == " " + rest;
      assert Split(s[|t|..]) == Split(rest) by {
        assert (" " + rest)[1..] == rest;
      }
      SplitJoin(ts[1..]);
      assert ts == [t] + ts[1..];
    }
  }

  /** Every character of a joined string comes from a token or the separator. */
  lemma {:induction false} JoinChars(xs: seq<string>, sep: string, P: char -> bool)
    requires forall k, i :: 0 <= k < |xs| && 0 <= i < |xs[k]| ==> P(xs[k][i])
    requires forall i :: 0 <= i < |sep| ==> P(sep[i])
    ensures forall i :: 0 <= i < |Join(xs, sep)| ==> P(Join(xs, sep)[i])
    decreases |xs|
  {
    if |xs| > 1 {
      JoinChars(xs[1..], sep, P);
      var j := Join(xs[1..], sep);
      forall i | 0 <= i < |xs[0] + sep + j|
        ensures P((xs[0] + sep + j)[i])
      {
        if i < |xs[0]| {
        } else if i < |xs[0]| + |sep| {
          assert (xs[0] + sep + j)[i] == sep[i - |xs[0]|];
        } else {
          assert (xs[0] + sep + j)[i] == j[i - |xs[0]| - |sep|];
        }
      }
    }
  }

  /** Joining with one space never yields leading, trailing or doubled
      whitespace when every token is a non-empty run of non-whitespace. */
  lemma {:induction false} JoinSpacing(ts: seq<string>)
    requires forall k :: 0 <= k < |ts| ==> |ts[k]| > 0 && NoSpace(ts[k])
    ensures var j := Join(ts, " ");
      && (|j| > 0 ==> !IsSpace(j[0]) && !IsSpace(j[|j| - 1]))
      && (forall i :: 0 <= i < |j| - 1 && IsSpace(j[i]) ==> !IsSpace(j[i + 1]))
      && (forall i :: 0 <= i < |j| && IsSpace(j[i]) ==> j[i] == ' ')
    decreases |ts|
  {
    if |ts| > 1 {
      JoinSpacing(ts[1..]);
      var t := ts[0];
      var r := Join(ts[1..], " ");
      var j := t + " " + r;
      assert |r| > 0 by { assert |ts[1..][0]| > 0; JoinLength(ts[1..]); }
      assert forall i :: 0 <= i < |t| ==> j[i] == t[i];
      forall i | 0 <= i < |j| - 1 && IsSpace(j[i])
        ensures !IsSpace(j[i + 1])
      {
        if i == |t| {
          assert j[i + 1] == r[0];
        } else {
          assert j[i] == r[i - |t| - 1];
          assert j[i + 1] == r[i + 1 - |t| - 1];
        }
      }
      forall i | 0 <= i < |j| && IsSpace(j[i])
        ensures j[i] == ' '
      {
        if i > |t| {
          assert j[i] == r[i - |t| - 1];
        }
      }
      assert j[|j| - 1] == r[|r| - 1];
    }
  }

  lemma {:induction false} JoinLength(xs: seq<string>)
    requires |xs| > 0 && |xs[0]| > 0
    ensures |Join(xs, " ")| > 0
  {
  }

  /** Python's `s.replace(pat, rep)`: every leftmost non-overlapping
      occurrence of `pat` is replaced. */
  function ReplaceAll(s: string, pat: string, rep: string): string
    requires |pat| > 0
    decreases |s|
  {
    if |s| < |pat| then s
    else if s[..|pat|] == pat then rep + ReplaceAll(s[|pat|..], pat, rep)
    else [s[0]] + ReplaceAll(s[1..], pat, rep)
  }

  /** Python's `s.count(pat)`: the number of leftmost non-overlapping
      occurrences of `pat`. */
  function Count(s: string, pat: string): (n: nat)
    requires |pat| > 0
    ensures n * |pat| <= |s|
    decreases |s|
  {
    if |s| < |pat| then 0
    else if s[..|pat|] == pat then 1 + Count(s[|pat|..], pat)
    else Count(s[1..], pat)
  }

  /** Python's `s.rstrip(c)` for a single character. */
  function RStripChar(s: string, c: char): (r: string)
    ensures IsPrefix(r, s)
    ensures |r| > 0 ==> r[|r| - 1] != c
    ensures forall i :: |r| <= i < |s| ==> s[i] == c
  {
    if |s| > 0 && s[|s| - 1] == c then RStripChar(s[..|s| - 1], c) else s
  }

  function DigitChar(d: nat): (c: char)
    requires d < 10
    ensures IsDigit(c)
  {
    ('0' as int + d) as char
  }

  /** Python's `str(n)` for a natural number: decimal digits, no leading zero. */
  function NatToString(n: nat): (s: string)
    ensures |s| > 0 && forall i :: 0 <= i < |s| ==> IsDigit(s[i])
    ensures |s| > 1 ==> s[0] != '0'
    decreases n
  {
    if n < 10 then [DigitChar(n)] else NatToString(n / 10) + [DigitChar(n % 10)]
  }

  /** The value of a string of decimal digits. */
  function DigitsValue(s: string): nat
    requires forall i :: 0 <= i < |s| ==> IsDigit(s[i])
    decreases |s|
  {
    if |s| == 0 then 0
    else
      assert IsDigit(s[|s| - 1]);
      DigitsValue(s[..|s| - 1]) * 10 + (s[|s| - 1] as int - '0' as int)
  }

  /** Reading the digits back gives the number. */
  lemma {:induction false} NatToStringValue(n: nat)
    ensures DigitsValue(NatToString(n)) == n
    decreases n
  {
    if n >= 10 {
      var s := NatToString(n);
      NatToStringValue(n / 10);
      assert s[..|s| - 1] == NatToString(n / 10);
    }
  }
}
