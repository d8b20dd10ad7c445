/** The operations on Python `str` values that the analyzer relies on, over `seq<char>`.
    Case mapping covers ASCII letters only; whitespace is the set Python's `str.isspace`
    accepts (which is also what the `\s` class of the `re` module matches). */
module Strings {

  import opened Wrappers

  /** The code-point ranges of the characters Python's `str.isspace` accepts. */
  const WHITESPACE: seq<(char, char)> := [
    ('\t', '\r'), ('\U{001C}', ' '), ('\U{0085}', '\U{0085}'), ('\U{00A0}', '\U{00A0}'),
    ('\U{1680}', '\U{1680}'), ('\U{2000}', '\U{200A}'), ('\U{2028}', '\U{2029}'),
    ('\U{202F}', '\U{202F}'), ('\U{205F}', '\U{205F}'), ('\U{3000}', '\U{3000}')
  ]

  /** `c` lies in one of the first `n` ranges of `WHITESPACE`. */
  predicate InWhitespace(c: char, n: nat)
    requires n <= |WHITESPACE|
  {
    n > 0 && ((WHITESPACE[n - 1].0 <= c <= WHITESPACE[n - 1].1) || InWhitespace(c, n - 1))
  }

  /** Python's `str.isspace` for a single character. */
  predicate IsSpace(c: char) {
    InWhitespace(c, |WHITESPACE|)
  }

  /** The whitespace characters, spelled out. */
  lemma IsSpaceIff(c: char)
    ensures IsSpace(c) <==>
              ('\t' <= c <= '\r') || ('\U{001C}' <= c <= ' ') || c == '\U{0085}' || c == '\U{00A0}'
              || c == '\U{1680}' || ('\U{2000}' <= c <= '\U{200A}') || c == '\U{2028}' || c == '\U{2029}'
              || c == '\U{202F}' || c == '\U{205F}' || c == '\U{3000}'
  {
    // one range at a time
    assert InWhitespace(c, 10) == ((WHITESPACE[9].0 <= c <= WHITESPACE[9].1) || InWhitespace(c, 9));
    assert InWhitespace(c, 9) == ((WHITESPACE[8].0 <= c <= WHITESPACE[8].1) || InWhitespace(c, 8));
    assert InWhitespace(c, 8) == ((WHITESPACE[7].0 <= c <= WHITESPACE[7].1) || InWhitespace(c, 7));
    assert InWhitespace(c, 7) == ((WHITESPACE[6].0 <= c <= WHITESPACE[6].1) || InWhitespace(c, 6));
    assert InWhitespace(c, 6) == ((WHITESPACE[5].0 <= c <= WHITESPACE[5].1) || InWhitespace(c, 5));
    assert InWhitespace(c, 5) == ((WHITESPACE[4].0 <= c <= WHITESPACE[4].1) || InWhitespace(c, 4));
    assert InWhitespace(c, 4) == ((WHITESPACE[3].0 <= c <= WHITESPACE[3].1) || InWhitespace(c, 3));
    assert InWhitespace(c, 3) == ((WHITESPACE[2].0 <= c <= WHITESPACE[2].1) || InWhitespace(c, 2));
    assert InWhitespace(c, 2) == ((WHITESPACE[1].0 <= c <= WHITESPACE[1].1) || InWhitespace(c, 1));
    assert InWhitespace(c, 1) == ((WHITESPACE[0].0 <= c <= WHITESPACE[0].1) || InWhitespace(c, 0));
  }

  predicate IsBlank(s: string) {
    forall i | 0 <= i < |s| :: IsSpace(s[i])
  }

  predicate StartsWith(s: string, prefix: string) {
    |prefix| <= |s| && s[..|prefix|] == prefix
  }

  predicate EndsWith(s: string, suffix: string) {
    |suffix| <= |s| && s[|s| - |suffix|..] == suffix
  }

  /** `t` occurs in `s` starting at index `i`. */
  predicate HasAt(s: string, i: nat, t: string) {
    i + |t| <= |s| && s[i..i + |t|] == t
  }

  /** `str.lstrip()`: drops the leading whitespace. */
  function LStrip(s: string): (r: string)
    ensures |r| <= |s| && r == s[|s| - |r|..]
    ensures forall i :: 0 <= i < |s| - |r| ==> IsSpace(s[i])
    ensures r == [] || !IsSpace(r[0])
  {
    if s != [] && IsSpace(s[0]) then LStrip(s[1..]) else s
  }

  /** `str.rstrip()`: drops the trailing whitespace. */
  function RStrip(s: string): (r: string)
    ensures |r| <= |s| && r == s[..|r|]
    ensures forall i :: |r| <= i < |s| ==> IsSpace(s[i])
    ensures r == [] || !IsSpace(r[|r| - 1])
  {
    if s != [] && IsSpace(s[|s| - 1]) then RStrip(s[..|s| - 1]) else s
  }

  /** `str.strip()`: the text between the leading and the trailing whitespace. */
  function Strip(s: string): (r: string)
    ensures |r| <= |s|
    ensures r == [] || (!IsSpace(r[0]) && !IsSpace(r[|r| - 1]))
    ensures r == [] <==> IsBlank(s)
  {
    StripBlank(s);
    RStrip(LStrip(s))
  }

  /** Both strips together leave nothing exactly when the text is all whitespace. */
  lemma StripBlank(s: string)
    ensures RStrip(LStrip(s)) == [] <==> IsBlank(s)
  {
    var l := LStrip(s);
    RStripBlank(l);
    assert IsBlank(l) <==> IsBlank(s) by {
      assert forall i :: 0 <= i < |l| ==> l[i] == s[|s| - |l| + i];
    }
  }

  /** The right strip leaves nothing exactly when the text is all whitespace. */
  lemma RStripBlank(s: string)
    ensures RStrip(s) == [] <==> IsBlank(s)
  {
    var r := RStrip(s);
    assert r != [] ==> r[|r| - 1] == s[|r| - 1];
  }

  /** Text that neither starts nor ends with whitespace is its own strip. */
  lemma StripPlain(s: string)
    requires s == [] || (!IsSpace(s[0]) && !IsSpace(s[|s| - 1]))
    ensures Strip(s) == s
  {
    assert LStrip(s) == s;
  }

  /** Stripping text indented by whitespace gives the text. */
  lemma {:induction false} StripIndented(pad: string, s: string)
    requires IsBlank(pad)
    requires s == [] || (!IsSpace(s[0]) && !IsSpace(s[|s| - 1]))
    ensures Strip(pad + s) == s
  {
    if pad == [] {
      assert pad + s == s;
      StripPlain(s);
    } else {
      assert (pad + s)[1..] == pad[1..] + s;
      StripIndented(pad[1..], s);
      assert LStrip(pad + s) == LStrip(pad[1..] + s);
    }
  }

  /** Text that starts with a non-space character keeps that character first when
      stripped. */
  lemma StripKeepsLeading(s: string)
    requires s != [] && !IsSpace(s[0])
    ensures Strip(s) != [] && Strip(s)[0] == s[0]
  {
    assert LStrip(s) == s;
    assert !IsBlank(s);
  }

  /** `str.lstrip(c)` for one character `c`. */
  function LStripChar(s: string, c: char): (r: string)
    ensures |r| <= |s| && r == s[|s| - |r|..]
    ensures r == [] || r[0] != c
  {
    if s != [] && s[0] == c then LStripChar(s[1..], c) else s
  }

  /** `s[:n]`. */
  function Take(s: string, n: nat): (r: string)
    ensures |r| == if |s| < n then |s| else n
    ensures StartsWith(s, r)
  {
    if |s| <= n then s else s[..n]
  }

  /** The first index at or after `from` where `t` occurs, as `str.find(t, from)` does. */
  function IndexFrom(s: string, t: string, from: nat): (r: Option<nat>)
    decreases |s| - from
    ensures r.Some? ==> from <= r.value && HasAt(s, r.value, t)
    ensures r.Some? ==> forall j :: from <= j < r.value ==> !HasAt(s, j, t)
    ensures r.None? ==> forall j :: from <= j ==> !HasAt(s, j, t)
  {
    if from + |t| > |s| then None
    else if s[from..from + |t|] == t then Some(from)
    else IndexFrom(s, t, from + 1)
  }

  /** The `in` operator on strings. */
  predicate Contains(s: string, t: string) {
    IndexFrom(s, t, 0).Some?
  }

  /** `s.split(sep)[0]`: the text before the first occurrence of `sep`, or all of `s`. */
  function BeforeFirst(s: string, sep: string): (r: string)
    ensures StartsWith(s, r)
    ensures r == s || HasAt(s, |r|, sep)
    ensures forall j :: 0 <= j < |r| ==> !HasAt(s, j, sep)
  {
    match IndexFrom(s, sep, 0)
    case Some(i) => s[..i]
    case None => s
  }

  /** The text before a separator that does not start `s` keeps the first character. */
  lemma BeforeFirstKeepsLeading(s: string, sep: string)
    requires s != [] && !HasAt(s, 0, sep)
    ensures BeforeFirst(s, sep) != [] && BeforeFirst(s, sep)[0] == s[0]
  {
  }

  /** Nothing comes before a separator that starts `s`. */
  lemma BeforeFirstAtStart(s: string, sep: string)
    requires HasAt(s, 0, sep)
    ensures BeforeFirst(s, sep) == []
  {
  }

  /** `s.split(c)[-1]`: the text after the last occurrence of `c`, or all of `s`. */
  function AfterLast(s: string, c: char): (r: string)
    ensures |r| <= |s| && r == s[|s| - |r|..]
    ensures c !in r
    ensures |r| == |s| || s[|s| - |r| - 1] == c
  {
    if s == [] then []
    else if s[|s| - 1] == c then []
    else AfterLast(s[..|s| - 1], c) + [s[|s| - 1]]
  }

  /** Dropping `i` characters and then `j` drops `i + j`. */
  lemma DropDrop(s: string, i: nat, j: nat)
    requires i + j <= |s|
    ensures s[i..][j..] == s[i + j..]
  {
    assert forall k :: 0 <= k < |s| - i - j ==> s[i..][j..][k] == s[i + j + k];
  }

  /** A character absent from a string is absent from each of its suffixes. */
  lemma SliceKeepsOut(s: string, c: char, i: nat)
    requires c !in s && i <= |s|
    ensures c !in s[i..]
  {
    forall j | 0 <= j < |s[i..]| ensures s[i..][j] != c {
      assert s[i..][j] == s[i + j];
    }
  }

  /** `s.split(c)` for a one-character separator. */
  function Split(s: string, c: char): (parts: seq<string>)
    ensures |parts| >= 1
    ensures forall i :: 0 <= i < |parts| ==> c !in parts[i]
  {
    if s == [] then [[]]
    else if s[0] == c then [[]] + Split(s[1..], c)
    else
      var rest := Split(s[1..], c);
      [[s[0]] + rest[0]] + rest[1..]
  }

  /** `sep.join(parts)`. */
  function Join(sep: string, parts: seq<string>): string {
    if |parts| == 0 then []
    else if |parts| == 1 then parts[0]
    else parts[0] + sep + Join(sep, parts[1..])
  }

  /** Splitting on a character and joining back with it gives the original text. */
  lemma {:induction false} SplitJoin(s: string, c: char)
    ensures Join([c], Split(s, c)) == s
  {
    if s == [] {
    } else if s[0] == c {
      SplitJoin(s[1..], c);
      var rest := Split(s[1..], c);
      assert Join([c], [[]] + rest) == [] + [c] + Join([c], rest);
    } else {
      SplitJoin(s[1..], c);
      var rest := Split(s[1..], c);
      if |rest| == 1 {
        assert Split(s, c) == [[s[0]] + rest[0]];
        assert rest[0] == s[1..];
      } else {
        var parts := [[s[0]] + rest[0]] + rest[1..];
        assert parts[1..] == rest[1..];
        assert Join([c], rest) == rest[0] + [c] + Join([c], rest[1..]);
      }
    }
  }

  function LowerChar(c: char): char {
    if 'A' <= c <= 'Z' then (c as int + 32) as char else c
  }

  function UpperChar(c: char): char {
    if 'a' <= c <= 'z' then (c as int - 32) as char else c
  }

  /** `str.lower()` on ASCII letters. */
  function Lower(s: string): (r: string)
    ensures |r| == |s| && forall i :: 0 <= i < |s| ==> r[i] == LowerChar(s[i])
  {
    seq(|s|, i requires 0 <= i < |s| => LowerChar(s[i]))
  }

  /** `str.upper()` on ASCII letters. */
  function Upper(s: string): (r: string)
    ensures |r| == |s| && forall i :: 0 <= i < |s| ==> r[i] == UpperChar(s[i])
  {
    seq(|s|, i requires 0 <= i < |s| => UpperChar(s[i]))
  }

  /** Two texts that agree once lower-cased also agree once upper-cased. */
  lemma UpperFollowsLower(a: string, b: string)
    requires Lower(a) == Lower(b)
    ensures Upper(a) == Upper(b)
  {
    forall i | 0 <= i < |a|
      ensures Upper(a)[i] == Upper(b)[i]
    {
      assert LowerChar(a[i]) == Lower(a)[i] == Lower(b)[i] == LowerChar(b[i]);
    }
  }

  /** Lower-casing commutes with dropping a prefix. */
  lemma LowerDrop(s: string, n: nat)
    requires n <= |s|
    ensures Lower(s[n..]) == Lower(s)[n..]
  {
    assert |Lower(s[n..])| == |Lower(s)[n..]|;
    forall i | 0 <= i < |s| - n
      ensures Lower(s[n..])[i] == Lower(s)[n..][i]
    {
      assert s[n..][i] == s[n + i];
    }
  }

  /** `s.replace(a, b)` for single characters. */
  function ReplaceChar(s: string, a: char, b: char): (r: string)
    ensures |r| == |s|
    ensures forall i :: 0 <= i < |s| ==> r[i] == if s[i] == a then b else s[i]
  {
    seq(|s|, i requires 0 <= i < |s| => if s[i] == a then b else s[i])
  }

  /** `s.replace(pat, "")`: removes the non-overlapping occurrences of `pat`, scanning
      from the left. */
  function RemoveAll(s: string, pat: string): (r: string)
    requires pat != []
    decreases |s|
    ensures |r| <= |s|
    ensures forall ch :: ch in r ==> ch in s
  {
    if s == [] then []
    else if StartsWith(s, pat) then RemoveAll(s[|pat|..], pat)
    else [s[0]] + RemoveAll(s[1..], pat)
  }

  function DigitChar(d: nat): char
    requires d < 10
  {
    "0123456789"[d]
  }

  predicate IsDigits(s: string) {
    forall i | 0 <= i < |s| :: '0' <= s[i] <= '9'
  }

  /** `str(n)` for a natural number: its decimal digits. */
  function NatToString(n: nat): (r: string)
    ensures |r| >= 1 && IsDigits(r)
    ensures |r| > 1 ==> r[0] != '0'
  {
    if n < 10 then [DigitChar(n)] else NatToString(n / 10) + [DigitChar(n % 10)]
  }

  /** `int(s)` for a string of decimal digits. */
  function ParseDigits(s: string): nat
    requires IsDigits(s)
  {
    if s == [] then 0 else 10 * ParseDigits(s[..|s| - 1]) + (s[|s| - 1] as int - '0' as int)
  }

  /** Reading back the decimal text of `n` gives `n`. */
  lemma {:induction false} NatToStringRoundTrip(n: nat)
    ensures ParseDigits(NatToString(n)) == n
  {
    if n >= 10 {
      NatToStringRoundTrip(n / 10);
      var r := NatToString(n);
      assert r[..|r| - 1] == NatToString(n / 10);
    }
  }

  /** Python's `<` on strings: lexicographic order of code points. */
  predicate StrLess(a: string, b: string)
    decreases |a|
  {
    if a == [] then b != []
    else if b == [] then false
    else if a[0] != b[0] then a[0] < b[0]
    else StrLess(a[1..], b[1..])
  }

  lemma {:induction false} StrLessIrreflexive(a: string)
    ensures !StrLess(a, a)
  {
    if a != [] {
      StrLessIrreflexive(a[1..]);
    }
  }

  lemma {:induction false} StrLessTotal(a: string, b: string)
    ensures a == b || StrLess(a, b) || StrLess(b, a)
    decreases |a|
  {
    if a != [] && b != [] && a[0] == b[0] {
      StrLessTotal(a[1..], b[1..]);
      if a[1..] == b[1..] {
        assert a == [a[0]] + a[1..] && b == [b[0]] + b[1..];
      }
    }
  }

  lemma {:induction false} StrLessTransitive(a: string, b: string, c: string)
    requires StrLess(a, b) && StrLess(b, c)
    ensures StrLess(a, c)
    decreases |a|
  {
    if a != [] && a[0] == b[0] && b[0] == c[0] {
      StrLessTransitive(a[1..], b[1..], c[1..]);
    }
  }
}
