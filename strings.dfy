/**
 * String helpers shared by the model. Characters are compared ordinally; white
 * space is .NET's full set, while case folding and letters follow the ASCII
 * subset of .NET's rules.
 */
module Strings {

  /**
   * `char.IsWhiteSpace`, which `String.Trim` uses, and the regex class `\s`:
   * tab to carriage return, U+0085, and the Unicode space, line and paragraph
   * separators.
   */
  predicate IsSpace(c: char) {
    ('\t' <= c <= '\r') || c == ' ' || c == '\U{85}' || c == '\U{A0}' || c == '\U{1680}' ||
    ('\U{2000}' <= c <= '\U{200A}') || c == '\U{2028}' || c == '\U{2029}' || c == '\U{202F}' ||
    c == '\U{205F}' || c == '\U{3000}'
  }

  predicate IsAsciiLetter(c: char) { ('a' <= c <= 'z') || ('A' <= c <= 'Z') }

  predicate IsDigit(c: char) { '0' <= c <= '9' }

  /** The regex class `\w`, restricted to ASCII. */
  predicate IsWordChar(c: char) { IsAsciiLetter(c) || IsDigit(c) || c == '_' }

  function ToLower(c: char): char {
    if 'A' <= c <= 'Z' then (c as int + 32) as char else c
  }

  function ToUpper(c: char): char {
    if 'a' <= c <= 'z' then (c as int - 32) as char else c
  }

  function Lower(s: string): (r: string)
    ensures |r| == |s|
    ensures forall i :: 0 <= i < |s| ==> r[i] == ToLower(s[i])
  {
    if s == [] then [] else [ToLower(s[0])] + Lower(s[1..])
  }

  function Upper(s: string): (r: string)
    ensures |r| == |s|
    ensures forall i :: 0 <= i < |s| ==> r[i] == ToUpper(s[i])
  {
    if s == [] then [] else [ToUpper(s[0])] + Upper(s[1..])
  }

  /** Case-insensitive equality (`OrdinalIgnoreCase`, `CaseInsensitiveComparer`). */
  predicate EqualsIgnoreCase(a: string, b: string) { Lower(a) == Lower(b) }

  predicate StartsWith(s: string, p: string) { p <= s }

  predicate EndsWith(s: string, p: string) { |p| <= |s| && s[|s| - |p|..] == p }

  /** `p` occurs in `s` at position `i`. */
  predicate OccursAt(s: string, p: string, i: int) {
    0 <= i && i + |p| <= |s| && s[i..i + |p|] == p
  }

  predicate Contains(s: string, p: string) { exists i | 0 <= i <= |s| :: OccursAt(s, p, i) }

  /** `String.IndexOf(p, from)` with ordinal comparison: the first occurrence at or after `from`, or -1. */
  function IndexOfFrom(s: string, p: string, from: nat): (r: int)
    requires |p| > 0
    ensures r == -1 || (from <= r && OccursAt(s, p, r))
    ensures r == -1 ==> forall i :: from <= i ==> !OccursAt(s, p, i)
    ensures r != -1 ==> forall i :: from <= i < r ==> !OccursAt(s, p, i)
    decreases |s| - from
  {
    if from + |p| > |s| then -1
    else if s[from..from + |p|] == p then from
    else IndexOfFrom(s, p, from + 1)
  }

  /** Skipping positions where `p` does not occur leaves the first occurrence unchanged. */
  lemma {:induction false} IndexOfFromSkip(s: string, p: string, a: nat, b: nat)
    requires |p| > 0 && a <= b
    requires forall i :: a <= i < b ==> !OccursAt(s, p, i)
    ensures IndexOfFrom(s, p, a) == IndexOfFrom(s, p, b)
    decreases b - a
  {
    if a < b && a + |p| <= |s| {
      assert !OccursAt(s, p, a);
      IndexOfFromSkip(s, p, a + 1, b);
    }
  }

  lemma SliceConcat(s: string, a: nat, b: nat, c: nat)
    requires a <= b <= c <= |s|
    ensures s[a..c] == s[a..b] + s[b..c]
  {
  }

  predicate AllSpace(s: string) { forall i :: 0 <= i < |s| ==> IsSpace(s[i]) }

  function IndexOf(s: string, p: string): (r: int)
    requires |p| > 0
    ensures r == -1 <==> !Contains(s, p)
    ensures r != -1 ==> OccursAt(s, p, r) && forall i :: 0 <= i < r ==> !OccursAt(s, p, i)
  {
    IndexOfFrom(s, p, 0)
  }

  function TrimStart(s: string): string {
    if s != [] && IsSpace(s[0]) then TrimStart(s[1..]) else s
  }

  /** `TrimStart` drops exactly the leading white space. */
  lemma {:induction false} TrimStartFacts(s: string)
    ensures var r := TrimStart(s);
      && |r| <= |s| && r == s[|s| - |r|..]
      && (r == [] || !IsSpace(r[0]))
      && forall i :: 0 <= i < |s| - |r| ==> IsSpace(s[i])
  {
    if s != [] && IsSpace(s[0]) {
      var t := s[1..];
      TrimStartFacts(t);
      var r := TrimStart(t);
      assert TrimStart(s) == r;
      assert |s| - |r| == 1 + (|t| - |r|);
      assert s[|s| - |r|..] == t[|t| - |r|..];
      forall i | 0 <= i < |s| - |r| ensures IsSpace(s[i]) {
        if i > 0 { assert s[i] == t[i - 1]; }
      }
    }
  }

  function TrimEnd(s: string): string {
    if s != [] && IsSpace(s[|s| - 1]) then TrimEnd(s[..|s| - 1]) else s
  }

  /** `TrimEnd` drops exactly the trailing white space. */
  lemma {:induction false} TrimEndFacts(s: string)
    ensures var r := TrimEnd(s);
      && |r| <= |s| && r == s[..|r|]
      && (r == [] || !IsSpace(r[|r| - 1]))
      && forall i :: |r| <= i < |s| ==> IsSpace(s[i])
  {
    if s != [] && IsSpace(s[|s| - 1]) {
      var t := s[..|s| - 1];
      TrimEndFacts(t);
      var r := TrimEnd(t);
      assert TrimEnd(s) == r;
      assert s[..|r|] == t[..|r|];
      forall i | |r| <= i < |s| ensures IsSpace(s[i]) {
        if i < |s| - 1 { assert s[i] == t[i]; }
      }
    }
  }

  function Trim(s: string): string { TrimEnd(TrimStart(s)) }

  /** Number of occurrences of `c` in `s`. */
  function CountChar(s: string, c: char): (n: nat)
    ensures n <= |s|
  {
    if s == [] then 0 else (if s[0] == c then 1 else 0) + CountChar(s[1..], c)
  }

  /** `String.Replace(pat, rep)`: every non-overlapping occurrence, scanning left to right. */
  function Replace(s: string, pat: string, rep: string): string
    requires |pat| > 0
    decreases |s|
  {
    if |s| < |pat| then s
    else if s[..|pat|] == pat then rep + Replace(s[|pat|..], pat, rep)
    else [s[0]] + Replace(s[1..], pat, rep)
  }

  /** Every character of `s` that is not `c`, in order (`Replace(c, "")`). */
  function Remove(s: string, c: char): string {
    if s == [] then [] else (if s[0] == c then [] else [s[0]]) + Remove(s[1..], c)
  }

  lemma {:induction false} RemoveDrops(s: string, c: char)
    ensures c !in Remove(s, c)
  {
    if s != [] {
      RemoveDrops(s[1..], c);
    }
  }

  /** `String.Split(sep)` with `StringSplitOptions.None`: always at least one piece. */
  function Split(s: string, sep: string): (r: seq<string>)
    requires |sep| > 0
    ensures |r| >= 1
    decreases |s|
  {
    if |s| < |sep| then [s]
    else if s[..|sep|] == sep then [""] + Split(s[|sep|..], sep)
    else var rest := Split(s[1..], sep); [[s[0]] + rest[0]] + rest[1..]
  }

  /** `String.Join(sep, parts)`. */
  function Join(sep: string, parts: seq<string>): string {
    if parts == [] then ""
    else if |parts| == 1 then parts[0]
    else parts[0] + sep + Join(sep, parts[1..])
  }

  /** A text without the separator is one piece. */
  lemma {:induction false} SplitWithout(s: string, sep: string)
    requires |sep| > 0 && !Contains(s, sep)
    ensures Split(s, sep) == [s]
    decreases |s|
  {
    if |s| >= |sep| {
      assert !OccursAt(s, sep, 0);
      assert s[0..|sep|] == s[..|sep|];
      forall i | 0 <= i <= |s| - 1
        ensures !OccursAt(s[1..], sep, i)
      {
        if OccursAt(s[1..], sep, i) {
          assert s[1..][i..i + |sep|] == s[i + 1..i + 1 + |sep|];
          assert OccursAt(s, sep, i + 1);
        }
      }
      SplitWithout(s[1..], sep);
      assert [s[0]] + s[1..] == s;
    }
  }

  /** Decimal digits of `n`, most significant first. */
  function DecimalDigits(n: nat): (r: string)
    ensures |r| >= 1
    ensures forall i :: 0 <= i < |r| ==> IsDigit(r[i])
  {
    if n < 10 then [('0' as int + n) as char]
    else DecimalDigits(n / 10) + [('0' as int + n % 10) as char]
  }

  /** The .NET format "D2": decimal digits, left-padded with zeros to at least two. */
  function FormatD2(n: nat): (r: string)
    ensures |r| >= 2
  {
    if n < 10 then "0" + DecimalDigits(n) else DecimalDigits(n)
  }

  /** Counting distributes over concatenation. */
  lemma {:induction false} CountCharAppend(a: string, b: string, c: char)
    ensures CountChar(a + b, c) == CountChar(a, c) + CountChar(b, c)
    decreases |a|
  {
    if a != [] {
      assert (a + b)[0] == a[0] && (a + b)[1..] == a[1..] + b;
      CountCharAppend(a[1..], b, c);
    } else {
      assert a + b == b;
    }
  }

  /** Trimming never changes the count of a character that is not white space. */
  lemma {:induction false} CountCharTrimStart(s: string, c: char)
    requires !IsSpace(c)
    ensures CountChar(TrimStart(s), c) == CountChar(s, c)
    decreases |s|
  {
    if s != [] && IsSpace(s[0]) {
      CountCharTrimStart(s[1..], c);
    }
  }

  lemma {:induction false} CountCharTrimEnd(s: string, c: char)
    requires !IsSpace(c)
    ensures CountChar(TrimEnd(s), c) == CountChar(s, c)
    decreases |s|
  {
    if s != [] && IsSpace(s[|s| - 1]) {
      var t := s[..|s| - 1];
      CountCharTrimEnd(t, c);
      assert s == t + [s[|s| - 1]];
      CountCharAppend(t, [s[|s| - 1]], c);
      assert CountChar([s[|s| - 1]], c) == 0 by {
        assert [s[|s| - 1]][1..] == [];
      }
    }
  }

  lemma CountCharTrim(s: string, c: char)
    requires !IsSpace(c)
    ensures CountChar(Trim(s), c) == CountChar(s, c)
  {
    CountCharTrimStart(s, c);
    CountCharTrimEnd(TrimStart(s), c);
  }

  /** A text in which the pattern does not occur is left alone by `Replace`. */
  lemma {:induction false} ReplaceWithout(s: string, pat: string, rep: string)
    requires |pat| > 0 && !Contains(s, pat)
    ensures Replace(s, pat, rep) == s
    decreases |s|
  {
    if |s| >= |pat| {
      assert !OccursAt(s, pat, 0);
      assert s[0..|pat|] == s[..|pat|];
      forall i | 0 <= i <= |s| - 1
        ensures !OccursAt(s[1..], pat, i)
      {
        if OccursAt(s[1..], pat, i) {
          assert s[1..][i..i + |pat|] == s[i + 1..i + 1 + |pat|];
          assert OccursAt(s, pat, i + 1);
        }
      }
      ReplaceWithout(s[1..], pat, rep);
      assert [s[0]] + s[1..] == s;
    }
  }

  /** Lower-casing commutes with slicing. */
  lemma LowerSlice(s: string, i: nat, j: nat)
    requires i <= j <= |s|
    ensures Lower(s)[i..j] == Lower(s[i..j])
  {
    var l, m := Lower(s)[i..j], Lower(s[i..j]);
    assert |l| == |m|;
    forall k | 0 <= k < |l|
      ensures l[k] == m[k]
    {
      assert l[k] == ToLower(s[i + k]) && m[k] == ToLower(s[i..j][k]);
    }
  }

  lemma DecimalDigitsLead(n: nat)
    requires n >= 1
    ensures DecimalDigits(n)[0] != '0'
  {
    if n >= 10 {
      DecimalDigitsLead(n / 10);
    }
  }

  /** Different numbers have different decimal digits. */
  lemma {:induction false} DecimalDigitsInjective(a: nat, b: nat)
    requires DecimalDigits(a) == DecimalDigits(b)
    ensures a == b
    decreases a
  {
    var da, db := DecimalDigits(a), DecimalDigits(b);
    if a >= 10 && b >= 10 {
      assert da[..|da| - 1] == DecimalDigits(a / 10);
      assert db[..|db| - 1] == DecimalDigits(b / 10);
      DecimalDigitsInjective(a / 10, b / 10);
      assert da[|da| - 1] == db[|db| - 1];
    } else if a >= 10 || b >= 10 {
      assert false;
    } else {
      assert da[0] == db[0];
    }
  }

  /** Different numbers have different "D2" renderings, so the names built from them differ. */
  lemma FormatD2Injective(a: nat, b: nat)
    requires FormatD2(a) == FormatD2(b)
    ensures a == b
  {
    if a < 10 && b < 10 {
      assert FormatD2(a)[1..] == DecimalDigits(a);
      assert FormatD2(b)[1..] == DecimalDigits(b);
      DecimalDigitsInjective(a, b);
    } else if a < 10 {
      DecimalDigitsLead(b);
      assert false;
    } else if b < 10 {
      DecimalDigitsLead(a);
      assert false;
    } else {
      DecimalDigitsInjective(a, b);
    }
  }
}
