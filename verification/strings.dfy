/** The string operations of the Kotlin standard library that the pipeline
    uses, over `seq<char>`.  Character classes are ASCII: `isDigit`,
    `isWhitespace`, `lowercase` and the regex classes `\d`, `\s` and
    `[A-Za-z]` all agree with these on ASCII input. */
module Strings {
  import opened Base

  predicate IsDigit(c: char) { '0' <= c <= '9' }
  predicate IsUpper(c: char) { 'A' <= c <= 'Z' }
  predicate IsLowerLetter(c: char) { 'a' <= c <= 'z' }
  predicate IsLetter(c: char) { IsUpper(c) || IsLowerLetter(c) }

  /** The regex range `一-鿿` (CJK unified ideographs). */
  predicate IsHan(c: char) { '\U{4E00}' <= c <= '\U{9FFF}' }

  /** The regex class `\s`: space, tab, line feed, vertical tab, form feed,
      carriage return. */
  predicate IsSpace(c: char) {
    c == ' ' || c == '\t' || c == '\n' || c == '\U{000B}' || c == '\U{000C}' || c == '\r'
  }

  /** The characters the regex `.` does not match. */
  predicate IsLineBreak(c: char) {
    c == '\n' || c == '\r' || c == '\U{0085}' || c == '\U{2028}' || c == '\U{2029}'
  }

  predicate IsBlank(s: string) { forall i | 0 <= i < |s| :: IsSpace(s[i]) }
  predicate AllDigits(s: string) { forall i | 0 <= i < |s| :: IsDigit(s[i]) }
  predicate HasDigit(s: string) { exists i | 0 <= i < |s| :: IsDigit(s[i]) }
  predicate HasLetter(s: string) { exists i | 0 <= i < |s| :: IsLetter(s[i]) }
  predicate HasUpper(s: string) { exists i | 0 <= i < |s| :: IsUpper(s[i]) }

  // ---------------------------------------------------------------- case

  function LowerChar(c: char): char {
    if IsUpper(c) then (c as int + 32) as char else c
  }

  /** `lowercase()`, restricted to ASCII letters. */
  function Lower(s: string): string {
    seq(|s|, i requires 0 <= i < |s| => LowerChar(s[i]))
  }

  /** A lower-cased string has no upper-case ASCII letter. */
  lemma LowerHasNoUpper(s: string)
    ensures !HasUpper(Lower(s))
  {
  }

  /** `equals(other, ignoreCase = true)`. */
  predicate EqualsIgnoreCase(a: string, b: string) { Lower(a) == Lower(b) }

  // ---------------------------------------------------------------- search

  predicate OccursAt(s: string, p: string, i: int) {
    0 <= i && i + |p| <= |s| && s[i..i + |p|] == p
  }

  predicate StartsWith(s: string, p: string) { OccursAt(s, p, 0) }

  /** The first index at or after `i` where `p` occurs (`indexOf`). */
  function IndexOfFrom(s: string, p: string, i: nat): (r: Option<nat>)
    ensures r.Some? ==> i <= r.value && OccursAt(s, p, r.value)
    ensures r.Some? ==> forall j | i <= j < r.value :: !OccursAt(s, p, j)
    ensures r.None? ==> forall j | i <= j :: !OccursAt(s, p, j)
    decreases |s| - i
  {
    if i + |p| > |s| then None
    else if s[i..i + |p|] == p then Some(i)
    else IndexOfFrom(s, p, i + 1)
  }

  function IndexOf(s: string, p: string): Option<nat> { IndexOfFrom(s, p, 0) }

  /** `contains(other)`. */
  predicate Contains(s: string, p: string) { exists i | 0 <= i <= |s| :: OccursAt(s, p, i) }

  lemma ContainsAt(s: string, p: string, i: int)
    requires OccursAt(s, p, i)
    ensures Contains(s, p)
  {
  }

  /** `indexOf` finds something exactly when the string contains the
      pattern. */
  lemma ContainsIndexOf(s: string, p: string)
    ensures Contains(s, p) <==> IndexOf(s, p).Some?
  {
    if Contains(s, p) {
      var i :| OccursAt(s, p, i);
      assert IndexOfFrom(s, p, 0).Some?;
    }
  }

  /** The first occurrence at or after `i` is the one with none before it. */
  lemma {:induction false} IndexOfFromIs(s: string, p: string, i: nat, n: nat)
    requires i <= n && OccursAt(s, p, n)
    requires forall j | i <= j < n :: !OccursAt(s, p, j)
    ensures IndexOfFrom(s, p, i) == Some(n)
    decreases n - i
  {
    if i < n {
      IndexOfFromIs(s, p, i + 1, n);
    }
  }

  /** `contains(other, ignoreCase = true)`. */
  predicate ContainsIgnoreCase(s: string, p: string) { Contains(Lower(s), Lower(p)) }

  /** `substringAfter(delimiter)`: the whole string when the delimiter is missing. */
  function SubstringAfter(s: string, delim: string): string {
    match IndexOf(s, delim)
    case None => s
    case Some(i) => s[i + |delim|..]
  }

  // ---------------------------------------------------------------- trim

  function TrimStart(s: string): (r: string)
    ensures |r| <= |s| && r == s[|s| - |r|..]
    ensures r == [] || !IsSpace(r[0])
    ensures forall i | 0 <= i < |s| - |r| :: IsSpace(s[i])
  {
    if s != [] && IsSpace(s[0]) then TrimStart(s[1..]) else s
  }

  function TrimEnd(s: string): (r: string)
    ensures |r| <= |s| && r == s[..|r|]
    ensures r == [] || !IsSpace(r[|r| - 1])
    ensures forall i | |r| <= i < |s| :: IsSpace(s[i])
  {
    if s != [] && IsSpace(s[|s| - 1]) then TrimEnd(s[..|s| - 1]) else s
  }

  /** `trim()`. */
  function Trim(s: string): string { TrimEnd(TrimStart(s)) }

  predicate NoEdgeSpace(s: string) { s == [] || (!IsSpace(s[0]) && !IsSpace(s[|s| - 1])) }

  lemma TrimOfTrimmed(s: string)
    requires NoEdgeSpace(s)
    ensures Trim(s) == s
  {
  }

  lemma TrimShape(s: string)
    ensures NoEdgeSpace(Trim(s))
    ensures Trim(s) == [] <==> IsBlank(s)
  {
    var t := TrimStart(s);
    var r := TrimEnd(t);
    if r != [] {
      assert r[0] == t[0];
    }
    if r == [] {
      assert t == [];
    } else {
      assert !IsSpace(s[|s| - |t|]);
    }
  }

  /** `trim()` only cuts characters off the two ends. */
  lemma TrimIsInfix(s: string)
    ensures exists a, b | 0 <= a <= b <= |s| :: Trim(s) == s[a..b]
  {
    var t := TrimStart(s);
    var a := |s| - |t|;
    var r := TrimEnd(t);
    assert r == s[a..a + |r|];
  }

  /** A leading whitespace character does not survive `trim()`. */
  lemma TrimLeadingSpace(c: char, s: string)
    requires IsSpace(c)
    ensures Trim([c] + s) == Trim(s)
  {
    assert ([c] + s)[1..] == s;
  }

  lemma TrimIdempotent(s: string)
    ensures Trim(Trim(s)) == Trim(s)
  {
    TrimShape(s);
    TrimOfTrimmed(Trim(s));
  }

  // ---------------------------------------------------------------- split and join

  /** Length of the longest prefix free of the separator characters. */
  function RunOutside(s: string, seps: set<char>): (n: nat)
    ensures n <= |s|
    ensures forall i | 0 <= i < n :: s[i] !in seps
    ensures n == |s| || s[n] in seps
  {
    if s == [] || s[0] in seps then 0 else 1 + RunOutside(s[1..], seps)
  }

  /** `split(Regex("[seps]+")).filter { it.isNotEmpty() }`: the maximal
      non-empty runs of characters outside `seps`, in order. */
  function Fields(s: string, seps: set<char>): (r: seq<string>)
    ensures forall k | 0 <= k < |r| :: r[k] != []
    ensures forall k | 0 <= k < |r| :: forall i | 0 <= i < |r[k]| :: r[k][i] !in seps
    decreases |s|
  {
    if s == [] then []
    else if s[0] in seps then Fields(s[1..], seps)
    else
      var n := RunOutside(s, seps);
      [s[..n]] + Fields(s[n..], seps)
  }

  /** A non-empty separator-free word followed by nothing or by a separator
      is the first field. */
  lemma FirstField(w: string, rest: string, seps: set<char>)
    requires w != [] && forall i | 0 <= i < |w| :: w[i] !in seps
    requires rest == [] || rest[0] in seps
    ensures Fields(w + rest, seps) != [] && Fields(w + rest, seps)[0] == w
  {
    var s := w + rest;
    assert s[0] == w[0];
    RunOutsidePrefix(w, rest, seps);
    assert s[..|w|] == w;
  }

  lemma RunOutsidePrefix(w: string, rest: string, seps: set<char>)
    requires forall i | 0 <= i < |w| :: w[i] !in seps
    requires rest == [] || rest[0] in seps
    ensures RunOutside(w + rest, seps) == |w|
  {
    var s := w + rest;
    if w != [] {
      assert s[0] == w[0];
      assert s[1..] == w[1..] + rest;
      RunOutsidePrefix(w[1..], rest, seps);
    }
  }

  /** `split(c)` on a single character: every piece, empty ones included. */
  function Pieces(s: string, c: char): (r: seq<string>)
    ensures |r| >= 1
    decreases |s|
  {
    var n := RunOutside(s, {c});
    if n == |s| then [s] else [s[..n]] + Pieces(s[n + 1..], c)
  }

  /** `joinToString(sep)`. */
  function Join(parts: seq<string>, sep: string): string {
    if |parts| == 0 then ""
    else if |parts| == 1 then parts[0]
    else parts[0] + sep + Join(parts[1..], sep)
  }

  function Concat(parts: seq<string>): string {
    if parts == [] then "" else parts[0] + Concat(parts[1..])
  }

  // ---------------------------------------------------------------- replace

  /** `replace(a, b)` for one-character strings. */
  function ReplaceChar(s: string, a: char, b: char): (r: string)
    ensures |r| == |s|
  {
    if s == [] then [] else [if s[0] == a then b else s[0]] + ReplaceChar(s[1..], a, b)
  }

  /** `replace(pat, "")`: occurrences are removed left to right without
      rescanning the result. */
  function RemoveAll(s: string, pat: string): string
    requires |pat| > 0
    decreases |s|
  {
    if |s| < |pat| then s
    else if s[..|pat|] == pat then RemoveAll(s[|pat|..], pat)
    else [s[0]] + RemoveAll(s[1..], pat)
  }

  /** The characters of `s` that satisfy `keep`, in order. */
  function KeepChars(s: string, keep: char -> bool): (r: string)
    ensures |r| <= |s|
    ensures forall i | 0 <= i < |r| :: keep(r[i])
  {
    if s == [] then [] else (if keep(s[0]) then [s[0]] else []) + KeepChars(s[1..], keep)
  }

  lemma KeepCharsOfKept(s: string, keep: char -> bool)
    requires forall i | 0 <= i < |s| :: keep(s[i])
    ensures KeepChars(s, keep) == s
  {
    if s != [] {
      KeepCharsOfKept(s[1..], keep);
    }
  }

  function LettersOnly(s: string): string { KeepChars(s, IsLetter) }

  function RemoveChar(s: string, c: char): string { KeepChars(s, x => x != c) }

  // ---------------------------------------------------------------- numbers

  function DigitChar(d: nat): char
    requires d < 10
  {
    ('0' as int + d) as char
  }

  /** `Int.toString()` for a natural number: no leading zeros. */
  function NatToString(n: nat): string
    decreases n
  {
    if n < 10 then [DigitChar(n)] else NatToString(n / 10) + [DigitChar(n % 10)]
  }

  /** The value of a run of ASCII digits (`toInt()`, leading zeros allowed). */
  function DigitsValue(s: string): nat
    requires AllDigits(s)
  {
    if s == [] then 0 else DigitsValue(s[..|s| - 1]) * 10 + (s[|s| - 1] as int - '0' as int)
  }

  /** Printing a number and reading it back gives the number, and the
      printed form has no leading zero. */
  lemma {:induction false} NatToStringRoundTrip(n: nat)
    ensures NatToString(n) != [] && AllDigits(NatToString(n))
    ensures DigitsValue(NatToString(n)) == n
    ensures NatToString(n)[0] == '0' ==> n == 0
    decreases n
  {
    if n >= 10 {
      NatToStringRoundTrip(n / 10);
      var s := NatToString(n);
      assert s[..|s| - 1] == NatToString(n / 10);
    }
  }
}
