/** The family of regular expressions the field extractors and the patient
    parser use, `LABEL[:：]?\s*(CAPTURE)` and its variants, with the
    matching semantics of `java.util.regex`: `find` takes the leftmost
    start; at one start the optional colon is tried taken and then skipped,
    the greedy `\s*` gives back one character at a time, a bounded class run
    takes as many characters as it may, and an alternation takes its first
    alternative that matches. */
module Patterns {
  import opened Base
  import opened Strings

  /** The character classes of the captures. */
  datatype CharClass =
    | Alnum          // [A-Za-z0-9]
    | NotSpace       // [^\s\n\r]
    | LetterOrSpace  // [A-Za-z\s]
    | HanOrLetter    // [一-鿿A-Za-z]

  predicate InClass(c: char, k: CharClass) {
    match k
    case Alnum => IsLetter(c) || IsDigit(c)
    case NotSpace => !IsSpace(c)
    case LetterOrSpace => IsLetter(c) || IsSpace(c)
    case HanOrLetter => IsHan(c) || IsLetter(c)
  }

  datatype Bound = Unbounded | AtMost(n: nat)

  /** What may follow the day of a date: nothing, an optional 日, or a
      required 日. */
  datatype DayEnd = NoMark | OptionalMark(mark: char) | RequiredMark(mark: char)

  datatype Capture =
    | Run(cls: CharClass, min: nat, max: Bound)              // (CLASS{min,max}) or (CLASS+)
    | Date(sep1: set<char>, sep2: set<char>, end: DayEnd)   // (\d{4}[sep1]\d{1,2}[sep2]\d{1,2}END)
    | Alternatives(options: seq<string>)                    // (a|b|...)

  /** `LABEL[:：]?\s*(CAPTURE)`; `colon` and `spaces` say whether the
      optional colon and the `\s*` are present. */
  datatype Pattern = Pattern(keyword: string, colon: bool, spaces: bool, capture: Capture)

  // ---------------------------------------------------------------- runs

  /** Length of the run of class characters starting at `i`. */
  function ClassRun(s: string, i: nat, k: CharClass): (n: nat)
    requires i <= |s|
    ensures i + n <= |s|
    ensures forall j | i <= j < i + n :: InClass(s[j], k)
    ensures i + n == |s| || !InClass(s[i + n], k)
    decreases |s| - i
  {
    if i == |s| || !InClass(s[i], k) then 0 else 1 + ClassRun(s, i + 1, k)
  }

  /** Length of the run of `\s` characters starting at `i`. */
  function SpaceRun(s: string, i: nat): (n: nat)
    requires i <= |s|
    ensures i + n <= |s|
    ensures forall j | i <= j < i + n :: IsSpace(s[j])
    ensures i + n == |s| || !IsSpace(s[i + n])
    decreases |s| - i
  {
    if i == |s| || !IsSpace(s[i]) then 0 else 1 + SpaceRun(s, i + 1)
  }

  predicate DigitsAt(s: string, i: nat, n: nat) {
    i + n <= |s| && forall j | i <= j < i + n :: IsDigit(s[j])
  }

  function Cap(n: nat, max: Bound): nat {
    match max
    case Unbounded => n
    case AtMost(m) => if n < m then n else m
  }

  // ---------------------------------------------------------------- dates

  function EndAt(s: string, j: nat, end: DayEnd): (r: Option<nat>)
    ensures r.Some? ==> j <= r.value <= |s| || (r.value == j && j > |s|)
  {
    match end
    case NoMark => Some(j)
    case OptionalMark(c) => if j < |s| && s[j] == c then Some(j + 1) else Some(j)
    case RequiredMark(c) => if j < |s| && s[j] == c then Some(j + 1) else None
  }

  /** `\d{len}END` at `i`: the end of the match. */
  function TryDay(s: string, i: nat, len: nat, end: DayEnd): (r: Option<nat>)
    requires len >= 1
    ensures r.Some? ==> i + len <= r.value <= |s|
    ensures r.Some? ==> IsDigit(s[r.value - 1]) || (end != NoMark && s[r.value - 1] == end.mark)
  {
    if DigitsAt(s, i, len) then EndAt(s, i + len, end) else None
  }

  /** `\d{1,2}END` at `i`, two digits tried first. */
  function DayAt(s: string, i: nat, end: DayEnd): (r: Option<nat>)
    ensures r.Some? ==> i + 1 <= r.value <= |s|
    ensures r.Some? ==> IsDigit(s[r.value - 1]) || (end != NoMark && s[r.value - 1] == end.mark)
  {
    var two := TryDay(s, i, 2, end);
    if two.Some? then two else TryDay(s, i, 1, end)
  }

  /** `\d{len}[sep2]\d{1,2}END` at `i`. */
  function TryMonth(s: string, i: nat, len: nat, sep2: set<char>, end: DayEnd): (r: Option<nat>)
    requires len >= 1
    ensures r.Some? ==> i + len + 2 <= r.value <= |s|
    ensures r.Some? ==> IsDigit(s[r.value - 1]) || (end != NoMark && s[r.value - 1] == end.mark)
  {
    if DigitsAt(s, i, len) && i + len < |s| && s[i + len] in sep2 then DayAt(s, i + len + 1, end) else None
  }

  /** `\d{4}[sep1]\d{1,2}[sep2]\d{1,2}END` at `i`: the end of the match. */
  function DateEnd(s: string, i: nat, sep1: set<char>, sep2: set<char>, end: DayEnd): (r: Option<nat>)
    ensures r.Some? ==> i + 8 <= r.value <= |s| && AllDigits(s[i..i + 4]) && s[i + 4] in sep1
    ensures r.Some? ==> IsDigit(s[r.value - 1]) || (end != NoMark && s[r.value - 1] == end.mark)
  {
    if DigitsAt(s, i, 4) && i + 4 < |s| && s[i + 4] in sep1 then
      var two := TryMonth(s, i + 5, 2, sep2, end);
      if two.Some? then two else TryMonth(s, i + 5, 1, sep2, end)
    else None
  }

  // ---------------------------------------------------------------- captures

  /** What every capture of `cap` looks like. */
  predicate Shape(cap: Capture, c: string) {
    match cap
    case Run(k, min, max) =>
      Cap(min, max) <= |c| && (max.AtMost? ==> |c| <= max.n)
      && forall j | 0 <= j < |c| :: InClass(c[j], k)
    case Date(sep1, sep2, end) =>
      |c| >= 8 && AllDigits(c[..4]) && c[4] in sep1
      && (IsDigit(c[|c| - 1]) || (end != NoMark && c[|c| - 1] == end.mark))
    case Alternatives(opts) =>
      exists k | 0 <= k < |opts| :: c == opts[k] && forall j | 0 <= j < k :: !StartsWith(c, opts[j])
  }

  /** The first alternative that occurs at `i`. */
  function FirstOption(s: string, i: nat, opts: seq<string>): (r: Option<string>)
    ensures r.Some? ==> OccursAt(s, r.value, i)
    ensures r.Some? ==> exists k | 0 <= k < |opts| :: r.value == opts[k] && forall j | 0 <= j < k :: !StartsWith(r.value, opts[j])
    ensures r.None? ==> forall k | 0 <= k < |opts| :: !OccursAt(s, opts[k], i)
  {
    if opts == [] then None
    else if OccursAt(s, opts[0], i) then Some(opts[0])
    else
      var r := FirstOption(s, i, opts[1..]);
      if r.Some? then
        var k :| 0 <= k < |opts[1..]| && r.value == opts[1..][k] && forall j | 0 <= j < k :: !StartsWith(r.value, opts[1..][j]);
        assert !StartsWith(r.value, opts[0]);
        assert r.value == opts[k + 1];
        r
      else r
  }

  /** The capture group at `i`, if the rest of the pattern matches there. */
  function CaptureAt(s: string, i: nat, cap: Capture): (r: Option<string>)
    requires i <= |s|
    ensures r.Some? ==> Shape(cap, r.value)
  {
    match cap
    case Run(k, min, max) =>
      var n := ClassRun(s, i, k);
      if n >= min then Some(s[i..i + Cap(n, max)]) else None
    case Date(sep1, sep2, end) =>
      var e := DateEnd(s, i, sep1, sep2, end);
      if e.Some? then Some(s[i..e.value]) else None
    case Alternatives(opts) => FirstOption(s, i, opts)
  }

  /** The greedy `\s*` at `q` having taken `k` spaces, giving them back one
      at a time until the capture matches. */
  function GiveBack(s: string, q: nat, k: nat, cap: Capture): (r: Option<string>)
    requires q + k <= |s|
    ensures r.Some? ==> Shape(cap, r.value)
    decreases k
  {
    var r := CaptureAt(s, q + k, cap);
    if r.Some? || k == 0 then r else GiveBack(s, q, k - 1, cap)
  }

  function AfterColon(s: string, q: nat, p: Pattern): (r: Option<string>)
    requires q <= |s|
    ensures r.Some? ==> Shape(p.capture, r.value)
  {
    if p.spaces then GiveBack(s, q, SpaceRun(s, q), p.capture) else CaptureAt(s, q, p.capture)
  }

  predicate IsColon(c: char) { c == ':' || c == '：' }

  /** `[:：]?` at `q`: taken if present, skipped if that fails. */
  function AfterLabel(s: string, q: nat, p: Pattern): (r: Option<string>)
    requires q <= |s|
    ensures r.Some? ==> Shape(p.capture, r.value)
  {
    if p.colon && q < |s| && IsColon(s[q]) then
      var taken := AfterColon(s, q + 1, p);
      if taken.Some? then taken else AfterColon(s, q, p)
    else AfterColon(s, q, p)
  }

  /** The capture of a match starting at `i`. */
  function MatchAt(s: string, i: nat, p: Pattern): (r: Option<string>)
    requires i <= |s|
    ensures r.Some? ==> Shape(p.capture, r.value)
  {
    if OccursAt(s, p.keyword, i) then AfterLabel(s, i + |p.keyword|, p) else None
  }

  function FindFrom(s: string, i: nat, p: Pattern): (r: Option<string>)
    requires i <= |s| + 1
    ensures r.Some? ==> Shape(p.capture, r.value)
    decreases |s| + 1 - i
  {
    if i > |s| then None
    else
      var m := MatchAt(s, i, p);
      if m.Some? then m else FindFrom(s, i + 1, p)
  }

  /** `Regex(p).find(s)?.groupValues[1]`: the capture of the leftmost match. */
  function Find(s: string, p: Pattern): (r: Option<string>)
    ensures r.Some? ==> Shape(p.capture, r.value)
  {
    FindFrom(s, 0, p)
  }

  /** The scan from `i` finds the match at the least start at or after `i`. */
  lemma {:induction false} FindFromLeftmost(s: string, i: nat, p: Pattern)
    requires i <= |s| + 1
    ensures FindFrom(s, i, p).Some? <==> exists j | i <= j <= |s| :: MatchAt(s, j, p).Some?
    ensures FindFrom(s, i, p).Some? ==>
      exists j | i <= j <= |s| :: MatchAt(s, j, p) == FindFrom(s, i, p) && forall l | i <= l < j :: MatchAt(s, l, p).None?
    decreases |s| + 1 - i
  {
    if i <= |s| && MatchAt(s, i, p).None? {
      FindFromLeftmost(s, i + 1, p);
      if FindFrom(s, i, p).Some? {
        var j :| i + 1 <= j <= |s| && MatchAt(s, j, p) == FindFrom(s, i, p) && forall l | i + 1 <= l < j :: MatchAt(s, l, p).None?;
        assert forall l | i <= l < j :: MatchAt(s, l, p).None?;
      }
    }
  }

  /** `find` returns the capture of the leftmost match, and nothing only
      when no start position matches. */
  lemma FindLeftmost(s: string, p: Pattern)
    ensures Find(s, p).Some? <==> exists j | 0 <= j <= |s| :: MatchAt(s, j, p).Some?
    ensures Find(s, p).Some? ==>
      exists j | 0 <= j <= |s| :: MatchAt(s, j, p) == Find(s, p) && forall l | 0 <= l < j :: MatchAt(s, l, p).None?
  {
    FindFromLeftmost(s, 0, p);
  }

  /** The outcome of every pattern of the list, in order. */
  function Finds(s: string, ps: seq<Pattern>): (rs: seq<Option<string>>)
    ensures |rs| == |ps| && forall k | 0 <= k < |ps| :: rs[k] == Find(s, ps[k])
  {
    seq(|ps|, k requires 0 <= k < |ps| => Find(s, ps[k]))
  }

  /** The first pattern of the list that matches anywhere: the loops
      `for (p in patterns) { val m = p.find(text); if (m != null) ... break }`. */
  function FirstOf(s: string, ps: seq<Pattern>): (r: Option<string>)
    ensures r.None? <==> forall k | 0 <= k < |ps| :: Find(s, ps[k]).None?
    ensures r.Some? ==> exists k | 0 <= k < |ps| :: Find(s, ps[k]) == r && forall j | 0 <= j < k :: Find(s, ps[j]).None?
  {
    FirstSome(Finds(s, ps), 0)
  }

  /** The first present element at or after `i`. */
  function FirstSome<T>(rs: seq<Option<T>>, i: nat): (r: Option<T>)
    requires i <= |rs|
    ensures r.None? <==> forall k | i <= k < |rs| :: rs[k].None?
    ensures r.Some? ==> exists k | i <= k < |rs| :: rs[k] == r && forall j | i <= j < k :: rs[j].None?
    decreases |rs| - i
  {
    if i == |rs| then None
    else if rs[i].Some? then rs[i]
    else
      var r := FirstSome(rs, i + 1);
      assert r.Some? ==> exists k | i <= k < |rs| :: rs[k] == r && forall j | i <= j < k :: rs[j].None? by {
        if r.Some? {
          var k :| i + 1 <= k < |rs| && rs[k] == r && forall j | i + 1 <= j < k :: rs[j].None?;
          assert forall j | i <= j < k :: rs[j].None?;
        }
      }
      r
  }

  /** A match of the first pattern at the very start decides the list. */
  lemma FirstOfLeadingMatch(s: string, ps: seq<Pattern>)
    requires ps != [] && MatchAt(s, 0, ps[0]).Some?
    ensures FirstOf(s, ps) == MatchAt(s, 0, ps[0])
  {
    assert Find(s, ps[0]) == MatchAt(s, 0, ps[0]);
    assert Finds(s, ps)[0].Some?;
  }

  /** Elements after `n` that can only be present when element `n - 1` is
      never decide the first present one. */
  lemma FirstSomeIgnoresShadowed<T>(rs: seq<Option<T>>, n: nat)
    requires 0 < n <= |rs|
    requires forall k | n <= k < |rs| :: rs[k].Some? ==> rs[n - 1].Some?
    ensures FirstSome(rs, 0) == FirstSome(rs[..n], 0)
  {
    FirstSomeShadowFrom(rs, n, 0);
  }

  lemma {:induction false} FirstSomeShadowFrom<T>(rs: seq<Option<T>>, n: nat, i: nat)
    requires i < n <= |rs|
    requires forall k | n <= k < |rs| :: rs[k].Some? ==> rs[n - 1].Some?
    ensures FirstSome(rs, i) == FirstSome(rs[..n], i)
    decreases n - i
  {
    var pre := rs[..n];
    assert pre[i] == rs[i];
    if rs[i].None? {
      if i + 1 < n {
        FirstSomeShadowFrom(rs, n, i + 1);
      } else {
        assert FirstSome(pre, n) == None;
        assert forall k | n <= k < |rs| :: rs[k].None?;
        assert FirstSome(rs, n) == None;
      }
    }
  }

  /** Patterns after position `n` that can only match where pattern
      `n - 1` already does never decide the outcome of the list. */
  lemma FirstOfIgnoresShadowed(s: string, ps: seq<Pattern>, n: nat)
    requires 0 < n <= |ps|
    requires forall k | n <= k < |ps| :: Find(s, ps[k]).Some? ==> Find(s, ps[n - 1]).Some?
    ensures FirstOf(s, ps) == FirstOf(s, ps[..n])
  {
    var rs := Finds(s, ps);
    assert Finds(s, ps[..n]) == rs[..n];
    FirstSomeIgnoresShadowed(rs, n);
  }

  /** The outcome of a list has the shape of one of its captures. */
  lemma FirstOfShape(s: string, ps: seq<Pattern>)
    ensures FirstOf(s, ps).Some? ==> exists k | 0 <= k < |ps| :: Shape(ps[k].capture, FirstOf(s, ps).value)
  {
    var r := FirstOf(s, ps);
    if r.Some? {
      var k :| 0 <= k < |ps| && Find(s, ps[k]) == r;
      assert Shape(ps[k].capture, r.value);
    }
  }

  /** Captures that are never empty and never start or end with `\s`. */
  predicate Spaceless(cap: Capture) {
    match cap
    case Run(k, min, max) => min >= 1 && (max.AtMost? ==> max.n >= min) && (k == Alnum || k == NotSpace)
    case Date(_, _, end) => end.NoMark? || !IsSpace(end.mark)
    case Alternatives(opts) => forall k | 0 <= k < |opts| :: opts[k] != [] && NoEdgeSpace(opts[k])
  }

  lemma SpacelessShape(cap: Capture, c: string)
    requires Spaceless(cap) && Shape(cap, c)
    ensures c != [] && NoEdgeSpace(c)
  {
    match cap
    case Run(k, min, max) =>
      assert InClass(c[0], k) && InClass(c[|c| - 1], k);
    case Date(_, _, _) =>
      assert IsDigit(c[0]);
    case Alternatives(opts) =>
  }

  /** A pattern matches only where its keyword occurs: if it fails at
      every occurrence of the keyword, `find` finds nothing. */
  lemma NoMatchAtKeywords(s: string, p: Pattern)
    requires forall j | 0 <= j <= |s| && OccursAt(s, p.keyword, j) :: MatchAt(s, j, p).None?
    ensures Find(s, p).None?
  {
    FindLeftmost(s, p);
  }

  /** A keyword whose first character is absent from the text never occurs. */
  lemma FirstCharAbsent(s: string, w: string)
    requires w != [] && forall i | 0 <= i < |s| :: s[i] != w[0]
    ensures forall j | 0 <= j <= |s| :: !OccursAt(s, w, j)
  {
    forall j | 0 <= j <= |s|
      ensures !OccursAt(s, w, j)
    {
      if j + |w| <= |s| {
        assert s[j..j + |w|][0] == s[j];
      }
    }
  }

  /** A pattern whose keyword starts with a character absent from the text
      finds nothing. */
  lemma AbsentKeyword(s: string, p: Pattern)
    requires p.keyword != [] && forall i | 0 <= i < |s| :: s[i] != p.keyword[0]
    ensures Find(s, p).None?
  {
    FirstCharAbsent(s, p.keyword);
    NoMatchAtKeywords(s, p);
  }

  /** A keyword that ends with another keyword: whenever the longer pattern
      matches, the shorter one (same options, same capture) matches too,
      so a list that tries the shorter one first never reaches the longer
      one. */
  lemma SuffixLabelShadows(s: string, p: Pattern, prefix: string)
    requires Find(s, p.(keyword := prefix + p.keyword)).Some?
    ensures Find(s, p).Some?
  {
    var long := p.(keyword := prefix + p.keyword);
    FindLeftmost(s, long);
    var j :| 0 <= j <= |s| && MatchAt(s, j, long).Some?;
    SuffixMatch(s, p, prefix, j);
    FindLeftmost(s, p);
  }

  lemma SuffixMatch(s: string, p: Pattern, prefix: string, j: nat)
    requires j <= |s| && MatchAt(s, j, p.(keyword := prefix + p.keyword)).Some?
    ensures j + |prefix| <= |s| && MatchAt(s, j + |prefix|, p).Some?
  {
    var long := p.(keyword := prefix + p.keyword);
    var q := j + |prefix| + |p.keyword|;
    assert OccursAt(s, long.keyword, j);
    SuffixOccurs(s, prefix, p.keyword, j);
    assert MatchAt(s, j, long) == AfterLabel(s, q, long);
    AfterLabelIgnoresKeyword(s, q, p, long.keyword);
    assert MatchAt(s, j + |prefix|, p) == AfterLabel(s, q, p);
  }

  lemma SuffixOccurs(s: string, a: string, b: string, j: nat)
    requires OccursAt(s, a + b, j)
    ensures OccursAt(s, b, j + |a|)
  {
    assert s[j + |a|..j + |a| + |b|] == s[j..j + |a| + |b|][|a|..];
  }

  /** What follows the keyword does not depend on the keyword. */
  lemma AfterLabelIgnoresKeyword(s: string, q: nat, p: Pattern, k: string)
    requires q <= |s|
    ensures AfterLabel(s, q, p) == AfterLabel(s, q, p.(keyword := k))
  {
    var o := p.(keyword := k);
    assert AfterColon(s, q, p) == AfterColon(s, q, o);
    if q < |s| {
      assert AfterColon(s, q + 1, p) == AfterColon(s, q + 1, o);
    }
  }
}
