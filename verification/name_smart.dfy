/** `extractNameSmart` of `OcrExtractors.kt`: the patient name is looked for
    first in the recognised layout (the elements to the right of a name
    label on the same line, the line after a bare label, a `label: value`
    form on the line), then in the whole text with two look-ahead regular
    expressions, one for Chinese labels and one for English ones. Every
    candidate is cleaned by `cleanupNameCandidate` and accepted only when
    `isLikelyName` holds. */
module NameSmart {
  import opened Base
  import opened Strings
  import opened Patterns

  // ---------------------------------------------------------------- layout

  /** The horizontal extent of an element's bounding box. */
  datatype Rect = Rect(left: int, right: int)

  /** ML Kit's `Text.Element`, `Text.Line` and `Text.TextBlock`; the box of
      an element may be missing. */
  datatype Element = Element(text: string, box: Option<Rect>)
  datatype TextLine = TextLine(text: string, elements: seq<Element>)
  datatype TextBlock = TextBlock(lines: seq<TextLine>)

  /** `boundingBox?.left ?: Int.MAX_VALUE`. */
  function Left(e: Element): int {
    match e.box
    case Some(b) => b.left
    case None => MaxInt
  }

  /** `boundingBox?.right ?: Int.MIN_VALUE`. */
  function Right(e: Element): int {
    match e.box
    case Some(b) => b.right
    case None => MinInt
  }

  /** Full-width `＝` and `：` read as `=` and `:`. */
  function Canon(s: string): string {
    ReplaceChar(ReplaceChar(s, '＝', '='), '：', ':')
  }

  // ---------------------------------------------------------------- cleanup and acceptance

  /** The characters `cleanupNameCandidate` keeps: space, CJK ideographs,
      ASCII letters, `·`, `・` and `-`. */
  predicate IsNameChar(c: char) {
    c == ' ' || IsHan(c) || IsLetter(c) || c == '·' || c == '・' || c == '-'
  }

  predicate SingleSpaced(s: string) {
    forall i | 0 <= i < |s| - 1 :: !(IsSpace(s[i]) && IsSpace(s[i + 1]))
  }

  /** What a cleaned candidate looks like: name characters only, no two
      spaces in a row, no space at either end. */
  predicate Clean(s: string) { NameChars(s) && SingleSpaced(s) && NoEdgeSpace(s) }

  predicate NameChars(s: string) { forall i | 0 <= i < |s| :: IsNameChar(s[i]) }

  /** `replace(Regex("\\s+"), " ")`: every maximal whitespace run becomes
      one space. */
  function Collapse(s: string): (r: string)
    ensures |r| <= |s|
    ensures s != [] ==> r != [] && (IsSpace(r[0]) <==> IsSpace(s[0]))
    ensures forall i | 0 <= i < |r| :: IsSpace(r[i]) ==> r[i] == ' '
    ensures NameChars(s) ==> NameChars(r)
    ensures SingleSpaced(r)
    decreases |s|
  {
    if s == [] then []
    else if IsSpace(s[0]) then " " + Collapse(s[SpaceRun(s, 0)..])
    else [s[0]] + Collapse(s[1..])
  }

  /** A string that is already single-spaced with plain spaces is left
      alone. */
  lemma {:induction false} CollapseOfSingleSpaced(s: string)
    requires SingleSpaced(s)
    requires forall i | 0 <= i < |s| :: IsSpace(s[i]) ==> s[i] == ' '
    ensures Collapse(s) == s
    decreases |s|
  {
    if s != [] {
      var tail := s[1..];
      assert SingleSpaced(tail) by {
        forall i | 0 <= i < |tail| - 1
          ensures !(IsSpace(tail[i]) && IsSpace(tail[i + 1]))
        {
          assert tail[i] == s[i + 1] && tail[i + 1] == s[i + 2];
        }
      }
      CollapseOfSingleSpaced(tail);
      if IsSpace(s[0]) {
        assert SpaceRun(s, 0) == 1 by {
          assert |s| == 1 || !IsSpace(s[1]);
        }
      }
    }
  }

  /** `cleanupNameCandidate`: a blank input is returned as it is; otherwise
      the characters outside the name set are dropped, whitespace runs are
      collapsed and the ends trimmed. */
  function Cleanup(s: string): (r: string)
    ensures IsBlank(s) ==> r == s
    ensures !IsBlank(s) ==> Clean(r)
  {
    if IsBlank(s) then s
    else
      var k := KeepChars(s, IsNameChar);
      assert Clean(Trim(Collapse(k))) by {
        TrimCollapseIsClean(k);
      }
      Trim(Collapse(k))
  }

  lemma TrimCollapseIsClean(k: string)
    requires NameChars(k)
    ensures Clean(Trim(Collapse(k)))
  {
    TrimIsClean(Collapse(k));
  }

  lemma TrimIsClean(c: string)
    requires NameChars(c) && SingleSpaced(c)
    ensures Clean(Trim(c))
  {
    var t := TrimStart(c);
    TrimStartKeeps(c);
    TrimEndKeeps(t);
    TrimShape(c);
  }

  lemma TrimStartKeeps(c: string)
    requires NameChars(c) && SingleSpaced(c)
    ensures NameChars(TrimStart(c)) && SingleSpaced(TrimStart(c))
  {
    var t := TrimStart(c);
    assert t == c[|c| - |t|..|c|];
    InfixKeeps(c, t, |c| - |t|);
  }

  lemma TrimEndKeeps(c: string)
    requires NameChars(c) && SingleSpaced(c)
    ensures NameChars(TrimEnd(c)) && SingleSpaced(TrimEnd(c))
  {
    var t := TrimEnd(c);
    assert t == c[0..|t|];
    InfixKeeps(c, t, 0);
  }

  /** Name characters and single spacing survive taking an infix. */
  lemma InfixKeeps(c: string, t: string, a: nat)
    requires a + |t| <= |c| && t == c[a..a + |t|]
    requires NameChars(c) && SingleSpaced(c)
    ensures NameChars(t) && SingleSpaced(t)
  {
    forall i | 0 <= i < |t| - 1
      ensures !(IsSpace(t[i]) && IsSpace(t[i + 1]))
    {
      assert t[i] == c[a + i] && t[i + 1] == c[a + i + 1];
    }
  }

  /** A clean string is a fixed point of the cleanup. */
  lemma CleanIsFixpoint(s: string)
    requires Clean(s)
    ensures Cleanup(s) == s
  {
    if !IsBlank(s) {
      KeepCharsOfKept(s, IsNameChar);
      CollapseOfSingleSpaced(s);
      TrimOfTrimmed(s);
    }
  }

  /** Cleaning twice is cleaning once. */
  lemma CleanupIdempotent(s: string)
    ensures Cleanup(Cleanup(s)) == Cleanup(s)
  {
    if !IsBlank(s) {
      CleanIsFixpoint(Cleanup(s));
    }
  }

  predicate IsHanNameChar(c: char) { IsHan(c) || c == '·' || c == '・' || c == '-' }
  predicate IsEnglishNameChar(c: char) { IsLetter(c) || c == ' ' || c == '·' || c == '・' || c == '-' }

  /** `isLikelyName`: not blank, no digit, and either two to eight
      characters of `[一-鿿·・-]` or an ASCII letter followed by one to
      twenty-nine characters of `[A-Za-z ·・-]`. */
  predicate IsLikelyName(s: string) {
    !IsBlank(s) && !HasDigit(s) &&
    ((2 <= |s| <= 8 && forall i | 0 <= i < |s| :: IsHanNameChar(s[i])) ||
     (2 <= |s| <= 30 && IsLetter(s[0]) && forall i | 1 <= i < |s| :: IsEnglishNameChar(s[i])))
  }

  /** What the extraction hands back: a likely name that is already clean. */
  predicate Accepted(s: string) { IsLikelyName(s) && Clean(s) }

  /** The cleaned candidate when it is a likely name. */
  function Accept(candidate: string): (r: Option<string>)
    ensures r.Some? ==> Accepted(r.value) && r.value == Cleanup(candidate)
    ensures r.None? <==> !IsLikelyName(Cleanup(candidate))
  {
    var c := Cleanup(candidate);
    if IsLikelyName(c) then Some(c) else None
  }

  /** Every likely name of the Chinese form survives the cleanup unchanged. */
  lemma HanNameIsClean(s: string)
    requires IsLikelyName(s) && forall i | 0 <= i < |s| :: IsHanNameChar(s[i])
    ensures Cleanup(s) == s
  {
    assert !IsSpace(s[0]) && !IsSpace(s[|s| - 1]);
    assert SingleSpaced(s);
    CleanIsFixpoint(s);
  }

  // ---------------------------------------------------------------- layout pass

  /** `isLabelToken`. */
  predicate IsLabelToken(t: string) {
    var s := Canon(t);
    EqualsIgnoreCase(s, "姓名") || EqualsIgnoreCase(s, "名") || EqualsIgnoreCase(s, "Name") ||
    EqualsIgnoreCase(s, "Patient") || EqualsIgnoreCase(s, "Patient Name") ||
    StartsWith(Lower(s), "patientname")
  }

  /** The element that starts the name: a label token, or text holding 姓名,
      or exactly 名. */
  predicate IsLabelElement(e: Element) {
    var t := Trim(e.text);
    IsLabelToken(t) || Contains(t, "姓名") || t == "名"
  }

  predicate IsPunct(t: string) { t == ":" || t == "：" || t == "=" || t == "＝" }

  /** The element that ends the name: the next field's keyword. */
  predicate IsStopWord(t: string) {
    Contains(t, "性別") || Contains(t, "出生") || Contains(t, "生日") || Contains(t, "病歷號") ||
    EqualsIgnoreCase(t, "DOB") || EqualsIgnoreCase(t, "ID")
  }

  /** What the loop does with one element. */
  datatype Role = Pass | Stop | Append(text: string)

  predicate IsStop(r: Role) { r.Stop? }
  predicate IsAppend(r: Role) { r.Append? }

  /** An element right of the label that is not punctuation. */
  predicate Taken(e: Element, right: int) { !IsPunct(Trim(e.text)) && Left(e) > right }

  /** Punctuation is skipped, elements not right of the label are passed
      over, a stop word to the right ends the scan, and every other trimmed
      text is appended. */
  function RoleOf(e: Element, right: int): (r: Role)
    ensures r.Pass? <==> !Taken(e, right)
    ensures r.Stop? <==> Taken(e, right) && IsStopWord(Trim(e.text))
    ensures r.Append? ==> r.text == Trim(e.text)
  {
    var t := Trim(e.text);
    if IsPunct(t) then Pass
    else if Left(e) > right then (if IsStopWord(t) then Stop else Append(t))
    else Pass
  }

  function Roles(es: seq<Element>, right: int): (rs: seq<Role>)
    ensures |rs| == |es| && forall i | 0 <= i < |es| :: rs[i] == RoleOf(es[i], right)
  {
    seq(|es|, i requires 0 <= i < |es| => RoleOf(es[i], right))
  }

  /** The loop over the roles of the elements. */
  function Run(rs: seq<Role>): string {
    if rs == [] then ""
    else
      match rs[0]
      case Pass => Run(rs[1..])
      case Stop => ""
      case Append(t) => t + Run(rs[1..])
  }

  /** The loop from the label element on. */
  function Collect(es: seq<Element>, right: int): string {
    Run(Roles(es, right))
  }

  function Texts(rs: seq<Role>): seq<string>
    requires forall i | 0 <= i < |rs| :: rs[i].Append?
  {
    seq(|rs|, i requires 0 <= i < |rs| => rs[i].text)
  }

  /** The loop concatenates the appended texts that come before the first
      stop. */
  lemma {:induction false} RunIsAppendsBeforeStop(rs: seq<Role>)
    ensures Run(rs) == Concat(Texts(Filter(rs[..FirstWhere(rs, IsStop)], IsAppend)))
    decreases |rs|
  {
    if rs != [] && !rs[0].Stop? {
      var n := FirstWhere(rs[1..], IsStop);
      RunIsAppendsBeforeStop(rs[1..]);
      PrefixTail(rs, n);
      var pre := rs[..n + 1];
      var rest := Filter(rs[1..][..n], IsAppend);
      assert Filter(pre, IsAppend) == (if rs[0].Append? then [rs[0]] else []) + rest;
      if rs[0].Append? {
        assert Texts([rs[0]] + rest) == [rs[0].text] + Texts(rest);
        assert ([rs[0].text] + Texts(rest))[1..] == Texts(rest);
      } else {
        assert [] + rest == rest;
      }
    }
  }

  lemma PrefixTail<T>(s: seq<T>, n: nat)
    requires n < |s|
    ensures s[..n + 1] != [] && s[..n + 1][0] == s[0] && s[..n + 1][1..] == s[1..][..n]
  {
  }

  /** The step-1 candidate of a line: none when no element is a label. */
  function LayoutCandidate(line: TextLine): (r: Option<string>)
    ensures r.Some? ==> IsBlank(r.value) || Clean(r.value)
  {
    var es := line.elements;
    var j := FirstWhere(es, IsLabelElement);
    if j == |es| then None else Some(Cleanup(Collect(es[j..], Right(es[j]))))
  }

  /** Step 1 finds a candidate exactly when some element of the line is a
      name label. */
  lemma LayoutCandidateNeedsLabel(line: TextLine)
    ensures LayoutCandidate(line).None? <==>
      forall k | 0 <= k < |line.elements| :: !IsLabelElement(line.elements[k])
  {
    var es := line.elements;
    if FirstWhere(es, IsLabelElement) == |es| {
      forall k | 0 <= k < |es|
        ensures !IsLabelElement(es[k])
      {
        FirstWhereIsFirst(es, IsLabelElement, k);
      }
    }
  }

  /** The candidate is read from the first label element on: the elements
      from there on collected against that label's right edge, then
      cleaned. */
  lemma LayoutCandidateAt(line: TextLine, j: nat)
    requires j < |line.elements| && IsLabelElement(line.elements[j])
    requires forall k | 0 <= k < j :: !IsLabelElement(line.elements[k])
    ensures LayoutCandidate(line) ==
      Some(Cleanup(Collect(line.elements[j..], Right(line.elements[j]))))
  {
    FirstWhereUnique(line.elements, IsLabelElement, j);
  }

  /** An element that is appended contributes its text in front of the
      rest. */
  lemma CollectCons(es: seq<Element>, right: int)
    requires es != [] && RoleOf(es[0], right).Append?
    ensures Collect(es, right) == Trim(es[0].text) + Collect(es[1..], right)
  {
    assert Roles(es, right)[1..] == Roles(es[1..], right);
  }

  /** A label element without a box has `right` at `Int.MIN_VALUE` and `left`
      at `Int.MAX_VALUE`, so its own text is collected in front of the name. */
  lemma UnboxedLabelIsCollected(es: seq<Element>, j: nat)
    requires j < |es| && IsLabelElement(es[j]) && es[j].box.None?
    requires !IsStopWord(Trim(es[j].text))
    ensures Right(es[j]) == MinInt
    ensures Collect(es[j..], Right(es[j])) == Trim(es[j].text) + Collect(es[j + 1..], MinInt)
  {
    LabelIsNoPunct(Trim(es[j].text));
    assert es[j..][0] == es[j] && es[j..][1..] == es[j + 1..];
    CollectCons(es[j..], MinInt);
  }

  lemma LabelIsNoPunct(t: string)
    requires IsLabelToken(t) || Contains(t, "姓名") || t == "名"
    ensures !IsPunct(t)
  {
    PunctIsNoLabel(":");
    PunctIsNoLabel("：");
    PunctIsNoLabel("=");
    PunctIsNoLabel("＝");
  }

  lemma PunctIsNoLabel(t: string)
    requires IsPunct(t)
    ensures !(IsLabelToken(t) || Contains(t, "姓名") || t == "名")
  {
    var c := Canon(t);
    assert |c| == 1 && (c[0] == ':' || c[0] == '=');
    OneCharIsNoLabel(c);
    assert t[0] != '名';
  }

  lemma OneCharIsNoLabel(s: string)
    requires |s| == 1 && s[0] != '名' && !IsUpper(s[0])
    ensures !EqualsIgnoreCase(s, "姓名") && !EqualsIgnoreCase(s, "名") && !EqualsIgnoreCase(s, "Name")
    ensures !EqualsIgnoreCase(s, "Patient") && !EqualsIgnoreCase(s, "Patient Name")
    ensures !StartsWith(Lower(s), "patientname")
  {
    assert Lower(s)[0] == s[0];
    assert Lower("名")[0] == '名';
  }

  /** The whole line is a bare label, `^(姓名|名)\s*[:＝=：]?\s*$`. */
  predicate LabelOnly(raw: string) {
    (StartsWith(raw, "姓名") && LabelTail(raw[2..])) || (StartsWith(raw, "名") && LabelTail(raw[1..]))
  }

  /** `\s*[:＝=：]?\s*` spanning all of `r`. */
  predicate LabelTail(r: string) {
    var a := SpaceRun(r, 0);
    a == |r| || (r[a] in {':', '＝', '=', '：'} && a + 1 + SpaceRun(r, a + 1) == |r|)
  }

  predicate HasNameLabel(raw: string) {
    Contains(raw, "姓名") || Contains(raw, "名") || ContainsIgnoreCase(raw, "Name") ||
    ContainsIgnoreCase(raw, "Patient Name")
  }

  /** The field keywords that end a same-line value. */
  predicate FieldWordAt(s: string, i: nat) {
    OccursAt(s, "性別", i) || OccursAt(s, "出生", i) || OccursAt(s, "生日", i) ||
    OccursAt(s, "病歷號", i) || OccursAt(s, "DOB", i) || OccursAt(s, "ID", i)
  }

  /** `split(Regex("(性別|出生|生日|病歷號|DOB|ID)"))[0]`: the text before the
      first field keyword. */
  function BeforeField(s: string, i: nat): (r: string)
    requires i <= |s|
    ensures |r| <= |s| && r == s[..|r|] && i <= |r|
    ensures forall j | i <= j < |r| :: !FieldWordAt(s, j)
    ensures |r| == |s| || FieldWordAt(s, |r|)
    decreases |s| - i
  {
    if i == |s| || FieldWordAt(s, i) then s[..i] else BeforeField(s, i + 1)
  }

  /** One line of the layout pass: steps 1 to 3, in order. */
  function LineName(lines: seq<TextLine>, i: nat): (r: Option<string>)
    requires i < |lines|
    ensures r.Some? ==> Accepted(r.value)
  {
    var raw := Trim(Canon(lines[i].text));
    if !HasNameLabel(raw) then None
    else
      var c1 := LayoutCandidate(lines[i]);
      if c1.Some? && IsLikelyName(c1.value) then c1
      else
        var c2 := if LabelOnly(raw) && i + 1 < |lines| then Accept(Trim(lines[i + 1].text)) else None;
        if c2.Some? then c2
        else
          match LabelFind(raw, SameLine)
          case None => None
          case Some(after) => Accept(BeforeField(after, 0))
  }

  function ScanLines(lines: seq<TextLine>, i: nat): (r: Option<string>)
    requires i <= |lines|
    ensures r.Some? ==> Accepted(r.value)
    decreases |lines| - i
  {
    if i == |lines| then None
    else
      var n := LineName(lines, i);
      if n.Some? then n else ScanLines(lines, i + 1)
  }

  function ScanBlocks(blocks: seq<TextBlock>): (r: Option<string>)
    ensures r.Some? ==> Accepted(r.value)
  {
    if blocks == [] then None
    else
      var n := ScanLines(blocks[0].lines, 0);
      if n.Some? then n else ScanBlocks(blocks[1..])
  }

  // ---------------------------------------------------------------- label regexes

  /** The capture classes: `[^\s:：=]` and `[A-Za-z ·・\-]`. */
  datatype GroupClass = NotSpaceOrColon | NameLetters

  predicate InGroup(c: char, g: GroupClass) {
    match g
    case NotSpaceOrColon => !IsSpace(c) && c != ':' && c != '：' && c != '='
    case NameLetters => IsEnglishNameChar(c)
  }

  /** What follows the capture: nothing, or `\s*(?=(w1|...|$))`. */
  datatype Ahead = NoAhead | Ahead(words: seq<string>)

  /** `(L1|L2)\s*[COLONS]?\s*(GROUP{min,max})` with a greedy or reluctant
      group, an optional or required colon and a look-ahead. */
  datatype LabelRegex = LabelRegex(
    labels: seq<string>, ignoreCase: bool, colons: set<char>, colonRequired: bool,
    group: GroupClass, min: nat, max: Bound, reluctant: bool, ahead: Ahead)

  /** Step 3: `(姓名|名)\s*[:＝=：]\s*([^\s:：=]+)`. */
  const SameLine := LabelRegex(["姓名", "名"], false, {':', '＝', '=', '：'}, true,
                               NotSpaceOrColon, 1, Unbounded, false, NoAhead)

  /** Step 4: `(姓名|名)\s*[:=]?\s*([^\s:：=]{1,20}?)\s*(?=(性別|出生|生日|病歷號|DOB|ID|$))`. */
  const ChineseFallback := LabelRegex(["姓名", "名"], false, {':', '='}, false,
                                      NotSpaceOrColon, 1, AtMost(20), true,
                                      Ahead(["性別", "出生", "生日", "病歷號", "DOB", "ID"]))

  /** Step 5, case-insensitive: `(Patient Name|Name)\s*[:=]?\s*([A-Za-z ·・\-]{2,30})\s*(?=(DOB|Birth|ID|Exam|Test|Procedure|$))`. */
  const EnglishFallback := LabelRegex(["Patient Name", "Name"], true, {':', '='}, false,
                                      NameLetters, 2, AtMost(30), false,
                                      Ahead(["DOB", "Birth", "ID", "Exam", "Test", "Procedure"]))

  /** A capture of the right length made of group characters. */
  predicate Fits(c: string, r: LabelRegex) {
    r.min <= |c| && (r.max.AtMost? ==> |c| <= r.max.n) &&
    forall i | 0 <= i < |c| :: InGroup(c[i], r.group)
  }

  predicate WordAt(s: string, w: string, i: nat, ignoreCase: bool) {
    if ignoreCase then OccursAt(Lower(s), Lower(w), i) else OccursAt(s, w, i)
  }

  /** `$` without MULTILINE in `java.util.regex`: the end of the input, or
      just before a final line terminator, or before a final `\r\n`, but
      never between `\r` and `\n`. */
  predicate AtEnd(s: string, p: nat) {
    p == |s|
    || (p + 1 == |s| && IsLineBreak(s[p]) && !(s[p] == '\n' && p > 0 && s[p - 1] == '\r'))
    || (p + 2 == |s| && s[p] == '\r' && s[p + 1] == '\n')
  }

  predicate LooksAt(s: string, p: nat, words: seq<string>, ignoreCase: bool) {
    (exists k | 0 <= k < |words| :: WordAt(s, words[k], p, ignoreCase)) || AtEnd(s, p)
  }

  /** What follows a capture ending at `e`: some number of the spaces there,
      then the look-ahead. */
  predicate TailOk(s: string, e: nat, r: LabelRegex)
    requires e <= |s|
  {
    match r.ahead
    case NoAhead => true
    case Ahead(words) => exists p | e <= p <= e + SpaceRun(s, e) :: LooksAt(s, p, words, r.ignoreCase)
  }

  function GroupRun(s: string, g: nat, c: GroupClass): (n: nat)
    requires g <= |s|
    ensures g + n <= |s|
    ensures forall j | g <= j < g + n :: InGroup(s[j], c)
    ensures g + n == |s| || !InGroup(s[g + n], c)
    decreases |s| - g
  {
    if g == |s| || !InGroup(s[g], c) then 0 else 1 + GroupRun(s, g + 1, c)
  }

  /** A reluctant group tries the lengths `k, k + 1, …, n`. */
  function Ascend(s: string, g: nat, k: nat, n: nat, r: LabelRegex): (x: Option<string>)
    requires g + n <= |s| && r.min <= k
    requires forall j | g <= j < g + n :: InGroup(s[j], r.group)
    requires r.max.AtMost? ==> n <= r.max.n
    ensures x.Some? ==> Fits(x.value, r)
    decreases n + 1 - k
  {
    if k > n then None
    else if TailOk(s, g + k, r) then Some(s[g..g + k])
    else Ascend(s, g, k + 1, n, r)
  }

  /** A greedy group tries the lengths `k, k - 1, …, min`. */
  function Descend(s: string, g: nat, k: nat, r: LabelRegex): (x: Option<string>)
    requires g + k <= |s|
    requires forall j | g <= j < g + k :: InGroup(s[j], r.group)
    requires r.max.AtMost? ==> k <= r.max.n
    ensures x.Some? ==> Fits(x.value, r)
  {
    if k < r.min then None
    else if TailOk(s, g + k, r) then Some(s[g..g + k])
    else if k == 0 then None
    else Descend(s, g, k - 1, r)
  }

  /** The capture starting at `g`. */
  function GroupAt(s: string, g: nat, r: LabelRegex): (x: Option<string>)
    requires g <= |s|
    ensures x.Some? ==> Fits(x.value, r)
  {
    var n := Cap(GroupRun(s, g, r.group), r.max);
    if r.reluctant then Ascend(s, g, r.min, n, r) else Descend(s, g, n, r)
  }

  /** The second `\s*`, from `k` spaces down to none. */
  function SecondGap(s: string, p: nat, k: nat, r: LabelRegex): (x: Option<string>)
    requires p + k <= |s|
    ensures x.Some? ==> Fits(x.value, r)
  {
    var m := GroupAt(s, p + k, r);
    if m.Some? || k == 0 then m else SecondGap(s, p, k - 1, r)
  }

  function AfterColon(s: string, p: nat, r: LabelRegex): (x: Option<string>)
    requires p <= |s|
    ensures x.Some? ==> Fits(x.value, r)
  {
    SecondGap(s, p, SpaceRun(s, p), r)
  }

  /** The colon, tried taken and then (when optional) skipped. */
  function ColonAt(s: string, p: nat, r: LabelRegex): (x: Option<string>)
    requires p <= |s|
    ensures x.Some? ==> Fits(x.value, r)
  {
    if p < |s| && s[p] in r.colons then
      var m := AfterColon(s, p + 1, r);
      if m.Some? || r.colonRequired then m else AfterColon(s, p, r)
    else if r.colonRequired then None
    else AfterColon(s, p, r)
  }

  /** The first `\s*`, from `k` spaces down to none. */
  function FirstGap(s: string, q: nat, k: nat, r: LabelRegex): (x: Option<string>)
    requires q + k <= |s|
    ensures x.Some? ==> Fits(x.value, r)
  {
    var m := ColonAt(s, q + k, r);
    if m.Some? || k == 0 then m else FirstGap(s, q, k - 1, r)
  }

  /** The alternatives of the label from the `j`-th on, at start `i`. */
  function LabelFrom(s: string, i: nat, j: nat, r: LabelRegex): (x: Option<string>)
    requires i <= |s| && j <= |r.labels|
    ensures x.Some? ==> Fits(x.value, r)
    decreases |r.labels| - j
  {
    if j == |r.labels| then None
    else
      var l := r.labels[j];
      var m := if WordAt(s, l, i, r.ignoreCase) then FirstGap(s, i + |l|, SpaceRun(s, i + |l|), r) else None;
      if m.Some? then m else LabelFrom(s, i, j + 1, r)
  }

  /** The capture of a match starting at `i`. */
  function LabelMatchAt(s: string, i: nat, r: LabelRegex): (x: Option<string>)
    requires i <= |s|
    ensures x.Some? ==> Fits(x.value, r)
  {
    LabelFrom(s, i, 0, r)
  }

  function LabelFindFrom(s: string, i: nat, r: LabelRegex): (x: Option<string>)
    requires i <= |s| + 1
    ensures x.Some? ==> Fits(x.value, r)
    decreases |s| + 1 - i
  {
    if i > |s| then None
    else
      var m := LabelMatchAt(s, i, r);
      if m.Some? then m else LabelFindFrom(s, i + 1, r)
  }

  /** `find(s)?.groupValues[2]`. */
  function LabelFind(s: string, r: LabelRegex): (x: Option<string>)
    ensures x.Some? ==> Fits(x.value, r)
  {
    LabelFindFrom(s, 0, r)
  }

  /** The scan from `i` finds the match at the least start at or after `i`. */
  lemma {:induction false} LabelFindFromLeftmost(s: string, i: nat, r: LabelRegex)
    requires i <= |s| + 1
    ensures LabelFindFrom(s, i, r).Some? <==> exists j | i <= j <= |s| :: LabelMatchAt(s, j, r).Some?
    ensures LabelFindFrom(s, i, r).Some? ==>
      exists j | i <= j <= |s| :: LabelMatchAt(s, j, r) == LabelFindFrom(s, i, r) &&
        forall l | i <= l < j :: LabelMatchAt(s, l, r).None?
    decreases |s| + 1 - i
  {
    if i <= |s| && LabelMatchAt(s, i, r).None? {
      LabelFindFromLeftmost(s, i + 1, r);
      if LabelFindFrom(s, i, r).Some? {
        var j :| i + 1 <= j <= |s| && LabelMatchAt(s, j, r) == LabelFindFrom(s, i, r) &&
          forall l | i + 1 <= l < j :: LabelMatchAt(s, l, r).None?;
        assert forall l | i <= l < j :: LabelMatchAt(s, l, r).None?;
      }
    }
  }

  /** `find` returns the capture of the leftmost match, and nothing only
      when no start matches. */
  lemma LabelFindLeftmost(s: string, r: LabelRegex)
    ensures LabelFind(s, r).Some? <==> exists j | 0 <= j <= |s| :: LabelMatchAt(s, j, r).Some?
    ensures LabelFind(s, r).Some? ==>
      exists j | 0 <= j <= |s| :: LabelMatchAt(s, j, r) == LabelFind(s, r) &&
        forall l | 0 <= l < j :: LabelMatchAt(s, l, r).None?
  {
    LabelFindFromLeftmost(s, 0, r);
  }

  // ---------------------------------------------------------------- extractNameSmart

  /** Steps 4 and 5: the cleaned capture of a look-ahead regex on the text. */
  function Fallback(fw: string, r: LabelRegex): (x: Option<string>)
    ensures x.Some? ==> Accepted(x.value)
  {
    match LabelFind(fw, r)
    case None => None
    case Some(g) => Accept(g)
  }

  /** `extractNameSmart(visionText, fullText)`: the layout pass over every
      line of every block, then the Chinese and the English fallback on the
      text with full-width `＝` and `：` replaced. A returned name is always a
      likely name that is already clean. */
  function ExtractNameSmart(blocks: seq<TextBlock>, fullText: string): (r: Option<string>)
    ensures r.Some? ==> Accepted(r.value)
  {
    var layout := ScanBlocks(blocks);
    if layout.Some? then layout
    else
      var fw := Canon(fullText);
      var zh := Fallback(fw, ChineseFallback);
      if zh.Some? then zh else Fallback(fw, EnglishFallback)
  }

  /** A returned name is a fixed point of `cleanupNameCandidate`. */
  lemma ExtractedNameIsFixpoint(blocks: seq<TextBlock>, fullText: string)
    requires ExtractNameSmart(blocks, fullText).Some?
    ensures Cleanup(ExtractNameSmart(blocks, fullText).value) == ExtractNameSmart(blocks, fullText).value
  {
    CleanIsFixpoint(ExtractNameSmart(blocks, fullText).value);
  }
}
