/** Joining procedure-code lines with their descriptions: the three line
    regexes every exam extractor shares (`codeRegex`, `codeWithDescRegex`,
    `raRegex`) and the loop with its one-line `buffer` that attaches a bare
    code line to the line after it. */
module CodeMerge {
  import opened Base
  import opened Strings
  import opened Patterns
  import opened Section

  // ---------------------------------------------------------------- line shapes

  /** Where the digits start: after an optional leading `*`. */
  function HeadStart(s: string): (h: nat)
    ensures h <= |s|
  {
    if |s| > 0 && s[0] == '*' then 1 else 0
  }

  /** `^\*?\d{3,}`: an optional star, then at least three digits. Were the
      star taken and the digits missing, leaving the star out cannot help,
      since a star is not a digit. */
  predicate HasCodeHead(s: string)
  {
    var h := HeadStart(s);
    h + 3 <= |s| && IsDigit(s[h]) && IsDigit(s[h + 1]) && IsDigit(s[h + 2])
  }

  /** `[A-Za-z0-9-]`. */
  predicate IsCodeChar(c: char) { IsLetter(c) || IsDigit(c) || c == '-' }

  function CodeRun(s: string, i: nat): (n: nat)
    requires i <= |s|
    ensures i + n <= |s|
    ensures forall j | i <= j < i + n :: IsCodeChar(s[j])
    ensures i + n == |s| || !IsCodeChar(s[i + n])
    decreases |s| - i
  {
    if i < |s| && IsCodeChar(s[i]) then 1 + CodeRun(s, i + 1) else 0
  }

  /** The end of the code token `\*?\d{3,}[A-Za-z0-9-]*` taken greedily:
      digits are code characters, so the token runs to the first character
      that is not one. */
  function CodeEnd(s: string): (e: nat)
    ensures e <= |s|
    ensures HasCodeHead(s) ==> HeadStart(s) + 3 <= e
  {
    HeadStart(s) + CodeRun(s, HeadStart(s))
  }

  /** No line terminator (which `.` does not match) at or after `d`. */
  predicate NoBreakFrom(s: string, d: nat)
  {
    forall j | d <= j < |s| :: !IsLineBreak(s[j])
  }

  /** `codeRegex.matches(line)`: the whole line is one code token. */
  predicate IsCodeOnly(s: string) { HasCodeHead(s) && CodeEnd(s) == |s| }

  /** The loose `codeWithDescRegex` of the combined extractor,
      `^\*?\d{3,}[A-Za-z0-9-]*\s*.*`, matching the whole line: after the
      code, spaces, then a rest without line terminators. Backing off the
      code or the spaces only leaves more for `.*` to cover, so the greedy
      split decides. */
  predicate IsCodeLedLoose(s: string)
  {
    HasCodeHead(s) && NoBreakFrom(s, CodeEnd(s) + SpaceRun(s, CodeEnd(s)))
  }

  /** The strict `codeWithDescRegex`, `^\*?\d{3,}[A-Za-z0-9-]*\s+.+`,
      matching the whole line: the code must end at its greedy end (a code
      character is not a space), then at least one space, then a non-empty
      rest without line terminators. */
  predicate IsCodeWithDesc(s: string)
  {
    HasCodeHead(s) &&
    var e := CodeEnd(s);
    exists d | e < d <= e + SpaceRun(s, e) && d < |s| :: NoBreakFrom(s, d)
  }

  /** `raRegex.matches(line)`: `RA` and one or more digits. */
  predicate IsRaLine(s: string) { |s| >= 3 && s[0] == 'R' && s[1] == 'A' && AllDigits(s[2..]) }

  predicate IsNotRa(s: string) { !IsRaLine(s) }

  /** A line the strict loop emits a part for. */
  predicate IsCodeLine(s: string) { IsCodeWithDesc(s) || IsCodeOnly(s) }

  /** A bare code also matches the loose description pattern, so in the
      combined extractor the bare-code branch is never taken. */
  lemma CodeOnlyIsLoose(s: string)
    requires IsCodeOnly(s)
    ensures IsCodeLedLoose(s)
  {
  }

  /** A strict description line is a loose one and is not a bare code. */
  lemma DescIsLooseNotBare(s: string)
    requires IsCodeWithDesc(s)
    ensures IsCodeLedLoose(s) && !IsCodeOnly(s)
  {
    var e := CodeEnd(s);
    var d :| e < d <= e + SpaceRun(s, e) && d < |s| && NoBreakFrom(s, d);
  }

  /** An `RA` line never starts with a code. */
  lemma RaHasNoCode(s: string)
    requires IsRaLine(s)
    ensures !HasCodeHead(s)
  {
  }

  // ---------------------------------------------------------------- the loop

  /** The state of the loop: the parts emitted so far and the `buffer`
      holding a bare code line that waits for its description. */
  datatype Merger = Merger(parts: seq<string>, pending: Option<string>)

  /** Which branch of the loop's `when` a line takes: `Skip` for an `RA`
      line, `Whole` for a code with its description, `Code` for a bare code,
      `Tail` for anything else, which is kept on its own when `alone` holds
      and nothing is pending. */
  datatype Kind = Skip | Whole | Code | Tail(alone: bool)

  /** `Combined`: the loose description pattern of
      `OcrExtractors.extractExamItemsUnified`, whose `else` branch keeps any
      other line. `Strict`: the `\s+.+` pattern of every other loop, which
      drops a line that follows no bare code. */
  datatype Rule = Combined | Strict

  function KindOf(rule: Rule, l: string): Kind
  {
    if rule == Combined then CombinedKind(l) else StrictKind(l)
  }

  function CombinedKind(l: string): Kind
  {
    if IsRaLine(l) then Skip
    else if IsCodeLedLoose(l) then Whole
    else if IsCodeOnly(l) then Code
    else Tail(true)
  }

  function StrictKind(l: string): Kind
  {
    if IsRaLine(l) then Skip
    else if IsCodeWithDesc(l) then Whole
    else if IsCodeOnly(l) then Code
    else Tail(false)
  }

  function Opt(b: Option<string>): seq<string> { if b.Some? then [b.value] else [] }

  /** `buffer?.let { parts.add(it) }`. */
  function Flush(m: Merger): seq<string> { m.parts + Opt(m.pending) }

  /** One iteration of the loop over a line of the given kind. */
  function Step(m: Merger, l: string, k: Kind): Merger
  {
    match k
    case Skip => m
    case Whole => Merger(Flush(m) + [l], None)
    case Code => Merger(Flush(m), Some(l))
    case Tail(alone) =>
      if m.pending.Some? then Merger(m.parts + [m.pending.value + " " + l], None)
      else if alone then Merger(m.parts + [l], None)
      else m
  }

  function Feed(m: Merger, ls: seq<string>, rule: Rule): Merger
    decreases |ls|
  {
    if ls == [] then m else Feed(Step(m, ls[0], KindOf(rule, ls[0])), ls[1..], rule)
  }

  /** The whole loop and the final flush. */
  function MergeCodeLines(ls: seq<string>, rule: Rule): seq<string>
  {
    Flush(Feed(Merger([], None), ls, rule))
  }

  /** The parts grow only at the end. */
  lemma {:induction false} FeedAppends(p: seq<string>, b: Option<string>, ls: seq<string>, rule: Rule)
    ensures var f := Feed(Merger([], b), ls, rule);
            Feed(Merger(p, b), ls, rule) == Merger(p + f.parts, f.pending)
    decreases |ls|
  {
    if ls == [] {
      assert p + [] == p;
    } else {
      var l, k := ls[0], KindOf(rule, ls[0]);
      var s0 := Step(Merger([], b), l, k);
      StepAppends(p, b, l, k);
      FeedAppends(p + s0.parts, s0.pending, ls[1..], rule);
      FeedAppends(s0.parts, s0.pending, ls[1..], rule);
      var f := Feed(Merger([], s0.pending), ls[1..], rule);
      assert p + (s0.parts + f.parts) == p + s0.parts + f.parts;
    }
  }

  lemma StepAppends(p: seq<string>, b: Option<string>, l: string, k: Kind)
    ensures var s := Step(Merger([], b), l, k);
            Step(Merger(p, b), l, k) == Merger(p + s.parts, s.pending)
  {
    match k
    case Skip => assert p + [] == p;
    case Whole => assert p + Opt(b) + [l] == p + ([] + Opt(b) + [l]);
    case Code => assert p + Opt(b) == p + ([] + Opt(b));
    case Tail(alone) =>
      if b.Some? {
        assert p + [b.value + " " + l] == p + ([] + [b.value + " " + l]);
      } else if alone {
        assert p + [l] == p + ([] + [l]);
      } else {
        assert p + [] == p;
      }
  }

  // ---------------------------------------------------------------- combined rule

  lemma {:induction false} CombinedFeed(p: seq<string>, ls: seq<string>)
    ensures Feed(Merger(p, None), ls, Combined) == Merger(p + Filter(ls, IsNotRa), None)
    decreases |ls|
  {
    if ls != [] {
      var l := ls[0];
      if IsCodeOnly(l) {
        CodeOnlyIsLoose(l);
      }
      if IsRaLine(l) {
        CombinedFeed(p, ls[1..]);
      } else {
        CombinedFeed(p + [l], ls[1..]);
        assert p + [l] + Filter(ls[1..], IsNotRa) == p + ([l] + Filter(ls[1..], IsNotRa));
      }
    } else {
      assert p + [] == p;
    }
  }

  /** Under the loose pattern the combined loop passes every line through
      unchanged, dropping only `RA` lines: no code is ever joined with its
      description. */
  lemma CombinedKeepsLines(ls: seq<string>)
    ensures MergeCodeLines(ls, Combined) == Filter(ls, IsNotRa)
  {
    CombinedFeed([], ls);
  }

  // ---------------------------------------------------------------- strict rule

  /** `part` is the code line `code` itself, or `code` (a bare code) joined
      by one space to the line after it. */
  predicate Extends(part: string, code: string)
  {
    part == code
    || (IsCodeOnly(code) && |code| < |part| && part[..|code|] == code && part[|code|] == ' ')
  }

  /** Parts and code lines correspond one to one, in order. */
  predicate Pairs(parts: seq<string>, codes: seq<string>)
  {
    |parts| == |codes| && forall k | 0 <= k < |parts| :: Extends(parts[k], codes[k])
  }

  lemma PairsConcat(a: seq<string>, x: seq<string>, b: seq<string>, y: seq<string>)
    requires Pairs(a, x) && Pairs(b, y)
    ensures Pairs(a + b, x + y)
  {
    forall k | 0 <= k < |a + b|
      ensures Extends((a + b)[k], (x + y)[k])
    {
      if k < |a| {
        assert (a + b)[k] == a[k] && (x + y)[k] == x[k];
      } else {
        assert (a + b)[k] == b[k - |a|] && (x + y)[k] == y[k - |a|];
      }
    }
  }

  lemma PairsSelf(a: seq<string>)
    ensures Pairs(a, a)
  {
  }

  /** The code lines of `ls`, in order. */
  function CodeLines(ls: seq<string>): (r: seq<string>)
    ensures |r| <= |ls|
  {
    Filter(ls, IsCodeLine)
  }

  /** The code lines one strict step accounts for: a pending bare code that
      the step emits or joins, and the line itself when it is emitted at once. */
  function StepCodes(b: Option<string>, l: string, k: Kind): seq<string>
  {
    match k
    case Skip => []
    case Whole => Opt(b) + [l]
    case Code => Opt(b)
    case Tail(_) => Opt(b)
  }

  lemma StepPairs(b: Option<string>, l: string)
    requires b.Some? ==> IsCodeOnly(b.value)
    ensures var s := Step(Merger([], b), l, StrictKind(l));
            Pairs(s.parts, StepCodes(b, l, StrictKind(l)))
            && (s.pending.Some? ==> IsCodeOnly(s.pending.value))
  {
    var k := StrictKind(l);
    var s := Step(Merger([], b), l, k);
    match k
    case Skip =>
    case Whole =>
      assert s.parts == StepCodes(b, l, k);
      PairsSelf(s.parts);
    case Code =>
      assert s.parts == StepCodes(b, l, k);
      PairsSelf(s.parts);
    case Tail(_) =>
      if b.Some? {
        var v := b.value;
        var joined := v + " " + l;
        assert joined[..|v|] == v && joined[|v|] == ' ';
        assert Extends(joined, v);
      }
  }

  lemma StepCodesSplit(b: Option<string>, ls: seq<string>)
    requires ls != []
    ensures Opt(b) + CodeLines(ls)
         == StepCodes(b, ls[0], StrictKind(ls[0]))
            + (Opt(Step(Merger([], b), ls[0], StrictKind(ls[0])).pending) + CodeLines(ls[1..]))
  {
    var l := ls[0];
    if IsRaLine(l) {
      RaHasNoCode(l);
      assert CodeLines(ls) == CodeLines(ls[1..]);
    } else if IsCodeLine(l) {
      assert CodeLines(ls) == [l] + CodeLines(ls[1..]);
    } else {
      assert CodeLines(ls) == CodeLines(ls[1..]);
    }
  }

  lemma {:induction false} StrictFeed(b: Option<string>, ls: seq<string>)
    requires b.Some? ==> IsCodeOnly(b.value)
    ensures Pairs(Flush(Feed(Merger([], b), ls, Strict)), Opt(b) + CodeLines(ls))
    decreases |ls|
  {
    if ls == [] {
      assert Opt(b) + [] == Opt(b);
      assert [] + Opt(b) == Opt(b);
      PairsSelf(Opt(b));
    } else {
      var k := StrictKind(ls[0]);
      var s := Step(Merger([], b), ls[0], k);
      var f := Feed(Merger([], s.pending), ls[1..], Strict);
      StepPairs(b, ls[0]);
      StrictFeed(s.pending, ls[1..]);
      assert Feed(Merger([], b), ls, Strict) == Feed(Merger(s.parts, s.pending), ls[1..], Strict);
      FeedAppends(s.parts, s.pending, ls[1..], Strict);
      assert (s.parts + f.parts) + Opt(f.pending) == s.parts + Flush(f);
      StepCodesSplit(b, ls);
      PairsConcat(s.parts, StepCodes(b, ls[0], k), Flush(f), Opt(s.pending) + CodeLines(ls[1..]));
    }
  }

  /** The strict loop emits exactly one part per code line, in order: the
      line itself, or a bare code joined by a space to the line after it. */
  lemma StrictPairsCodeLines(ls: seq<string>)
    ensures Pairs(MergeCodeLines(ls, Strict), CodeLines(ls))
  {
    StrictFeed(None, ls);
    assert Opt(None) + CodeLines(ls) == CodeLines(ls);
  }

  /** Every part the strict loop emits starts with a code. */
  lemma StrictPartsAreCodeLed(ls: seq<string>)
    ensures forall k | 0 <= k < |MergeCodeLines(ls, Strict)| :: HasCodeHead(MergeCodeLines(ls, Strict)[k])
  {
    var parts := MergeCodeLines(ls, Strict);
    var codes := CodeLines(ls);
    StrictPairsCodeLines(ls);
    forall k | 0 <= k < |parts|
      ensures HasCodeHead(parts[k])
    {
      assert IsCodeLine(codes[k]);
      ExtendsKeepsHead(parts[k], codes[k]);
    }
  }

  lemma ExtendsKeepsHead(part: string, code: string)
    requires Extends(part, code) && IsCodeLine(code)
    ensures HasCodeHead(part)
  {
    if part != code {
      assert part[..|code|] == code;
      var h := HeadStart(code);
      assert part[0] == code[0];
      assert part[h] == code[h] && part[h + 1] == code[h + 1] && part[h + 2] == code[h + 2];
    }
  }

  // ---------------------------------------------------------------- the legacy loop

  /** `LegacyScan` takes one line at a time. */
  lemma LegacyScanStep(ls: seq<string>, i: nat, collecting: bool, stopAtNotes: bool)
    requires i < |ls|
    ensures LegacyScan(ls[i..], collecting, stopAtNotes) ==
      if IsPrintTime(ls[i]) then LegacyScan(ls[i + 1..], true, stopAtNotes)
      else if stopAtNotes && Contains(ls[i], "檢查說明") then []
      else if collecting && !IsLegacyNoise(ls[i]) then [ls[i]] + LegacyScan(ls[i + 1..], collecting, stopAtNotes)
      else LegacyScan(ls[i + 1..], collecting, stopAtNotes)
  {
    assert ls[i..][0] == ls[i];
    assert ls[i..][1..] == ls[i + 1..];
  }

  lemma FeedCons(m: Merger, l: string, rest: seq<string>)
    ensures Feed(m, [l] + rest, Strict) == Feed(Step(m, l, StrictKind(l)), rest, Strict)
  {
    assert ([l] + rest)[0] == l;
    assert ([l] + rest)[1..] == rest;
  }

  /** The `when` of the legacy loop on a collected line. */
  method LegacyMergeLine(parts: seq<string>, buffer: Option<string>, line: string)
    returns (parts': seq<string>, buffer': Option<string>)
    ensures Merger(parts', buffer') == Step(Merger(parts, buffer), line, StrictKind(line))
  {
    parts', buffer' := parts, buffer;
    if IsRaLine(line) {
    } else if IsCodeWithDesc(line) {
      if buffer'.Some? {
        parts' := parts' + [buffer'.value];
      }
      buffer' := None;
      parts' := parts' + [line];
    } else if IsCodeOnly(line) {
      if buffer'.Some? {
        parts' := parts' + [buffer'.value];
      }
      buffer' := Some(line);
    } else if buffer'.Some? {
      parts' := parts' + [buffer'.value + " " + line];
      buffer' := None;
    }
  }

  /** The loop of the legacy activity's combined extractor, custom-rule
      extractor (`stopAtNotes`) and `extractExamItems` (not `stopAtNotes`),
      with print-time gating, the notes stop, noise and `RA` skipping and the
      code merge interleaved line by line, computes the legacy section first
      and merges it after. */
  method LegacyExamParts(lines: seq<string>, stopAtNotes: bool) returns (parts: seq<string>)
    ensures parts == MergeCodeLines(LegacyScan(lines, false, stopAtNotes), Strict)
  {
    ghost var goal := MergeCodeLines(LegacyScan(lines, false, stopAtNotes), Strict);
    parts := [];
    var buffer: Option<string> := None;
    var collecting := false;
    var i := 0;
    while i < |lines|
      invariant 0 <= i <= |lines|
      invariant Flush(Feed(Merger(parts, buffer), LegacyScan(lines[i..], collecting, stopAtNotes), Strict)) == goal
    {
      var line := lines[i];
      LegacyScanStep(lines, i, collecting, stopAtNotes);
      if IsPrintTime(line) {
        collecting := true;
        i := i + 1;
        continue;
      }
      if stopAtNotes && Contains(line, "檢查說明") {
        if buffer.Some? {
          parts := parts + [buffer.value];
        }
        buffer := None;
        return;
      }
      if collecting && !IsLegacyNoise(line) {
        FeedCons(Merger(parts, buffer), line, LegacyScan(lines[i + 1..], collecting, stopAtNotes));
        parts, buffer := LegacyMergeLine(parts, buffer, line);
      }
      i := i + 1;
    }
    if buffer.Some? {
      parts := parts + [buffer.value];
    }
  }
}
