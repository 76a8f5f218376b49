/** Cutting the exam section out of the recognised lines: the "routine
    examination" anchor of `OcrExtractors.collectRoutineSection`, and the
    "print time" / "exam notes" markers the legacy activity scans for. */
module Section {
  import opened Base
  import opened Strings

  /** `split("\n").map { it.trim() }.filter { it.isNotEmpty() }` applied to
      lines already split. */
  function CleanLines(ls: seq<string>): (r: seq<string>)
    ensures |r| <= |ls|
    ensures Clean(r)
  {
    if ls == [] then []
    else
      var t := Trim(ls[0]);
      assert NoEdgeSpace(t) by { TrimShape(ls[0]); }
      (if t != [] then [t] else []) + CleanLines(ls[1..])
  }

  /** The lines of a recognised text, trimmed, blank ones dropped. */
  function Lines(text: string): seq<string> { CleanLines(Pieces(text, '\n')) }

  /** Every line is non-empty and trimmed. */
  predicate Clean(ls: seq<string>) { forall k | 0 <= k < |ls| :: ls[k] != [] && NoEdgeSpace(ls[k]) }

  lemma CleanTail(ls: seq<string>, i: nat)
    requires Clean(ls) && i <= |ls|
    ensures Clean(ls[i..])
  {
    forall k | 0 <= k < |ls| - i ensures ls[i..][k] != [] && NoEdgeSpace(ls[i..][k]) {
      assert ls[i..][k] == ls[i + k];
    }
  }

  /** Cleaning lines that are already clean changes nothing. */
  lemma {:induction false} CleanLinesIdempotent(ls: seq<string>)
    requires Clean(ls)
    ensures CleanLines(ls) == ls
  {
    if ls != [] {
      TrimOfTrimmed(ls[0]);
      CleanTail(ls, 1);
      CleanLinesIdempotent(ls[1..]);
    }
  }

  /** Whether `s` contains one of `ps`, ignoring case. */
  predicate ContainsAnyIgnoreCase(s: string, ps: seq<string>)
  {
    ps != [] && (ContainsIgnoreCase(s, ps[0]) || ContainsAnyIgnoreCase(s, ps[1..]))
  }

  /** Whether `s` contains one of `ps`, case-sensitively. */
  predicate ContainsAny(s: string, ps: seq<string>)
  {
    ps != [] && (Contains(s, ps[0]) || ContainsAny(s, ps[1..]))
  }

  // ---------------------------------------------------------------- routine section

  /** The line that opens the section: `一般檢查`, or `Routine` in any case. */
  predicate IsAnchor(l: string) { Contains(l, "一般檢查") || ContainsIgnoreCase(l, "Routine") }

  /** Headings that close the section, matched ignoring case. */
  const StopMarkers: seq<string> :=
    ["檢查說明", "特殊檢查", "說明", "備註", "影像", "Impression", "Finding", "Findings", "Special", "Note", "Remark"]

  /** Exposure settings and form labels that are not exam lines. */
  const NoiseMarkers: seq<string> := ["kV", "mAs", "診", "斷", "健保", "醫師", "科別", "檢體"]

  predicate IsStop(l: string) { ContainsAnyIgnoreCase(l, StopMarkers) }
  predicate IsNoise(l: string) { ContainsAnyIgnoreCase(l, NoiseMarkers) }
  predicate IsKept(l: string) { !IsNoise(l) }

  /** The loop after the anchor: stop at the first `stop` line, keep the
      `keep` lines. */
  function CollectUntil(ls: seq<string>, stop: string -> bool, keep: string -> bool): (r: seq<string>)
    ensures |r| <= |ls|
    ensures forall k | 0 <= k < |r| :: !stop(r[k]) && keep(r[k])
  {
    if ls == [] || stop(ls[0]) then []
    else (if keep(ls[0]) then [ls[0]] else []) + CollectUntil(ls[1..], stop, keep)
  }

  /** The `keep` lines after the first `anchor` line up to the first `stop`
      line. */
  function SectionOf(ls: seq<string>, anchor: string -> bool, stop: string -> bool, keep: string -> bool): (r: seq<string>)
    ensures forall k | 0 <= k < |r| :: !stop(r[k]) && keep(r[k])
  {
    var a := FirstWhere(ls, anchor);
    if a + 1 >= |ls| then [] else CollectUntil(ls[a + 1..], stop, keep)
  }

  /** `collectRoutineSection(lines)`: the lines after the first anchor line,
      up to the first stop line, without noise. Nothing when no line is an
      anchor or the anchor is the last line. */
  function RoutineSection(lines: seq<string>): (r: seq<string>)
    ensures FirstWhere(CleanLines(lines), IsAnchor) + 1 >= |CleanLines(lines)| ==> r == []
    ensures Clean(r)
    ensures forall k | 0 <= k < |r| :: !IsStop(r[k]) && !IsNoise(r[k])
  {
    var ls := CleanLines(lines);
    var a := FirstWhere(ls, IsAnchor);
    assert a + 1 < |ls| ==> Clean(CollectUntil(ls[a + 1..], IsStop, IsKept)) by {
      if a + 1 < |ls| {
        CleanTail(ls, a + 1);
        CollectKeepsClean(ls[a + 1..], IsStop, IsKept);
      }
    }
    SectionOf(ls, IsAnchor, IsStop, IsKept)
  }

  lemma {:induction false} CollectKeepsClean(ls: seq<string>, stop: string -> bool, keep: string -> bool)
    requires Clean(ls)
    ensures Clean(CollectUntil(ls, stop, keep))
  {
    if ls != [] && !stop(ls[0]) {
      CleanTail(ls, 1);
      CollectKeepsClean(ls[1..], stop, keep);
    }
  }

  lemma {:induction false} CollectIsFilter(ls: seq<string>, stop: string -> bool, keep: string -> bool)
    ensures CollectUntil(ls, stop, keep) == Filter(ls[..FirstWhere(ls, stop)], keep)
  {
    if ls != [] && !stop(ls[0]) {
      CollectIsFilter(ls[1..], stop, keep);
      var s := FirstWhere(ls, stop);
      assert ls[..s][0] == ls[0];
      assert ls[..s][1..] == ls[1..][..s - 1];
    }
  }

  lemma {:induction false} CollectWindow(ls: seq<string>, a: nat, stop: string -> bool, keep: string -> bool)
    requires a <= |ls|
    ensures CollectUntil(ls[a..], stop, keep) == Filter(ls[a..a + FirstWhere(ls[a..], stop)], keep)
  {
    var tail := ls[a..];
    var e := FirstWhere(tail, stop);
    CollectIsFilter(tail, stop, keep);
    assert tail[..e] == ls[a..a + e];
  }

  lemma {:induction false} SectionWindow(ls: seq<string>, anchor: string -> bool, stop: string -> bool, keep: string -> bool, a: nat, e: nat)
    requires a == FirstWhere(ls, anchor) && a + 1 < |ls|
    requires e == a + 1 + FirstWhere(ls[a + 1..], stop)
    ensures SectionOf(ls, anchor, stop, keep) == Filter(ls[a + 1..e], keep)
  {
    SectionIsCollect(ls, anchor, stop, keep, a);
    CollectWindow(ls, a + 1, stop, keep);
  }

  lemma {:induction false} SectionIsCollect(ls: seq<string>, anchor: string -> bool, stop: string -> bool, keep: string -> bool, a: nat)
    requires a == FirstWhere(ls, anchor) && a + 1 < |ls|
    ensures SectionOf(ls, anchor, stop, keep) == CollectUntil(ls[a + 1..], stop, keep)
  {
  }

  /** When the anchor is found before the last line, the section is exactly
      the non-noise lines strictly between it and the first stop line after
      it (the end of the text when there is none). */
  lemma {:induction false} RoutineSectionWindow(lines: seq<string>, a: nat, e: nat)
    requires a == FirstWhere(CleanLines(lines), IsAnchor) && a + 1 < |CleanLines(lines)|
    requires e == a + 1 + FirstWhere(CleanLines(lines)[a + 1..], IsStop)
    ensures RoutineSection(lines) == Filter(CleanLines(lines)[a + 1..e], IsKept)
  {
    SectionWindow(CleanLines(lines), IsAnchor, IsStop, IsKept, a, e);
  }

  /** A text whose lines are already clean is read the same way again: the
      extractor passes cleaned lines and the section re-cleans them. */
  lemma RoutineSectionOfCleanLines(text: string)
    ensures RoutineSection(Lines(text)) == RoutineSection(Pieces(text, '\n'))
  {
    CleanLinesIdempotent(Lines(text));
  }

  // ---------------------------------------------------------------- legacy scan

  predicate IsPrintTime(l: string) { Contains(l, "列印時間") }

  /** The legacy loop tests the print-time marker first, so a line holding
      both markers starts the section instead of ending it. */
  predicate IsNotesStop(l: string) { Contains(l, "檢查說明") && !IsPrintTime(l) }

  /** The legacy noise test is case-sensitive. */
  predicate IsLegacyNoise(l: string) { ContainsAny(l, NoiseMarkers) }

  predicate IsLegacyKept(l: string) { !IsPrintTime(l) && !IsLegacyNoise(l) }

  predicate Never(l: string) { false }

  /** The legacy loop over the lines, over its three tests: a `start` line
      turns collecting on; a `stop` line ends the scan whether or not
      collecting has begun; while collecting, the `keep` lines are kept. */
  function ScanBy(ls: seq<string>, collecting: bool, start: string -> bool, stop: string -> bool, keep: string -> bool): (r: seq<string>)
    ensures |r| <= |ls|
    ensures forall k | 0 <= k < |r| :: keep(r[k])
  {
    if ls == [] then []
    else if start(ls[0]) then ScanBy(ls[1..], true, start, stop, keep)
    else if stop(ls[0]) then []
    else if collecting && keep(ls[0]) then [ls[0]] + ScanBy(ls[1..], collecting, start, stop, keep)
    else ScanBy(ls[1..], collecting, start, stop, keep)
  }

  /** The legacy loop of the activity: a print-time line turns collecting on;
      when `stopAtNotes`, an exam-notes line ends the scan whether or not
      collecting has begun; while collecting, noise lines are skipped and the
      others kept. (The code-line merge of the same loop is `CodeMerge`.)
      The print-time test comes first, so the notes and keep tests only ever
      see lines without the print-time marker. */
  function LegacyScan(ls: seq<string>, collecting: bool, stopAtNotes: bool): (r: seq<string>)
    ensures |r| <= |ls|
    ensures forall k | 0 <= k < |r| :: !IsPrintTime(r[k]) && !IsLegacyNoise(r[k])
  {
    if stopAtNotes then ScanBy(ls, collecting, IsPrintTime, IsNotesStop, IsLegacyKept)
    else ScanBy(ls, collecting, IsPrintTime, Never, IsLegacyKept)
  }

  /** Stop and keep lines are never start lines. */
  predicate Exclusive(ls: seq<string>, start: string -> bool, stop: string -> bool, keep: string -> bool)
  {
    forall k | 0 <= k < |ls| :: start(ls[k]) ==> !stop(ls[k]) && !keep(ls[k])
  }

  lemma {:induction false} CollectingScan(ls: seq<string>, start: string -> bool, stop: string -> bool, keep: string -> bool)
    requires Exclusive(ls, start, stop, keep)
    ensures ScanBy(ls, true, start, stop, keep) == Filter(ls[..FirstWhere(ls, stop)], keep)
  {
    if ls != [] {
      ExclusiveTail(ls, start, stop, keep, 1);
      CollectingScan(ls[1..], start, stop, keep);
      var e := FirstWhere(ls, stop);
      if e > 0 {
        assert ls[..e][0] == ls[0];
        assert ls[..e][1..] == ls[1..][..e - 1];
      }
    }
  }

  lemma {:induction false} IdleScan(ls: seq<string>, start: string -> bool, stop: string -> bool, keep: string -> bool)
    requires Exclusive(ls, start, stop, keep)
    ensures var p := FirstWhere(ls, start);
            var d := FirstWhere(ls, stop);
            ScanBy(ls, false, start, stop, keep) == if p < d then ScanBy(ls[p + 1..], true, start, stop, keep) else []
  {
    if ls != [] && !start(ls[0]) && !stop(ls[0]) {
      ExclusiveTail(ls, start, stop, keep, 1);
      IdleScan(ls[1..], start, stop, keep);
      var p := FirstWhere(ls[1..], start);
      if p < |ls[1..]| {
        assert ls[1..][p + 1..] == ls[p + 2..];
      }
    }
  }

  lemma {:induction false} ScanWindow(ls: seq<string>, start: string -> bool, stop: string -> bool, keep: string -> bool)
    requires Exclusive(ls, start, stop, keep)
    ensures var p := FirstWhere(ls, start);
            var d := FirstWhere(ls, stop);
            ScanBy(ls, false, start, stop, keep) == if p < d then Filter(ls[p + 1..d], keep) else []
  {
    IdleScan(ls, start, stop, keep);
    var p := FirstWhere(ls, start);
    var d := FirstWhere(ls, stop);
    if p < d {
      var rest := ls[p + 1..];
      ExclusiveTail(ls, start, stop, keep, p + 1);
      CollectingScan(rest, start, stop, keep);
      FirstWhereAfter(ls, stop, p);
      assert rest[..d - p - 1] == ls[p + 1..d];
    }
  }

  lemma ExclusiveTail(ls: seq<string>, start: string -> bool, stop: string -> bool, keep: string -> bool, i: nat)
    requires Exclusive(ls, start, stop, keep) && i <= |ls|
    ensures Exclusive(ls[i..], start, stop, keep)
  {
    forall k | 0 <= k < |ls| - i ensures start(ls[i..][k]) ==> !stop(ls[i..][k]) && !keep(ls[i..][k]) {
      assert ls[i..][k] == ls[i + k];
    }
  }

  /** The legacy section of the combined and custom-rule extractors is the
      lines strictly between the first print-time line and the first
      exam-notes line, minus print-time and noise lines; nothing when the
      notes come first or no print-time line exists. */
  lemma LegacyScanWindow(ls: seq<string>)
    ensures var p := FirstWhere(ls, IsPrintTime);
            var d := FirstWhere(ls, IsNotesStop);
            LegacyScan(ls, false, true) == if p < d then Filter(ls[p + 1..d], IsLegacyKept) else []
  {
    LegacyExclusive(ls);
    ScanWindow(ls, IsPrintTime, IsNotesStop, IsLegacyKept);
  }

  /** The legacy exam-item section runs from the first print-time line to
      the end of the text. */
  lemma LegacyItemsWindow(ls: seq<string>)
    ensures var p := FirstWhere(ls, IsPrintTime);
            LegacyScan(ls, false, false) == if p < |ls| then Filter(ls[p + 1..], IsLegacyKept) else []
  {
    LegacyExclusive(ls);
    ScanWindow(ls, IsPrintTime, Never, IsLegacyKept);
    NeverFound(ls);
    var p := FirstWhere(ls, IsPrintTime);
    if p < |ls| {
      SliceToEnd(ls, p + 1);
    }
  }

  /** The print-time test comes first in the legacy loop. */
  lemma LegacyExclusive(ls: seq<string>)
    ensures Exclusive(ls, IsPrintTime, IsNotesStop, IsLegacyKept)
    ensures Exclusive(ls, IsPrintTime, Never, IsLegacyKept)
  {
    forall k | 0 <= k < |ls|
      ensures IsPrintTime(ls[k]) ==> !IsNotesStop(ls[k]) && !Never(ls[k]) && !IsLegacyKept(ls[k])
    {
    }
  }

  lemma {:induction false} NeverFound(ls: seq<string>)
    ensures FirstWhere(ls, Never) == |ls|
  {
    if ls != [] {
      NeverFound(ls[1..]);
    }
  }
}
