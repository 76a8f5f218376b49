/** The exam-item extractors: the combined extractor (fields and a sorted,
    translated list of exam items), the custom-rule extractor and
    `extractExamItems`, each in the `OcrExtractors` version (routine
    section) and the legacy activity's version (print-time section). */
module ExamItems {
  import opened Base
  import opened Strings
  import opened OrderedMap
  import opened Section
  import opened CodeMerge
  import opened StableSort
  import opened FieldExtractors
  import ExamTranslator
  import MedDict

  // ---------------------------------------------------------------- keeping and normalising

  /** `Regex("^[右]+$").matches(s)`. */
  predicate AllRight(s: string) { |s| >= 1 && forall i | 0 <= i < |s| :: s[i] == '右' }

  /** The combined extractor's filter: longer than five characters and not
      just a run of 右. */
  predicate Substantial(p: string) { |p| > 5 && !AllRight(Trim(p)) }

  predicate IsWord(w: string) { !IsBlank(w) }

  predicate SpaceFree(w: string) { ' ' !in w }

  /** `part.split(" ").filter { it.isNotBlank() }`. */
  function Words(p: string): seq<string> { Filter(Pieces(p, ' '), IsWord) }

  /** `"${tokens[0]} ${tokens[1]} ${tokens.drop(2).joinToString(" ")}"` when
      there are at least three words, the part unchanged otherwise. */
  function Normalize(p: string): string
  {
    var ts := Words(p);
    if |ts| >= 3 then ts[0] + " " + ts[1] + " " + Join(ts[2..], " ") else p
  }

  lemma {:induction false} PiecesSpaceFree(s: string)
    ensures forall k | 0 <= k < |Pieces(s, ' ')| :: SpaceFree(Pieces(s, ' ')[k])
    decreases |s|
  {
    var n := RunOutside(s, {' '});
    if n < |s| {
      var rest := Pieces(s[n + 1..], ' ');
      PiecesSpaceFree(s[n + 1..]);
      var r := Pieces(s, ' ');
      assert r == [s[..n]] + rest;
      forall k | 0 <= k < |r|
        ensures SpaceFree(r[k])
      {
        if k == 0 {
          assert r[0] == s[..n];
        } else {
          assert r[k] == rest[k - 1];
        }
      }
    }
  }

  lemma WordsShape(p: string)
    ensures forall k | 0 <= k < |Words(p)| :: SpaceFree(Words(p)[k]) && IsWord(Words(p)[k])
  {
    PiecesSpaceFree(p);
    FilterKeeps(Pieces(p, ' '), IsWord, SpaceFree);
  }

  /** Splitting a space-joined list of space-free words gives the words back. */
  lemma {:induction false} PiecesOfJoin(ws: seq<string>)
    requires |ws| >= 1 && forall k | 0 <= k < |ws| :: SpaceFree(ws[k])
    ensures Pieces(Join(ws, " "), ' ') == ws
    decreases |ws|
  {
    var w := ws[0];
    if |ws| == 1 {
      assert w + [] == w;
      RunOutsidePrefix(w, [], {' '});
    } else {
      var rest := Join(ws[1..], " ");
      var s := w + ([' '] + rest);
      assert Join(ws, " ") == s;
      RunOutsidePrefix(w, [' '] + rest, {' '});
      assert s[..|w|] == w;
      assert s[|w| + 1..] == rest;
      PiecesOfJoin(ws[1..]);
      assert ws == [w] + ws[1..];
    }
  }

  /** With three or more words the part is its words joined by single
      spaces. */
  lemma NormalizeJoinsWords(p: string)
    requires |Words(p)| >= 3
    ensures Normalize(p) == Join(Words(p), " ")
  {
    var ts := Words(p);
    assert ts[1..][0] == ts[1] && ts[1..][1..] == ts[2..];
  }

  /** Normalising twice is normalising once. */
  lemma NormalizeIdempotent(p: string)
    ensures Normalize(Normalize(p)) == Normalize(p)
  {
    var ts := Words(p);
    if |ts| >= 3 {
      NormalizeJoinsWords(p);
      WordsShape(p);
      PiecesOfJoin(ts);
      FilterAll(ts, IsWord);
      assert Words(Normalize(p)) == ts;
      NormalizeJoinsWords(Normalize(p));
    }
  }

  // ---------------------------------------------------------------- ordering

  /** `if (it.startsWith("*")) 0 else 1`. */
  function Rank(s: string): (r: int)
    ensures r == 0 || r == 1
  {
    if StartsWith(s, "*") then 0 else 1
  }

  function DigitRun(s: string, i: nat): (n: nat)
    requires i <= |s|
    ensures i + n <= |s|
    ensures forall j | i <= j < i + n :: IsDigit(s[j])
    ensures i + n == |s| || !IsDigit(s[i + n])
    decreases |s| - i
  {
    if i < |s| && IsDigit(s[i]) then 1 + DigitRun(s, i + 1) else 0
  }

  /** `Regex("\\d+").find(s)?.value`: the leftmost maximal run of digits. */
  function FirstNumber(s: string): (r: Option<string>)
    ensures r.Some? ==> r.value != [] && AllDigits(r.value)
    ensures r.None? <==> forall j | 0 <= j < |s| :: !IsDigit(s[j])
    ensures r.Some? ==> exists i | 0 <= i < |s| ::
      IsDigit(s[i]) && r.value == s[i..i + DigitRun(s, i)] && forall j | 0 <= j < i :: !IsDigit(s[j])
  {
    var i := FirstWhere(s, IsDigit);
    assert forall j | 0 <= j < i :: !IsDigit(s[j]) by {
      forall j | 0 <= j < i
        ensures !IsDigit(s[j])
      {
        FirstWhereIsFirst(s, IsDigit, j);
      }
    }
    if i == |s| then None else Some(s[i..i + DigitRun(s, i)])
  }

  /** `?.toIntOrNull() ?: Int.MAX_VALUE`: a number beyond the 32-bit range
      reads as null, and so sorts like a part without digits. */
  function NumberKey(s: string): (r: int)
    ensures 0 <= r <= MaxInt
    ensures FirstNumber(s).None? ==> r == MaxInt
    ensures FirstNumber(s).Some? && DigitsValue(FirstNumber(s).value) <= MaxInt ==> r == DigitsValue(FirstNumber(s).value)
    ensures FirstNumber(s).Some? && DigitsValue(FirstNumber(s).value) > MaxInt ==> r == MaxInt
  {
    match FirstNumber(s)
    case None => MaxInt
    case Some(d) => if DigitsValue(d) <= MaxInt then DigitsValue(d) else MaxInt
  }

  /** The two comparators of `compareBy` folded into one integer. */
  function ExamKey(s: string): int { Rank(s) * (MaxInt + 1) + NumberKey(s) }

  /** The folded key orders exactly as `compareBy(rank, number)`: by rank
      first, then by number. */
  lemma ExamKeyIsLexicographic(a: string, b: string)
    ensures ExamKey(a) <= ExamKey(b)
        <==> Rank(a) < Rank(b) || (Rank(a) == Rank(b) && NumberKey(a) <= NumberKey(b))
  {
  }

  // ---------------------------------------------------------------- translation

  function LineRun(s: string, i: nat): (n: nat)
    requires i <= |s|
    ensures i + n <= |s|
    ensures forall j | i <= j < i + n :: !IsLineBreak(s[j])
    decreases |s| - i
  {
    if i < |s| && !IsLineBreak(s[i]) then 1 + LineRun(s, i + 1) else 0
  }

  /** Where `([一-鿿].+)` can start: an ideograph and at least one more
      character on the same line. */
  predicate HanStart(s: string, i: nat) { i + 1 < |s| && IsHan(s[i]) && !IsLineBreak(s[i + 1]) }

  /** `Regex("([一-鿿].+)").find(s)?.value`: from the leftmost ideograph that
      has a character after it, to the end of its line. */
  function HanTail(s: string, i: nat): (r: Option<string>)
    requires i <= |s|
    ensures r.Some? ==> |r.value| >= 2 && IsHan(r.value[0])
    ensures r.Some? ==> forall j | 1 <= j < |r.value| :: !IsLineBreak(r.value[j])
    ensures r.None? ==> forall j | i <= j < |s| :: !HanStart(s, j)
    decreases |s| - i
  {
    if i == |s| then None
    else if HanStart(s, i) then Some(s[i..i + 1 + LineRun(s, i + 1)])
    else HanTail(s, i + 1)
  }

  /** The combined extractor's `onlyChinese` step: what follows the first
      `->`, trimmed; else the ideograph tail; else the text itself. */
  function OnlyChinese(t: string): string
  {
    if Contains(t, "->") then Trim(SubstringAfter(t, "->"))
    else
      match HanTail(t, 0)
      case Some(v) => v
      case None => t
  }

  /** A translation `part -> meaning` of a part without an arrow of its own
      keeps just the meaning. */
  lemma OnlyChineseOfArrow(part: string, meaning: string)
    requires !Contains(part, "->")
    ensures OnlyChinese(part + ExamTranslator.Arrow + meaning) == Trim(meaning)
  {
    var t := part + ExamTranslator.Arrow + meaning;
    var n := |part| + 1;
    assert t[n..n + 2] == "->";
    forall j | 0 <= j < n
      ensures !OccursAt(t, "->", j)
    {
      if j + 2 <= |part| {
        assert t[j..j + 2] == part[j..j + 2];
        assert !OccursAt(part, "->", j);
      } else {
        assert t[j + 1] == ' ' || t[j] == ' ';
      }
    }
    IndexOfFromIs(t, "->", 0, n);
    ContainsAt(t, "->", n);
    assert SubstringAfter(t, "->") == [' '] + meaning;
    TrimLeadingSpace(' ', meaning);
  }

  /** A part led by a known procedure code shows as the code table's
      meaning, trimmed. */
  lemma CodeLedShowsMeaning(extra: Entries, code: string, rest: string)
    requires ExamTranslator.IsCodeKey(code)
    requires rest == [] || rest[0] in ExamTranslator.TokenSeps
    requires !Contains(code + rest, "->")
    ensures OnlyChinese(ExamTranslator.TranslateExamPart(extra, code + rest))
         == Trim(Lookup(MedDict.CodeDict, code).value)
  {
    ExamTranslator.CodeLedPart(extra, code, rest);
    OnlyChineseOfArrow(code + rest, Lookup(MedDict.CodeDict, code).value);
  }

  // ---------------------------------------------------------------- the item list

  function MapNormalize(ps: seq<string>): (r: seq<string>)
    ensures |r| == |ps| && forall i | 0 <= i < |ps| :: r[i] == Normalize(ps[i])
  {
    seq(|ps|, i requires 0 <= i < |ps| => Normalize(ps[i]))
  }

  /** The parts normalised and sorted, rank first, then number. */
  function Ordered(ps: seq<string>): seq<string> { SortBy(MapNormalize(ps), ExamKey) }

  /** Each ordered part translated; in the combined extractor of
      `OcrExtractors` (`onlyChinese`) only the Chinese part of the
      translation is kept. */
  function Shown(extra: Entries, ps: seq<string>, onlyChinese: bool): (r: seq<string>)
    ensures |r| == |ps|
    ensures forall i | 0 <= i < |ps| ::
      var t := ExamTranslator.TranslateExamPart(extra, Ordered(ps)[i]);
      r[i] == if onlyChinese then OnlyChinese(t) else t
  {
    var o := Ordered(ps);
    seq(|o|, i requires 0 <= i < |o| =>
      var t := ExamTranslator.TranslateExamPart(extra, o[i]);
      if onlyChinese then OnlyChinese(t) else t)
  }

  /** The items are sorted by rank and number, are the normalised parts
      rearranged, and parts that tie keep their input order. */
  lemma OrderedIsStableSort(ps: seq<string>, k: int)
    ensures SortedBy(Ordered(ps), ExamKey)
    ensures multiset(Ordered(ps)) == multiset(MapNormalize(ps))
    ensures WithKey(Ordered(ps), ExamKey, k) == WithKey(MapNormalize(ps), ExamKey, k)
  {
    SortBySorted(MapNormalize(ps), ExamKey);
    SortByStable(MapNormalize(ps), ExamKey, k);
  }

  // ---------------------------------------------------------------- OcrExtractors

  const ItemsKey: string := "檢查項目"
  const PartsKey: string := "檢查部位"

  /** The parts the combined extractor keeps from the routine section. */
  function UnifiedParts(lines: seq<string>): seq<string>
  {
    Filter(MergeCodeLines(RoutineSection(lines), Combined), Substantial)
  }

  /** `OcrExtractors.extractExamItemsUnified`. */
  function ExtractExamItemsUnified(extra: Entries, text: string): Entries
  {
    var lines := Lines(text);
    var fields := ExtractFields(lines, UnifiedScan);
    var parts := UnifiedParts(lines);
    if parts == [] then fields else Put(fields, ItemsKey, Join(Shown(extra, parts, true), "\n"))
  }

  /** `OcrExtractors.extractMedicalFormFieldsByCustom`. */
  function ExtractByCustom(text: string): Entries
  {
    var parts := MergeCodeLines(RoutineSection(Lines(text)), Strict);
    if parts == [] then [] else [(PartsKey, Join(parts, "\n"))]
  }

  /** `OcrExtractors.extractExamItems`. */
  function ExtractExamItems(text: string): seq<string>
  {
    MergeCodeLines(RoutineSection(Lines(text)), Strict)
  }

  lemma ItemsKeyIsNotAField(f: Field)
    ensures KeyOf(f) != ItemsKey
  {
    assert KeyOf(f)[0] != ItemsKey[0];
  }

  lemma {:induction false} PutNewKey(m: Entries, k: string, v: string, j: string)
    requires !HasKey(m, k)
    ensures Put(m, k, v) == m + [(k, v)]
    decreases |m|
  {
    if m != [] {
      forall i | 0 <= i < |m[1..]|
        ensures m[1..][i].0 != k
      {
        assert m[1..][i] == m[i + 1];
      }
      PutNewKey(m[1..], k, v, j);
      assert m == [m[0]] + m[1..];
    }
  }

  lemma NoItemsKey(m: Entries)
    requires FieldKeysOnly(m)
    ensures !HasKey(m, ItemsKey)
  {
    ItemsKeyIsNotAField(MedicalId);
    ItemsKeyIsNotAField(Name);
    ItemsKeyIsNotAField(Gender);
    ItemsKeyIsNotAField(Birth);
    forall i | 0 <= i < |m|
      ensures m[i].0 != ItemsKey
    {
      assert IsFieldKey(m[i].0);
    }
  }

  /** Adding the item list leaves every field as it was. */
  lemma PutItems(m: Entries, v: string, f: Field)
    requires FieldKeysOnly(m)
    ensures Lookup(Put(m, ItemsKey, v), KeyOf(f)) == Lookup(m, KeyOf(f))
    ensures Lookup(Put(m, ItemsKey, v), ItemsKey) == Some(v)
  {
    NoItemsKey(m);
    PutNewKey(m, ItemsKey, v, ItemsKey);
    LookupAppend(m, KeyOf(f), ItemsKey, v);
    LookupAppend(m, ItemsKey, ItemsKey, v);
    ItemsKeyIsNotAField(f);
  }

  /** The combined extractor keeps every line of the routine section except
      `RA` lines and short or 右-only ones: it joins no code with its
      description. */
  lemma UnifiedPartsOfSection(lines: seq<string>)
    ensures UnifiedParts(lines) == Filter(Filter(RoutineSection(lines), IsNotRa), Substantial)
  {
    CombinedKeepsLines(RoutineSection(lines));
  }

  /** The combined extractor leaves the fields as the field scan found
      them, and adds the item list exactly when some part was kept. */
  lemma UnifiedContents(extra: Entries, text: string, f: Field)
    ensures Lookup(ExtractExamItemsUnified(extra, text), KeyOf(f)) == FirstHit(Lines(text), f, UnifiedScan)
    ensures Lookup(ExtractExamItemsUnified(extra, text), ItemsKey)
         == (if UnifiedParts(Lines(text)) == [] then None
             else Some(Join(Shown(extra, UnifiedParts(Lines(text)), true), "\n")))
  {
    var lines := Lines(text);
    var fields := ExtractFields(lines, UnifiedScan);
    ExtractFieldsFirstHit(lines, f, UnifiedScan);
    ExtractFieldsKeys(lines, UnifiedScan);
    NoItemsKey(fields);
    if UnifiedParts(lines) != [] {
      PutItems(fields, Join(Shown(extra, UnifiedParts(lines), true), "\n"), f);
    }
  }

  /** The custom-rule extractor and `extractExamItems` agree: the custom
      map holds the items joined by line feeds, under 檢查部位, when there
      are any. Each item is a code line of the routine section, or a bare
      code joined to the line after it. */
  lemma CustomIsJoinedItems(text: string)
    ensures ExtractByCustom(text)
         == if ExtractExamItems(text) == [] then [] else [(PartsKey, Join(ExtractExamItems(text), "\n"))]
    ensures Pairs(ExtractExamItems(text), CodeLines(RoutineSection(Lines(text))))
  {
    StrictPairsCodeLines(RoutineSection(Lines(text)));
  }

  // ---------------------------------------------------------------- the legacy activity

  /** The legacy combined extractor: the same field scan, then the
      print-time section up to 檢查說明, merged strictly, normalised, sorted
      and translated, with the whole translation shown. */
  function LegacyExtractExamItemsUnified(extra: Entries, text: string): Entries
  {
    var lines := Lines(text);
    var fields := ExtractFields(lines, UnifiedScan);
    var parts := MergeCodeLines(LegacyScan(lines, false, true), Strict);
    if parts == [] then fields else Put(fields, ItemsKey, Join(Shown(extra, parts, false), "\n"))
  }

  /** The legacy `extractMedicalFormFieldsByCustom`. */
  function LegacyExtractByCustom(text: string): Entries
  {
    var parts := MergeCodeLines(LegacyScan(Lines(text), false, true), Strict);
    if parts == [] then [] else [(PartsKey, Join(parts, "\n"))]
  }

  /** The legacy `extractExamItems`, which has no 檢查說明 stop. */
  function LegacyExtractExamItems(text: string): seq<string>
  {
    MergeCodeLines(LegacyScan(Lines(text), false, false), Strict)
  }

  /** The legacy combined extractor leaves the fields as the field scan
      found them, and lists, translated in full, exactly the parts the
      legacy custom-rule extractor joins: it adds the item list exactly
      when that extractor finds something. */
  lemma LegacyUnifiedContents(extra: Entries, text: string, f: Field)
    ensures Lookup(LegacyExtractExamItemsUnified(extra, text), KeyOf(f)) == FirstHit(Lines(text), f, UnifiedScan)
    ensures var parts := MergeCodeLines(LegacyScan(Lines(text), false, true), Strict);
            Lookup(LegacyExtractExamItemsUnified(extra, text), ItemsKey)
            == (if LegacyExtractByCustom(text) == [] then None
                else Some(Join(Shown(extra, parts, false), "\n")))
  {
    var lines := Lines(text);
    var fields := ExtractFields(lines, UnifiedScan);
    var parts := MergeCodeLines(LegacyScan(lines, false, true), Strict);
    ExtractFieldsFirstHit(lines, f, UnifiedScan);
    ExtractFieldsKeys(lines, UnifiedScan);
    NoItemsKey(fields);
    if parts != [] {
      PutItems(fields, Join(Shown(extra, parts, false), "\n"), f);
    }
  }

  /** The legacy items come from the lines after the first 列印時間 line:
      up to the first 檢查說明 line for the custom extractor, to the end for
      `extractExamItems`; noise lines and 列印時間 lines are skipped. */
  lemma LegacyItemsWindows(text: string)
    ensures var ls := Lines(text);
            var p := FirstWhere(ls, IsPrintTime);
            var d := FirstWhere(ls, IsNotesStop);
            && LegacyExtractExamItems(text)
               == MergeCodeLines(if p < |ls| then Filter(ls[p + 1..], IsLegacyKept) else [], Strict)
            && LegacyExtractByCustom(text)
               == (var parts := MergeCodeLines(if p < d then Filter(ls[p + 1..d], IsLegacyKept) else [], Strict);
                   if parts == [] then [] else [(PartsKey, Join(parts, "\n"))])
  {
    LegacyItemsWindow(Lines(text));
    LegacyScanWindow(Lines(text));
  }
}
