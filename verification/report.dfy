/** `MainActivity.handleOCRResult` and `handleOCRSuccess`: the recognised
    text is run through every extractor, the results are laid out as one
    report in the interface language, and the report itself is parsed for
    the patient record that is read aloud. */
module Report {
  import opened Base
  import opened Strings
  import opened Patterns
  import opened OrderedMap
  import opened FieldExtractors
  import opened ExamItems
  import opened PatientParsing
  import opened SpeechText

  // ---------------------------------------------------------------- listings

  /** Each line followed by a line feed: the `forEach { append(it).append("\n") }` loops. */
  function LinesText(xs: seq<string>): string
    decreases |xs|
  {
    if xs == [] then "" else xs[0] + "\n" + LinesText(xs[1..])
  }

  /** Map entries printed as `k<sep>v`: `k=v` for a `Map.Entry`, `k: v` in the field listings. */
  function EntryLines(m: Entries, sep: string): (r: seq<string>)
    ensures |r| == |m| && forall i | 0 <= i < |m| :: r[i] == m[i].0 + sep + m[i].1
  {
    seq(|m|, i requires 0 <= i < |m| => m[i].0 + sep + m[i].1)
  }

  /** The lines, or the placeholder when there are none. */
  function Listing(xs: seq<string>, none: string): string {
    if xs == [] then none else LinesText(xs)
  }

  /** A non-empty listing is the lines joined at line feeds, plus a final one. */
  lemma {:induction false} LinesTextIsJoin(xs: seq<string>)
    requires xs != []
    ensures LinesText(xs) == Join(xs, "\n") + "\n"
    decreases |xs|
  {
    if |xs| > 1 {
      LinesTextIsJoin(xs[1..]);
      assert LinesText(xs) == xs[0] + "\n" + (Join(xs[1..], "\n") + "\n");
    } else {
      assert LinesText(xs[1..]) == "";
    }
  }

  /** Every line shows up in the listing, in order: line `i` starts right after
      the lines before it. */
  lemma {:induction false} LinesTextShows(xs: seq<string>, i: nat)
    requires i < |xs|
    ensures OccursAt(LinesText(xs), xs[i] + "\n", |LinesText(xs[..i])|)
    decreases i
  {
    var t := LinesText(xs[1..]);
    assert LinesText(xs) == (xs[0] + "\n") + t;
    if i == 0 {
      assert LinesText(xs[..0]) == "";
    } else {
      LinesTextShows(xs[1..], i - 1);
      assert xs[1..][..i - 1] == xs[..i][1..];
      assert LinesText(xs[..i]) == (xs[0] + "\n") + LinesText(xs[1..][..i - 1]);
      ShiftOccurrence(xs[0] + "\n", t, xs[i] + "\n", |LinesText(xs[1..][..i - 1])|);
    }
  }

  lemma ShiftOccurrence(a: string, b: string, w: string, j: nat)
    requires OccursAt(b, w, j)
    ensures OccursAt(a + b, w, |a| + j)
  {
    assert (a + b)[|a| + j..|a| + j + |w|] == b[j..j + |w|];
  }

  // ---------------------------------------------------------------- sections

  /** The first header, `Examination Items（Combine Version）:` or
      `檢查部位（整合版）:` and a line feed, written as the three pieces the
      exam pattern sees in it. */
  function UnifiedTitle(lang: Lang): string {
    ExamLabel(lang) + HeaderWord(lang) + HeaderTail(lang)
  }

  /** The placeholder of the combined listing; in English it uses full-width
      parentheses, unlike the other sections. */
  function UnifiedNone(lang: Lang): string {
    if lang == English then "（None）\n" else "（無）\n"
  }

  function NoneText(lang: Lang): string {
    if lang == English then "(None)\n" else "（無）\n"
  }

  function FullTextSection(lang: Lang, fullText: string): string {
    if lang == English then "OCR Full Text:\n" + (if fullText == "" then "(No text recognition result)" else fullText) + "\n\n"
    else "OCR 全文:\n" + (if fullText == "" then "(無文字辨識結果)" else fullText) + "\n\n"
  }

  function LineTitle(lang: Lang): string {
    if lang == English then "Extracted Fields (Line by Line):\n" else "抽取欄位（逐行）:\n"
  }

  function BlockTitle(lang: Lang): string {
    if lang == English then "Extracted Fields (Block):\n" else "抽取欄位（區塊）:\n"
  }

  function CustomTitle(lang: Lang): string {
    if lang == English then "Examination Items (Custom Rules):\n" else "檢查部位（自訂規則）:\n"
  }

  function MergedTitle(lang: Lang): string {
    if lang == English then "Examination Items (Code Merged Version):\n" else "檢查部位（代碼合併版）:\n"
  }

  /** The custom-rule value under 檢查部位, or the placeholder when it is
      missing or empty. */
  function CustomSection(lang: Lang, custom: Entries): string {
    var v := Lookup(custom, PartsKey);
    if v.None? || v.value == "" then NoneText(lang) else v.value + "\n\n"
  }

  /** The report `handleOCRResult` builds from the extractors' results. */
  function AssembleReport(lang: Lang, fullText: string, fieldsLine: Entries, fieldsBlock: Entries,
                          custom: Entries, examItems: seq<string>, unified: Entries): string
  {
    UnifiedTitle(lang) + ReportBody(lang, fullText, fieldsLine, fieldsBlock, custom, examItems, unified)
  }

  /** Everything after the first header. */
  function ReportBody(lang: Lang, fullText: string, fieldsLine: Entries, fieldsBlock: Entries,
                      custom: Entries, examItems: seq<string>, unified: Entries): string
  {
    Listing(EntryLines(unified, "="), UnifiedNone(lang)) + "\n"
    + FullTextSection(lang, fullText)
    + LineTitle(lang) + Listing(EntryLines(fieldsLine, ": "), NoneText(lang)) + "\n"
    + BlockTitle(lang) + Listing(EntryLines(fieldsBlock, ": "), NoneText(lang)) + "\n"
    + CustomTitle(lang) + CustomSection(lang, custom)
    + MergedTitle(lang) + Listing(examItems, NoneText(lang))
  }

  /** `handleOCRResult`: `fullText` is the recognised text, `blocks` the texts
      of its blocks, `extra` the user dictionary of the translator. */
  function HandleOcrResult(lang: Lang, extra: Entries, fullText: string, blocks: seq<string>): string {
    AssembleReport(lang, fullText, MedicalFormFields(fullText), MedicalFormFieldsByBlock(blocks),
                   ExtractByCustom(fullText), ExtractExamItems(fullText), ExtractExamItemsUnified(extra, fullText))
  }

  // ---------------------------------------------------------------- custom and merged agree

  /** The custom-rule section over the map built from `parts`, and the
      merged section over `parts` itself. */
  lemma CustomShowsParts(lang: Lang, parts: seq<string>)
    ensures parts == [] ==>
      CustomSection(lang, []) == Listing(parts, NoneText(lang))
    ensures parts != [] && Join(parts, "\n") != "" ==>
      CustomSection(lang, [(PartsKey, Join(parts, "\n"))]) == Listing(parts, NoneText(lang)) + "\n"
  {
    if parts != [] {
      assert Lookup([(PartsKey, Join(parts, "\n"))], PartsKey) == Some(Join(parts, "\n"));
      LinesTextIsJoin(parts);
    }
  }

  /** The custom-rule section and the merged section come from the same
      merged parts: with parts, the custom section is the merged listing
      plus a blank line; without, both are the placeholder. */
  lemma CustomRepeatsMerged(lang: Lang, text: string)
    ensures ExtractExamItems(text) == [] ==>
      CustomSection(lang, ExtractByCustom(text)) == Listing(ExtractExamItems(text), NoneText(lang))
    ensures ExtractExamItems(text) != [] && Join(ExtractExamItems(text), "\n") != "" ==>
      CustomSection(lang, ExtractByCustom(text)) == Listing(ExtractExamItems(text), NoneText(lang)) + "\n"
  {
    CustomIsJoinedItems(text);
    CustomShowsParts(lang, ExtractExamItems(text));
  }

  // ---------------------------------------------------------------- the report parses

  /** The label of the first exam pattern of the language. */
  function ExamLabel(lang: Lang): string { if lang == English then "Exam" else "檢查" }

  /** What the exam pattern captures from the first header. */
  function HeaderWord(lang: Lang): string { if lang == English then "ination" else "部位（整合版）:" }

  /** `w` follows the label at `q`: two to twenty non-space characters not
      starting with a colon, ended by whitespace or the end of the text. */
  predicate WordAt(s: string, q: nat, w: string) {
    2 <= |w| <= 20 && !IsColon(w[0]) && (forall j | 0 <= j < |w| :: !IsSpace(w[j]))
    && q + |w| <= |s| && s[q..q + |w|] == w && (q + |w| == |s| || IsSpace(s[q + |w|]))
  }

  /** The exam word's run at `q` is exactly `w`. */
  lemma WordIsCaptured(s: string, q: nat, w: string)
    requires WordAt(s, q, w)
    ensures SpaceRun(s, q) == 0 && CaptureAt(s, q, ExamWord) == Some(w)
  {
    assert forall j | 0 <= j < |w| :: s[q + j] == w[j] by {
      forall j | 0 <= j < |w| ensures s[q + j] == w[j] {
        assert s[q + j] == s[q..q + |w|][j];
      }
    }
    assert ClassRun(s, q, NotSpace) == |w|;
    assert !IsSpace(s[q]) by { assert s[q] == w[0]; }
  }

  /** A label followed by such a word matches the labelled pattern at the start. */
  lemma LabelledWordMatches(s: string, kw: string, w: string)
    requires OccursAt(s, kw, 0) && WordAt(s, |kw|, w)
    ensures MatchAt(s, 0, Labelled(kw, ExamWord)) == Some(w)
  {
    WordIsCaptured(s, |kw|, w);
    assert s[|kw|] == w[0];
  }

  /** A text opening with the exam label and then such a word has that word
      as its exam field. */
  lemma LeadingExamField(s: string, lang: Lang, w: string)
    requires OccursAt(s, ExamLabel(lang), 0) && WordAt(s, |ExamLabel(lang)|, w)
    ensures ExamField(s, lang) == w
  {
    LabelledWordMatches(s, ExamLabel(lang), w);
    assert ExamPatterns(lang)[0] == Labelled(ExamLabel(lang), ExamWord);
    FirstOfLeadingMatch(s, ExamPatterns(lang));
    assert NoEdgeSpace(w) by { assert !IsSpace(w[0]) && !IsSpace(w[|w| - 1]); }
    TrimOfTrimmed(w);
  }

  /** So it is parsed as a record whose exam type is that word. */
  lemma LeadingExamParses(s: string, lang: Lang, w: string)
    requires OccursAt(s, ExamLabel(lang), 0) && WordAt(s, |ExamLabel(lang)|, w)
    ensures ExtractPatientInfo(s, lang).Some?
    ensures ExtractPatientInfo(s, lang).value.examType == w
  {
    LeadingExamField(s, lang, w);
  }

  /** Every report opens with the combined-listing header, whose first word
      the exam pattern captures: parsing a report never fails, and the
      record's exam type is that piece of the header. */
  lemma ReportAlwaysParses(lang: Lang, fullText: string, fieldsLine: Entries, fieldsBlock: Entries,
                           custom: Entries, examItems: seq<string>, unified: Entries)
    ensures var r := AssembleReport(lang, fullText, fieldsLine, fieldsBlock, custom, examItems, unified);
      ExtractPatientInfo(r, lang).Some? && ExtractPatientInfo(r, lang).value.examType == HeaderWord(lang)
  {
    var body := ReportBody(lang, fullText, fieldsLine, fieldsBlock, custom, examItems, unified);
    HeaderOpens(lang, body);
    LeadingExamParses(UnifiedTitle(lang) + body, lang, HeaderWord(lang));
  }

  /** What follows the header word in the header: a space in English, the
      line feed in Chinese. */
  function HeaderTail(lang: Lang): string {
    if lang == English then " Items（Combine Version）:\n" else "\n"
  }

  lemma Pieces3(k: string, w: string, t: string, body: string)
    requires t != []
    ensures var r := k + w + t + body;
      OccursAt(r, k, 0) && |k| + |w| <= |r| && r[|k|..|k| + |w|] == w && r[|k| + |w|] == t[0]
  {
    var r := k + w + t + body;
    assert r[..|k|] == k;
    assert r[|k|..|k| + |w|] == w;
  }

  /** The header is the exam label, the header word and whitespace. */
  lemma HeaderOpens(lang: Lang, body: string)
    ensures OccursAt(UnifiedTitle(lang) + body, ExamLabel(lang), 0)
    ensures WordAt(UnifiedTitle(lang) + body, |ExamLabel(lang)|, HeaderWord(lang))
  {
    var w := HeaderWord(lang);
    Pieces3(ExamLabel(lang), w, HeaderTail(lang), body);
    assert IsSpace(HeaderTail(lang)[0]);
    assert forall j | 0 <= j < |w| :: !IsSpace(w[j]);
  }

  // ---------------------------------------------------------------- speaking

  /** The record kept and the text spoken after a report. */
  datatype Outcome = Outcome(info: PatientInfo, speech: string)

  function Fallback(lang: Lang): string {
    if lang == English then
      "We couldn't clearly recognize your name, date of birth, or medical ID from the image. After the beep, please state your name or medical ID for verification."
    else "目前無法從影像中明確辨識姓名、生日或病歷號。請在聽到提示音後，口頭說出您的姓名或病歷號以進行確認。"
  }

  /** `handleOCRSuccess`: the fallback request is spoken, with the sentinel
      record kept, exactly when no field pattern matches the report;
      otherwise the record kept holds what the report's fields offer and is
      the one spoken. Either way the record kept has a name, a birth date
      and an id. */
  function HandleOcrSuccess(report: string, lang: Lang): (o: Outcome)
    ensures o.info.name != "" && o.info.birthDate != "" && o.info.medicalId != ""
    ensures (NameField(report, lang) == "" && BirthField(report) == "" && IdField(report) == ""
             && ExamField(report, lang) == "") ==> o.info == Sentinel && o.speech == Fallback(lang)
    ensures (NameField(report, lang) != "" || BirthField(report) != "" || IdField(report) != ""
             || ExamField(report, lang) != "") ==>
      o.speech == Build(o.info, lang) && o.info.examType == ExamField(report, lang)
      && Filled(NameField(report, lang), o.info.name, lang) && Filled(BirthField(report), o.info.birthDate, lang)
      && Filled(IdField(report), o.info.medicalId, lang)
  {
    match ExtractPatientInfo(report, lang)
    case Some(info) => Outcome(info, Build(info, lang))
    case None => Outcome(Sentinel, Fallback(lang))
  }

  /** So the fallback is never spoken after a successful recognition: the
      spoken text is always the speech of the record parsed from the report,
      whose exam type is the header word. */
  lemma RecognitionIsSpoken(lang: Lang, extra: Entries, fullText: string, blocks: seq<string>)
    ensures var o := HandleOcrSuccess(HandleOcrResult(lang, extra, fullText, blocks), lang);
      o.info.examType == HeaderWord(lang) && o.speech == Build(o.info, lang)
  {
    ReportAlwaysParses(lang, fullText, MedicalFormFields(fullText), MedicalFormFieldsByBlock(blocks),
                       ExtractByCustom(fullText), ExtractExamItems(fullText), ExtractExamItemsUnified(extra, fullText));
  }
}
