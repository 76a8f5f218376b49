/** `PatientParsing.extractPatientInfo`: four ordered lists of patterns,
    the first pattern of a list that matches anywhere in the text decides
    its field, and a record is returned when any field was found, with a
    sentinel for every missing one.  The legacy activity's older
    `extractPatientInfo`, which needs name, birth date and id all present
    and does not clean the name, is modelled alongside. */
module PatientParsing {
  import opened Base
  import opened Strings
  import opened Patterns

  /** `KEYWORD[:：]?\s*(CAPTURE)`. */
  function Labelled(keyword: string, cap: Capture): Pattern { Pattern(keyword, true, true, cap) }

  /** `(CAPTURE)` on its own. */
  function Bare(cap: Capture): Pattern { Pattern("", false, false, cap) }

  const EnglishName := Run(LetterOrSpace, 2, AtMost(30))
  const ChineseName := Run(NotSpace, 2, AtMost(10))
  const LabelledDate := Date({'年', '/', '-'}, {'月', '/', '-'}, OptionalMark('日'))
  const IdCode := Run(Alnum, 4, AtMost(15))
  const ExamWord := Run(NotSpace, 2, AtMost(20))

  function NamePatterns(lang: Lang): seq<Pattern> {
    if lang == English then [Labelled("Name", EnglishName), Labelled("Patient", EnglishName)]
    else [Labelled("姓名", ChineseName), Labelled("病患", ChineseName), Labelled("患者", ChineseName)]
  }

  const BirthPatterns: seq<Pattern> := [
    Labelled("出生", LabelledDate), Labelled("生日", LabelledDate),
    Labelled("Birth", LabelledDate), Labelled("DOB", LabelledDate),
    Bare(Date({'年'}, {'月'}, RequiredMark('日'))),
    Bare(Date({'/'}, {'/'}, NoMark)),
    Bare(Date({'-'}, {'-'}, NoMark))
  ]

  const IdPatterns: seq<Pattern> := [
    Labelled("病歷號", IdCode), Labelled("病號", IdCode), Labelled("編號", IdCode),
    Labelled("ID", IdCode), Labelled("Medical ID", IdCode), Labelled("Patient ID", IdCode)
  ]

  function ExamPatterns(lang: Lang): seq<Pattern> {
    if lang == English then [Labelled("Exam", ExamWord), Labelled("Test", ExamWord), Labelled("Procedure", ExamWord)]
    else [Labelled("檢查", ExamWord), Labelled("項目", ExamWord)]
  }

  /** The sentinel for a missing field. */
  function Unknown(lang: Lang): string { if lang == English then "Unknown" else "未辨識" }

  // ---------------------------------------------------------------- name cleanup

  /** The thirty symbols `cleanupNameField` removes, in the order it removes them. */
  const NameSymbols: seq<char> := [
    '=', '#', '*', '&', '+', '-', '_', '|', '@', '!', '?', '%', '^', '~', '`',
    '[', ']', '{', '}', '(', ')', '<', '>', '/', '\\', '.', ',', ';', '"', '\''
  ]

  predicate IsNameSymbol(c: char) { c in NameSymbols }

  /** Letters, digits, whitespace and Han characters are never removed. */
  lemma NameSymbolsArePunctuation(c: char)
    requires IsLetter(c) || IsDigit(c) || IsSpace(c) || IsHan(c)
    ensures !IsNameSymbol(c)
  {
  }

  /** The chain of `replace(symbol, "")` calls. */
  function RemoveEach(s: string, cs: seq<char>): string
    decreases |cs|
  {
    if cs == [] then s else RemoveEach(RemoveAll(s, [cs[0]]), cs[1..])
  }

  /** Removing a one-character string is filtering that character out. */
  lemma {:induction false} RemoveOne(s: string, c: char)
    ensures RemoveAll(s, [c]) == KeepChars(s, x => x != c)
    decreases |s|
  {
    if |s| >= 1 {
      RemoveOne(s[1..], c);
      if s[..1] == [c] {
        assert s[0] == c;
      } else {
        assert s[0] != c;
      }
    }
  }

  lemma {:induction false} KeepCharsTwice(s: string, f: char -> bool, g: char -> bool, h: char -> bool)
    requires forall c :: h(c) == (f(c) && g(c))
    ensures KeepChars(KeepChars(s, f), g) == KeepChars(s, h)
    decreases |s|
  {
    if s != [] {
      KeepCharsTwice(s[1..], f, g, h);
      var t := KeepChars(s, f);
      if f(s[0]) {
        assert t == [s[0]] + KeepChars(s[1..], f);
        assert t[1..] == KeepChars(s[1..], f);
      } else {
        assert t == KeepChars(s[1..], f);
      }
    }
  }

  /** The chain of removals is one filter: the result is the input without
      any of the removed characters, everything else kept in order. */
  lemma {:induction false} RemoveEachIsFilter(s: string, cs: seq<char>)
    ensures RemoveEach(s, cs) == KeepChars(s, x => x !in cs)
    decreases |cs|
  {
    if cs == [] {
      KeepCharsOfKept(s, x => x !in cs);
    } else {
      var c := cs[0];
      RemoveOne(s, c);
      RemoveEachIsFilter(RemoveAll(s, [c]), cs[1..]);
      KeepCharsTwice(s, x => x != c, x => x !in cs[1..], x => x !in cs);
    }
  }

  /** `cleanupNameField`: the thirty symbols removed, then `trim()`. */
  function CleanupNameField(name: string): (r: string)
    ensures forall i | 0 <= i < |r| :: !IsNameSymbol(r[i])
    ensures NoEdgeSpace(r)
    ensures |r| <= |name|
  {
    RemovedAndTrimmed(name, NameSymbols);
    Trim(RemoveEach(name, NameSymbols))
  }

  /** Removing the characters of `cs` and trimming leaves none of them and no
      edge space, and never lengthens the text. */
  lemma RemovedAndTrimmed(name: string, cs: seq<char>)
    ensures var r := Trim(RemoveEach(name, cs));
      (forall i | 0 <= i < |r| :: r[i] !in cs) && NoEdgeSpace(r) && |r| <= |name|
  {
    var kept := RemoveEach(name, cs);
    RemoveEachIsFilter(name, cs);
    TrimShape(kept);
    TrimIsInfix(kept);
  }

  /** Cleaning a cleaned name changes nothing. */
  lemma CleanupIdempotent(name: string)
    ensures CleanupNameField(CleanupNameField(name)) == CleanupNameField(name)
  {
    var r := CleanupNameField(name);
    RemovedAndTrimmed(name, NameSymbols);
    RemoveEachIsFilter(r, NameSymbols);
    KeepCharsOfKept(r, x => x !in NameSymbols);
    TrimOfTrimmed(r);
  }

  /** A name free of the symbols and of edge spaces is left as it is; in
      particular a name of letters, digits, spaces and Han characters. */
  lemma CleanupKeepsPlainName(name: string)
    requires forall i | 0 <= i < |name| :: !IsNameSymbol(name[i])
    requires NoEdgeSpace(name)
    ensures CleanupNameField(name) == name
  {
    RemoveEachIsFilter(name, NameSymbols);
    KeepCharsOfKept(name, x => x !in NameSymbols);
    TrimOfTrimmed(name);
  }

  // ---------------------------------------------------------------- fields

  /** The trimmed capture of the first pattern that matches, or "". */
  function Field(text: string, ps: seq<Pattern>): string {
    match FirstOf(text, ps)
    case None => ""
    case Some(c) => Trim(c)
  }

  /** A capture that cannot have edge spaces is its own trim, so the field
      is empty exactly when no pattern matched, and it is the capture of
      the first pattern that matched. */
  lemma FieldOfSpacelessCapture(text: string, ps: seq<Pattern>)
    requires forall k | 0 <= k < |ps| :: Spaceless(ps[k].capture)
    ensures Field(text, ps) == "" <==> FirstOf(text, ps).None?
    ensures FirstOf(text, ps).Some? ==> Field(text, ps) == FirstOf(text, ps).value
  {
    var r := FirstOf(text, ps);
    FirstOfShape(text, ps);
    if r.Some? {
      var k :| 0 <= k < |ps| && Shape(ps[k].capture, r.value);
      SpacelessShape(ps[k].capture, r.value);
      TrimOfTrimmed(r.value);
    }
  }

  /** The raw name of the legacy parser: the trimmed capture, uncleaned. */
  function RawName(text: string, lang: Lang): string { Field(text, NamePatterns(lang)) }

  /** The name field: the cleaned capture of the first name pattern that
      matches, or "" when none matches. */
  function NameField(text: string, lang: Lang): (r: string)
    ensures forall i | 0 <= i < |r| :: !IsNameSymbol(r[i])
    ensures NoEdgeSpace(r)
    ensures FirstOf(text, NamePatterns(lang)).None? ==> r == ""
  {
    match FirstOf(text, NamePatterns(lang))
    case None => ""
    case Some(c) => CleanupNameField(Trim(c))
  }

  function BirthField(text: string): string { Field(text, BirthPatterns) }

  function IdField(text: string): string { Field(text, IdPatterns) }

  function ExamField(text: string, lang: Lang): string { Field(text, ExamPatterns(lang)) }

  /** Every birth pattern captures a date with separators among 年, / and -
      whose day is followed by nothing or by 日. */
  predicate DateLike(cap: Capture) {
    cap.Date? && cap.sep1 <= {'年', '/', '-'} && (cap.end.NoMark? || cap.end.mark == '日')
  }

  predicate AllDateLike(ps: seq<Pattern>) { forall k | 0 <= k < |ps| :: DateLike(ps[k].capture) }

  lemma BirthPatternsCaptureDates()
    ensures AllDateLike(BirthPatterns)
  {
  }

  /** What a date-like field looks like. */
  predicate DateShaped(b: string) {
    |b| >= 8 && AllDigits(b[..4]) && b[4] in {'年', '/', '-'} && (IsDigit(b[|b| - 1]) || b[|b| - 1] == '日')
  }

  lemma DateFieldShape(text: string, ps: seq<Pattern>)
    requires AllDateLike(ps)
    ensures Field(text, ps) == "" <==> FirstOf(text, ps).None?
    ensures Field(text, ps) != "" ==> DateShaped(Field(text, ps))
  {
    assert forall k | 0 <= k < |ps| :: Spaceless(ps[k].capture);
    FieldOfSpacelessCapture(text, ps);
    FirstOfShape(text, ps);
    var r := FirstOf(text, ps);
    if r.Some? {
      var k :| 0 <= k < |ps| && Shape(ps[k].capture, r.value);
      var cap := ps[k].capture;
      var b := r.value;
      assert DateLike(cap);
      assert b[4] in cap.sep1;
      assert IsDigit(b[|b| - 1]) || (cap.end != NoMark && b[|b| - 1] == cap.end.mark);
      assert Field(text, ps) == b;
    }
  }

  /** A found birth date has the shape of one: four digits, a separator,
      at least three more characters, and a digit or 日 at the end. */
  lemma BirthFieldShape(text: string)
    ensures BirthField(text) == "" <==> FirstOf(text, BirthPatterns).None?
    ensures BirthField(text) != "" ==> DateShaped(BirthField(text))
  {
    BirthPatternsCaptureDates();
    DateFieldShape(text, BirthPatterns);
  }

  /** A found id is four to fifteen ASCII letters and digits. */
  lemma IdFieldShape(text: string)
    ensures IdField(text) == "" <==> FirstOf(text, IdPatterns).None?
    ensures 0 < |IdField(text)| ==> 4 <= |IdField(text)| <= 15
    ensures forall i | 0 <= i < |IdField(text)| :: IsLetter(IdField(text)[i]) || IsDigit(IdField(text)[i])
  {
    var ps := IdPatterns;
    assert forall k | 0 <= k < |ps| :: ps[k].capture == IdCode;
    FieldOfSpacelessCapture(text, ps);
    FirstOfShape(text, ps);
  }

  /** A found exam type is two to twenty characters without whitespace. */
  lemma ExamFieldShape(text: string, lang: Lang)
    ensures ExamField(text, lang) == "" <==> FirstOf(text, ExamPatterns(lang)).None?
    ensures 0 < |ExamField(text, lang)| ==> 2 <= |ExamField(text, lang)| <= 20
    ensures forall i | 0 <= i < |ExamField(text, lang)| :: !IsSpace(ExamField(text, lang)[i])
  {
    var ps := ExamPatterns(lang);
    assert forall k | 0 <= k < |ps| :: ps[k].capture == ExamWord;
    FieldOfSpacelessCapture(text, ps);
    FirstOfShape(text, ps);
  }

  /** "Medical ID" and "Patient ID" end with "ID", which is tried before
      them: the last two id patterns never decide the id. */
  lemma LongIdLabelsNeverDecide(text: string)
    ensures FirstOf(text, IdPatterns) == FirstOf(text, IdPatterns[..4])
  {
    var id := Labelled("ID", IdCode);
    assert IdPatterns[3] == id;
    assert IdPatterns[4] == id.(keyword := "Medical " + id.keyword);
    assert IdPatterns[5] == id.(keyword := "Patient " + id.keyword);
    forall k | 4 <= k < |IdPatterns|
      ensures Find(text, IdPatterns[k]).Some? ==> Find(text, IdPatterns[3]).Some?
    {
      if Find(text, IdPatterns[k]).Some? {
        SuffixLabelShadows(text, id, if k == 4 then "Medical " else "Patient ");
      }
    }
    FirstOfIgnoresShadowed(text, IdPatterns, 4);
  }

  // ---------------------------------------------------------------- records

  function OrUnknown(v: string, lang: Lang): string { if v != "" then v else Unknown(lang) }

  /** `got` is the value `v` that was found, or the sentinel when nothing was. */
  predicate Filled(v: string, got: string, lang: Lang) {
    (v != "" ==> got == v) && (v == "" ==> got == Unknown(lang))
  }

  /** The record of the four fields: none when all four are missing, a
      missing name, birth date or id replaced by the sentinel. */
  function Record(name: string, birth: string, id: string, exam: string, lang: Lang): (r: Option<PatientInfo>)
    ensures r.None? <==> name == "" && birth == "" && id == "" && exam == ""
    ensures r.Some? ==> r.value.name != "" && r.value.birthDate != "" && r.value.medicalId != ""
    ensures r.Some? ==> r.value.examType == exam
    ensures r.Some? ==> Filled(name, r.value.name, lang) && Filled(birth, r.value.birthDate, lang)
                        && Filled(id, r.value.medicalId, lang)
  {
    if name != "" || birth != "" || id != "" || exam != "" then
      Some(PatientInfo(OrUnknown(name, lang), OrUnknown(birth, lang), OrUnknown(id, lang), exam))
    else None
  }

  /** `extractPatientInfo(text, isEnglish)`. */
  function ExtractPatientInfo(text: string, lang: Lang): (r: Option<PatientInfo>)
    ensures r.None? <==>
      NameField(text, lang) == "" && BirthField(text) == "" && IdField(text) == "" && ExamField(text, lang) == ""
    ensures r.Some? ==> r.value.name != "" && r.value.birthDate != "" && r.value.medicalId != ""
    ensures r.Some? ==> r.value.examType == ExamField(text, lang)
    ensures r.Some? ==> Filled(NameField(text, lang), r.value.name, lang)
                        && Filled(BirthField(text), r.value.birthDate, lang)
                        && Filled(IdField(text), r.value.medicalId, lang)
  {
    Record(NameField(text, lang), BirthField(text), IdField(text), ExamField(text, lang), lang)
  }

  /** The legacy `extractPatientInfo`: a record only when name, birth date
      and id were all found; the name is not cleaned. */
  function ExtractPatientInfoLegacy(text: string, lang: Lang): (r: Option<PatientInfo>)
    ensures r.Some? <==> RawName(text, lang) != "" && BirthField(text) != "" && IdField(text) != ""
    ensures r.Some? ==> r.value.name == RawName(text, lang) && r.value.birthDate == BirthField(text)
    ensures r.Some? ==> r.value.medicalId == IdField(text) && r.value.examType == ExamField(text, lang)
  {
    var name := RawName(text, lang);
    var birth := BirthField(text);
    var id := IdField(text);
    if name != "" && birth != "" && id != "" then Some(PatientInfo(name, birth, id, ExamField(text, lang)))
    else None
  }

  /** Whatever the legacy parser accepts, the current parser accepts too,
      with the same birth date, id and exam type, and the legacy name
      cleaned (or the sentinel if cleaning left nothing). */
  lemma LegacyAcceptedIsAccepted(text: string, lang: Lang)
    ensures ExtractPatientInfoLegacy(text, lang).Some? ==> ExtractPatientInfo(text, lang).Some?
    ensures ExtractPatientInfoLegacy(text, lang).Some? ==>
      var old_ := ExtractPatientInfoLegacy(text, lang).value;
      var new_ := ExtractPatientInfo(text, lang).value;
      new_.birthDate == old_.birthDate && new_.medicalId == old_.medicalId && new_.examType == old_.examType
      && new_.name == OrUnknown(CleanupNameField(old_.name), lang)
  {
    if ExtractPatientInfoLegacy(text, lang).Some? {
      NameIsCleanedRawName(text, lang);
    }
  }

  /** The current name is the legacy one, cleaned. */
  lemma NameIsCleanedRawName(text: string, lang: Lang)
    ensures NameField(text, lang) == CleanupNameField(RawName(text, lang))
  {
    match FirstOf(text, NamePatterns(lang))
    case None =>
      assert |CleanupNameField("")| <= 0;
    case Some(c) =>
  }
}
