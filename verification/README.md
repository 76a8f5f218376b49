# patient-id: the OCR text pipeline, modelled in Dafny

patient-id is an Android app for hospital wards. It photographs a patient's
exam form and recognises the text with ML Kit. It extracts the exam items and
the patient fields from that text, then reads a confirmation aloud. This
project models the app's pure text pipeline as immutable data and total
functions, and proves properties of that model:

- **MedDict and ExamTranslator** (`med_dict.dfy`, `exam_translator.dfy`,
  `edit_distance.dfy`). These are the three ordered translation tables and
  the cascade that turns one exam line into `part -> Chinese`. The cascade
  runs the code table, then the phrase tables, then the rule pass that
  builds side, body and views, then the per-token fallback. The fallback
  uses a case-insensitive fuzzy match within edit distance 2. The
  Levenshtein dynamic programme is a method that fills the table as a
  sequence of rows, proved equal to a recursive definition.
- **Section segmenters and the code-merge buffer** (`section.dfy`,
  `merge.dfy`). `collectRoutineSection` anchors on 一般檢查 or Routine. The
  legacy activity uses 列印時間 and 檢查說明 instead. The one-slot buffer
  attaches a bare procedure code to the line after it.
- **Exam-item and field extractors** (`exam_items.dfy`,
  `field_extractors.dfy`, `stable_sort.dfy`). These cover the combined, the
  custom-rule and the code-merged exam lists, in both the `OcrExtractors`
  and the legacy-activity versions. They also cover the first-hit field
  maps over lines and over text blocks. The stable sort of the combined
  list is modelled too.
- **extractNameSmart** (`name_smart.dfy`). Its layout pass runs over
  blocks, lines and elements with optional bounding boxes. It is followed
  by the two look-ahead regular expressions on the whole text.
  `cleanupNameCandidate` and `isLikelyName` are modelled with it.
- **PatientParsing** (`patient_parsing.dfy`, `parsing_examples.dfy`). This
  is the ordered pattern cascade with its language sentinels, plus
  `cleanupNameField`. The legacy parser is modelled alongside.
  `patterns.dfy` hand-codes the `LABEL[:：]?\s*(CAPTURE)` family of regular
  expressions, in the backtracking order of `java.util.regex`.
- **SpeechText** (`speech_text.dfy`). `build` includes a clause only when
  its field is known. `zhBirthForSpeech` is modelled with it, and so is the
  legacy `buildSpeechText`.
- **Report assembly** (`report.dfy`). `handleOCRResult` lays the extractor
  results out as one report. `handleOCRSuccess` parses that report and
  speaks the record.

Some behaviours of the code are proved as lemmas because a reader would not
expect them:

- **The report always parses.** The parser runs on the assembled report,
  not on the recognised text. The report's first header contains the exam
  label. So the exam type is always `ination` in English and
  `部位（整合版）:` in Chinese, and the fallback branch of `handleOCRSuccess`
  is never taken (`Report.ReportAlwaysParses`, `Report.RecognitionIsSpoken`).
- **The custom-rule section repeats the code-merged section**
  (`Report.CustomRepeatsMerged`).
- **Lowercased lookups never hit `MedDict.dict`**, since every key in it is
  capitalised. With the shipped tables, the rule pass can only produce a
  side (`ExamTranslator.ShippedPhraseIsSideOnly`). A token with no letters
  is looked up as the empty key and is read as 右
  (`ExamTranslator.LetterlessTokenReadsAsRight`).
- **Translation is not idempotent.** Translating a code hit's output fires
  the code table again (`ExamTranslator.CodeHitNotIdempotent`).
- **A bare code line never reaches the bare-code branch** of the combined
  extractor (`CodeMerge.CodeOnlyIsLoose`).
- **A four-digit year is misread.** The year group takes at most three
  digits, so 1990/05/20 is spoken as 199年0月5日
  (`SpeechText.FourDigitYearIsMisread`).
- **The Medical ID and Patient ID patterns never decide the id.** The plain
  ID pattern is tried before them
  (`PatientParsing.LongIdLabelsNeverDecide`).

These are behaviours of the code as written, and the model keeps them.

## Model

| member | source | states |
|---|---|---|
| MedDict.DictKeysCapitalised | patientID/app/src/main/java/com/example/patientid/utils/MedDict.kt:6-42 | every key of the word table starts with a capital letter |
| MedDict.LowercaseMissesDict | patientID/app/src/main/java/com/example/patientid/utils/ExamTranslator.kt:35-36 | a lower-cased word is never a key of the word table, so the exact lookup of the fallback always misses |
| EditDistance.DistanceToEmpty | patientID/app/src/main/java/com/example/patientid/utils/ExamTranslator.kt:130-148 | the distance from a word to the empty string is its length |
| EditDistance.DistanceToSelf | patientID/app/src/main/java/com/example/patientid/utils/ExamTranslator.kt:130-148 | a word is at distance zero from itself |
| EditDistance.DiagonalZero | patientID/app/src/main/java/com/example/patientid/utils/ExamTranslator.kt:130-148 | every diagonal cell of the table of a word against itself is zero |
| EditDistance.PrefixLengthGap | patientID/app/src/main/java/com/example/patientid/utils/ExamTranslator.kt:130-148 | each table cell is at least the difference of the two prefix lengths |
| EditDistance.LengthGap | patientID/app/src/main/java/com/example/patientid/utils/ExamTranslator.kt:116-148 | the distance is at least the difference of the lengths, so only keys within two characters of the word's length can match |
| EditDistance.Grow | patientID/app/src/main/java/com/example/patientid/utils/ExamTranslator.kt:135-146 | appending a row of correct distances keeps the table correct |
| EditDistance.Levenshtein | patientID/app/src/main/java/com/example/patientid/utils/ExamTranslator.kt:130-148 | the dynamic programme returns the edit distance (insertions, deletions, substitutions at cost one) defined by recursion |
| EditDistance.FirstRow | patientID/app/src/main/java/com/example/patientid/utils/ExamTranslator.kt:133 | row 0 holds the distances from the empty prefix |
| EditDistance.NextRow | patientID/app/src/main/java/com/example/patientid/utils/ExamTranslator.kt:132-146 | one pass of the inner loop turns row i of the distances into row i + 1 |
| OrderedMap.Lookup | patientID/app/src/main/java/com/example/patientid/utils/ExamTranslator.kt:20 | a lookup succeeds exactly when the key is present, and returns a value stored under that key |
| OrderedMap.Put | patientID/app/src/main/java/com/example/patientid/media/OcrExtractors.kt:35-43 | an assignment adds one entry for a new key and none for a present one; PutLookup and PutKeepsPositions state the rest |
| OrderedMap.PutLookup | patientID/app/src/main/java/com/example/patientid/media/OcrExtractors.kt:35-43 | after `result[k] = v` the key maps to `v` and every other key looks up as before |
| OrderedMap.PutKeepsPositions | patientID/app/src/main/java/com/example/patientid/media/OcrExtractors.kt:35-43 | assigning a key already present keeps the size and every key in its position |
| OrderedMap.PutValues | patientID/app/src/main/java/com/example/patientid/media/OcrExtractors.kt:100-106 | an assignment adds no value other than the one assigned |
| OrderedMap.PlusValues | patientID/app/src/main/java/com/example/patientid/utils/ExamTranslator.kt:38 | every value of the merged table `dict + extraDict` comes from one of the two tables |
| ExamTranslator.FuzzyScan | patientID/app/src/main/java/com/example/patientid/utils/ExamTranslator.kt:120-126 | the loop keeps the first entry at the smallest distance seen so far, and only when that distance is at most 2 |
| ExamTranslator.FuzzyMatch | patientID/app/src/main/java/com/example/patientid/utils/ExamTranslator.kt:116-128 | there is no match exactly when every key is more than 2 away; otherwise the value comes from the first entry at the minimal distance |
| ExamTranslator.SideFound | patientID/app/src/main/java/com/example/patientid/utils/ExamTranslator.kt:68-77 | a side is found exactly when some token is a side word |
| ExamTranslator.SideIsLast | patientID/app/src/main/java/com/example/patientid/utils/ExamTranslator.kt:76-77 | the side is the one named by the last side word |
| ExamTranslator.BodyIsFirst | patientID/app/src/main/java/com/example/patientid/utils/ExamTranslator.kt:87-93 | a body is found exactly when some token is a body word, and it is the first body word |
| ExamTranslator.FirstIndex | patientID/app/src/main/java/com/example/patientid/utils/ExamTranslator.kt:82 | the first position of a class in the token classes |
| ExamTranslator.FirstIndexExtend | patientID/app/src/main/java/com/example/patientid/utils/ExamTranslator.kt:82 | appending a token does not move a first occurrence |
| ExamTranslator.ViewsInFirstOrder | patientID/app/src/main/java/com/example/patientid/utils/ExamTranslator.kt:80-84 | the views are exactly the distinct view terms named, without repeats, in the order of first appearance |
| ExamTranslator.NewViewStep | patientID/app/src/main/java/com/example/patientid/utils/ExamTranslator.kt:82 | appending a view not yet listed keeps the first-appearance order |
| ExamTranslator.SameViewsStep | patientID/app/src/main/java/com/example/patientid/utils/ExamTranslator.kt:74-93 | any other token leaves the view list in first-appearance order |
| ExamTranslator.ShippedClasses | patientID/app/src/main/java/com/example/patientid/utils/ExamTranslator.kt:71-93 | against the shipped table a token is a side word (左 or 右) exactly when its letters spell lt, l, left, rt, r or right, and otherwise is ignored |
| ExamTranslator.SidesOnlyFold | patientID/app/src/main/java/com/example/patientid/utils/ExamTranslator.kt:68-95 | with side words only, the loop finds no body and no view |
| ExamTranslator.ShippedFold | patientID/app/src/main/java/com/example/patientid/utils/ExamTranslator.kt:52-95 | the shipped rule pass finds no body and no view, and a side exactly when some token names one |
| ExamTranslator.ShippedPhraseIsSideOnly | patientID/app/src/main/java/com/example/patientid/utils/ExamTranslator.kt:52-112 | the shipped rule phrase is "", 左 or 右, and non-empty exactly when some token names a side |
| ExamTranslator.AssembleSideOnly | patientID/app/src/main/java/com/example/patientid/utils/ExamTranslator.kt:106-111 | with no body and no views the phrase is the side alone |
| ExamTranslator.TokenTranslation | patientID/app/src/main/java/com/example/patientid/utils/ExamTranslator.kt:35-45 | the exact word table first, then the exact extra table, then the fuzzy match over the merged table, all on the lower-cased letters; nothing exactly when neither table has the key and every merged key is more than 2 away; a value found is one of either table |
| ExamTranslator.FallbackItem | patientID/app/src/main/java/com/example/patientid/utils/ExamTranslator.kt:33-45 | the token stays alone exactly when no translation is found for it; otherwise it is followed by a space and a table value |
| ExamTranslator.CodeLedPart | patientID/app/src/main/java/com/example/patientid/utils/ExamTranslator.kt:16-22 | a part whose first token is a known code is translated by the code table alone, whatever follows and whatever the extra table holds |
| ExamTranslator.CodeHitNotIdempotent | patientID/app/src/main/java/com/example/patientid/utils/ExamTranslator.kt:14-22 | translating the output of a code hit again appends a second arrow and the same meaning |
| ExamTranslator.TranslateExamPart | patientID/app/src/main/java/com/example/patientid/utils/ExamTranslator.kt:14-48 | the staged lookup; its tiers and their order are stated by TranslationTiers, FallbackTier, UpperTiersIgnoreExtra and CodeLedPart |
| ExamTranslator.TranslationTiers | patientID/app/src/main/java/com/example/patientid/utils/ExamTranslator.kt:19-30 | the code table on the first token wins; otherwise the phrase table, then the supplementary table on the whole part, then a non-blank rule phrase, each giving `part -> value` |
| ExamTranslator.FallbackTier | patientID/app/src/main/java/com/example/patientid/utils/ExamTranslator.kt:32-47 | when every earlier tier misses, the result is the tokens' fallback items joined by single spaces |
| ExamTranslator.FallbackItems | patientID/app/src/main/java/com/example/patientid/utils/ExamTranslator.kt:33-45 | one fallback item per token, in token order |
| ExamTranslator.UpperTiersIgnoreExtra | patientID/app/src/main/java/com/example/patientid/utils/ExamTranslator.kt:19-30 | the code, phrase and rule tiers do not read the supplementary table: two tables lacking the part translate it alike there |
| ExamTranslator.LetterlessTokenReadsAsRight | patientID/app/src/main/java/com/example/patientid/utils/ExamTranslator.kt:33-45 | with an empty extra table, a token without letters (a number, a code) is rendered as itself followed by 右 |
| ExamTranslator.LetterlessKey | patientID/app/src/main/java/com/example/patientid/utils/ExamTranslator.kt:35 | a token without letters has the empty key |
| ExamTranslator.EmptyKeyReadsAsRight | patientID/app/src/main/java/com/example/patientid/utils/ExamTranslator.kt:36-43 | the empty key misses both tables and is fuzzily matched to 右 |
| ExamTranslator.DictNearestToEmpty | patientID/app/src/main/java/com/example/patientid/utils/ExamTranslator.kt:116-128 | in the shipped table the entry nearest to the empty word is "R", so the match is 右 |
| ExamTranslator.NearestIsSecond | patientID/app/src/main/java/com/example/patientid/utils/ExamTranslator.kt:120-126 | when the second entry is at distance 1, the first at 2 and none at 0, the match is the second entry's value |
| ExamTranslator.DistanceFromEmpty | patientID/app/src/main/java/com/example/patientid/utils/ExamTranslator.kt:121 | the empty word is at distance equal to the key's length from every key |
| Strings.ContainsIndexOf | patientID/app/src/main/java/com/example/patientid/media/OcrExtractors.kt:11 | `contains` holds exactly when `indexOf` finds the keyword |
| Strings.TrimShape | patientID/app/src/main/java/com/example/patientid/recognition/PatientParsing.kt:43 | `trim()` leaves no whitespace at either end, and yields "" exactly for blank text |
| Strings.TrimIsInfix | patientID/app/src/main/java/com/example/patientid/recognition/PatientParsing.kt:106 | `trim()` only cuts characters off the two ends |
| Strings.TrimIdempotent | patientID/app/src/main/java/com/example/patientid/recognition/PatientParsing.kt:106 | trimming twice is trimming once |
| Strings.Fields | patientID/app/src/main/java/com/example/patientid/utils/ExamTranslator.kt:16 | splitting on a run of separators and dropping blank pieces gives non-empty pieces free of separators |
| Strings.FirstField | patientID/app/src/main/java/com/example/patientid/utils/ExamTranslator.kt:16-17 | a separator-free word followed by nothing or a separator is the first token |
| Strings.NatToStringRoundTrip | patientID/app/src/main/java/com/example/patientid/speechtext/SpeechText.kt:14-17 | printing a number and reading it back gives the number, and the printed form has no leading zero |
| Patterns.ClassRun | patientID/app/src/main/java/com/example/patientid/recognition/PatientParsing.kt:11-37 | the greedy run of a character class: every character in it is in the class, and the next one is not |
| Patterns.SpaceRun | patientID/app/src/main/java/com/example/patientid/recognition/PatientParsing.kt:11-37 | the greedy `\s*` run: all whitespace, and stopped by a non-space or the end |
| Patterns.DateEnd | patientID/app/src/main/java/com/example/patientid/recognition/PatientParsing.kt:16-22 | a date match is four digits, a year separator, then the month and the day, inside the text |
| Patterns.FirstOption | patientID/app/src/main/java/com/example/patientid/recognition/PatientParsing.kt:11-37 | the alternation tried at a position returns the first alternative that occurs there |
| Patterns.CaptureAt | patientID/app/src/main/java/com/example/patientid/recognition/PatientParsing.kt:11-37 | every capture has the shape its group allows (class, length bounds, date form) |
| Patterns.GiveBack | patientID/app/src/main/java/com/example/patientid/recognition/PatientParsing.kt:11-37 | the greedy `\s*` giving back one space at a time yields only captures of the group's shape |
| Patterns.AfterLabel | patientID/app/src/main/java/com/example/patientid/recognition/PatientParsing.kt:11-37 | the optional `[:：]` is tried taken first, then skipped, and the result has the group's shape |
| Patterns.MatchAt | patientID/app/src/main/java/com/example/patientid/recognition/PatientParsing.kt:11-37 | a match at one start yields a capture of the group's shape |
| Patterns.Find | patientID/app/src/main/java/com/example/patientid/recognition/PatientParsing.kt:41 | `find` yields a capture of the group's shape |
| Patterns.FindFromLeftmost | patientID/app/src/main/java/com/example/patientid/recognition/PatientParsing.kt:41 | the scan from a start finds a match exactly when some later start matches, and it is the least such start |
| Patterns.FindLeftmost | patientID/app/src/main/java/com/example/patientid/recognition/PatientParsing.kt:41 | `find` returns the capture of the leftmost matching start, and nothing only when no start matches |
| Patterns.Finds | patientID/app/src/main/java/com/example/patientid/recognition/PatientParsing.kt:40-57 | the outcome of every pattern of a list, in order |
| Patterns.FirstOf | patientID/app/src/main/java/com/example/patientid/recognition/PatientParsing.kt:40-57 | the loop over a pattern list gives nothing exactly when no pattern matches, and otherwise the capture of the first pattern that does |
| Patterns.FirstSome | patientID/app/src/main/java/com/example/patientid/recognition/PatientParsing.kt:40-57 | the first present outcome, with every earlier one absent |
| Patterns.FirstOfLeadingMatch | patientID/app/src/main/java/com/example/patientid/recognition/PatientParsing.kt:40-47 | a match of the first pattern at the very start decides the list |
| Patterns.FirstSomeIgnoresShadowed | patientID/app/src/main/java/com/example/patientid/recognition/PatientParsing.kt:51-54 | outcomes after n that can only be present when outcome n - 1 is never decide the first present one |
| Patterns.FirstSomeShadowFrom | patientID/app/src/main/java/com/example/patientid/recognition/PatientParsing.kt:51-54 | the same, for the scan from any index before n |
| Patterns.FirstOfIgnoresShadowed | patientID/app/src/main/java/com/example/patientid/recognition/PatientParsing.kt:51-54 | patterns after n that can only match where pattern n - 1 already does never decide the list |
| Patterns.FirstOfShape | patientID/app/src/main/java/com/example/patientid/recognition/PatientParsing.kt:40-57 | the result of a list has the shape of one of its groups |
| Patterns.SpacelessShape | patientID/app/src/main/java/com/example/patientid/recognition/PatientParsing.kt:13 | a capture of a `\S` class group is non-empty and has no edge whitespace |
| Patterns.NoMatchAtKeywords | patientID/app/src/main/java/com/example/patientid/recognition/PatientParsing.kt:11-37 | a pattern that fails at every occurrence of its keyword finds nothing |
| Patterns.FirstCharAbsent | patientID/app/src/main/java/com/example/patientid/recognition/PatientParsing.kt:11-37 | a keyword whose first character is absent from the text never occurs |
| Patterns.AbsentKeyword | patientID/app/src/main/java/com/example/patientid/recognition/PatientParsing.kt:11-37 | a pattern whose keyword starts with a character absent from the text finds nothing |
| Patterns.SuffixLabelShadows | patientID/app/src/main/java/com/example/patientid/recognition/PatientParsing.kt:26-31 | a pattern whose keyword ends another pattern's keyword matches wherever the longer one does |
| Patterns.SuffixMatch | patientID/app/src/main/java/com/example/patientid/recognition/PatientParsing.kt:26-31 | a match of the longer keyword at j gives a match of the shorter one at j plus the prefix length |
| Patterns.SuffixOccurs | patientID/app/src/main/java/com/example/patientid/recognition/PatientParsing.kt:26-31 | an occurrence of a + b at j is an occurrence of b at j + \|a\| |
| Patterns.AfterLabelIgnoresKeyword | patientID/app/src/main/java/com/example/patientid/recognition/PatientParsing.kt:11-37 | what follows the keyword does not depend on the keyword |
| Section.CleanLines | patientID/app/src/main/java/com/example/patientid/media/OcrExtractors.kt:10 | the cleaned lines are at most as many as the input lines, each non-empty and trimmed |
| Section.CleanTail | patientID/app/src/main/java/com/example/patientid/media/OcrExtractors.kt:10 | every suffix of clean lines is clean |
| Section.CleanLinesIdempotent | patientID/app/src/main/java/com/example/patientid/media/OcrExtractors.kt:10 | cleaning lines that are already clean changes nothing |
| Section.CollectUntil | patientID/app/src/main/java/com/example/patientid/media/OcrExtractors.kt:20-26 | the loop after the anchor keeps only lines that are not stop lines and pass the keep test |
| Section.SectionOf | patientID/app/src/main/java/com/example/patientid/media/OcrExtractors.kt:11-27 | a section holds only lines that are not stop lines and pass the keep test |
| Section.RoutineSection | patientID/app/src/main/java/com/example/patientid/media/OcrExtractors.kt:9-28 | the section is empty when no line is an anchor or the anchor is the last line; its lines are clean, free of stop markers and free of noise |
| Section.CollectKeepsClean | patientID/app/src/main/java/com/example/patientid/media/OcrExtractors.kt:20-26 | collecting from clean lines gives clean lines |
| Section.CollectIsFilter | patientID/app/src/main/java/com/example/patientid/media/OcrExtractors.kt:21-26 | the loop keeps exactly the kept lines before the first stop line |
| Section.CollectWindow | patientID/app/src/main/java/com/example/patientid/media/OcrExtractors.kt:21-26 | the same, for the lines from any index on |
| Section.SectionWindow | patientID/app/src/main/java/com/example/patientid/media/OcrExtractors.kt:11-27 | the section is exactly the kept lines strictly between the first anchor and the first stop line after it |
| Section.SectionIsCollect | patientID/app/src/main/java/com/example/patientid/media/OcrExtractors.kt:11-27 | the section is the loop run on the lines after the first anchor |
| Section.RoutineSectionWindow | patientID/app/src/main/java/com/example/patientid/media/OcrExtractors.kt:9-28 | the routine section is exactly the noise-free lines strictly between the first 一般檢查/Routine line and the next stop-marker line, or the end of the text |
| Section.RoutineSectionOfCleanLines | patientID/app/src/main/java/com/example/patientid/media/OcrExtractors.kt:129-132 | the section of already cleaned lines is the section of the raw lines: the extractors' cleaning before the call changes nothing |
| Section.ScanBy | patientID/app/src/main/main/java/com/example/patientid/MainActivity.kt:575-608 | the legacy scan keeps only lines that pass its keep test |
| Section.LegacyScan | patientID/app/src/main/main/java/com/example/patientid/MainActivity.kt:575-608 | the legacy scan keeps no print-time line and no line with a case-sensitive noise marker |
| Section.CollectingScan | patientID/app/src/main/main/java/com/example/patientid/MainActivity.kt:575-608 | once collecting, the scan keeps exactly the kept lines before the first stop line |
| Section.IdleScan | patientID/app/src/main/main/java/com/example/patientid/MainActivity.kt:575-608 | before collecting, the scan starts after the first print-time line if it comes before the first stop line, and is empty otherwise |
| Section.ScanWindow | patientID/app/src/main/main/java/com/example/patientid/MainActivity.kt:575-608 | the scan is exactly the kept lines strictly between the first start line and the first stop line, or empty when the stop comes first |
| Section.ExclusiveTail | patientID/app/src/main/main/java/com/example/patientid/MainActivity.kt:575-586 | disjoint start and stop tests stay disjoint on every suffix |
| Section.LegacyScanWindow | patientID/app/src/main/main/java/com/example/patientid/MainActivity.kt:575-608 | the legacy unified and custom extractors read exactly the kept lines strictly between the first 列印時間 line and the first 檢查說明 line, and nothing when the notes come first or there is no print-time line |
| Section.LegacyItemsWindow | patientID/app/src/main/main/java/com/example/patientid/MainActivity.kt:769-796 | the legacy exam-item extractor reads the kept lines from the first 列印時間 line to the end of the text |
| Section.LegacyExclusive | patientID/app/src/main/main/java/com/example/patientid/MainActivity.kt:576-585 | the print-time test is made first, so a line is never both a start and a stop line |
| CodeMerge.CodeRun | patientID/app/src/main/java/com/example/patientid/media/OcrExtractors.kt:51 | the run of `[A-Za-z0-9-]` characters after the digits |
| CodeMerge.CodeEnd | patientID/app/src/main/java/com/example/patientid/media/OcrExtractors.kt:51 | a code has at least three digits after its optional * |
| CodeMerge.CodeOnlyIsLoose | patientID/app/src/main/java/com/example/patientid/media/OcrExtractors.kt:51-59 | a bare code also matches the loose description pattern, so the unified extractor never takes its bare-code branch |
| CodeMerge.DescIsLooseNotBare | patientID/app/src/main/java/com/example/patientid/media/OcrExtractors.kt:51-52 | a strict description line is a loose one and is not a bare code |
| CodeMerge.RaHasNoCode | patientID/app/src/main/java/com/example/patientid/media/OcrExtractors.kt:53-56 | an RA line never starts with a code |
| CodeMerge.FeedAppends | patientID/app/src/main/java/com/example/patientid/media/OcrExtractors.kt:55-63 | the loop only appends to the parts it has emitted |
| CodeMerge.StepAppends | patientID/app/src/main/java/com/example/patientid/media/OcrExtractors.kt:57-62 | one iteration only appends to the parts |
| CodeMerge.CombinedFeed | patientID/app/src/main/java/com/example/patientid/media/OcrExtractors.kt:55-64 | the unified loop appends exactly the non-RA lines and leaves nothing buffered |
| CodeMerge.CombinedKeepsLines | patientID/app/src/main/java/com/example/patientid/media/OcrExtractors.kt:49-64 | the unified merge emits every non-RA line of the section, unchanged and in order |
| CodeMerge.PairsConcat | patientID/app/src/main/java/com/example/patientid/media/OcrExtractors.kt:140-148 | part-to-code correspondences concatenate |
| CodeMerge.CodeLines | patientID/app/src/main/java/com/example/patientid/media/OcrExtractors.kt:140-147 | the code lines of the section are at most as many as its lines |
| CodeMerge.StepPairs | patientID/app/src/main/java/com/example/patientid/media/OcrExtractors.kt:142-146 | each strict iteration emits one part per code line it settles, and buffers only a bare code |
| CodeMerge.StepCodesSplit | patientID/app/src/main/java/com/example/patientid/media/OcrExtractors.kt:140-147 | the code lines split into those one iteration settles and the rest |
| CodeMerge.StrictFeed | patientID/app/src/main/java/com/example/patientid/media/OcrExtractors.kt:140-148 | from any buffered bare code, the strict loop and flush emit one part per code line, in order |
| CodeMerge.StrictPairsCodeLines | patientID/app/src/main/java/com/example/patientid/media/OcrExtractors.kt:134-148 | the custom and exam-item loops emit exactly one part per code line, in order: the line itself, or a bare code joined by one space to the next line; other lines are dropped |
| CodeMerge.StrictPartsAreCodeLed | patientID/app/src/main/java/com/example/patientid/media/OcrExtractors.kt:157-177 | every part the strict loop emits starts with a code |
| CodeMerge.ExtendsKeepsHead | patientID/app/src/main/java/com/example/patientid/media/OcrExtractors.kt:145 | joining a description to a code keeps the code at the head |
| CodeMerge.LegacyScanStep | patientID/app/src/main/main/java/com/example/patientid/MainActivity.kt:575-608 | one step of the legacy scan over the line at i |
| CodeMerge.FeedCons | patientID/app/src/main/java/com/example/patientid/media/OcrExtractors.kt:140-147 | the strict loop over a line and the rest is one iteration, then the rest |
| CodeMerge.LegacyMergeLine | patientID/app/src/main/main/java/com/example/patientid/MainActivity.kt:589-606 | the legacy `when` over one collected line is one strict iteration |
| CodeMerge.LegacyExamParts | patientID/app/src/main/main/java/com/example/patientid/MainActivity.kt:566-609 | the legacy loop, which interleaves scanning and merging, equals the strict merge of the legacy scan |
| CodeMerge.Step | patientID/app/src/main/java/com/example/patientid/media/OcrExtractors.kt:141-146 | one iteration of the merge loop; StepPairs and StepAppends state that it only appends and settles one part per code line |
| CodeMerge.Feed | patientID/app/src/main/java/com/example/patientid/media/OcrExtractors.kt:140-147 | the merge loop; FeedAppends and StrictFeed state that it only appends, one part per code line |
| CodeMerge.MergeCodeLines | patientID/app/src/main/java/com/example/patientid/media/OcrExtractors.kt:136-148 | the loop and the final flush; StrictPairsCodeLines and CombinedKeepsLines state what each rule emits |
| StableSort.Insert | patientID/app/src/main/java/com/example/patientid/media/OcrExtractors.kt:75-78 | inserting keeps every element and adds one |
| StableSort.SortBy | patientID/app/src/main/java/com/example/patientid/media/OcrExtractors.kt:75-78 | the sort returns a rearrangement of its input |
| StableSort.InsertKeys | patientID/app/src/main/java/com/example/patientid/media/OcrExtractors.kt:75-78 | an insertion invents no key below a bound that all inputs meet |
| StableSort.InsertSorted | patientID/app/src/main/java/com/example/patientid/media/OcrExtractors.kt:75-78 | inserting into a sorted list keeps it sorted |
| StableSort.SortBySorted | patientID/app/src/main/java/com/example/patientid/media/OcrExtractors.kt:75-78 | `sortedWith` returns its input ordered by the key, as a permutation |
| StableSort.WithKey | patientID/app/src/main/java/com/example/patientid/media/OcrExtractors.kt:75-78 | the filter for one key keeps at most the input's elements, and only elements with that key |
| StableSort.InsertWithKey | patientID/app/src/main/java/com/example/patientid/media/OcrExtractors.kt:75-78 | an insertion puts the new element before every element of equal key |
| StableSort.SortByStable | patientID/app/src/main/java/com/example/patientid/media/OcrExtractors.kt:75-78 | `sortedWith` is stable: elements with equal keys keep their input order |
| ExamItems.PiecesSpaceFree | patientID/app/src/main/java/com/example/patientid/media/OcrExtractors.kt:72 | the pieces of `split(" ")` hold no space |
| ExamItems.WordsShape | patientID/app/src/main/java/com/example/patientid/media/OcrExtractors.kt:72 | every word is space-free and not blank |
| ExamItems.PiecesOfJoin | patientID/app/src/main/java/com/example/patientid/media/OcrExtractors.kt:73 | splitting a space-joined list of space-free words gives the words back |
| ExamItems.NormalizeJoinsWords | patientID/app/src/main/java/com/example/patientid/media/OcrExtractors.kt:71-74 | with three or more words a part becomes its words joined by single spaces |
| ExamItems.NormalizeIdempotent | patientID/app/src/main/java/com/example/patientid/media/OcrExtractors.kt:71-74 | normalising twice is normalising once |
| ExamItems.Rank | patientID/app/src/main/java/com/example/patientid/media/OcrExtractors.kt:76 | the rank takes only the values 0 and 1, so the items fall into two groups, ordered before the number |
| ExamItems.DigitRun | patientID/app/src/main/java/com/example/patientid/media/OcrExtractors.kt:77 | the greedy run of digits |
| ExamItems.FirstNumber | patientID/app/src/main/java/com/example/patientid/media/OcrExtractors.kt:77 | `\d+` finds nothing exactly when the part has no digit; otherwise it finds the maximal run of digits starting at the first digit |
| ExamItems.NumberKey | patientID/app/src/main/java/com/example/patientid/media/OcrExtractors.kt:77 | the number key is the first number when it fits in 32 bits, and Int.MAX_VALUE when there is none or it does not fit; it is always in 0..Int.MAX_VALUE |
| ExamItems.ExamKeyIsLexicographic | patientID/app/src/main/java/com/example/patientid/media/OcrExtractors.kt:75-78 | the folded key orders exactly as `compareBy(rank, number)`: rank first, then number |
| ExamItems.LineRun | patientID/app/src/main/java/com/example/patientid/media/OcrExtractors.kt:86 | the run of characters `.` matches |
| ExamItems.HanTail | patientID/app/src/main/java/com/example/patientid/media/OcrExtractors.kt:86 | `([一-鿿].+)` finds, from the leftmost ideograph followed by a character on its line, at least two characters ending at the line break, and nothing only when no such start exists |
| ExamItems.OnlyChineseOfArrow | patientID/app/src/main/java/com/example/patientid/media/OcrExtractors.kt:82-88 | a translation `part -> meaning` of a part without an arrow of its own shows just the meaning, trimmed |
| ExamItems.CodeLedShowsMeaning | patientID/app/src/main/java/com/example/patientid/media/OcrExtractors.kt:79-88 | a part led by a known code shows as the code table's meaning, trimmed |
| ExamItems.MapNormalize | patientID/app/src/main/java/com/example/patientid/media/OcrExtractors.kt:71-74 | every part normalised, in order |
| ExamItems.Shown | patientID/app/src/main/java/com/example/patientid/media/OcrExtractors.kt:79-88 | item i is the translation of the i-th ordered part, reduced to its Chinese part when `onlyChinese` is set; one item per part |
| ExamItems.OrderedIsStableSort | patientID/app/src/main/java/com/example/patientid/media/OcrExtractors.kt:70-78 | the items are sorted by rank and number, are the normalised parts rearranged, and tied parts keep their order |
| ExamItems.PutNewKey | patientID/app/src/main/java/com/example/patientid/media/OcrExtractors.kt:89 | assigning a new key appends it at the end |
| ExamItems.NoItemsKey | patientID/app/src/main/java/com/example/patientid/media/OcrExtractors.kt:35-44 | a map of field keys has no 檢查項目 key |
| ExamItems.PutItems | patientID/app/src/main/java/com/example/patientid/media/OcrExtractors.kt:89 | adding the item list leaves every field as it was |
| ExamItems.UnifiedPartsOfSection | patientID/app/src/main/java/com/example/patientid/media/OcrExtractors.kt:47-68 | the unified extractor keeps every routine-section line except RA lines and short or 右-only ones, and joins no code with its description |
| ExamItems.UnifiedContents | patientID/app/src/main/java/com/example/patientid/media/OcrExtractors.kt:30-92 | the unified extractor leaves each field as the field scan found it, and adds the item list, joined by line feeds, exactly when some part was kept |
| ExamItems.CustomIsJoinedItems | patientID/app/src/main/java/com/example/patientid/media/OcrExtractors.kt:127-178 | the custom map holds `extractExamItems` joined by line feeds under 檢查部位 when there are items, and nothing otherwise; each item is a code line of the routine section or a bare code joined to the next line |
| ExamItems.LegacyUnifiedContents | patientID/app/src/main/main/java/com/example/patientid/MainActivity.kt:537-638 | the legacy unified extractor leaves each field as the field scan found it, and lists, fully translated, exactly the parts the legacy custom extractor joins |
| ExamItems.LegacyItemsWindows | patientID/app/src/main/main/java/com/example/patientid/MainActivity.kt:700-800 | the legacy exam items are the strict merge of the kept lines after the first 列印時間 line; the legacy custom map holds the merge of the kept lines between that line and the first 檢查說明 line |
| ExamItems.ExtractExamItemsUnified | patientID/app/src/main/java/com/example/patientid/media/OcrExtractors.kt:30-92 | the combined extractor; its fields and its 檢查項目 entry are stated by UnifiedContents and UnifiedPartsOfSection |
| ExamItems.ExtractByCustom | patientID/app/src/main/java/com/example/patientid/media/OcrExtractors.kt:127-154 | the custom-rule extractor; CustomIsJoinedItems states that 檢查部位 is the code-merged list joined by line feeds, present exactly when that list is non-empty |
| ExamItems.ExtractExamItems | patientID/app/src/main/java/com/example/patientid/media/OcrExtractors.kt:157-178 | the strict code merge of the routine section; StrictPairsCodeLines states one part per code line, and RoutineSectionWindow which lines are read |
| ExamItems.LegacyExtractExamItemsUnified | patientID/app/src/main/main/java/com/example/patientid/MainActivity.kt:537-638 | the legacy combined extractor; LegacyUnifiedContents states its fields and its translated item list |
| ExamItems.LegacyExtractByCustom | patientID/app/src/main/main/java/com/example/patientid/MainActivity.kt:700-755 | the legacy custom-rule extractor over the 列印時間 to 檢查說明 window, stated by LegacyItemsWindows |
| ExamItems.LegacyExtractExamItems | patientID/app/src/main/main/java/com/example/patientid/MainActivity.kt:757-800 | the legacy item list, read from 列印時間 to the end, stated by LegacyItemsWindows |
| FieldExtractors.LookupAppend | patientID/app/src/main/java/com/example/patientid/media/OcrExtractors.kt:99-106 | a lookup after appending an entry finds the old value, the new one, or nothing |
| FieldExtractors.RecordLookup | patientID/app/src/main/java/com/example/patientid/media/OcrExtractors.kt:99-100 | a guarded assignment changes only its own field, and only when that field is still missing |
| FieldExtractors.ScanTextLookup | patientID/app/src/main/java/com/example/patientid/media/OcrExtractors.kt:98-107 | one iteration over a line fills a field only when it is missing, with what the line offers |
| FieldExtractors.ScanAllLookup | patientID/app/src/main/java/com/example/patientid/media/OcrExtractors.kt:98-107 | after the loop a field keeps its earlier value, or takes what the first text offering it offers |
| FieldExtractors.ExtractFieldsFirstHit | patientID/app/src/main/java/com/example/patientid/media/OcrExtractors.kt:95-125 | each field of the result is what the first text offering it offers: first hit wins |
| FieldExtractors.FormFieldsFirstHit | patientID/app/src/main/java/com/example/patientid/media/OcrExtractors.kt:95-125 | the line extractor reads the right-trimmed lines and the block extractor the trimmed blocks, first hit winning in each |
| FieldExtractors.ScanAllKeys | patientID/app/src/main/java/com/example/patientid/media/OcrExtractors.kt:98-107 | the loop adds only the four keys, each at most once |
| FieldExtractors.RecordKeys | patientID/app/src/main/java/com/example/patientid/media/OcrExtractors.kt:99-106 | a guarded assignment keeps the keys among the four and distinct |
| FieldExtractors.ExtractFieldsKeys | patientID/app/src/main/java/com/example/patientid/media/OcrExtractors.kt:95-125 | the result holds only the four keys, each at most once |
| FieldExtractors.FindNeedsKeyword | patientID/app/src/main/java/com/example/patientid/media/OcrExtractors.kt:115-120 | a pattern finds something only where its label occurs |
| FieldExtractors.BlockGuardRedundant | patientID/app/src/main/java/com/example/patientid/media/OcrExtractors.kt:115-120 | the block scan's `contains` guard changes nothing for the three pattern fields |
| FieldExtractors.GenderIsOneChar | patientID/app/src/main/java/com/example/patientid/media/OcrExtractors.kt:104 | 男 is tried before 男性 and 女 before 女性, so the gender is always one character |
| FieldExtractors.IdAndNameShape | patientID/app/src/main/java/com/example/patientid/media/OcrExtractors.kt:100-102 | a medical id is a non-empty run of ASCII letters and digits; a name is two to ten ideographs or ASCII letters |
| FieldExtractors.BirthHasNoSpace | patientID/app/src/main/java/com/example/patientid/media/OcrExtractors.kt:105-106 | the birth value keeps no space |
| FieldExtractors.RemoveAllKeeps | patientID/app/src/main/java/com/example/patientid/media/OcrExtractors.kt:43 | removing `<<健保>>` never brings in a character |
| FieldExtractors.Hit | patientID/app/src/main/java/com/example/patientid/media/OcrExtractors.kt:95-125 | what one text offers a field; FindNeedsKeyword, BlockGuardRedundant, GenderIsOneChar, IdAndNameShape and BirthHasNoSpace state its shape |
| FieldExtractors.MedicalFormFields | patientID/app/src/main/java/com/example/patientid/media/OcrExtractors.kt:95-109 | the line extractor; FormFieldsFirstHit states that each field is the first right-trimmed line's hit |
| FieldExtractors.MedicalFormFieldsByBlock | patientID/app/src/main/java/com/example/patientid/media/OcrExtractors.kt:111-125 | the block extractor; FormFieldsFirstHit states that each field is the first trimmed block's hit |
| PatientParsing.NameSymbolsArePunctuation | patientID/app/src/main/java/com/example/patientid/recognition/PatientParsing.kt:74-107 | letters, digits, whitespace and Han characters are never among the removed symbols |
| PatientParsing.RemoveOne | patientID/app/src/main/java/com/example/patientid/recognition/PatientParsing.kt:76-105 | removing a one-character string is filtering that character out |
| PatientParsing.KeepCharsTwice | patientID/app/src/main/java/com/example/patientid/recognition/PatientParsing.kt:76-105 | two filters in a row are one filter on both tests |
| PatientParsing.RemoveEachIsFilter | patientID/app/src/main/java/com/example/patientid/recognition/PatientParsing.kt:75-105 | the chain of thirty removals is one filter: the input without any removed symbol, everything else kept in order |
| PatientParsing.CleanupNameField | patientID/app/src/main/java/com/example/patientid/recognition/PatientParsing.kt:74-107 | a cleaned name holds none of the thirty symbols, has no edge whitespace and is never longer than the input |
| PatientParsing.RemovedAndTrimmed | patientID/app/src/main/java/com/example/patientid/recognition/PatientParsing.kt:75-106 | removing characters and trimming leaves none of them and no edge space, and never lengthens the text |
| PatientParsing.CleanupIdempotent | patientID/app/src/main/java/com/example/patientid/recognition/PatientParsing.kt:74-107 | cleaning a cleaned name changes nothing |
| PatientParsing.CleanupKeepsPlainName | patientID/app/src/main/java/com/example/patientid/recognition/PatientParsing.kt:74-107 | a name free of the symbols and of edge spaces is left as it is |
| PatientParsing.FieldOfSpacelessCapture | patientID/app/src/main/java/com/example/patientid/recognition/PatientParsing.kt:51-57 | for groups of `\S` characters the trimmed field is empty exactly when no pattern matched, and is otherwise the capture itself |
| PatientParsing.NameField | patientID/app/src/main/java/com/example/patientid/recognition/PatientParsing.kt:39-48 | the name field holds no removed symbol and no edge whitespace, and is "" when no name pattern matches |
| PatientParsing.BirthPatternsCaptureDates | patientID/app/src/main/java/com/example/patientid/recognition/PatientParsing.kt:15-23 | every birth pattern captures a date with separators among 年, / and - whose day is followed by nothing or by 日 |
| PatientParsing.DateFieldShape | patientID/app/src/main/java/com/example/patientid/recognition/PatientParsing.kt:50-51 | with date-like patterns the field is empty exactly when none matches, and a found field is shaped like a date |
| PatientParsing.BirthFieldShape | patientID/app/src/main/java/com/example/patientid/recognition/PatientParsing.kt:15-23 | a found birth date is four digits, a separator, at least three more characters and a digit or 日 at the end; the field is empty exactly when no pattern matches |
| PatientParsing.IdFieldShape | patientID/app/src/main/java/com/example/patientid/recognition/PatientParsing.kt:25-32 | a found id is four to fifteen ASCII letters and digits; the field is empty exactly when no pattern matches |
| PatientParsing.ExamFieldShape | patientID/app/src/main/java/com/example/patientid/recognition/PatientParsing.kt:34-37 | a found exam type is two to twenty characters without whitespace; the field is empty exactly when no pattern matches |
| PatientParsing.LongIdLabelsNeverDecide | patientID/app/src/main/java/com/example/patientid/recognition/PatientParsing.kt:25-32 | "Medical ID" and "Patient ID" end with "ID", which is tried first, so the last two id patterns never decide the id |
| PatientParsing.Record | patientID/app/src/main/java/com/example/patientid/recognition/PatientParsing.kt:59-67 | there is no record exactly when all four fields are missing; otherwise a missing name, birth date or id is the language's sentinel, a found one is kept, and the exam type is kept as found, empty or not |
| PatientParsing.ExtractPatientInfo | patientID/app/src/main/java/com/example/patientid/recognition/PatientParsing.kt:7-68 | the parser returns null exactly when no name, birth, id or exam pattern matches; otherwise each found field is kept, each missing one of the first three is the sentinel, and the exam type is the exam field |
| PatientParsing.ExtractPatientInfoLegacy | patientID/app/src/main/main/java/com/example/patientid/MainActivity.kt:838-937 | the legacy parser gives a record exactly when name, birth date and id were all found, with the name uncleaned |
| PatientParsing.LegacyAcceptedIsAccepted | patientID/app/src/main/main/java/com/example/patientid/MainActivity.kt:838-937 | whatever the legacy parser accepts the current one accepts, with the same birth date, id and exam type and the name cleaned or the sentinel |
| PatientParsing.NameIsCleanedRawName | patientID/app/src/main/java/com/example/patientid/recognition/PatientParsing.kt:43-45 | the current name is the legacy trimmed capture, cleaned |
| ParsingExamples.EnglishNameSpansLines | patientID/app/src/main/java/com/example/patientid/recognition/PatientParsing.kt:11 | `[A-Za-z\s]` includes the line feed: on "Name: Bob\nAge" the English name is "Bob\nAge" |
| ParsingExamples.NameSpansLinesMatch | patientID/app/src/main/java/com/example/patientid/recognition/PatientParsing.kt:11 | the first English name pattern matches "Name: Bob\nAge" at its start, capturing "Bob\nAge" |
| ParsingExamples.NoNameSymbols | patientID/app/src/main/java/com/example/patientid/recognition/PatientParsing.kt:74-107 | letters and whitespace are not among the removed symbols |
| ParsingExamples.SpacedColonLosesName | patientID/app/src/main/java/com/example/patientid/recognition/PatientParsing.kt:13 | a space before the colon loses the Chinese name: "姓名 : 王小明" yields "" |
| ParsingExamples.SpacedColonOthers | patientID/app/src/main/java/com/example/patientid/recognition/PatientParsing.kt:13 | neither 病患 nor 患者 occurs in that text, so those patterns find nothing |
| ParsingExamples.SpacedColonFirst | patientID/app/src/main/java/com/example/patientid/recognition/PatientParsing.kt:13 | the 姓名 pattern finds nothing in that text |
| ParsingExamples.SpacedColonMatch | patientID/app/src/main/java/com/example/patientid/recognition/PatientParsing.kt:13 | the 姓名 pattern fails at the keyword's position: the optional colon cannot skip the space, `\s*` stops at the colon, and a lone colon is shorter than two characters |
| NameSmart.Collapse | patientID/app/src/main/java/com/example/patientid/media/OcrExtractors.kt:272 | collapsing whitespace runs gives single plain spaces, keeps whether the text starts with a space, keeps name characters and never lengthens the text |
| NameSmart.CollapseOfSingleSpaced | patientID/app/src/main/java/com/example/patientid/media/OcrExtractors.kt:272 | a text already single-spaced with plain spaces is left alone |
| NameSmart.Cleanup | patientID/app/src/main/java/com/example/patientid/media/OcrExtractors.kt:269-275 | a blank candidate is returned unchanged; any other comes back clean: name characters only, single spaces, no edge space |
| NameSmart.TrimCollapseIsClean | patientID/app/src/main/java/com/example/patientid/media/OcrExtractors.kt:271-273 | collapsing and trimming a text of name characters gives a clean text |
| NameSmart.TrimIsClean | patientID/app/src/main/java/com/example/patientid/media/OcrExtractors.kt:273 | trimming a single-spaced text of name characters gives a clean text |
| NameSmart.TrimStartKeeps | patientID/app/src/main/java/com/example/patientid/media/OcrExtractors.kt:273 | trimming the start keeps name characters and single spacing |
| NameSmart.TrimEndKeeps | patientID/app/src/main/java/com/example/patientid/media/OcrExtractors.kt:273 | trimming the end keeps name characters and single spacing |
| NameSmart.InfixKeeps | patientID/app/src/main/java/com/example/patientid/media/OcrExtractors.kt:273 | name characters and single spacing survive taking an infix |
| NameSmart.CleanIsFixpoint | patientID/app/src/main/java/com/example/patientid/media/OcrExtractors.kt:269-275 | a clean text is a fixed point of the cleanup |
| NameSmart.CleanupIdempotent | patientID/app/src/main/java/com/example/patientid/media/OcrExtractors.kt:269-275 | cleaning twice is cleaning once |
| NameSmart.Accept | patientID/app/src/main/java/com/example/patientid/media/OcrExtractors.kt:228-229 | a candidate is returned exactly when its cleaned form is a likely name, and then the cleaned form is returned |
| NameSmart.HanNameIsClean | patientID/app/src/main/java/com/example/patientid/media/OcrExtractors.kt:269-284 | every likely name of the Chinese form survives the cleanup unchanged |
| NameSmart.RoleOf | patientID/app/src/main/java/com/example/patientid/media/OcrExtractors.kt:212-227 | punctuation and elements not right of the label are passed over, a stop word right of the label ends the scan, and any other element appends its trimmed text |
| NameSmart.Roles | patientID/app/src/main/java/com/example/patientid/media/OcrExtractors.kt:212-227 | the role of every element, in order |
| NameSmart.RunIsAppendsBeforeStop | patientID/app/src/main/java/com/example/patientid/media/OcrExtractors.kt:211-227 | the loop concatenates the appended texts that come before the first stop |
| NameSmart.CollectCons | patientID/app/src/main/java/com/example/patientid/media/OcrExtractors.kt:225 | an appended element contributes its text in front of the rest |
| NameSmart.UnboxedLabelIsCollected | patientID/app/src/main/java/com/example/patientid/media/OcrExtractors.kt:209-225 | a label element without a box has right edge Int.MIN_VALUE, so its own text is collected in front of the name |
| NameSmart.LabelIsNoPunct | patientID/app/src/main/java/com/example/patientid/media/OcrExtractors.kt:204-218 | a label element's text is never punctuation |
| NameSmart.PunctIsNoLabel | patientID/app/src/main/java/com/example/patientid/media/OcrExtractors.kt:204-218 | punctuation is never a label |
| NameSmart.OneCharIsNoLabel | patientID/app/src/main/java/com/example/patientid/media/OcrExtractors.kt:188-193 | a single character other than 名 and capital letters is no label token |
| NameSmart.BeforeField | patientID/app/src/main/java/com/example/patientid/media/OcrExtractors.kt:245 | the text before the first field keyword: a prefix with no keyword inside, ended by a keyword or by the end |
| NameSmart.LineName | patientID/app/src/main/java/com/example/patientid/media/OcrExtractors.kt:196-248 | the name steps 1 to 3 take from a line is a clean likely name |
| NameSmart.ScanLines | patientID/app/src/main/java/com/example/patientid/media/OcrExtractors.kt:197-248 | the first line of a block to give a name gives a clean likely name |
| NameSmart.ScanBlocks | patientID/app/src/main/java/com/example/patientid/media/OcrExtractors.kt:196-249 | the layout pass over all blocks gives only clean likely names |
| NameSmart.GroupRun | patientID/app/src/main/java/com/example/patientid/media/OcrExtractors.kt:243 | the greedy run of the capture class |
| NameSmart.Ascend | patientID/app/src/main/java/com/example/patientid/media/OcrExtractors.kt:253 | a reluctant group, trying lengths upward, gives only captures of allowed length and class |
| NameSmart.Descend | patientID/app/src/main/java/com/example/patientid/media/OcrExtractors.kt:259 | a greedy group, trying lengths downward, gives only captures of allowed length and class |
| NameSmart.GroupAt | patientID/app/src/main/java/com/example/patientid/media/OcrExtractors.kt:243-259 | the capture at a position has allowed length and class |
| NameSmart.SecondGap | patientID/app/src/main/java/com/example/patientid/media/OcrExtractors.kt:243-259 | the second `\s*`, giving back spaces, gives only fitting captures |
| NameSmart.AfterColon | patientID/app/src/main/java/com/example/patientid/media/OcrExtractors.kt:243-259 | what follows the colon gives only fitting captures |
| NameSmart.ColonAt | patientID/app/src/main/java/com/example/patientid/media/OcrExtractors.kt:243-259 | the colon, taken and then (when optional) skipped, gives only fitting captures |
| NameSmart.FirstGap | patientID/app/src/main/java/com/example/patientid/media/OcrExtractors.kt:243-259 | the first `\s*`, giving back spaces, gives only fitting captures |
| NameSmart.LabelFrom | patientID/app/src/main/java/com/example/patientid/media/OcrExtractors.kt:243-259 | the label alternatives, tried in order, give only fitting captures |
| NameSmart.LabelMatchAt | patientID/app/src/main/java/com/example/patientid/media/OcrExtractors.kt:243-259 | a match at one start gives a fitting capture |
| NameSmart.LabelFindFrom | patientID/app/src/main/java/com/example/patientid/media/OcrExtractors.kt:243-259 | the scan from a start gives a fitting capture |
| NameSmart.LabelFind | patientID/app/src/main/java/com/example/patientid/media/OcrExtractors.kt:243-259 | `find` gives a fitting capture |
| NameSmart.LabelFindFromLeftmost | patientID/app/src/main/java/com/example/patientid/media/OcrExtractors.kt:243-259 | the scan from a start finds a match exactly when some later start matches, and takes the least one |
| NameSmart.LabelFindLeftmost | patientID/app/src/main/java/com/example/patientid/media/OcrExtractors.kt:243-259 | `find` returns the capture of the leftmost match, and nothing only when no start matches |
| NameSmart.Fallback | patientID/app/src/main/java/com/example/patientid/media/OcrExtractors.kt:251-263 | steps 4 and 5 give only clean likely names |
| NameSmart.ExtractNameSmart | patientID/app/src/main/java/com/example/patientid/media/OcrExtractors.kt:187-265 | a name returned is a likely name that is already clean |
| NameSmart.ExtractedNameIsFixpoint | patientID/app/src/main/java/com/example/patientid/media/OcrExtractors.kt:187-275 | a returned name is a fixed point of `cleanupNameCandidate` |
| NameSmart.IsLikelyName | patientID/app/src/main/java/com/example/patientid/media/OcrExtractors.kt:278-284 | not blank, no digit, and 2-8 name ideographs or an ASCII letter and 1-29 name letters; Accept returns a candidate exactly when this holds of its cleaned form |
| NameSmart.LayoutCandidate | patientID/app/src/main/java/com/example/patientid/media/OcrExtractors.kt:203-228 | the step-1 candidate is blank or clean |
| NameSmart.LayoutCandidateNeedsLabel | patientID/app/src/main/java/com/example/patientid/media/OcrExtractors.kt:204-208 | step 1 finds a candidate exactly when some element of the line is a name label |
| NameSmart.LayoutCandidateAt | patientID/app/src/main/java/com/example/patientid/media/OcrExtractors.kt:203-228 | the candidate is read from the first label element on, against its right edge, then cleaned |
| SpeechText.DigitRun | patientID/app/src/main/java/com/example/patientid/speechtext/SpeechText.kt:11 | the greedy run of digits stays inside the text |
| SpeechText.DigitRunDigits | patientID/app/src/main/java/com/example/patientid/speechtext/SpeechText.kt:11 | the run is made of digits and stops before a non-digit |
| SpeechText.DayAt | patientID/app/src/main/java/com/example/patientid/speechtext/SpeechText.kt:11 | the day group is one or two digits at its position, after the year and month it is given |
| SpeechText.AfterMonth | patientID/app/src/main/java/com/example/patientid/speechtext/SpeechText.kt:11 | after a month, the optional separator is taken when present, and the day group follows |
| SpeechText.TryMonth | patientID/app/src/main/java/com/example/patientid/speechtext/SpeechText.kt:11 | the month group, tried from two digits down to one, is followed by the day group |
| SpeechText.AfterYear | patientID/app/src/main/java/com/example/patientid/speechtext/SpeechText.kt:11 | after a year of a given width, the groups found are in order and of allowed widths |
| SpeechText.TryYear | patientID/app/src/main/java/com/example/patientid/speechtext/SpeechText.kt:11 | the year group, tried from three digits down to one, starts the groups found |
| SpeechText.DateAt | patientID/app/src/main/java/com/example/patientid/speechtext/SpeechText.kt:11 | a match at one start has year, month and day groups in order and of allowed widths |
| SpeechText.DateFrom | patientID/app/src/main/java/com/example/patientid/speechtext/SpeechText.kt:11-12 | the scan from a start gives groups of allowed widths |
| SpeechText.FindDate | patientID/app/src/main/java/com/example/patientid/speechtext/SpeechText.kt:12 | `find` gives year, month and day groups of one to three, one to two and one to two digits, in order |
| SpeechText.GroupDigits | patientID/app/src/main/java/com/example/patientid/speechtext/SpeechText.kt:13-15 | a group's text is all digits, of the group's width |
| SpeechText.DigitsValueBound | patientID/app/src/main/java/com/example/patientid/speechtext/SpeechText.kt:13-15 | a run of k digits is below 10^k |
| SpeechText.GroupValue | patientID/app/src/main/java/com/example/patientid/speechtext/SpeechText.kt:13-15 | a group's value is below 10^width, so `toIntOrNull` never fails |
| SpeechText.ZhBirthForSpeech | patientID/app/src/main/java/com/example/patientid/speechtext/SpeechText.kt:8-21 | the result is the input unchanged, or a spoken date `y年m月d日` with y below 1000 and m, d below 100 |
| SpeechText.DigitRunIs | patientID/app/src/main/java/com/example/patientid/speechtext/SpeechText.kt:11 | a run of n digits ended by a non-digit or the end has length n |
| SpeechText.DigitsAtRun | patientID/app/src/main/java/com/example/patientid/speechtext/SpeechText.kt:11 | a whole digit run at a position has its length |
| SpeechText.MonthFound | patientID/app/src/main/java/com/example/patientid/speechtext/SpeechText.kt:11 | a month of one or two digits, a month separator and a day are taken whole |
| SpeechText.YearFound | patientID/app/src/main/java/com/example/patientid/speechtext/SpeechText.kt:11 | a laid-out date is taken whole by the year group |
| SpeechText.DateFoundAt | patientID/app/src/main/java/com/example/patientid/speechtext/SpeechText.kt:11-12 | a match at the start, or right after the 民國 prefix, is the leftmost one |
| SpeechText.DateIsFound | patientID/app/src/main/java/com/example/patientid/speechtext/SpeechText.kt:11-12 | a date laid out at the start or after 民國 is found whole |
| SpeechText.SpokenGroups | patientID/app/src/main/java/com/example/patientid/speechtext/SpeechText.kt:12-20 | when a date is found, its three groups are spoken as numbers |
| SpeechText.DateIsSpoken | patientID/app/src/main/java/com/example/patientid/speechtext/SpeechText.kt:7-21 | such a date is spoken as its three numbers without leading zeros: 民國069/01/29 becomes 69年1月29日 |
| SpeechText.FourDigitYearIsFound | patientID/app/src/main/java/com/example/patientid/speechtext/SpeechText.kt:11 | with a four-digit year the year group takes its first three digits, the month its last digit and the day the month's digits |
| SpeechText.FourDigitYearIsMisread | patientID/app/src/main/java/com/example/patientid/speechtext/SpeechText.kt:8-21 | so a Gregorian date is misread: 1990/05/20 is spoken as 199年0月5日 |
| SpeechText.NatToStringLength | patientID/app/src/main/java/com/example/patientid/speechtext/SpeechText.kt:17-19 | a number below 10^k prints in at most k digits |
| SpeechText.SayLaidOut | patientID/app/src/main/java/com/example/patientid/speechtext/SpeechText.kt:20 | a spoken date is laid out as the pattern reads it |
| SpeechText.SpokenDateIsStable | patientID/app/src/main/java/com/example/patientid/speechtext/SpeechText.kt:8-21 | speaking an already spoken date changes nothing |
| SpeechText.SentencesAreKnownClauses | patientID/app/src/main/java/com/example/patientid/speechtext/SpeechText.kt:32-37 | the sentences are the opening, the clauses of the known fields in the order id, name, birth date, and the closing |
| SpeechText.ClausesInOrder | patientID/app/src/main/java/com/example/patientid/speechtext/SpeechText.kt:34-36 | the clauses are those of the id, the name and the birth date, in that order |
| SpeechText.KnownSlotsMembers | patientID/app/src/main/java/com/example/patientid/speechtext/SpeechText.kt:25-27 | a slot is among the known ones exactly when it is listed and its field is known |
| SpeechText.ClausesAreKnownSentences | patientID/app/src/main/java/com/example/patientid/speechtext/SpeechText.kt:34-36 | the i-th clause is the sentence of the i-th known field |
| SpeechText.KnownSlotsAreKnown | patientID/app/src/main/java/com/example/patientid/speechtext/SpeechText.kt:25-36 | a field is read out exactly when it is neither blank nor 未辨識 nor Unknown |
| SpeechText.SentinelSpeech | patientID/app/src/main/java/com/example/patientid/speechtext/SpeechText.kt:23-56 | for the fallback record only the greeting and the closing request are spoken |
| SpeechText.LegacyReadsAllFields | patientID/app/src/main/main/java/com/example/patientid/MainActivity.kt:939-973 | the legacy speech reads the name, then the birth date, then the id |
| SpeechText.GreetingHasHonorific | patientID/app/src/main/java/com/example/patientid/speechtext/SpeechText.kt:40-45 | a known name is greeted as written and always with an honorific; 先生 is added only when 先生, 小姐 or 女士 is not already in it |
| SpeechText.OpeningMentions | patientID/app/src/main/java/com/example/patientid/speechtext/SpeechText.kt:30-46 | the opening names the exam type, names the patient when the name is known, and does not depend on an unknown name |
| SpeechText.OpeningNamesExam | patientID/app/src/main/java/com/example/patientid/speechtext/SpeechText.kt:31-33 | the exam type appears in the opening in both languages |
| SpeechText.OpeningNamesPatient | patientID/app/src/main/java/com/example/patientid/speechtext/SpeechText.kt:30-33 | a known name appears in the opening: after "Hello " in English, at the start of the Chinese greeting |
| SpeechText.Build | patientID/app/src/main/java/com/example/patientid/speechtext/SpeechText.kt:23-56 | the speech; SentencesAreKnownClauses, KnownSlotsAreKnown, OpeningMentions and GreetingHasHonorific state its sentences |
| SpeechText.LegacyBuild | patientID/app/src/main/main/java/com/example/patientid/MainActivity.kt:939-973 | the legacy speech; LegacyReadsAllFields states that the name, birth date and id are all read, in that order |
| Report.EntryLines | patientID/app/src/main/java/com/example/patientid/MainActivity.kt:443-449 | one printed line per field, in the map's order, each the key, the separator and the value |
| Report.LinesTextIsJoin | patientID/app/src/main/java/com/example/patientid/MainActivity.kt:438-439 | a non-empty listing is its lines joined at line feeds, with a final line feed |
| Report.LinesTextShows | patientID/app/src/main/java/com/example/patientid/MainActivity.kt:438-439 | every line of a listing appears in it, in order, ended by a line feed |
| Report.CustomShowsParts | patientID/app/src/main/java/com/example/patientid/MainActivity.kt:450-452 | the custom-rule section of a map built from parts is the parts' listing plus a blank line, or the placeholder when there are none |
| Report.CustomRepeatsMerged | patientID/app/src/main/java/com/example/patientid/MainActivity.kt:430-454 | so the custom-rule section repeats the code-merged section, plus a blank line |
| Report.WordIsCaptured | patientID/app/src/main/java/com/example/patientid/recognition/PatientParsing.kt:35-37 | a word of two to twenty non-space characters, not starting with a colon and ended by whitespace, is captured whole |
| Report.LabelledWordMatches | patientID/app/src/main/java/com/example/patientid/recognition/PatientParsing.kt:35-37 | a label followed by such a word matches the labelled exam pattern |
| Report.LeadingExamField | patientID/app/src/main/java/com/example/patientid/recognition/PatientParsing.kt:34-57 | a text opening with the exam label and such a word has that word as its exam field |
| Report.LeadingExamParses | patientID/app/src/main/java/com/example/patientid/recognition/PatientParsing.kt:56-67 | such a text is parsed as a record with that exam type |
| Report.ReportAlwaysParses | patientID/app/src/main/java/com/example/patientid/MainActivity.kt:436-478 | every assembled report parses, since its first header yields the exam type "ination" or "部位（整合版）:" |
| Report.HeaderOpens | patientID/app/src/main/java/com/example/patientid/MainActivity.kt:438-456 | the report opens with the exam label followed by the header word and whitespace |
| Report.AssembleReport | patientID/app/src/main/java/com/example/patientid/MainActivity.kt:436-469 | the report in the interface language; HeaderOpens, LinesTextShows, CustomRepeatsMerged and ReportAlwaysParses state its layout |
| Report.HandleOcrResult | patientID/app/src/main/java/com/example/patientid/MainActivity.kt:424-474 | every extractor on the recognised text, then the report; RecognitionIsSpoken states what is kept and spoken |
| Report.HandleOcrSuccess | patientID/app/src/main/java/com/example/patientid/MainActivity.kt:477-493 | the kept record always has a name, a birth date and an id; the 未辨識 record is kept and the fallback request spoken exactly when no field pattern matches the report; otherwise the kept record carries the report's fields and is the one spoken |
| Report.RecognitionIsSpoken | patientID/app/src/main/java/com/example/patientid/MainActivity.kt:424-493 | after any recognition the record kept has the header word as its exam type and is the one spoken |

## Left out

- **The Android shell of both activities.** This covers camera and gallery
  launch, permissions, progress dialogs, toasts, and the TextToSpeech and
  SpeechRecognizer callbacks with the confirm-word check. It also covers the
  processing flags, `processImage` and `handleOCRFailure`. They are
  platform I/O and event plumbing.
- **The legacy activity outside its extractors, parser and speech
  builder.** This includes its `handleOCRSuccess`. It is the same kind of UI
  plumbing.
- **Speaking and showing.** `speakText` and `textResult.text =` are left
  out. `Report.HandleOcrSuccess` returns the record kept and the text to
  speak instead.
- **ML Kit.** The recognised `Text` object is modelled by its full text and
  its block texts. For `extractNameSmart` it is a block, line and element
  tree whose bounding box is optional. A missing box reads as the 32-bit
  `Int` bounds, as in the source.
- **`ImageKit`, `LocaleSupport`, the `Log` calls and the build
  configuration.** These are file I/O, resource configuration and logging.
- **Loading `extraDict` from JSON.** The table is a parameter of the
  translator and of every extractor that uses it.
- **The `try`/`catch` around the report assembly.** No modelled operation
  throws.
- **Unicode.** Character classes are ASCII:
  - `isDigit`, `lowercase`, `ignoreCase` and `[A-Za-z]`;
  - `isWhitespace`, `trim` and `isBlank` use the six ASCII whitespace
    characters of `\s`. Kotlin's `trim` also removes other Unicode spaces,
    such as the ideographic space U+3000.
  - Strings are sequences of Dafny characters, so a length bound such as
    `{2,20}` counts UTF-16 units only for text in the Basic Multilingual
    Plane.
- **A general regular-expression engine.** Only the patterns the pipeline
  uses are modelled. Each one is hand-coded with the matching order of
  `java.util.regex`.
- **`sortedWith(compareBy(...))`.** The library's merge sort is not
  modelled. What it guarantees is modelled instead: a stable sort by the
  key, given by an insertion sort with the same result.
- ExamTranslator.TokenTranslation: an `extra` table with a repeated key
  is not excluded. A Kotlin map cannot repeat a key. For such a table the
  exact tier reads the first entry for the key, while the merged table of
  the fuzzy tier keeps the last value.
- **`block.lines.indexOf(line)` in the second step of `extractNameSmart`.**
  It is modelled as the position of the line being scanned, since every
  recognised line is a distinct object.
