/** `SpeechText`: the text the app speaks after a successful scan, and the
    legacy activity's `buildSpeechText`. Chinese birth dates are read out as
    year, month and day numbers without leading zeros. */
module SpeechText {
  import opened Base
  import opened Strings
  import opened Patterns

  const UnknownZh: string := "未辨識"
  const UnknownEn: string := "Unknown"

  /** A field that is neither blank nor one of the two sentinels. */
  predicate IsKnown(v: string) { !IsBlank(v) && v != UnknownZh && v != UnknownEn }

  // ---------------------------------------------------------------- zhBirthForSpeech

  /** A captured group: the characters from `start` up to `end`. */
  datatype Span = Span(start: nat, end: nat)

  /** The three groups of `(?:民國)?\s*(\d{1,3})[./\-年]?(\d{1,2})[./\-月]?(\d{1,2})`. */
  datatype Groups = Groups(year: Span, month: Span, day: Span)

  const YearSeps: set<char> := {'.', '/', '-', '年'}
  const MonthSeps: set<char> := {'.', '/', '-', '月'}

  function Min(a: nat, b: nat): nat { if a < b then a else b }

  /** Length of the run of ASCII digits starting at `i`. */
  function DigitRun(s: string, i: nat): (n: nat)
    requires i <= |s|
    ensures i + n <= |s|
    decreases |s| - i
  {
    if i == |s| || !IsDigit(s[i]) then 0 else 1 + DigitRun(s, i + 1)
  }

  /** The run is made of digits and stops before a non-digit. */
  lemma {:induction false} DigitRunDigits(s: string, i: nat)
    requires i <= |s|
    ensures forall j | i <= j < i + DigitRun(s, i) :: IsDigit(s[j])
    ensures i + DigitRun(s, i) == |s| || !IsDigit(s[i + DigitRun(s, i)])
    decreases |s| - i
  {
    if i < |s| && IsDigit(s[i]) {
      DigitRunDigits(s, i + 1);
    }
  }

  /** `g` holds one to `max` digits. */
  predicate DigitGroup(s: string, g: Span, max: nat) {
    g.start <= |s| && g.start < g.end <= g.start + Min(max, DigitRun(s, g.start))
  }

  /** Year, month and day groups in order, of the widths the pattern allows. */
  predicate Fits(s: string, x: Groups) {
    DigitGroup(s, x.year, 3) && DigitGroup(s, x.month, 2) && DigitGroup(s, x.day, 2) &&
    x.year.end <= x.month.start && x.month.end <= x.day.start
  }

  /** `(\d{1,2})` for the day: greedy, and nothing follows it. */
  function DayAt(s: string, r: nat, y: Span, mo: Span): (x: Option<Groups>)
    requires r <= |s|
    ensures x.Some? ==> x.value.year == y && x.value.month == mo && x.value.day.start == r
    ensures x.Some? ==> DigitGroup(s, x.value.day, 2)
  {
    var c := Min(2, DigitRun(s, r));
    if c == 0 then None else Some(Groups(y, mo, Span(r, r + c)))
  }

  /** After a month of `b` digits at `q`: the optional separator is taken
      when present. Skipping a present separator instead cannot match, since
      the day must start with a digit. */
  function AfterMonth(s: string, q: nat, b: nat, y: Span): (x: Option<Groups>)
    requires q <= |s| && 1 <= b <= Min(2, DigitRun(s, q))
    ensures x.Some? ==> x.value.year == y && x.value.month == Span(q, q + b)
    ensures x.Some? ==> q + b <= x.value.day.start && DigitGroup(s, x.value.day, 2)
  {
    var r := q + b;
    if r < |s| && s[r] in MonthSeps then DayAt(s, r + 1, y, Span(q, r)) else DayAt(s, r, y, Span(q, r))
  }

  /** The month group, from `b` digits down to one. */
  function TryMonth(s: string, q: nat, b: nat, y: Span): (x: Option<Groups>)
    requires q <= |s| && b <= Min(2, DigitRun(s, q))
    ensures x.Some? ==> x.value.year == y && x.value.month.start == q && DigitGroup(s, x.value.month, 2)
    ensures x.Some? ==> x.value.month.end <= x.value.day.start && DigitGroup(s, x.value.day, 2)
  {
    if b == 0 then None
    else
      var m := AfterMonth(s, q, b, y);
      if m.Some? then m else TryMonth(s, q, b - 1, y)
  }

  /** After a year of `a` digits at `p`, with the year separator taken when
      present (as for the month). */
  function AfterYear(s: string, p: nat, a: nat): (x: Option<Groups>)
    requires p <= |s| && 1 <= a <= Min(3, DigitRun(s, p))
    ensures x.Some? ==> Fits(s, x.value) && x.value.year == Span(p, p + a)
  {
    var q := p + a;
    var m := if q < |s| && s[q] in YearSeps then q + 1 else q;
    TryMonth(s, m, Min(2, DigitRun(s, m)), Span(p, q))
  }

  /** The year group, from `a` digits down to one. */
  function TryYear(s: string, p: nat, a: nat): (x: Option<Groups>)
    requires p <= |s| && a <= Min(3, DigitRun(s, p))
    ensures x.Some? ==> Fits(s, x.value) && x.value.year.start == p
  {
    if a == 0 then None
    else
      var m := AfterYear(s, p, a);
      if m.Some? then m else TryYear(s, p, a - 1)
  }

  /** A match starting at `i`. The era prefix is taken when present and the
      greedy `\s*` keeps all its spaces: giving either back leaves a
      character that is not a digit where the year must start. */
  function DateAt(s: string, i: nat): (x: Option<Groups>)
    requires i <= |s|
    ensures x.Some? ==> Fits(s, x.value)
  {
    var e := if OccursAt(s, "民國", i) then i + 2 else i;
    var p := e + SpaceRun(s, e);
    TryYear(s, p, Min(3, DigitRun(s, p)))
  }

  function DateFrom(s: string, i: nat): (x: Option<Groups>)
    requires i <= |s| + 1
    ensures x.Some? ==> Fits(s, x.value)
    decreases |s| + 1 - i
  {
    if i > |s| then None
    else
      var m := DateAt(s, i);
      if m.Some? then m else DateFrom(s, i + 1)
  }

  /** `regex.find(birth)`: the groups of the leftmost match. */
  function FindDate(s: string): (x: Option<Groups>)
    ensures x.Some? ==> Fits(s, x.value)
  {
    DateFrom(s, 0)
  }

  function Text(s: string, g: Span): string
    requires g.start <= g.end <= |s|
  {
    s[g.start..g.end]
  }

  lemma GroupDigits(s: string, g: Span, max: nat)
    requires DigitGroup(s, g, max)
    ensures AllDigits(Text(s, g)) && 1 <= |Text(s, g)| <= max
  {
    DigitRunDigits(s, g.start);
    assert forall j | 0 <= j < |Text(s, g)| :: Text(s, g)[j] == s[g.start + j];
  }

  function Pow10(n: nat): nat { if n == 0 then 1 else 10 * Pow10(n - 1) }

  lemma {:induction false} DigitsValueBound(s: string)
    requires AllDigits(s)
    ensures DigitsValue(s) < Pow10(|s|)
    decreases |s|
  {
    if s != [] {
      DigitsValueBound(s[..|s| - 1]);
    }
  }

  lemma {:induction false} Pow10Grows(a: nat, b: nat)
    requires a <= b
    ensures Pow10(a) <= Pow10(b)
    decreases b
  {
    if a < b {
      Pow10Grows(a, b - 1);
    }
  }

  /** `toInt()` of a group: below `10^max`. */
  function GroupValue(s: string, g: Span, max: nat): (v: nat)
    requires DigitGroup(s, g, max)
    ensures v < Pow10(max)
  {
    var t := Text(s, g);
    assert AllDigits(t) && DigitsValue(t) < Pow10(max) by {
      GroupDigits(s, g, max);
      DigitsValueBound(t);
      Pow10Grows(|t|, max);
    }
    DigitsValue(t)
  }

  /** `"${y}年${m}月${d}日"` with the numbers printed without leading zeros. */
  function Say(y: nat, m: nat, d: nat): string {
    NatToString(y) + "年" + NatToString(m) + "月" + NatToString(d) + "日"
  }

  /** Year, month and day as the pattern can capture them, spoken. */
  predicate IsSpokenDate(r: string) {
    exists y: nat, m: nat, d: nat | y < 1000 && m < 100 && d < 100 :: r == Say(y, m, d)
  }

  /** `zhBirthForSpeech`: a blank input or one without a date is returned
      unchanged; otherwise the three groups are read as numbers (at most three
      digits, so `toIntOrNull` always succeeds) and spoken. */
  function ZhBirthForSpeech(birth: string): (r: string)
    ensures r == birth || IsSpokenDate(r)
  {
    if IsBlank(birth) then birth
    else
      match FindDate(birth)
      case None => birth
      case Some(g) =>
        assert Pow10(3) == 1000 && Pow10(2) == 100;
        Say(GroupValue(birth, g.year, 3), GroupValue(birth, g.month, 2), GroupValue(birth, g.day, 2))
  }

  lemma {:induction false} DigitRunIs(s: string, i: nat, n: nat)
    requires i + n <= |s|
    requires forall j | i <= j < i + n :: IsDigit(s[j])
    requires i + n == |s| || !IsDigit(s[i + n])
    ensures DigitRun(s, i) == n
    decreases n
  {
    if n > 0 {
      DigitRunIs(s, i + 1, n - 1);
    }
  }

  /** `w` is the whole run of digits at `i`. */
  predicate DigitsAt(s: string, i: nat, w: string) {
    OccursAt(s, w, i) && AllDigits(w) && (i + |w| == |s| || !IsDigit(s[i + |w|]))
  }

  lemma DigitsAtRun(s: string, i: nat, w: string)
    requires DigitsAt(s, i, w)
    ensures DigitRun(s, i) == |w|
  {
    assert forall j | i <= j < i + |w| :: s[j] == w[j - i];
    DigitRunIs(s, i, |w|);
  }

  /** At `p`, `s` holds a year of one to three digits, a year separator, a
      month of one or two digits, a month separator and a day of one or two
      digits, with no digit right after the day. */
  predicate DateLaidOut(s: string, p: nat, Y: string, M: string, D: string) {
    var q := p + |Y| + 1;
    var r := q + |M| + 1;
    1 <= |Y| <= 3 && 1 <= |M| <= 2 && 1 <= |D| <= 2 &&
    DigitsAt(s, p, Y) && p + |Y| < |s| && s[p + |Y|] in YearSeps &&
    DigitsAt(s, q, M) && q + |M| < |s| && s[q + |M|] in MonthSeps &&
    DigitsAt(s, r, D)
  }

  /** A month of `nm` digits at `q`, a month separator, and a day of `nd`
      digits are taken whole. */
  lemma MonthFound(s: string, q: nat, nm: nat, nd: nat, y: Span)
    requires q + nm < |s| && DigitRun(s, q) == nm && 1 <= nm <= 2 && s[q + nm] in MonthSeps
    requires DigitRun(s, q + nm + 1) == nd && 1 <= nd <= 2
    ensures TryMonth(s, q, nm, y) == Some(Groups(y, Span(q, q + nm), Span(q + nm + 1, q + nm + 1 + nd)))
  {
    assert DayAt(s, q + nm + 1, y, Span(q, q + nm)) == Some(Groups(y, Span(q, q + nm), Span(q + nm + 1, q + nm + 1 + nd)));
  }

  /** A laid-out date is taken whole by the year group. */
  lemma YearFound(s: string, p: nat, Y: string, M: string, D: string)
    requires DateLaidOut(s, p, Y, M, D)
    ensures var q := p + |Y| + 1;
      var r := q + |M| + 1;
      TryYear(s, p, Min(3, DigitRun(s, p))) == Some(Groups(Span(p, p + |Y|), Span(q, q + |M|), Span(r, r + |D|)))
  {
    var q := p + |Y| + 1;
    DigitsAtRun(s, p, Y);
    DigitsAtRun(s, q, M);
    DigitsAtRun(s, q + |M| + 1, D);
    MonthFound(s, q, |M|, |D|, Span(p, p + |Y|));
  }

  /** A match at the start, after the era prefix when it is there, is the
      leftmost one. */
  lemma DateFoundAt(s: string, p: nat, x: Groups)
    requires p == 0 || (p == 2 && OccursAt(s, "民國", 0))
    requires p < |s| && IsDigit(s[p]) && TryYear(s, p, Min(3, DigitRun(s, p))) == Some(x)
    ensures FindDate(s) == Some(x)
  {
    assert p == 0 ==> !OccursAt(s, "民國", 0);
    assert SpaceRun(s, p) == 0;
    assert DateAt(s, 0) == Some(x);
  }

  /** A date laid out at the start, or right after the ROC era prefix, is
      found whole. */
  lemma DateIsFound(s: string, p: nat, Y: string, M: string, D: string)
    requires p == 0 || (p == 2 && OccursAt(s, "民國", 0))
    requires DateLaidOut(s, p, Y, M, D)
    ensures var q := p + |Y| + 1;
      var r := q + |M| + 1;
      FindDate(s) == Some(Groups(Span(p, p + |Y|), Span(q, q + |M|), Span(r, r + |D|)))
  {
    var q := p + |Y| + 1;
    var r := q + |M| + 1;
    YearFound(s, p, Y, M, D);
    assert s[p] == Y[0];
    DateFoundAt(s, p, Groups(Span(p, p + |Y|), Span(q, q + |M|), Span(r, r + |D|)));
  }

  /** The leftmost match captures `g`, whose groups read `Y`, `M` and `D`. */
  predicate Captures(s: string, g: Groups, Y: string, M: string, D: string) {
    FindDate(s) == Some(g) &&
    g.year.start <= g.year.end <= |s| && g.month.start <= g.month.end <= |s| &&
    g.day.start <= g.day.end <= |s| &&
    Text(s, g.year) == Y && Text(s, g.month) == M && Text(s, g.day) == D
  }

  /** When a date is found, its three groups are spoken as numbers. */
  lemma SpokenGroups(s: string, g: Groups, Y: string, M: string, D: string)
    requires !IsBlank(s) && Captures(s, g, Y, M, D)
    ensures AllDigits(Y) && AllDigits(M) && AllDigits(D)
    ensures ZhBirthForSpeech(s) == Say(DigitsValue(Y), DigitsValue(M), DigitsValue(D))
  {
    GroupDigits(s, g.year, 3);
    GroupDigits(s, g.month, 2);
    GroupDigits(s, g.day, 2);
  }

  /** Such a date is spoken as its three numbers: `民國069/01/29` becomes
      `69年1月29日`. */
  lemma DateIsSpoken(s: string, p: nat, Y: string, M: string, D: string)
    requires p == 0 || (p == 2 && OccursAt(s, "民國", 0))
    requires DateLaidOut(s, p, Y, M, D)
    ensures ZhBirthForSpeech(s) == Say(DigitsValue(Y), DigitsValue(M), DigitsValue(D))
  {
    var q := p + |Y| + 1;
    var r := q + |M| + 1;
    DateIsFound(s, p, Y, M, D);
    assert !IsBlank(s) by { assert s[p] == Y[0]; }
    assert Text(s, Span(p, p + |Y|)) == Y && Text(s, Span(q, q + |M|)) == M && Text(s, Span(r, r + |D|)) == D;
    SpokenGroups(s, Groups(Span(p, p + |Y|), Span(q, q + |M|), Span(r, r + |D|)), Y, M, D);
  }

  /** A four-digit year `Y4`, a separator allowed after both the year and
      the month, and one or two more digits `M`. */
  predicate FourDigitLaidOut(s: string, Y4: string, M: string) {
    |Y4| == 4 && DigitsAt(s, 0, Y4) && 4 < |s| && s[4] in YearSeps * MonthSeps &&
    1 <= |M| <= 2 && DigitsAt(s, 5, M)
  }

  /** A four-digit year does not fit `\d{1,3}`: its first three digits are the
      year, its last digit the month, and the month's digits the day. */
  lemma FourDigitYearIsFound(s: string, Y4: string, M: string)
    requires FourDigitLaidOut(s, Y4, M)
    ensures Captures(s, Groups(Span(0, 3), Span(3, 4), Span(5, 5 + |M|)), Y4[..3], Y4[3..], M)
  {
    var y := Span(0, 3);
    var g := Groups(y, Span(3, 4), Span(5, 5 + |M|));
    DigitsAtRun(s, 0, Y4);
    assert DigitsAt(s, 3, Y4[3..]) by { assert s[3..4] == Y4[3..]; }
    DigitsAtRun(s, 3, Y4[3..]);
    DigitsAtRun(s, 5, M);
    MonthFound(s, 3, 1, |M|, y);
    assert AfterYear(s, 0, 3) == Some(g);
    assert s[0] == Y4[0];
    DateFoundAt(s, 0, g);
    SliceOfOccurrence(s, Y4, 0, 0, 3);
    SliceOfOccurrence(s, Y4, 0, 3, 4);
    SliceOfOccurrence(s, M, 5, 0, |M|);
    assert Y4[0..3] == Y4[..3] && Y4[3..4] == Y4[3..] && M[0..|M|] == M;
  }

  lemma SliceOfOccurrence(s: string, w: string, i: nat, a: nat, b: nat)
    requires OccursAt(s, w, i) && a <= b <= |w|
    ensures i + b <= |s| && s[i + a..i + b] == w[a..b]
  {
    assert forall j | a <= j < b :: s[i + j] == w[j];
  }

  /** So `1990/05/20` is spoken as `199年0月5日`. */
  lemma FourDigitYearIsMisread(s: string, Y4: string, M: string)
    requires FourDigitLaidOut(s, Y4, M)
    ensures AllDigits(Y4[..3]) && AllDigits(Y4[3..]) && AllDigits(M)
    ensures ZhBirthForSpeech(s) == Say(DigitsValue(Y4[..3]), DigitsValue(Y4[3..]), DigitsValue(M))
  {
    FourDigitYearIsFound(s, Y4, M);
    assert !IsBlank(s) by { assert s[0] == Y4[0]; }
    SpokenGroups(s, Groups(Span(0, 3), Span(3, 4), Span(5, 5 + |M|)), Y4[..3], Y4[3..], M);
  }

  /** The printed form of a number below `10^k` has at most `k` digits. */
  lemma {:induction false} NatToStringLength(n: nat, k: nat)
    requires n < Pow10(k)
    ensures |NatToString(n)| <= k || (n == 0 && k == 0)
    decreases n
  {
    if n >= 10 {
      NatToStringLength(n / 10, k - 1);
    }
  }

  /** The pieces of a spoken date, seen from the pattern. */
  lemma SayLaidOut(Y: string, M: string, D: string)
    requires 1 <= |Y| <= 3 && AllDigits(Y) && 1 <= |M| <= 2 && AllDigits(M) && 1 <= |D| <= 2 && AllDigits(D)
    ensures DateLaidOut(Y + "年" + M + "月" + D + "日", 0, Y, M, D)
  {
    var s := Y + "年" + M + "月" + D + "日";
    var q := |Y| + 1;
    var r := q + |M| + 1;
    assert s[0..|Y|] == Y;
    assert s[q..q + |M|] == M;
    assert s[r..r + |D|] == D;
    assert s[|Y|] == '年' && s[q + |M|] == '月' && s[r + |D|] == '日';
  }

  /** A spoken date reads back as the same three numbers, so speaking an
      already spoken date changes nothing. */
  lemma SpokenDateIsStable(y: nat, m: nat, d: nat)
    requires y < 1000 && m < 100 && d < 100
    ensures ZhBirthForSpeech(Say(y, m, d)) == Say(y, m, d)
  {
    var Y, M, D := NatToString(y), NatToString(m), NatToString(d);
    NatToStringRoundTrip(y);
    NatToStringRoundTrip(m);
    NatToStringRoundTrip(d);
    assert Pow10(3) == 1000 && Pow10(2) == 100;
    NatToStringLength(y, 3);
    NatToStringLength(m, 2);
    NatToStringLength(d, 2);
    SayLaidOut(Y, M, D);
    DateIsSpoken(Say(y, m, d), 0, Y, M, D);
  }

  // ---------------------------------------------------------------- build

  /** The fields the speech reads out, in the order it reads them. */
  datatype Slot = IdSlot | NameSlot | BirthSlot

  const SpokenOrder: seq<Slot> := [IdSlot, NameSlot, BirthSlot]

  function Value(info: PatientInfo, s: Slot): string {
    match s
    case IdSlot => info.medicalId
    case NameSlot => info.name
    case BirthSlot => info.birthDate
  }

  function Sentence(info: PatientInfo, s: Slot, lang: Lang): string {
    var v := Value(info, s);
    if lang == English then
      match s
      case IdSlot => "Medical ID: " + v + "."
      case NameSlot => "Name: " + v + "."
      case BirthSlot => "Date of birth: " + v + "."
    else
      match s
      case IdSlot => "病歷號為：" + v + "。"
      case NameSlot => "姓名為：" + v + "。"
      case BirthSlot => "出生年月日為：" + ZhBirthForSpeech(v) + "。"
  }

  /** A field's sentence when the field is known, nothing otherwise. */
  function Clause(info: PatientInfo, s: Slot, lang: Lang): seq<string> {
    if IsKnown(Value(info, s)) then [Sentence(info, s, lang)] else []
  }

  /** The sentences of the known fields among `slots`, in order. */
  function Clauses(info: PatientInfo, slots: seq<Slot>, lang: Lang): seq<string> {
    if slots == [] then [] else Clause(info, slots[0], lang) + Clauses(info, slots[1..], lang)
  }

  function ExamText(examType: string, lang: Lang): string {
    if lang == English then (if examType != "" then examType + " examination" else "examination")
    else (if examType != "" then examType + "檢查" else "檢查")
  }

  predicate HasHonorific(name: string) {
    Contains(name, "先生") || Contains(name, "小姐") || Contains(name, "女士")
  }

  function Opening(info: PatientInfo, lang: Lang): string {
    if lang == English then
      var greeting := if IsKnown(info.name) then "Hello " + info.name + "." else "Hello.";
      greeting + " You will have an " + ExamText(info.examType, lang) +
      " shortly. Now let me present your medical information."
    else
      GreetName(info.name) + "，等一下將進行" + ExamText(info.examType, lang) + "。現在呈現您的病歷資訊。"
  }

  /** The Chinese greeting: the name with 先生 added unless it already
      carries an honorific, or 您好 for an unknown name. */
  function GreetName(name: string): string {
    if IsKnown(name) then (if HasHonorific(name) then name else name + "先生") else "您好"
  }

  /** A known name is greeted as it is written, and always with an
      honorific: 先生 is added only when none is there already. */
  lemma GreetingHasHonorific(name: string)
    requires IsKnown(name)
    ensures OccursAt(GreetName(name), name, 0) && HasHonorific(GreetName(name))
    ensures HasHonorific(name) ==> GreetName(name) == name
  {
    if !HasHonorific(name) {
      ContainsAt(name + "先生", "先生", |name|);
    }
  }

  /** A string that starts a middle piece occurs in the whole. */
  lemma InMiddle(pre: string, m: string, rest: string, p: string)
    requires OccursAt(m, p, 0)
    ensures Contains(pre + m + rest, p)
  {
    var t := pre + m + rest;
    assert t[|pre|..|pre| + |p|] == m[..|p|];
    ContainsAt(t, p, |pre|);
  }

  /** The opening names the exam type, names the patient when the name is
      known, and does not depend on the name when it is not. */
  lemma OpeningMentions(info: PatientInfo, lang: Lang)
    ensures Contains(Opening(info, lang), info.examType)
    ensures IsKnown(info.name) ==> Contains(Opening(info, lang), info.name)
    ensures !IsKnown(info.name) ==> Opening(info, lang) == Opening(info.(name := UnknownZh), lang)
  {
    OpeningNamesExam(info, lang);
    if IsKnown(info.name) {
      OpeningNamesPatient(info, lang);
    }
  }

  lemma OpeningNamesExam(info: PatientInfo, lang: Lang)
    ensures Contains(Opening(info, lang), info.examType)
  {
    var e := ExamText(info.examType, lang);
    assert OccursAt(e, info.examType, 0);
    if lang == English {
      var g := if IsKnown(info.name) then "Hello " + info.name + "." else "Hello.";
      InMiddle(g + " You will have an ", e, " shortly. Now let me present your medical information.", info.examType);
    } else {
      InMiddle(GreetName(info.name) + "，等一下將進行", e, "。現在呈現您的病歷資訊。", info.examType);
    }
  }

  lemma OpeningNamesPatient(info: PatientInfo, lang: Lang)
    requires IsKnown(info.name)
    ensures Contains(Opening(info, lang), info.name)
  {
    var n := info.name;
    var e := ExamText(info.examType, lang);
    if lang == English {
      var s0 := "Hello " + n;
      assert s0[6..6 + |n|] == n;
      Extend(s0, ".", n, 6);
      Extend(s0 + ".", " You will have an ", n, 6);
      Extend(s0 + "." + " You will have an ", e, n, 6);
      Extend(s0 + "." + " You will have an " + e, " shortly. Now let me present your medical information.", n, 6);
      ContainsAt(Opening(info, lang), n, 6);
    } else {
      var g := GreetName(n);
      GreetingHasHonorific(n);
      Extend(g, "，等一下將進行", n, 0);
      Extend(g + "，等一下將進行", e, n, 0);
      Extend(g + "，等一下將進行" + e, "。現在呈現您的病歷資訊。", n, 0);
      ContainsAt(Opening(info, lang), n, 0);
    }
  }

  /** An occurrence survives appending. */
  lemma Extend(a: string, b: string, p: string, i: int)
    requires OccursAt(a, p, i)
    ensures OccursAt(a + b, p, i)
  {
    assert (a + b)[i..i + |p|] == a[i..i + |p|];
  }

  function Closing(lang: Lang): string {
    if lang == English then "Please review on screen and press Confirm or Edit if something is incorrect."
    else "請在畫面上核對並按「確認」，若有錯誤請點「修改」後更正。"
  }

  /** The `buildList` of `build`. */
  function Sentences(info: PatientInfo, lang: Lang): seq<string> {
    [Opening(info, lang)] + Clause(info, IdSlot, lang) + Clause(info, NameSlot, lang) +
    Clause(info, BirthSlot, lang) + [Closing(lang)]
  }

  /** `SpeechText.build(info, isEnglish)`: English sentences joined with
      spaces, Chinese ones run together. */
  function Build(info: PatientInfo, lang: Lang): string {
    Join(Sentences(info, lang), if lang == English then " " else "")
  }

  /** The speech is the opening, the clauses of the slots in the order id,
      name, birth date, and the closing request; the clauses are the
      sentences of exactly the known fields (ClausesAreKnownSentences,
      KnownSlotsAreKnown). */
  lemma {:induction false} SentencesAreKnownClauses(info: PatientInfo, lang: Lang)
    ensures Sentences(info, lang) == [Opening(info, lang)] + Clauses(info, SpokenOrder, lang) + [Closing(lang)]
  {
    ClausesInOrder(info, lang);
    Regroup(Opening(info, lang), Clause(info, IdSlot, lang), Clause(info, NameSlot, lang),
      Clause(info, BirthSlot, lang), Closing(lang));
  }

  lemma {:induction false} ClausesInOrder(info: PatientInfo, lang: Lang)
    ensures Clauses(info, SpokenOrder, lang) ==
      Clause(info, IdSlot, lang) + (Clause(info, NameSlot, lang) + Clause(info, BirthSlot, lang))
  {
    var birth := Clause(info, BirthSlot, lang);
    assert Clauses(info, [BirthSlot], lang) == birth by {
      assert [BirthSlot][1..] == [];
      assert birth + [] == birth;
    }
    assert [NameSlot, BirthSlot][1..] == [BirthSlot];
    assert SpokenOrder[1..] == [NameSlot, BirthSlot];
  }

  lemma Regroup<T>(o: T, a: seq<T>, b: seq<T>, c: seq<T>, z: T)
    ensures [o] + a + b + c + [z] == [o] + (a + (b + c)) + [z]
  {
  }

  /** The slots among `slots` whose field is known, in order. */
  function KnownSlots(info: PatientInfo, slots: seq<Slot>): seq<Slot> {
    if slots == [] then []
    else (if IsKnown(Value(info, slots[0])) then [slots[0]] else []) + KnownSlots(info, slots[1..])
  }

  lemma {:induction false} KnownSlotsMembers(info: PatientInfo, slots: seq<Slot>, sl: Slot)
    ensures sl in KnownSlots(info, slots) <==> sl in slots && IsKnown(Value(info, sl))
    decreases |slots|
  {
    if slots != [] {
      KnownSlotsMembers(info, slots[1..], sl);
      assert slots == [slots[0]] + slots[1..];
    }
  }

  /** The `i`-th clause is the sentence of the `i`-th known slot. */
  lemma {:induction false} ClausesAreKnownSentences(info: PatientInfo, slots: seq<Slot>, lang: Lang)
    ensures |Clauses(info, slots, lang)| == |KnownSlots(info, slots)|
    ensures forall i | 0 <= i < |KnownSlots(info, slots)| ::
      Clauses(info, slots, lang)[i] == Sentence(info, KnownSlots(info, slots)[i], lang)
    decreases |slots|
  {
    if slots != [] {
      ClausesAreKnownSentences(info, slots[1..], lang);
    }
  }

  /** A field is among the spoken slots exactly when it is known. */
  lemma KnownSlotsAreKnown(info: PatientInfo, sl: Slot)
    ensures sl in KnownSlots(info, SpokenOrder) <==> IsKnown(Value(info, sl))
  {
    KnownSlotsMembers(info, SpokenOrder, sl);
    assert sl in SpokenOrder by { assert sl == IdSlot || sl == NameSlot || sl == BirthSlot; }
  }

  /** The record the app falls back to when nothing was recognised. */
  const Sentinel: PatientInfo := PatientInfo(UnknownZh, UnknownZh, UnknownZh, "")

  /** For the fallback record only the greeting and the closing request are
      spoken. */
  lemma SentinelSpeech(lang: Lang)
    ensures Sentences(Sentinel, lang) == [Opening(Sentinel, lang), Closing(lang)]
    ensures Build(Sentinel, lang) == Opening(Sentinel, lang) + (if lang == English then " " else "") + Closing(lang)
  {
    assert !IsKnown(UnknownZh);
    assert Clause(Sentinel, IdSlot, lang) == [] && Clause(Sentinel, NameSlot, lang) == [];
    assert Clause(Sentinel, BirthSlot, lang) == [];
    Bare(Opening(Sentinel, lang), Closing(lang));
    var parts := Sentences(Sentinel, lang);
    var sep := if lang == English then " " else "";
    assert parts[1..] == [Closing(lang)];
    assert Join(parts[1..], sep) == Closing(lang);
    assert Join(parts, sep) == parts[0] + sep + Join(parts[1..], sep);
  }

  lemma Bare<T>(o: T, z: T)
    ensures [o] + [] + [] + [] + [z] == [o, z]
  {
  }

  // ---------------------------------------------------------------- legacy

  /** The legacy `buildSpeechText`: every field is read out, whatever its
      value, with the birth date as it was recognised. The text is a template
      with the name, the birth date and the id in three slots. */
  function LegacyBuild(info: PatientInfo, lang: Lang): string {
    LegacyIntro(info, lang) + info.name + AfterName(lang) + info.birthDate + AfterBirth(lang) +
    info.medicalId + LegacyOutro(lang)
  }

  /** The greeting keeps an honorific already in the name and adds Mr. or
      先生 otherwise. */
  function LegacyGreeting(name: string, lang: Lang): string {
    if lang == English then
      (if Contains(name, "Mr.") || Contains(name, "Ms.") || Contains(name, "Mrs.") then name else "Mr. " + name)
    else
      (if HasHonorific(name) then name else name + "先生")
  }

  function LegacyIntro(info: PatientInfo, lang: Lang): string {
    if lang == English then
      LegacyGreeting(info.name, lang) + ", hello. You will have an " + ExamText(info.examType, lang) +
      " shortly. Now let me verify your medical information. " + "Name: "
    else
      LegacyGreeting(info.name, lang) + "您好，等一下將進行" + ExamText(info.examType, lang) +
      "。現在向您核對病歷資訊。" + "姓名為："
  }

  function AfterName(lang: Lang): string {
    if lang == English then ". Date of birth: " else "。出生年月日為："
  }

  function AfterBirth(lang: Lang): string {
    if lang == English then ". Medical ID: " else "。病歷號為："
  }

  function LegacyOutro(lang: Lang): string {
    if lang == English then ". " + "If the information is correct, please say 'yes' or 'correct'."
    else "。" + "如果資料正確，請說「是」或「正確」。"
  }

  /** The legacy speech reads the three fields in a fixed order: each value
      occurs in the text, the name before the birth date before the id. */
  lemma LegacyReadsAllFields(info: PatientInfo, lang: Lang)
    ensures exists a, b, c | 0 <= a <= b <= c ::
      OccursAt(LegacyBuild(info, lang), info.name, a) &&
      OccursAt(LegacyBuild(info, lang), info.birthDate, b) &&
      OccursAt(LegacyBuild(info, lang), info.medicalId, c)
  {
    var pre := LegacyIntro(info, lang);
    FourSlots(LegacyBuild(info, lang), pre, info.name, AfterName(lang), info.birthDate, AfterBirth(lang),
      info.medicalId, LegacyOutro(lang));
  }

  lemma FourSlots(t: string, pre: string, x: string, m1: string, y: string, m2: string, z: string, m3: string)
    requires t == pre + x + m1 + y + m2 + z + m3
    ensures OccursAt(t, x, |pre|)
    ensures OccursAt(t, y, |pre| + |x| + |m1|)
    ensures OccursAt(t, z, |pre| + |x| + |m1| + |y| + |m2|)
  {
    var a := |pre|;
    var b := a + |x| + |m1|;
    var c := b + |y| + |m2|;
    assert t[a..a + |x|] == x;
    assert t[b..b + |y|] == y;
    assert t[c..c + |z|] == z;
  }
}
