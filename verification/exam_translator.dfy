/** `ExamTranslator`: turns one exam-part line ("*340-0020 Rt Knee AP+Lat")
    into "<part> -> <Chinese>" through a cascade of code table, phrase
    tables, a word-by-word rule pass and a per-token fallback with fuzzy
    matching.  The supplementary table `extraDict` (loaded from JSON by the
    app) is a parameter. */
module ExamTranslator {
  import opened Base
  import opened Strings
  import opened OrderedMap
  import opened EditDistance
  import opened MedDict

  /** The separators of `[\s+/,]+`, the tokenisation of the cascade. */
  const TokenSeps: set<char> := {' ', '\t', '\n', '\U{000B}', '\U{000C}', '\r', '+', '/', ','}

  /** The separators of `[\s+/,-]+`, the tokenisation of the rule pass. */
  const PhraseSeps: set<char> := TokenSeps + {'-'}

  /** The default `maxDistance` of `fuzzyMatch`. */
  const MaxDistance: nat := 2

  const Arrow: string := " -> "

  function Tokens(part: string): seq<string> { Fields(part, TokenSeps) }

  /** `tokens.firstOrNull().orEmpty()`. */
  function FirstToken(part: string): string {
    var ts := Tokens(part);
    if ts == [] then "" else ts[0]
  }

  // ---------------------------------------------------------------- fuzzy matching

  /** The distance `fuzzyMatch` compares: both sides lower-cased. */
  function Dist(word: string, key: string): nat { Distance(Lower(word), Lower(key)) }

  /** After the first `i` entries of `d`, `best` is the index of the first
      entry at the smallest distance seen so far, provided that distance is
      at most `MaxDistance`. */
  predicate BestSoFar(word: string, d: Entries, i: nat, best: Option<nat>) {
    i <= |d| &&
    match best
    case None => forall j | 0 <= j < i :: Dist(word, d[j].0) > MaxDistance
    case Some(k) =>
      k < i && Dist(word, d[k].0) <= MaxDistance
      && (forall j | 0 <= j < i :: Dist(word, d[j].0) >= Dist(word, d[k].0))
      && (forall j | 0 <= j < k :: Dist(word, d[j].0) > Dist(word, d[k].0))
  }

  /** The loop of `fuzzyMatch` from entry `i` on: an entry replaces the best
      one only when it is strictly closer. */
  function FuzzyScan(word: string, d: Entries, i: nat, best: Option<nat>): (r: Option<nat>)
    requires BestSoFar(word, d, i, best)
    ensures BestSoFar(word, d, |d|, r)
    decreases |d| - i
  {
    if i == |d| then best
    else
      var dist := Dist(word, d[i].0);
      var closer := dist <= MaxDistance && (best.None? || dist < Dist(word, d[best.value].0));
      FuzzyScan(word, d, i + 1, if closer then Some(i) else best)
  }

  /** Every key of `d` is more than `MaxDistance` away from `word`. */
  predicate AllFar(word: string, d: Entries) {
    forall j | 0 <= j < |d| :: Dist(word, d[j].0) > MaxDistance
  }

  /** `fuzzyMatch(word, d)`: the value of the first entry at the smallest
      distance, when that distance is at most 2. */
  function FuzzyMatch(word: string, d: Entries): (r: Option<string>)
    ensures r.None? <==> forall j | 0 <= j < |d| :: Dist(word, d[j].0) > MaxDistance
    ensures r.Some? ==> exists k | 0 <= k < |d| ::
      r.value == d[k].1 && Dist(word, d[k].0) <= MaxDistance
      && (forall j | 0 <= j < |d| :: Dist(word, d[j].0) >= Dist(word, d[k].0))
      && (forall j | 0 <= j < k :: Dist(word, d[j].0) > Dist(word, d[k].0))
  {
    match FuzzyScan(word, d, 0, None)
    case None => None
    case Some(k) => Some(d[k].1)
  }

  // ---------------------------------------------------------------- rule pass

  /** `isCodeOrNumber`: `^\*?\d[\dA-Za-z-]*$`. */
  predicate IsCodeOrNumber(t: string) {
    var p := if |t| > 0 && t[0] == '*' then 1 else 0;
    p < |t| && IsDigit(t[p]) && forall i | p < i < |t| :: IsDigit(t[i]) || IsLetter(t[i]) || t[i] == '-'
  }

  /** The lookup key of a token: its letters, lower-cased. */
  function Key(t: string): string { Lower(LettersOnly(t)) }

  /** A token the rule pass ignores. */
  predicate Ignored(t: string) { IsCodeOrNumber(t) || IsBlank(Key(t)) }

  const LeftWords: seq<string> := ["lt", "l", "left"]
  const RightWords: seq<string> := ["rt", "r", "right"]
  const ViewWords: seq<string> :=
    ["ap", "pa", "lat", "oblique", "axial", "coronal", "sagittal", "supine", "prone", "flex", "extension"]

  /** The Chinese view terms that are never taken for a body part. */
  const ViewTerms: seq<string> :=
    ["前後位", "後前位", "側位", "斜位", "軸位", "冠狀位", "矢狀位", "仰臥位", "俯臥位", "屈曲", "伸展"]

  /** What one token contributes to the phrase: the branches of the `when`
      in the loop body, in their order.  The `when` looks at the state only
      through `body == null`, which `Apply` checks. */
  datatype TokenClass = SideWord(side: string) | ViewWord(view: string) | BodyWord(body: string) | OtherWord

  function Classify(dict: Entries, t: string): TokenClass {
    if Ignored(t) then OtherWord
    else
      var k := Key(t);
      if k in LeftWords then SideWord("左")
      else if k in RightWords then SideWord("右")
      else if k in ViewWords then
        match Lookup(dict, k)
        case Some(zh) => ViewWord(zh)
        case None => OtherWord
      else if HasKey(dict, k) then
        var zh := Lookup(dict, k).value;
        if zh !in ViewTerms then BodyWord(zh) else OtherWord
      else OtherWord
  }

  datatype PhraseState = PhraseState(side: Option<string>, body: Option<string>, views: seq<string>)

  const Start: PhraseState := PhraseState(None, None, [])

  /** One iteration of the loop: a side word overwrites the side, a view
      term not yet listed is appended, a body word fills an empty body. */
  function Apply(st: PhraseState, c: TokenClass): PhraseState {
    match c
    case SideWord(s) => st.(side := Some(s))
    case ViewWord(v) => if v in st.views then st else st.(views := st.views + [v])
    case BodyWord(b) => if st.body.None? then st.(body := Some(b)) else st
    case OtherWord => st
  }

  /** The loop over the classified tokens, in order. */
  function Fold(cs: seq<TokenClass>): PhraseState
    decreases |cs|
  {
    if cs == [] then Start else Apply(Fold(cs[..|cs| - 1]), cs[|cs| - 1])
  }

  function Classes(dict: Entries, ts: seq<string>): seq<TokenClass> {
    seq(|ts|, i requires 0 <= i < |ts| => Classify(dict, ts[i]))
  }

  /** A side is found exactly when some token is a side word. */
  lemma {:induction false} SideFound(cs: seq<TokenClass>)
    ensures Fold(cs).side.Some? <==> exists i | 0 <= i < |cs| :: cs[i].SideWord?
    decreases |cs|
  {
    if cs != [] {
      var pre := cs[..|cs| - 1];
      SideFound(pre);
      assert forall i | 0 <= i < |pre| :: pre[i] == cs[i];
    }
  }

  /** The side is the one named by the LAST side word. */
  lemma {:induction false} SideIsLast(cs: seq<TokenClass>)
    ensures Fold(cs).side.Some? ==> exists i | 0 <= i < |cs| ::
      cs[i] == SideWord(Fold(cs).side.value) && forall j | i < j < |cs| :: !cs[j].SideWord?
    decreases |cs|
  {
    if cs != [] {
      var pre := cs[..|cs| - 1];
      var last := cs[|cs| - 1];
      assert Fold(cs) == Apply(Fold(pre), last);
      if last.SideWord? {
        assert Fold(cs).side == Some(last.side);
        assert cs[|cs| - 1] == SideWord(Fold(cs).side.value);
      } else {
        assert Fold(cs).side == Fold(pre).side;
        if Fold(cs).side.Some? {
          SideIsLast(pre);
          var i :| 0 <= i < |pre| && pre[i] == SideWord(Fold(pre).side.value)
            && forall j | i < j < |pre| :: !pre[j].SideWord?;
          assert cs[i] == pre[i];
          assert forall j | i < j < |cs| :: !cs[j].SideWord? by {
            assert forall j | i < j < |pre| :: cs[j] == pre[j];
          }
        }
      }
    }
  }

  /** The body is the one named by the FIRST body word. */
  lemma {:induction false} BodyIsFirst(cs: seq<TokenClass>)
    ensures Fold(cs).body.Some? <==> exists i | 0 <= i < |cs| :: cs[i].BodyWord?
    ensures Fold(cs).body.Some? ==> exists i | 0 <= i < |cs| ::
      cs[i] == BodyWord(Fold(cs).body.value) && forall j | 0 <= j < i :: !cs[j].BodyWord?
    decreases |cs|
  {
    if cs != [] {
      var pre := cs[..|cs| - 1];
      BodyIsFirst(pre);
      assert forall i | 0 <= i < |pre| :: pre[i] == cs[i];
      if Fold(pre).body.Some? {
        assert Fold(cs).body == Fold(pre).body;
      }
    }
  }

  predicate NoDuplicates(s: seq<string>) { forall p, q | 0 <= p < q < |s| :: s[p] != s[q] }

  /** The index of the first occurrence of `c` in `cs`. */
  function FirstIndex(cs: seq<TokenClass>, c: TokenClass): (i: nat)
    requires c in cs
    ensures i < |cs| && cs[i] == c && c !in cs[..i]
  {
    if cs[0] == c then 0
    else
      assert cs[1..][..FirstIndex(cs[1..], c)] == cs[1..1 + FirstIndex(cs[1..], c)];
      assert cs[..1 + FirstIndex(cs[1..], c)] == [cs[0]] + cs[1..1 + FirstIndex(cs[1..], c)];
      1 + FirstIndex(cs[1..], c)
  }

  /** Appending to a sequence does not move a first occurrence. */
  lemma FirstIndexExtend(cs: seq<TokenClass>, x: TokenClass, c: TokenClass)
    requires c in cs
    ensures c in cs + [x] && FirstIndex(cs + [x], c) == FirstIndex(cs, c)
  {
    if cs[0] != c {
      FirstIndexExtend(cs[1..], x, c);
      assert (cs + [x])[1..] == cs[1..] + [x];
    }
  }

  /** `views` lists the distinct view terms named in `cs`, each once, in
      the order of their first appearance. */
  ghost predicate ListsViewsInFirstOrder(cs: seq<TokenClass>, views: seq<string>) {
    NoDuplicates(views)
    && (forall v :: v in views <==> ViewWord(v) in cs)
    && forall p, q | 0 <= p < q < |views| ::
      ViewWord(views[p]) in cs && ViewWord(views[q]) in cs
      && FirstIndex(cs, ViewWord(views[p])) < FirstIndex(cs, ViewWord(views[q]))
  }

  /** The views the loop collects are the distinct view terms named, in the
      order of their first appearance. */
  lemma {:induction false} ViewsInFirstOrder(cs: seq<TokenClass>)
    ensures ListsViewsInFirstOrder(cs, Fold(cs).views)
    decreases |cs|
  {
    if cs != [] {
      var pre := cs[..|cs| - 1];
      ViewsInFirstOrder(pre);
      assert cs == pre + [cs[|cs| - 1]];
      var c := cs[|cs| - 1];
      if c.ViewWord? && c.view !in Fold(pre).views {
        NewViewStep(pre, c.view);
      } else {
        SameViewsStep(pre, c);
      }
    }
  }

  lemma NewViewStep(pre: seq<TokenClass>, v: string)
    requires ListsViewsInFirstOrder(pre, Fold(pre).views) && v !in Fold(pre).views
    ensures ListsViewsInFirstOrder(pre + [ViewWord(v)], Fold(pre).views + [v])
  {
    var cs := pre + [ViewWord(v)];
    var before := Fold(pre).views;
    var views := before + [v];
    assert ViewWord(v) !in pre;
    assert FirstIndex(cs, ViewWord(v)) == |pre|;
    forall w | ViewWord(w) in pre ensures FirstIndex(cs, ViewWord(w)) == FirstIndex(pre, ViewWord(w)) {
      FirstIndexExtend(pre, ViewWord(v), ViewWord(w));
    }
    forall p, q | 0 <= p < q < |views|
      ensures ViewWord(views[p]) in cs && ViewWord(views[q]) in cs
        && FirstIndex(cs, ViewWord(views[p])) < FirstIndex(cs, ViewWord(views[q]))
    {
      assert views[p] == before[p];
      if q < |before| {
        assert views[q] == before[q];
      }
    }
  }

  lemma SameViewsStep(pre: seq<TokenClass>, c: TokenClass)
    requires ListsViewsInFirstOrder(pre, Fold(pre).views)
    requires !(c.ViewWord? && c.view !in Fold(pre).views)
    ensures ListsViewsInFirstOrder(pre + [c], Fold(pre).views)
  {
    forall w | ViewWord(w) in pre ensures FirstIndex(pre + [c], ViewWord(w)) == FirstIndex(pre, ViewWord(w)) {
      FirstIndexExtend(pre, c, ViewWord(w));
    }
  }

  /** `viewsText`: one view alone, two joined by 和, more listed with 、 and
      the last one joined by 和. */
  function ViewsText(views: seq<string>): string {
    if |views| == 0 then ""
    else if |views| == 1 then views[0]
    else if |views| == 2 then views[0] + "和" + views[1]
    else Join(views[..|views| - 1], "、") + "和" + views[|views| - 1]
  }

  function NonBlankOr(v: Option<string>): string {
    if v.Some? && !IsBlank(v.value) then v.value else ""
  }

  /** `toChinesePhrase` against an arbitrary word table: side, then body,
      then views. */
  function Phrase(dict: Entries, part: string): string {
    Assemble(Fold(Classes(dict, Fields(part, PhraseSeps))))
  }

  /** The `StringBuilder` at the end of `toChinesePhrase`. */
  function Assemble(st: PhraseState): string {
    var vt := ViewsText(st.views);
    NonBlankOr(st.side) + NonBlankOr(st.body) + (if IsBlank(vt) then "" else vt)
  }

  /** `toChinesePhrase` as shipped: against `MedDict.dict`. */
  function ToChinesePhrase(part: string): string { Phrase(Dict, part) }

  /** A token that names a side: lt, l, left, rt, r or right, in any case
      and with any non-letters around the letters. */
  predicate NamesSide(t: string) {
    !Ignored(t) && (Key(t) in LeftWords || Key(t) in RightWords)
  }

  /** Against the shipped table every token is a side word or nothing: the
      keys of `dict` are capitalised and the rule pass looks up lower-cased
      keys. */
  lemma ShippedClasses(t: string)
    ensures Classify(Dict, t) in {SideWord("左"), SideWord("右"), OtherWord}
    ensures Classify(Dict, t).SideWord? <==> NamesSide(t)
  {
    LowercaseMissesDict(LettersOnly(t));
  }

  lemma {:induction false} SidesOnlyFold(cs: seq<TokenClass>)
    requires forall i | 0 <= i < |cs| :: cs[i] in {SideWord("左"), SideWord("右"), OtherWord}
    ensures Fold(cs).body.None? && Fold(cs).views == []
    ensures Fold(cs).side in {None, Some("左"), Some("右")}
    decreases |cs|
  {
    if cs != [] {
      SidesOnlyFold(cs[..|cs| - 1]);
    }
  }

  lemma ShippedFold(ts: seq<string>)
    ensures var st := Fold(Classes(Dict, ts));
      st.body.None? && st.views == [] && st.side in {None, Some("左"), Some("右")}
      && (st.side.Some? <==> exists i | 0 <= i < |ts| :: NamesSide(ts[i]))
  {
    var cs := Classes(Dict, ts);
    forall i | 0 <= i < |cs|
      ensures cs[i] in {SideWord("左"), SideWord("右"), OtherWord}
      ensures cs[i].SideWord? <==> NamesSide(ts[i])
    {
      ShippedClasses(ts[i]);
    }
    SidesOnlyFold(cs);
    SideFound(cs);
  }

  /** The shipped rule pass can only produce a side: "" when no token names
      a side, otherwise 左 or 右 as the last side word says. */
  lemma ShippedPhraseIsSideOnly(ts: seq<string>)
    ensures Assemble(Fold(Classes(Dict, ts))) in {"", "左", "右"}
    ensures Assemble(Fold(Classes(Dict, ts))) != "" <==> exists i | 0 <= i < |ts| :: NamesSide(ts[i])
  {
    ShippedFold(ts);
    var st := Fold(Classes(Dict, ts));
    AssembleSideOnly(st);
    if st.side.Some? {
      assert |Assemble(st)| == 1;
    }
  }

  lemma AssembleSideOnly(st: PhraseState)
    requires st.body.None? && st.views == [] && st.side in {None, Some("左"), Some("右")}
    ensures Assemble(st) == if st.side.Some? then st.side.value else ""
  {
    assert ViewsText([]) == "";
    if st.side.Some? {
      assert !IsSpace(st.side.value[0]);
    }
  }

  // ---------------------------------------------------------------- the cascade

  /** The supplementary translation of one fallback token, if any: exact
      `dict`, exact `extraDict`, then fuzzy over `dict + extraDict`, always
      on the token's letters lower-cased. */
  function TokenTranslation(extra: Entries, t: string): (r: Option<string>)
    ensures r.Some? ==> IsValue(Dict, r.value) || IsValue(extra, r.value)
    ensures r.None? <==> !HasKey(Dict, Key(t)) && !HasKey(extra, Key(t)) && AllFar(Key(t), Plus(Dict, extra))
    ensures HasKey(Dict, Key(t)) ==> r == Lookup(Dict, Key(t))
    ensures !HasKey(Dict, Key(t)) && HasKey(extra, Key(t)) ==> r == Lookup(extra, Key(t))
    ensures !HasKey(Dict, Key(t)) && !HasKey(extra, Key(t)) ==> r == FuzzyMatch(Key(t), Plus(Dict, extra))
  {
    var cleaned := Key(t);
    var b := Lookup(Dict, cleaned);
    if b.Some? then b
    else
      var e := Lookup(extra, cleaned);
      if e.Some? then e
      else
        var f := FuzzyMatch(cleaned, Plus(Dict, extra));
        if f.Some? then PlusValues(Dict, extra, f.value); f else None
  }

  /** One token of the fallback: the token, followed by its translation
      when one is found. */
  function FallbackItem(extra: Entries, t: string): (r: string)
    ensures r == t || exists v :: r == t + " " + v && (IsValue(Dict, v) || IsValue(extra, v))
    ensures r == t <==> TokenTranslation(extra, t).None?
  {
    match TokenTranslation(extra, t)
    case Some(v) => t + " " + v
    case None => t
  }

  /** `translateExamPart(part)` with `extraDict == extra`. */
  function TranslateExamPart(extra: Entries, part: string): string {
    match Lookup(CodeDict, FirstToken(part))
    case Some(m) => part + Arrow + m
    case None =>
      match Lookup(PhraseDict, part)
      case Some(p) => part + Arrow + p
      case None =>
        match Lookup(extra, part)
        case Some(p) => part + Arrow + p
        case None =>
          var phrase := ToChinesePhrase(part);
          if !IsBlank(phrase) then part + Arrow + phrase
          else Join(FallbackItems(extra, Tokens(part)), " ")
  }

  /** `tokens.map { ... }`: one fallback item per token, in order. */
  function FallbackItems(extra: Entries, ts: seq<string>): (r: seq<string>)
    ensures |r| == |ts| && forall i | 0 <= i < |ts| :: r[i] == FallbackItem(extra, ts[i])
  {
    seq(|ts|, i requires 0 <= i < |ts| => FallbackItem(extra, ts[i]))
  }

  /** The tiers of the cascade, in order: the code table on the first
      token, the phrase table and then the supplementary table on the whole
      part, and the rule phrase. A tier is reached only when every earlier
      one misses; the last tier is the fallback (FallbackTier). */
  lemma TranslationTiers(extra: Entries, part: string)
    ensures IsCodeKey(FirstToken(part)) ==>
      TranslateExamPart(extra, part) == part + Arrow + Lookup(CodeDict, FirstToken(part)).value
    ensures !IsCodeKey(FirstToken(part)) && HasKey(PhraseDict, part) ==>
      TranslateExamPart(extra, part) == part + Arrow + Lookup(PhraseDict, part).value
    ensures !IsCodeKey(FirstToken(part)) && !HasKey(PhraseDict, part) && HasKey(extra, part) ==>
      TranslateExamPart(extra, part) == part + Arrow + Lookup(extra, part).value
    ensures !IsCodeKey(FirstToken(part)) && !HasKey(PhraseDict, part) && !HasKey(extra, part)
            && !IsBlank(ToChinesePhrase(part)) ==>
      TranslateExamPart(extra, part) == part + Arrow + ToChinesePhrase(part)
  {
  }

  /** When every earlier tier misses, the result is the fallback items of
      the tokens joined by spaces: one item per token, each the token itself
      or the token, a space and a table value (FallbackItems, FallbackItem). */
  lemma FallbackTier(extra: Entries, part: string)
    requires !IsCodeKey(FirstToken(part)) && !HasKey(PhraseDict, part) && !HasKey(extra, part)
    requires IsBlank(ToChinesePhrase(part))
    ensures TranslateExamPart(extra, part) == Join(FallbackItems(extra, Tokens(part)), " ")
  {
  }

  /** The supplementary table is consulted only after the code and phrase
      tables miss, and the rule phrase does not read it: two tables that
      both lack the part translate it alike until the fallback. */
  lemma UpperTiersIgnoreExtra(e1: Entries, e2: Entries, part: string)
    ensures IsCodeKey(FirstToken(part)) || HasKey(PhraseDict, part) ==>
      TranslateExamPart(e1, part) == TranslateExamPart(e2, part)
    ensures !HasKey(e1, part) && !HasKey(e2, part) && !IsBlank(ToChinesePhrase(part)) ==>
      TranslateExamPart(e1, part) == TranslateExamPart(e2, part)
  {
  }

  predicate IsCodeKey(c: string) { HasKey(CodeDict, c) }

  /** A part led by a known procedure code is translated by the code table
      alone, whatever follows the code and whatever `extraDict` holds. */
  lemma CodeLedPart(extra: Entries, code: string, rest: string)
    requires IsCodeKey(code)
    requires rest == [] || rest[0] in TokenSeps
    ensures TranslateExamPart(extra, code + rest) == code + rest + Arrow + Lookup(CodeDict, code).value
  {
    FirstField(code, rest, TokenSeps);
  }

  /** Translation is not idempotent: translating the output of a code hit
      fires the code table again and appends a second arrow. */
  lemma CodeHitNotIdempotent(extra: Entries, code: string, rest: string)
    requires IsCodeKey(code)
    requires rest == [] || rest[0] in TokenSeps
    ensures TranslateExamPart(extra, TranslateExamPart(extra, code + rest))
      == TranslateExamPart(extra, code + rest) + Arrow + Lookup(CodeDict, code).value
  {
    var m := Lookup(CodeDict, code).value;
    var tail := rest + Arrow + m;
    CodeLedPart(extra, code, rest);
    Regroup(code, rest, Arrow, m);
    assert TranslateExamPart(extra, code + rest) == code + tail;
    assert tail[0] in TokenSeps by {
      assert rest == [] ==> tail[0] == ' ';
    }
    CodeLedPart(extra, code, tail);
  }

  lemma Regroup(a: string, b: string, c: string, d: string)
    ensures a + b + c + d == a + (b + c + d)
  {
  }

  /** With no supplementary table loaded, a fallback token without letters
      (a code such as "*340-0004") is looked up as "", which is within
      distance 1 of "R": the token comes out as "<token> 右", although the
      comment above the fallback says digits and symbols are not translated. */
  lemma LetterlessTokenReadsAsRight(t: string)
    requires !HasLetter(t)
    ensures FallbackItem([], t) == t + " " + "右"
  {
    LetterlessKey(t);
    EmptyKeyReadsAsRight();
    assert TokenTranslation([], t) == Some("右");
  }

  lemma LetterlessKey(t: string)
    requires !HasLetter(t)
    ensures Key(t) == []
  {
    if LettersOnly(t) != [] {
      assert IsLetter(LettersOnly(t)[0]);
      LettersAreFromSource(t);
    }
  }

  /** The empty key misses both tables and is fuzzily matched to "右". */
  lemma EmptyKeyReadsAsRight()
    ensures Lookup(Dict, []).None? && Lookup([], []).None?
    ensures FuzzyMatch([], Plus(Dict, [])) == Some("右")
  {
    LowercaseMissesDict([]);
    assert Plus(Dict, []) == Dict;
    DictNearestToEmpty();
  }

  /** Among the keys of `dict`, the empty word is nearest to "R" (distance
      1; "Rt", before it, is at distance 2 and no key is empty). */
  lemma DictNearestToEmpty()
    ensures FuzzyMatch([], Dict) == Some("右")
  {
    forall j | 0 <= j < |Dict| ensures Dist([], Dict[j].0) >= 1 {
      DistanceFromEmpty(Dict[j].0);
    }
    DistanceFromEmpty(Dict[0].0);
    DistanceFromEmpty(Dict[1].0);
    NearestIsSecond([], Dict);
  }

  /** When the second entry is at distance 1, the first at distance 2 and
      none at distance 0, the fuzzy match is the second entry's value. */
  lemma NearestIsSecond(word: string, d: Entries)
    requires |d| >= 2 && Dist(word, d[0].0) == 2 && Dist(word, d[1].0) == 1
    requires forall j | 0 <= j < |d| :: Dist(word, d[j].0) >= 1
    ensures FuzzyMatch(word, d) == Some(d[1].1)
  {
    var r := FuzzyMatch(word, d);
    var k :| 0 <= k < |d| && r.value == d[k].1 && Dist(word, d[k].0) <= MaxDistance
      && (forall j | 0 <= j < |d| :: Dist(word, d[j].0) >= Dist(word, d[k].0))
      && (forall j | 0 <= j < k :: Dist(word, d[j].0) > Dist(word, d[k].0));
    assert Dist(word, d[k].0) == 1;
  }

  /** The empty word is at distance |key| from every key. */
  lemma DistanceFromEmpty(key: string)
    ensures Dist([], key) == |key|
  {
    assert |Lower(key)| == |key|;
  }

  lemma LettersAreFromSource(t: string)
    requires LettersOnly(t) != []
    ensures HasLetter(t)
  {
    if t != [] && !IsLetter(t[0]) {
      LettersAreFromSource(t[1..]);
    }
  }
}
