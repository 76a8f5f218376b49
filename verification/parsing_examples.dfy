/** Two inputs on which the patient parser's regular expressions behave
    differently from what a reader of the labels might expect. */
module ParsingExamples {
  import opened Base
  import opened Strings
  import opened Patterns
  import opened PatientParsing

  /** `[A-Za-z\s]` includes the line break, so the English name runs on
      into the next line of the text. */
  lemma EnglishNameSpansLines()
    ensures NameField("Name: Bob\nAge", English) == "Bob\nAge"
  {
    NameSpansLinesMatch();
    FirstOfLeadingMatch("Name: Bob\nAge", NamePatterns(English));
    TrimOfTrimmed("Bob\nAge");
    NoNameSymbols("Bob\nAge");
    CleanupKeepsPlainName("Bob\nAge");
  }

  lemma NameSpansLinesMatch()
    ensures MatchAt("Name: Bob\nAge", 0, NamePatterns(English)[0]) == Some("Bob\nAge")
  {
    var s := "Name: Bob\nAge";
    var p := Labelled("Name", EnglishName);
    assert NamePatterns(English)[0] == p;
    NameRuns();
    assert CaptureAt(s, 6, EnglishName) == Some("Bob\nAge");
    assert AfterColon(s, 5, p) == Some("Bob\nAge");
  }

  /** The runs of the input that the match goes through. */
  lemma NameRuns()
    ensures var s := "Name: Bob\nAge";
      s[..4] == "Name" && s[4] == ':' && SpaceRun(s, 5) == 1 && ClassRun(s, 6, LetterOrSpace) == 7
      && s[6..13] == "Bob\nAge"
  {
    var s := "Name: Bob\nAge";
    assert forall j | 6 <= j < 13 :: InClass(s[j], LetterOrSpace);
  }

  /** Letters and whitespace are not among the removed symbols. */
  lemma NoNameSymbols(n: string)
    requires forall i | 0 <= i < |n| :: IsLetter(n[i]) || IsSpace(n[i])
    ensures forall i | 0 <= i < |n| :: !IsNameSymbol(n[i])
  {
    forall i | 0 <= i < |n|
      ensures !IsNameSymbol(n[i])
    {
      NameSymbolsArePunctuation(n[i]);
    }
  }

  /** A space before the colon loses the name: `[:：]?` cannot skip the
      space, `\s*` then stops at the colon, and a lone colon is shorter
      than the two characters the capture needs. */
  lemma SpacedColonLosesName()
    ensures NameField("姓名 : 王小明", Chinese) == ""
  {
    SpacedColonFirst();
    SpacedColonOthers();
    assert FirstOf("姓名 : 王小明", NamePatterns(Chinese)).None?;
  }

  lemma SpacedColonOthers()
    ensures Find("姓名 : 王小明", NamePatterns(Chinese)[1]).None?
    ensures Find("姓名 : 王小明", NamePatterns(Chinese)[2]).None?
  {
    var s := "姓名 : 王小明";
    var ps := NamePatterns(Chinese);
    SpacedColonLacks('病');
    SpacedColonLacks('患');
    AbsentKeyword(s, ps[1]);
    AbsentKeyword(s, ps[2]);
  }

  lemma SpacedColonLacks(c: char)
    requires c == '病' || c == '患'
    ensures forall i | 0 <= i < |"姓名 : 王小明"| :: "姓名 : 王小明"[i] != c
  {
  }

  lemma SpacedColonFirst()
    ensures Find("姓名 : 王小明", NamePatterns(Chinese)[0]).None?
  {
    var s := "姓名 : 王小明";
    var p := NamePatterns(Chinese)[0];
    SpacedColonMatch();
    forall j | 1 <= j <= |s|
      ensures !OccursAt(s, "姓名", j)
    {
      if j + 2 <= |s| {
        assert s[j..j + 2][0] == s[j];
      }
    }
    NoMatchAtKeywords(s, p);
  }

  lemma SpacedColonMatch()
    ensures MatchAt("姓名 : 王小明", 0, NamePatterns(Chinese)[0]).None?
  {
    var s := "姓名 : 王小明";
    var p := Labelled("姓名", ChineseName);
    assert NamePatterns(Chinese)[0] == p;
    SpacedColonRuns();
    assert AfterColon(s, 2, p).None?;
  }

  /** The runs of the input that the match goes through. */
  lemma SpacedColonRuns()
    ensures var s := "姓名 : 王小明";
      s[..2] == "姓名" && s[2] == ' ' && SpaceRun(s, 2) == 1 && SpaceRun(s, 3) == 0
      && ClassRun(s, 2, NotSpace) == 0 && ClassRun(s, 3, NotSpace) == 1
  {
    var s := "姓名 : 王小明";
    assert ClassRun(s, 4, NotSpace) == 0;
  }
}
