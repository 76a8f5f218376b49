/** The patient-field extractors of `OcrExtractors` and of the legacy
    activity: a scan over lines (or text blocks) that fills each of four
    keys from the first text where its pattern finds something. */
module FieldExtractors {
  import opened Base
  import opened Strings
  import opened Patterns
  import opened OrderedMap

  datatype Field = MedicalId | Name | Gender | Birth

  function KeyOf(f: Field): string
  {
    match f
    case MedicalId => "病歷號"
    case Name => "姓名"
    case Gender => "性別"
    case Birth => "生日"
  }

  /** The three scans: `LineScan` over lines (`extractMedicalFormFields`),
      `BlockScan` over trimmed text blocks, whose patterns have no `\s*`
      after the label and are only tried when the block contains the label
      (`extractMedicalFormFieldsByBlock`), and `UnifiedScan` over trimmed
      lines, which also removes `<<健保>>` from the birth line
      (`extractExamItemsUnified`). */
  datatype Scan = LineScan | BlockScan | UnifiedScan

  /** `(男|女|男性|女性)`. */
  const GenderOptions: seq<string> := ["男", "女", "男性", "女性"]

  /** `病歷號[:：]?\s*([A-Za-z0-9]+)`, `姓名[:：]?\s*([一-鿿A-Za-z]{2,10})`
      and `性別[:：]?\s*(男|女|男性|女性)`, without the `\s*` in a block scan. */
  function FieldPattern(f: Field, scan: Scan): Pattern
  {
    var spaces := scan != BlockScan;
    match f
    case MedicalId => Pattern(KeyOf(f), true, spaces, Run(Alnum, 1, Unbounded))
    case Name => Pattern(KeyOf(f), true, spaces, Run(HanOrLetter, 2, AtMost(10)))
    case _ => Pattern(KeyOf(Gender), true, spaces, Alternatives(GenderOptions))
  }

  predicate MentionsBirth(t: string) { Contains(t, "生日") || Contains(t, "出生") }

  /** The whole line with its spaces removed (`replace(" ", "")`), and in
      the unified scan with `<<健保>>` removed as well. */
  function BirthValue(t: string, scan: Scan): string
  {
    var v := RemoveChar(t, ' ');
    if scan == UnifiedScan then RemoveAll(v, "<<健保>>") else v
  }

  /** What one text offers for a field. */
  function Hit(t: string, f: Field, scan: Scan): Option<string>
  {
    if f == Birth then
      if MentionsBirth(t) then Some(BirthValue(t, scan)) else None
    else if scan == BlockScan && !Contains(t, KeyOf(f)) then None
    else Find(t, FieldPattern(f, scan))
  }

  /** `if (!result.containsKey(key)) ... result[key] = value`. */
  function Record(m: Entries, t: string, f: Field, scan: Scan): Entries
  {
    if HasKey(m, KeyOf(f)) then m
    else
      match Hit(t, f, scan)
      case Some(v) => m + [(KeyOf(f), v)]
      case None => m
  }

  /** One iteration of the loop: the four guarded assignments, in order. */
  function ScanText(m: Entries, t: string, scan: Scan): Entries
  {
    Record(Record(Record(Record(m, t, MedicalId, scan), t, Name, scan), t, Gender, scan), t, Birth, scan)
  }

  function ScanAll(m: Entries, ts: seq<string>, scan: Scan): Entries
    decreases |ts|
  {
    if ts == [] then m else ScanAll(ScanText(m, ts[0], scan), ts[1..], scan)
  }

  function ExtractFields(ts: seq<string>, scan: Scan): Entries { ScanAll([], ts, scan) }

  /** `extractMedicalFormFields`: the recognised text split at line feeds,
      each line with its trailing whitespace removed. */
  function MedicalFormFields(text: string): Entries
  {
    var ps := Pieces(text, '\n');
    ExtractFields(seq(|ps|, i requires 0 <= i < |ps| => TrimEnd(ps[i])), LineScan)
  }

  /** `extractMedicalFormFieldsByBlock`: the texts of the recognised blocks,
      trimmed. */
  function MedicalFormFieldsByBlock(blocks: seq<string>): Entries
  {
    ExtractFields(seq(|blocks|, i requires 0 <= i < |blocks| => Trim(blocks[i])), BlockScan)
  }

  // ---------------------------------------------------------------- first hit wins

  /** The reference reading: a field takes what the first text offering it
      offers. */
  function FirstHit(ts: seq<string>, f: Field, scan: Scan): Option<string>
    decreases |ts|
  {
    if ts == [] then None
    else if Hit(ts[0], f, scan).Some? then Hit(ts[0], f, scan)
    else FirstHit(ts[1..], f, scan)
  }

  lemma KeysDistinct(f: Field, g: Field)
    requires f != g
    ensures KeyOf(f) != KeyOf(g)
  {
    assert KeyOf(f)[0] != KeyOf(g)[0];
  }

  lemma {:induction false} LookupAppend(m: Entries, k: string, key: string, v: string)
    ensures Lookup(m + [(key, v)], k)
         == if HasKey(m, k) then Lookup(m, k) else if k == key then Some(v) else None
    decreases |m|
  {
    if m != [] {
      assert (m + [(key, v)])[0] == m[0];
      assert (m + [(key, v)])[1..] == m[1..] + [(key, v)];
      LookupAppend(m[1..], k, key, v);
      if m[0].0 != k {
        assert HasKey(m, k) <==> HasKey(m[1..], k) by {
          if HasKey(m, k) {
            var i :| 0 <= i < |m| && m[i].0 == k;
            assert m[1..][i - 1] == m[i];
          }
          if HasKey(m[1..], k) {
            var i :| 0 <= i < |m[1..]| && m[1..][i].0 == k;
            assert m[i + 1] == m[1..][i];
          }
        }
      }
    } else {
      assert [] + [(key, v)] == [(key, v)];
    }
  }

  lemma RecordLookup(m: Entries, t: string, f: Field, g: Field, scan: Scan)
    ensures Lookup(Record(m, t, g, scan), KeyOf(f))
         == if Lookup(m, KeyOf(f)).Some? || f != g then Lookup(m, KeyOf(f)) else Hit(t, f, scan)
  {
    if !HasKey(m, KeyOf(g)) && Hit(t, g, scan).Some? {
      LookupAppend(m, KeyOf(f), KeyOf(g), Hit(t, g, scan).value);
      if f != g {
        KeysDistinct(f, g);
      }
    }
  }

  lemma ScanTextLookup(m: Entries, t: string, f: Field, scan: Scan)
    ensures Lookup(ScanText(m, t, scan), KeyOf(f))
         == if Lookup(m, KeyOf(f)).Some? then Lookup(m, KeyOf(f)) else Hit(t, f, scan)
  {
    var m1 := Record(m, t, MedicalId, scan);
    var m2 := Record(m1, t, Name, scan);
    var m3 := Record(m2, t, Gender, scan);
    RecordLookup(m, t, f, MedicalId, scan);
    RecordLookup(m1, t, f, Name, scan);
    RecordLookup(m2, t, f, Gender, scan);
    RecordLookup(m3, t, f, Birth, scan);
  }

  lemma {:induction false} ScanAllLookup(m: Entries, ts: seq<string>, f: Field, scan: Scan)
    ensures Lookup(ScanAll(m, ts, scan), KeyOf(f))
         == if Lookup(m, KeyOf(f)).Some? then Lookup(m, KeyOf(f)) else FirstHit(ts, f, scan)
    decreases |ts|
  {
    if ts != [] {
      ScanTextLookup(m, ts[0], f, scan);
      ScanAllLookup(ScanText(m, ts[0], scan), ts[1..], f, scan);
    }
  }

  /** Every field holds what the first text offering it offers, whatever
      the other fields found, and is missing exactly when no text offers
      it. */
  lemma ExtractFieldsFirstHit(ts: seq<string>, f: Field, scan: Scan)
    ensures Lookup(ExtractFields(ts, scan), KeyOf(f)) == FirstHit(ts, f, scan)
  {
    ScanAllLookup([], ts, f, scan);
  }

  /** Each field of the line extractor is what the first line offering
      it offers, and likewise for the blocks of the block extractor. */
  lemma FormFieldsFirstHit(text: string, blocks: seq<string>, f: Field)
    ensures var ps := Pieces(text, '\n');
            Lookup(MedicalFormFields(text), KeyOf(f))
            == FirstHit(seq(|ps|, i requires 0 <= i < |ps| => TrimEnd(ps[i])), f, LineScan)
    ensures Lookup(MedicalFormFieldsByBlock(blocks), KeyOf(f))
            == FirstHit(seq(|blocks|, i requires 0 <= i < |blocks| => Trim(blocks[i])), f, BlockScan)
  {
    var ps := Pieces(text, '\n');
    ExtractFieldsFirstHit(seq(|ps|, i requires 0 <= i < |ps| => TrimEnd(ps[i])), f, LineScan);
    ExtractFieldsFirstHit(seq(|blocks|, i requires 0 <= i < |blocks| => Trim(blocks[i])), f, BlockScan);
  }

  predicate IsFieldKey(k: string)
  {
    k == KeyOf(MedicalId) || k == KeyOf(Name) || k == KeyOf(Gender) || k == KeyOf(Birth)
  }

  predicate FieldKeysOnly(m: Entries) { forall i | 0 <= i < |m| :: IsFieldKey(m[i].0) }

  /** The result holds only the four keys, each at most once. */
  lemma {:induction false} ScanAllKeys(m: Entries, ts: seq<string>, scan: Scan)
    requires FieldKeysOnly(m) && UniqueKeys(m)
    ensures FieldKeysOnly(ScanAll(m, ts, scan)) && UniqueKeys(ScanAll(m, ts, scan))
    decreases |ts|
  {
    if ts != [] {
      var t := ts[0];
      var m1 := Record(m, t, MedicalId, scan);
      var m2 := Record(m1, t, Name, scan);
      var m3 := Record(m2, t, Gender, scan);
      RecordKeys(m, t, MedicalId, scan);
      RecordKeys(m1, t, Name, scan);
      RecordKeys(m2, t, Gender, scan);
      RecordKeys(m3, t, Birth, scan);
      ScanAllKeys(ScanText(m, t, scan), ts[1..], scan);
    }
  }

  lemma RecordKeys(m: Entries, t: string, g: Field, scan: Scan)
    requires FieldKeysOnly(m) && UniqueKeys(m)
    ensures FieldKeysOnly(Record(m, t, g, scan)) && UniqueKeys(Record(m, t, g, scan))
  {
    var r := Record(m, t, g, scan);
    if r != m {
      assert r == m + [(KeyOf(g), Hit(t, g, scan).value)];
      assert !HasKey(m, KeyOf(g));
      forall i | 0 <= i < |r|
        ensures IsFieldKey(r[i].0)
      {
        if i < |m| {
          assert r[i] == m[i];
        }
      }
      forall i, j | 0 <= i < j < |r|
        ensures r[i].0 != r[j].0
      {
        assert r[i] == m[i];
        if j < |m| {
          assert r[j] == m[j];
        }
      }
    }
  }

  lemma ExtractFieldsKeys(ts: seq<string>, scan: Scan)
    ensures FieldKeysOnly(ExtractFields(ts, scan)) && UniqueKeys(ExtractFields(ts, scan))
  {
    ScanAllKeys([], ts, scan);
  }

  // ---------------------------------------------------------------- the field patterns

  /** A pattern finds something only where its label occurs. */
  lemma FindNeedsKeyword(s: string, p: Pattern)
    requires Find(s, p).Some?
    ensures Contains(s, p.keyword)
  {
    FindLeftmost(s, p);
    var j :| 0 <= j <= |s| && MatchAt(s, j, p).Some?;
    ContainsAt(s, p.keyword, j);
  }

  /** The block scan's `contains` guard changes nothing: a block without
      the label offers nothing to the pattern anyway. */
  lemma BlockGuardRedundant(t: string, f: Field)
    requires f != Birth
    ensures Hit(t, f, BlockScan) == Find(t, FieldPattern(f, BlockScan))
  {
    if Find(t, FieldPattern(f, BlockScan)).Some? {
      FindNeedsKeyword(t, FieldPattern(f, BlockScan));
    }
  }

  /** `男` is tried before `男性` and `女` before `女性`, so the gender is
      always the single character. */
  lemma GenderIsOneChar(t: string, scan: Scan)
    requires Hit(t, Gender, scan).Some?
    ensures Hit(t, Gender, scan).value in {"男", "女"}
  {
    var c := Hit(t, Gender, scan).value;
    assert Shape(Alternatives(GenderOptions), c);
    assert GenderOptions[2][0..1] == GenderOptions[0] && GenderOptions[3][0..1] == GenderOptions[1];
    assert StartsWith(GenderOptions[2], GenderOptions[0]) && StartsWith(GenderOptions[3], GenderOptions[1]);
  }

  /** A medical id is a non-empty run of ASCII letters and digits; a name is
      two to ten ideographs or ASCII letters. */
  lemma IdAndNameShape(t: string, scan: Scan)
    ensures Hit(t, MedicalId, scan).Some? ==>
      var v := Hit(t, MedicalId, scan).value;
      |v| >= 1 && forall i | 0 <= i < |v| :: IsLetter(v[i]) || IsDigit(v[i])
    ensures Hit(t, Name, scan).Some? ==>
      var v := Hit(t, Name, scan).value;
      2 <= |v| <= 10 && forall i | 0 <= i < |v| :: IsHan(v[i]) || IsLetter(v[i])
  {
  }

  /** The birth value keeps no space. */
  lemma BirthHasNoSpace(t: string, scan: Scan)
    requires Hit(t, Birth, scan).Some?
    ensures ' ' !in Hit(t, Birth, scan).value
  {
    var v := RemoveChar(t, ' ');
    assert forall i | 0 <= i < |v| :: v[i] != ' ';
    if scan == UnifiedScan {
      RemoveAllKeeps(v, "<<健保>>", ' ');
    }
  }

  /** Removing a pattern never brings in a character. */
  lemma {:induction false} RemoveAllKeeps(s: string, pat: string, c: char)
    requires |pat| > 0 && c !in s
    ensures c !in RemoveAll(s, pat)
    decreases |s|
  {
    if |s| >= |pat| {
      if s[..|pat|] == pat {
        RemoveAllKeeps(s[|pat|..], pat, c);
      } else {
        RemoveAllKeeps(s[1..], pat, c);
      }
    }
  }
}
