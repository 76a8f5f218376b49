/** The three translation tables of `MedDict`, in declaration order. */
module MedDict {
  import opened Base
  import opened Strings
  import opened OrderedMap

  /** `MedDict.dict`: single English words (side, view, anatomy) to Chinese. */
  const Dict: Entries := [
    ("Rt", "右"), ("R", "右"), ("Lt", "左"), ("L", "左"),
    ("Bil", "雙側"), ("Bilateral", "雙側"),
    ("AP", "前後位"), ("PA", "後前位"), ("Lat", "側位"), ("Oblique", "斜位"),
    ("Axial", "軸位"), ("Coronal", "冠狀位"), ("Sagittal", "矢狀位"),
    ("Supine", "仰臥位"), ("Prone", "俯臥位"), ("Flex", "屈曲"), ("Extension", "伸展"),
    ("Knee", "膝"), ("Femur", "股骨"), ("Tibia", "脛骨"), ("Fibula", "腓骨"),
    ("Humerus", "肱骨"), ("Radius", "橈骨"), ("Ulna", "尺骨"),
    ("Spine", "脊椎"), ("Cervical", "頸椎"), ("Lumbar", "腰椎"),
    ("Chest", "胸部"), ("Abdomen", "腹部"), ("Pelvis", "骨盆"), ("Skull", "顱骨")
  ]

  /** `MedDict.phraseDict`: whole exam-part strings. */
  const PhraseDict: Entries := [
    ("Rt Knee AP+Lat", "右膝 前後位+側位"),
    ("Lt Knee AP+Lat", "左膝 前後位+側位"),
    ("Lower Limbs - Rt AP", "右下肢 前後位"),
    ("Lower Limbs - Lt AP", "左下肢 前後位"),
    ("Lower extremities", "下肢"),
    ("Upper extremities", "上肢")
  ]

  /** `MedDict.codeDict`: procedure codes. */
  const CodeDict: Entries := [
    ("*340-0020", "右膝 前後位+側位"),
    ("*340-0010", "左膝 前後位+側位"),
    ("32017C", "下肢 X 光"),
    ("32018C", "下肢連續攝影")
  ]

  /** Every key of `dict` is capitalised. */
  lemma DictKeysCapitalised()
    ensures forall i | 0 <= i < |Dict| :: IsUpper(Dict[i].0[0])
  {
  }

  /** A lower-cased word is never a key of `dict`: the translator's fallback
      lowercases before its exact lookup, so that lookup always misses and
      every fallback translation comes from the second table or from the
      fuzzy matcher. */
  lemma LowercaseMissesDict(w: string)
    ensures Lookup(Dict, Lower(w)).None?
  {
    DictKeysCapitalised();
    if HasKey(Dict, Lower(w)) {
      var i :| 0 <= i < |Dict| && Dict[i].0 == Lower(w);
      assert false;
    }
  }
}
