/** Shared vocabulary of the OCR pipeline: an optional value, the two UI
    languages of the app, the range of the JVM's 32-bit `Int`, and the
    patient record the pipeline produces. */
module Base {

  /** Kotlin's nullable values (`T?`). */
  datatype Option<+T> = None | Some(value: T)

  /** The app's `currentLanguage`: "zh" (the default) or "en".  Every
      `isEnglish` flag of the source is `lang == English`. */
  datatype Lang = Chinese | English

  const MinInt: int := -0x8000_0000
  const MaxInt: int := 0x7FFF_FFFF

  /** A value of the JVM type `Int`. */
  type Int32 = x: int | MinInt <= x <= MaxInt

  /** `filter`: the elements satisfying `p`, in order. */
  function Filter<T>(s: seq<T>, p: T -> bool): (r: seq<T>)
    ensures |r| <= |s|
    ensures forall k | 0 <= k < |r| :: p(r[k])
  {
    if s == [] then [] else (if p(s[0]) then [s[0]] else []) + Filter(s[1..], p)
  }

  lemma {:induction false} FilterAppend<T>(a: seq<T>, b: seq<T>, p: T -> bool)
    ensures Filter(a + b, p) == Filter(a, p) + Filter(b, p)
  {
    if a != [] {
      assert (a + b)[0] == a[0];
      assert (a + b)[1..] == a[1..] + b;
      FilterAppend(a[1..], b, p);
    } else {
      assert a + b == b;
    }
  }

  /** Filtering keeps everything when everything passes. */
  lemma {:induction false} FilterAll<T>(s: seq<T>, p: T -> bool)
    requires forall k | 0 <= k < |s| :: p(s[k])
    ensures Filter(s, p) == s
  {
    if s != [] {
      FilterAll(s[1..], p);
      assert [s[0]] + s[1..] == s;
    }
  }

  /** A property of every element survives filtering. */
  lemma {:induction false} FilterKeeps<T>(s: seq<T>, p: T -> bool, q: T -> bool)
    requires forall k | 0 <= k < |s| :: q(s[k])
    ensures forall k | 0 <= k < |Filter(s, p)| :: q(Filter(s, p)[k])
  {
    if s != [] {
      FilterKeeps(s[1..], p, q);
      var h := if p(s[0]) then [s[0]] else [];
      var r := Filter(s, p);
      assert r == h + Filter(s[1..], p);
      forall k | 0 <= k < |r|
        ensures q(r[k])
      {
        if k < |h| {
          assert r[k] == s[0];
        } else {
          assert r[k] == Filter(s[1..], p)[k - |h|];
        }
      }
    }
  }

  /** `indexOfFirst`, with `|s|` standing for "none". */
  function FirstWhere<T>(s: seq<T>, p: T -> bool): (r: nat)
    ensures r <= |s|
    ensures r < |s| ==> p(s[r])
  {
    if s == [] then 0 else if p(s[0]) then 0 else 1 + FirstWhere(s[1..], p)
  }

  /** No element before the one `FirstWhere` finds satisfies `p`. */
  lemma {:induction false} FirstWhereIsFirst<T>(s: seq<T>, p: T -> bool, k: nat)
    requires k < FirstWhere(s, p)
    ensures !p(s[k])
  {
    if k > 0 {
      FirstWhereIsFirst(s[1..], p, k - 1);
    }
  }

  /** `FirstWhere` is the only index with its two properties. */
  lemma {:induction false} FirstWhereUnique<T>(s: seq<T>, p: T -> bool, n: nat)
    requires n <= |s| && (n < |s| ==> p(s[n]))
    requires forall k | 0 <= k < n :: !p(s[k])
    ensures FirstWhere(s, p) == n
  {
    if n > 0 {
      assert !p(s[0]);
      FirstWhereUnique(s[1..], p, n - 1);
    }
  }

  /** Searching after an index before the first hit finds the same hit. */
  lemma FirstWhereAfter<T>(s: seq<T>, p: T -> bool, i: nat)
    requires i < FirstWhere(s, p)
    ensures FirstWhere(s[i + 1..], p) == FirstWhere(s, p) - i - 1
  {
    var d := FirstWhere(s, p);
    var rest := s[i + 1..];
    forall k | 0 <= k < d - i - 1
      ensures !p(rest[k])
    {
      FirstWhereIsFirst(s, p, i + 1 + k);
    }
    FirstWhereUnique(rest, p, d - i - 1);
  }

  lemma SliceToEnd<T>(s: seq<T>, i: nat)
    requires i <= |s|
    ensures s[i..|s|] == s[i..]
  {
  }

  /** `PatientInfo` of `core/Models.kt`. */
  datatype PatientInfo = PatientInfo(name: string, birthDate: string, medicalId: string, examType: string)
}
