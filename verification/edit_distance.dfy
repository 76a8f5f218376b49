/** The Levenshtein distance used by the translator's fuzzy fallback: a
    recursive definition over prefixes, and the two-dimensional dynamic
    programme of `ExamTranslator.levenshtein`, proved to compute it. */
module EditDistance {

  function Min(x: nat, y: nat): nat { if x <= y then x else y }

  function Cost(x: char, y: char): nat { if x == y then 0 else 1 }

  /** Distance between the prefixes `a[..i]` and `b[..j]`. */
  function D(a: string, b: string, i: nat, j: nat): nat
    requires i <= |a| && j <= |b|
    decreases i + j
  {
    if i == 0 then j
    else if j == 0 then i
    else Min(D(a, b, i - 1, j) + 1, Min(D(a, b, i, j - 1) + 1, D(a, b, i - 1, j - 1) + Cost(a[i - 1], b[j - 1])))
  }

  function Distance(a: string, b: string): nat { D(a, b, |a|, |b|) }

  /** Turning `a` into the empty string costs one deletion per character. */
  lemma DistanceToEmpty(a: string)
    ensures Distance(a, "") == |a|
  {
  }

  lemma {:induction false} DiagonalZero(a: string, i: nat)
    requires i <= |a|
    ensures D(a, a, i, i) == 0
  {
    if i > 0 {
      DiagonalZero(a, i - 1);
    }
  }

  /** A string is at distance zero from itself. */
  lemma DistanceToSelf(a: string)
    ensures Distance(a, a) == 0
  {
    DiagonalZero(a, |a|);
  }

  lemma {:induction false} PrefixLengthGap(a: string, b: string, i: nat, j: nat)
    requires i <= |a| && j <= |b|
    ensures D(a, b, i, j) >= i - j && D(a, b, i, j) >= j - i
    decreases i + j
  {
    if i > 0 && j > 0 {
      PrefixLengthGap(a, b, i - 1, j);
      PrefixLengthGap(a, b, i, j - 1);
      PrefixLengthGap(a, b, i - 1, j - 1);
    }
  }

  /** The distance is at least the difference of the lengths, so a key three
      or more characters longer or shorter than a word never matches it
      within distance 2. */
  lemma LengthGap(a: string, b: string)
    ensures Distance(a, b) >= |a| - |b| && Distance(a, b) >= |b| - |a|
  {
    PrefixLengthGap(a, b, |a|, |b|);
  }

  /** Rows `0..|t| - 1` of the table hold the distances of those prefixes. */
  predicate TableUpTo(a: string, b: string, t: seq<seq<nat>>)
  {
    |t| <= |a| + 1
    && (forall r | 0 <= r < |t| :: |t[r]| == |b| + 1)
    && forall r, c | 0 <= r < |t| && 0 <= c <= |b| :: t[r][c] == D(a, b, r, c)
  }

  lemma Grow(a: string, b: string, t: seq<seq<nat>>, row: seq<nat>)
    requires TableUpTo(a, b, t) && |t| <= |a| && |row| == |b| + 1
    requires forall c | 0 <= c <= |b| :: row[c] == D(a, b, |t|, c)
    ensures TableUpTo(a, b, t + [row])
  {
    var g := t + [row];
    forall r, c | 0 <= r < |g| && 0 <= c <= |b|
      ensures g[r][c] == D(a, b, r, c)
    {
      if r < |t| {
        assert g[r] == t[r];
      } else {
        assert g[r] == row;
      }
    }
  }

  /** `levenshtein(a, b)`: the table `dp` is built row by row; row 0 and
      column 0 hold their indices, every other cell is the cheapest of a
      deletion (upper neighbour), an insertion (left neighbour) and a
      substitution (upper-left neighbour plus the cost of the characters). */
  method Levenshtein(a: string, b: string) returns (d: nat)
    ensures d == Distance(a, b)
  {
    var first := FirstRow(a, b);
    var dp: seq<seq<nat>> := [first];
    Grow(a, b, [], first);
    var i := 0;
    while i < |a|
      invariant 0 <= i <= |a| && |dp| == i + 1
      invariant TableUpTo(a, b, dp)
    {
      var row := NextRow(a, b, i, dp[i]);
      Grow(a, b, dp, row);
      dp := dp + [row];
      i := i + 1;
    }
    d := dp[|a|][|b|];
  }

  /** Row 0 of the table: turning the empty prefix of `a` into `b[..c]`
      costs `c` insertions. */
  method FirstRow(a: string, b: string) returns (row: seq<nat>)
    ensures |row| == |b| + 1
    ensures forall c | 0 <= c <= |b| :: row[c] == D(a, b, 0, c)
  {
    row := [];
    var j := 0;
    while j <= |b|
      invariant 0 <= j <= |b| + 1 && |row| == j
      invariant forall c | 0 <= c < j :: row[c] == c
    {
      row := row + [j];
      j := j + 1;
    }
  }

  /** The inner loop of the programme: row `i + 1` of the table from row `i`. */
  method NextRow(a: string, b: string, i: nat, up: seq<nat>) returns (row: seq<nat>)
    requires i < |a| && |up| == |b| + 1
    requires forall c | 0 <= c <= |b| :: up[c] == D(a, b, i, c)
    ensures |row| == |b| + 1
    ensures forall c | 0 <= c <= |b| :: row[c] == D(a, b, i + 1, c)
  {
    row := [i + 1];
    var j := 0;
    while j < |b|
      invariant 0 <= j <= |b| && |row| == j + 1
      invariant forall c | 0 <= c <= j :: row[c] == D(a, b, i + 1, c)
    {
      var cost := if a[i] == b[j] then 0 else 1;
      row := row + [Min(up[j + 1] + 1, Min(row[j] + 1, up[j] + cost))];
      j := j + 1;
    }
  }
}
