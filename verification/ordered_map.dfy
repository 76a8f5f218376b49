/** Kotlin's `mapOf` / `mutableMapOf` (a `LinkedHashMap`) from strings to
    strings: entries in insertion order, which is also the iteration order
    that the fuzzy matcher and the report rendering depend on. */
module OrderedMap {
  import opened Base

  type Entries = seq<(string, string)>

  predicate HasKey(m: Entries, k: string) { exists i | 0 <= i < |m| :: m[i].0 == k }

  predicate UniqueKeys(m: Entries) { forall i, j | 0 <= i < j < |m| :: m[i].0 != m[j].0 }

  /** `m[k]`: the value of the first entry with key `k`. */
  function Lookup(m: Entries, k: string): (r: Option<string>)
    ensures r.Some? <==> HasKey(m, k)
    ensures r.Some? ==> exists i | 0 <= i < |m| :: m[i] == (k, r.value)
  {
    if m == [] then None
    else if m[0].0 == k then Some(m[0].1)
    else
      assert forall i | 1 <= i < |m| :: m[i] == m[1..][i - 1];
      Lookup(m[1..], k)
  }

  /** `m[k] = v` on a `LinkedHashMap`: an existing key keeps its position. */
  function Put(m: Entries, k: string, v: string): (r: Entries)
    ensures |r| == if HasKey(m, k) then |m| else |m| + 1
  {
    if m == [] then [(k, v)]
    else if m[0].0 == k then [(k, v)] + m[1..]
    else [m[0]] + Put(m[1..], k, v)
  }

  /** After `m[k] = v` the key maps to `v` and every other key looks up as
      before. */
  lemma {:induction false} PutLookup(m: Entries, k: string, v: string, k2: string)
    ensures Lookup(Put(m, k, v), k) == Some(v)
    ensures k2 != k ==> Lookup(Put(m, k, v), k2) == Lookup(m, k2)
  {
    if m != [] && m[0].0 != k {
      PutLookup(m[1..], k, v, k2);
    }
  }

  /** Assigning an existing key keeps every entry's key in its position. */
  lemma {:induction false} PutKeepsPositions(m: Entries, k: string, v: string)
    requires HasKey(m, k)
    ensures |Put(m, k, v)| == |m|
    ensures forall i | 0 <= i < |m| :: Put(m, k, v)[i].0 == m[i].0
  {
    if m[0].0 != k {
      var j :| 0 <= j < |m| && m[j].0 == k;
      assert m[1..][j - 1].0 == k;
      PutKeepsPositions(m[1..], k, v);
    }
  }

  /** `if (!m.containsKey(k)) m[k] = v`: the guarded assignment every field
      extractor uses. */
  function PutIfAbsent(m: Entries, k: string, v: string): Entries {
    if HasKey(m, k) then m else m + [(k, v)]
  }

  /** `m + e` (`putAll` of `e` into a copy of `m`). */
  function Plus(m: Entries, e: Entries): Entries
    decreases |e|
  {
    if e == [] then m else Plus(Put(m, e[0].0, e[0].1), e[1..])
  }

  predicate IsValue(m: Entries, v: string) { exists i | 0 <= i < |m| :: m[i].1 == v }

  /** Putting never invents a value. */
  lemma {:induction false} PutValues(m: Entries, k: string, v: string, w: string)
    requires IsValue(Put(m, k, v), w)
    ensures w == v || IsValue(m, w)
  {
    var r := Put(m, k, v);
    var i :| 0 <= i < |r| && r[i].1 == w;
    if m != [] && m[0].0 != k && i > 0 {
      assert Put(m[1..], k, v)[i - 1].1 == w;
      PutValues(m[1..], k, v, w);
      if w != v {
        var j :| 0 <= j < |m[1..]| && m[1..][j].1 == w;
        assert m[j + 1].1 == w;
      }
    } else if m != [] && i > 0 {
      assert m[i].1 == w;
    }
  }

  /** Every value of `m + e` is a value of `m` or of `e`. */
  lemma {:induction false} PlusValues(m: Entries, e: Entries, w: string)
    requires IsValue(Plus(m, e), w)
    ensures IsValue(m, w) || IsValue(e, w)
    decreases |e|
  {
    if e != [] {
      var p := Put(m, e[0].0, e[0].1);
      PlusValues(p, e[1..], w);
      if IsValue(p, w) {
        PutValues(m, e[0].0, e[0].1, w);
      } else {
        var j :| 0 <= j < |e[1..]| && e[1..][j].1 == w;
        assert e[j + 1].1 == w;
      }
    }
  }
}
