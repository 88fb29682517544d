/**
 * Tallies keyed by species, lineage or taxon id: the `Map<number, number>`
 * counters the engine builds with `counts.set(k, (counts.get(k) ?? 0) + n)`.
 * Iteration order of a JavaScript `Map` is not modelled; every operation here is
 * order independent.
 */
module Counts {

  type Counts = map<int, nat>

  /** `counts.get(k) ?? 0`. */
  function Get(m: Counts, k: int): nat
  {
    if k in m then m[k] else 0
  }

  /** A non-empty set has an element (stated for the `:|` choices below). */
  lemma SetHasElement(s: set<int>)
    requires |s| > 0
    ensures exists k :: k in s
  {
    if forall k :: k !in s {
      assert false;
    }
  }

  /** `counts.set(k, (counts.get(k) ?? 0) + 1)`. */
  function Bump(m: Counts, k: int): Counts
  {
    m[k := Get(m, k) + 1]
  }

  /** The sum of all counts. */
  ghost function Total(m: Counts): nat
    decreases |m|
  {
    if |m| == 0 then 0
    else
      SetHasElement(m.Keys);
      var k :| k in m.Keys;
      m[k] + Total(m - {k})
  }

  /** Any key may be taken out first: the sum does not depend on the order of the entries. */
  lemma {:induction false} TotalRemove(m: Counts, k: int)
    requires k in m
    ensures Total(m) == m[k] + Total(m - {k})
    decreases |m|
  {
    var j :| j in m && Total(m) == m[j] + Total(m - {j});
    if j != k {
      assert |m - {j}| == |m| - 1;
      TotalRemove(m - {j}, k);
      TotalRemove(m - {k}, j);
      assert m - {j} - {k} == m - {k} - {j};
    }
  }

  /** Adding `n` to one key adds `n` to the total. */
  lemma TotalAdd(m: Counts, k: int, n: nat)
    ensures Total(m[k := Get(m, k) + n]) == Total(m) + n
  {
    var m' := m[k := Get(m, k) + n];
    TotalRemove(m', k);
    if k in m {
      TotalRemove(m, k);
      assert m' - {k} == m - {k};
    } else {
      assert m' - {k} == m;
    }
  }

  /** Every single count is at most the total. */
  lemma CountAtMostTotal(m: Counts, k: int)
    requires k in m
    ensures m[k] <= Total(m)
  {
    TotalRemove(m, k);
  }

  /** The number of elements of `s` that `key` sends to `k`. */
  function Occurrences<T>(s: seq<T>, key: T -> int, k: int): (n: nat)
    ensures n <= |s|
  {
    if |s| == 0 then 0
    else Occurrences(s[..|s| - 1], key, k) + (if key(s[|s| - 1]) == k then 1 else 0)
  }

  /** `Occurrences` is positive exactly when some element has that key. */
  lemma {:induction false} OccurrencesPositive<T>(s: seq<T>, key: T -> int, k: int)
    ensures Occurrences(s, key, k) > 0 <==> exists i :: 0 <= i < |s| && key(s[i]) == k
  {
    if |s| > 0 {
      var p := s[..|s| - 1];
      OccurrencesPositive(p, key, k);
      if Occurrences(p, key, k) > 0 {
        var i :| 0 <= i < |p| && key(p[i]) == k;
        assert s[i] == p[i];
      }
      if exists i :: 0 <= i < |s| && key(s[i]) == k {
        var i :| 0 <= i < |s| && key(s[i]) == k;
        if i < |p| {
          assert key(p[i]) == k;
        }
      }
    }
  }

  /** The tally `countBy` returns, for any key function. */
  ghost predicate IsTally<T>(counts: Counts, s: seq<T>, key: T -> int)
  {
    && (forall k :: k in counts <==> Occurrences(s, key, k) > 0)
    && (forall k :: k in counts ==> counts[k] == Occurrences(s, key, k))
  }

  /** Counting one more element extends the tally and its total by one. */
  lemma TallyAppend<T>(counts: Counts, s: seq<T>, x: T, key: T -> int)
    requires IsTally(counts, s, key)
    ensures IsTally(Bump(counts, key(x)), s + [x], key)
    ensures Total(Bump(counts, key(x))) == Total(counts) + 1
  {
    TotalAdd(counts, key(x), 1);
    assert (s + [x])[..|s|] == s;
  }

  /** A tally is empty exactly when nothing was counted. */
  lemma TallyEmpty<T>(counts: Counts, s: seq<T>, key: T -> int)
    requires IsTally(counts, s, key)
    ensures |counts| == 0 <==> |s| == 0
  {
    if |s| > 0 {
      OccurrencesPositive(s, key, key(s[0]));
      assert key(s[0]) in counts;
    }
    if |counts| > 0 {
      SetHasElement(counts.Keys);
      var k :| k in counts.Keys;
      assert Occurrences(s, key, k) > 0;
    }
  }

  /** In a tally every count is positive. */
  lemma TallyPositive<T>(counts: Counts, s: seq<T>, key: T -> int, k: int)
    requires IsTally(counts, s, key) && k in counts
    ensures counts[k] > 0
  {
  }

  /** Taking one more key into a partial sum adds its count. */
  lemma TotalRestrictStep(m: Counts, remaining: set<int>, k: int)
    requires k in remaining && remaining <= m.Keys
    ensures Total(m - (remaining - {k})) == Total(m - remaining) + m[k]
  {
    var a, b := m - remaining, m - (remaining - {k});
    assert Get(a, k) == 0;
    TotalAdd(a, k, m[k]);
    assert b.Keys == a.Keys + {k};
    assert a[k := m[k]] == b;
  }

  /**
   * `countBy`: for each element, add 1 under its key.  The result holds exactly
   * the keys that occur, each with its number of occurrences, and its counts sum
   * to the number of elements.
   */
  method CountBy<T>(s: seq<T>, key: T -> int) returns (counts: Counts)
    ensures IsTally(counts, s, key)
    ensures Total(counts) == |s|
  {
    counts := map[];
    var i := 0;
    while i < |s|
      invariant 0 <= i <= |s|
      invariant IsTally(counts, s[..i], key) && Total(counts) == i
    {
      TallyPrefix(counts, s, i, key);
      counts := Bump(counts, key(s[i]));
      i := i + 1;
    }
    assert s[..|s|] == s;
  }

  /** One turn of `countBy`: the tally of a prefix, bumped, is the tally of the next prefix. */
  lemma TallyPrefix<T>(counts: Counts, s: seq<T>, i: nat, key: T -> int)
    requires i < |s| && IsTally(counts, s[..i], key)
    ensures IsTally(Bump(counts, key(s[i])), s[..i + 1], key)
    ensures Total(Bump(counts, key(s[i]))) == Total(counts) + 1
  {
    assert s[..i + 1] == s[..i] + [s[i]];
    TallyAppend(counts, s[..i], s[i], key);
  }

  /** Merging one tally into another, key by key (`counts.set(k, (counts.get(k) ?? 0) + n)` per entry). */
  function AddCounts(acc: Counts, m: Counts): (r: Counts)
    ensures r.Keys == acc.Keys + m.Keys
    ensures forall k :: Get(r, k) == Get(acc, k) + Get(m, k)
  {
    map k | k in acc.Keys + m.Keys :: Get(acc, k) + Get(m, k)
  }

  /**
   * The loop over the entries of `m` that adds each of them into `acc`, in
   * whatever order the entries come.
   */
  method MergeInto(acc: Counts, m: Counts) returns (r: Counts)
    ensures r == AddCounts(acc, m)
  {
    r := acc;
    var remaining := m.Keys;
    while |remaining| > 0
      invariant remaining <= m.Keys
      invariant r == AddCounts(acc, m - remaining)
      decreases |remaining|
    {
      SetHasElement(remaining);
      var k :| k in remaining;
      assert m - (remaining - {k}) == (m - remaining)[k := m[k]];
      r := r[k := Get(r, k) + m[k]];
      remaining := remaining - {k};
    }
    assert remaining == {};
    assert m - {} == m;
  }
}
