/** Options, results and the finite-sum and cardinality facts the ledgers rest on. */
module Prelude {

  datatype Option<+T> = None | Some(value: T)

  /** A call either commits a new state or fails; a failed call rolls everything back. */
  datatype Result<+S, +E> = Ok(value: S) | Err(error: E)

  /** What a call did, as the specification says: commit and return Ok, or roll back and fail. */
  ghost predicate Follows<S, E>(spec: Result<S, E>, before: S, after: S, r: Result<(), E>) {
    match spec
    case Ok(s') => r == Ok(()) && after == s'
    case Err(e) => r == Err(e) && after == before
  }

  /** Storage mappings read as a default value where nothing was written. */
  function Get<K, V>(m: map<K, V>, k: K, default: V): V {
    if k in m then m[k] else default
  }

  ghost predicate Distinct<T>(s: seq<T>) {
    forall i, j :: 0 <= i < j < |s| ==> s[i] != s[j]
  }

  function Elements<T>(s: seq<T>): set<T> {
    set x | x in s
  }

  lemma {:induction false} DistinctCardinality<T>(s: seq<T>)
    requires Distinct(s)
    ensures |Elements(s)| == |s|
  {
    if s != [] {
      var front := s[..|s| - 1];
      DistinctCardinality(front);
      assert s == front + [s[|s| - 1]];
      assert Elements(s) == Elements(front) + {s[|s| - 1]};
    }
  }

  lemma SubsetCardinality<T>(a: set<T>, b: set<T>)
    requires a <= b
    ensures |a| <= |b|
  {
    assert b == a + (b - a);
  }

  /** A set that outnumbers its own overlap with `bad` has a member outside `bad`. */
  lemma OutnumberedHasWitness<T>(voters: set<T>, bad: set<T>) returns (w: T)
    requires |voters * bad| < |voters|
    ensures w in voters && w !in bad
  {
    assert voters * bad != voters;
    w :| w in voters && w !in bad;
  }

  // ----- sums over finite maps

  ghost function SumMap<K>(m: map<K, nat>): nat
    decreases |m|
  {
    if m == map[] then 0 else
      var k :| k in m;
      MapMinusKey(m, k);
      m[k] + SumMap(m - {k})
  }

  lemma MapMinusKey<K, V>(m: map<K, V>, k: K)
    requires k in m
    ensures |m - {k}| == |m| - 1
  {
    assert (m - {k}).Keys == m.Keys - {k};
  }

  lemma {:induction false} SumMapSplit<K>(m: map<K, nat>, k: K)
    requires k in m
    ensures SumMap(m) == m[k] + SumMap(m - {k})
    decreases |m|
  {
    var j :| j in m && SumMap(m) == m[j] + SumMap(m - {j});
    MapMinusKey(m, j);
    MapMinusKey(m, k);
    if j != k {
      SumMapSplit(m - {j}, k);
      SumMapSplit(m - {k}, j);
      assert m - {j} - {k} == m - {k} - {j};
    }
  }

  lemma SumMapUpdate<K>(m: map<K, nat>, k: K, v: nat)
    ensures SumMap(m[k := v]) + Get(m, k, 0) == SumMap(m) + v
  {
    SumMapSplit(m[k := v], k);
    assert m[k := v] - {k} == m - {k};
    if k in m {
      SumMapSplit(m, k);
    } else {
      assert m - {k} == m;
    }
  }

  lemma SumMapHolds<K>(m: map<K, nat>, k: K)
    ensures Get(m, k, 0) <= SumMap(m)
  {
    if k in m {
      SumMapSplit(m, k);
    }
  }

  lemma Distribute(n: nat, x: nat)
    requires n > 0
    ensures n * x == (n - 1) * x + x
  {
  }

  lemma MulMonotone(a: nat, b: nat, x: nat)
    requires a <= b
    ensures a * x <= b * x
  {
    assert b * x == a * x + (b - a) * x;
  }

  lemma Regroup(w: nat, high: nat, low: nat)
    ensures 256 * (w * high + low) == (256 * w) * high + 256 * low
  {
  }

  lemma QuotientUnique(x: nat, n: nat, q: nat, r: nat)
    requires n > 0 && x == n * q + r && r < n
    ensures x / n == q
  {
    var d := x / n;
    assert x == n * d + x % n;
    if d < q {
      MulMonotone(d + 1, q, n);
      assert false;
    } else if q < d {
      MulMonotone(q + 1, d, n);
      assert false;
    }
  }

  lemma DivMonotone(a: nat, b: nat, n: nat)
    requires a <= b && n > 0
    ensures a / n <= b / n
  {
    var (p, q) := (a / n, b / n);
    assert p * n <= a && b < (q + 1) * n;
    if q < p {
      MulMonotone(q + 1, p, n);
      assert false;
    }
  }

  lemma {:induction false} SumMapBound<K>(m: map<K, nat>, bound: nat)
    requires forall k :: k in m ==> m[k] <= bound
    ensures SumMap(m) <= |m| * bound
    decreases |m|
  {
    if m != map[] {
      var k :| k in m;
      SumMapSplit(m, k);
      MapMinusKey(m, k);
      SumMapBound(m - {k}, bound);
      Distribute(|m|, bound);
    }
  }

  lemma {:induction false} SumMapConstant<K>(m: map<K, nat>, value: nat)
    requires forall k :: k in m ==> m[k] == value
    ensures SumMap(m) == |m| * value
    decreases |m|
  {
    if m != map[] {
      var k :| k in m;
      SumMapSplit(m, k);
      MapMinusKey(m, k);
      SumMapConstant(m - {k}, value);
      Distribute(|m|, value);
    }
  }

  // ----- weighted sums over sequences

  ghost function SumBy<T>(s: seq<T>, weight: T -> nat): nat {
    if s == [] then 0 else SumBy(s[..|s| - 1], weight) + weight(s[|s| - 1])
  }

  lemma SumBySnoc<T>(s: seq<T>, x: T, weight: T -> nat)
    ensures SumBy(s + [x], weight) == SumBy(s, weight) + weight(x)
  {
    assert (s + [x])[..|s|] == s;
  }

  lemma {:induction false} SumBySame<T>(s: seq<T>, v: T -> nat, w: T -> nat)
    requires forall i :: 0 <= i < |s| ==> v(s[i]) == w(s[i])
    ensures SumBy(s, v) == SumBy(s, w)
  {
    if s != [] {
      SumBySame(s[..|s| - 1], v, w);
    }
  }

  /** Two weightings that differ at one index only differ by that entry's change. */
  lemma {:induction false} SumByChangedAt<T>(s: seq<T>, k: nat, v: T -> nat, w: T -> nat)
    requires k < |s|
    requires forall i :: 0 <= i < |s| && i != k ==> v(s[i]) == w(s[i])
    ensures SumBy(s, v) + w(s[k]) == SumBy(s, w) + v(s[k])
  {
    var front := s[..|s| - 1];
    if k == |s| - 1 {
      SumBySame(front, v, w);
    } else {
      SumByChangedAt(front, k, v, w);
    }
  }

  lemma {:induction false} SumByHolds<T>(s: seq<T>, k: nat, weight: T -> nat)
    requires k < |s|
    ensures weight(s[k]) <= SumBy(s, weight)
  {
    if k < |s| - 1 {
      SumByHolds(s[..|s| - 1], k, weight);
    }
  }
}
