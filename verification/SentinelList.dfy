/** A singly linked cycle kept in a mapping, entered through a sentinel: how the Safe stores its owners
    and its modules. Absent keys read as address zero. */
module SentinelList {
  import opened Prelude
  import opened Bytes

  const ZERO: Address := 0
  const SENTINEL: Address := 1

  type Links = map<Address, Address>

  function At(m: Links, a: Address): Address {
    Get(m, a, ZERO)
  }

  /** The walk around the cycle, starting and ending at the sentinel. */
  function Cycle(list: seq<Address>): seq<Address> {
    [SENTINEL] + list + [SENTINEL]
  }

  ghost predicate Proper(list: seq<Address>) {
    Distinct(list) && ZERO !in list && SENTINEL !in list
  }

  /** The mapping is exactly the cycle through these elements, each of them once. */
  ghost predicate Linked(m: Links, list: seq<Address>) {
    && Proper(list)
    && (forall k :: 0 <= k <= |list| ==> At(m, Cycle(list)[k]) == Cycle(list)[k + 1])
    && (forall a: Address :: a != SENTINEL && a !in list ==> At(m, a) == ZERO)
  }

  /** `prev` points to `a` in the walk. */
  ghost predicate Precedes(list: seq<Address>, prev: Address, a: Address, k: int) {
    0 <= k < |list| && Cycle(list)[k] == prev && list[k] == a
  }

  lemma CycleNodes(list: seq<Address>, j: int, k: int)
    requires Proper(list) && 0 <= j <= |list| && 0 <= k <= |list| && j != k
    ensures Cycle(list)[j] != Cycle(list)[k]
  {
  }

  lemma CycleInjective(list: seq<Address>)
    requires Proper(list)
    ensures forall j, k :: 0 <= j <= |list| && 0 <= k <= |list| && Cycle(list)[j] == Cycle(list)[k] ==> j == k
  {
  }

  lemma MemberIsLinked(m: Links, list: seq<Address>, a: Address)
    requires Linked(m, list) && a != SENTINEL
    ensures a in list <==> At(m, a) != ZERO
  {
    if a in list {
      var k :| 0 <= k < |list| && list[k] == a;
      assert Cycle(list)[k + 1] == a && At(m, a) == Cycle(list)[k + 2];
      assert Cycle(list)[k + 2] == if k + 1 < |list| then list[k + 1] else SENTINEL;
    }
  }

  /** One step of the walk: the element at position `k` links to the next one, or back to the sentinel. */
  lemma WalkStep(m: Links, list: seq<Address>, k: nat)
    requires Linked(m, list) && k <= |list|
    ensures At(m, Cycle(list)[k]) == Cycle(list)[k + 1]
    ensures k < |list| ==> Cycle(list)[k + 1] == list[k] && list[k] != ZERO && list[k] != SENTINEL
    ensures k == |list| ==> Cycle(list)[k + 1] == SENTINEL
  {
  }

  /** Only the predecessor in the walk points to an element. */
  lemma PredecessorExists(m: Links, list: seq<Address>, prev: Address, a: Address)
    requires Linked(m, list) && At(m, prev) == a && a != ZERO && a != SENTINEL
    ensures exists k :: Precedes(list, prev, a, k)
  {
    if prev == SENTINEL {
      assert Cycle(list)[0] == prev && Cycle(list)[1] == a;
      assert Precedes(list, prev, a, 0);
    } else {
      MemberIsLinked(m, list, prev);
      var j :| 0 <= j < |list| && list[j] == prev;
      assert Cycle(list)[j + 1] == prev && Cycle(list)[j + 2] == a;
      assert Precedes(list, prev, a, j + 1);
    }
  }

  lemma OnlyLinksPrecede(m: Links, list: seq<Address>, prev: Address, a: Address)
    requires Linked(m, list)
    ensures (exists k :: Precedes(list, prev, a, k)) <==> At(m, prev) == a && a != ZERO && a != SENTINEL
  {
    if exists k :: Precedes(list, prev, a, k) {
      var k :| Precedes(list, prev, a, k);
      assert At(m, Cycle(list)[k]) == Cycle(list)[k + 1] == a;
    } else if At(m, prev) == a && a != ZERO && a != SENTINEL {
      PredecessorExists(m, list, prev, a);
    }
  }

  /** The mapping determines the list. */
  lemma {:induction false} LinkedUnique(m: Links, a: seq<Address>, b: seq<Address>)
    requires Linked(m, a) && Linked(m, b)
    ensures a == b
  {
    var n := if |a| < |b| then |a| else |b|;
    SamePrefix(m, a, b, n);
    assert Cycle(a)[n + 1] == Cycle(b)[n + 1];
    assert |a| == |b|;
    assert a == a[..n] && b == b[..n];
  }

  lemma {:induction false} SamePrefix(m: Links, a: seq<Address>, b: seq<Address>, n: nat)
    requires Linked(m, a) && Linked(m, b) && n <= |a| && n <= |b|
    ensures a[..n] == b[..n] && Cycle(a)[n] == Cycle(b)[n]
  {
    if n > 0 {
      SamePrefix(m, a, b, n - 1);
      assert Cycle(a)[n] == At(m, Cycle(a)[n - 1]) == At(m, Cycle(b)[n - 1]) == Cycle(b)[n];
      assert a[n - 1] == b[n - 1];
    }
  }

  lemma LinkFront(m: Links, list: seq<Address>, a: Address)
    requires Linked(m, list) && a != ZERO && a != SENTINEL && a !in list
    ensures Linked(m[a := At(m, SENTINEL)][SENTINEL := a], [a] + list)
  {
    var (m', list') := (m[a := At(m, SENTINEL)][SENTINEL := a], [a] + list);
    assert Cycle(list)[0] == SENTINEL;
    forall k | 0 <= k <= |list'| ensures At(m', Cycle(list')[k]) == Cycle(list')[k + 1] {
      if k > 0 {
        assert Cycle(list')[k + 1] == Cycle(list)[k];
        assert k > 1 ==> Cycle(list')[k] == Cycle(list)[k - 1] == list[k - 2];
      }
    }
  }

  function Without(list: seq<Address>, k: nat): seq<Address>
    requires k < |list|
  {
    list[..k] + list[k + 1..]
  }

  lemma WithoutElements(list: seq<Address>, k: nat)
    requires k < |list| && Distinct(list)
    ensures forall x :: x in Without(list, k) <==> x in list && x != list[k]
  {
    forall x | x in list && x != list[k] ensures x in Without(list, k) {
      var i :| 0 <= i < |list| && list[i] == x;
      assert x == Without(list, k)[if i < k then i else i - 1];
    }
  }

  lemma UpdatedElements(list: seq<Address>, k: nat, b: Address)
    requires k < |list| && Distinct(list)
    ensures forall x :: x in list[k := b] <==> x == b || (x in list && x != list[k])
  {
    assert list[k := b][k] == b;
    forall x | x in list && x != list[k] ensures x in list[k := b] {
      var i :| 0 <= i < |list| && list[i] == x;
      assert list[k := b][i] == x;
    }
  }

  lemma Unlink(m: Links, list: seq<Address>, k: nat)
    requires Linked(m, list) && k < |list|
    ensures Linked(m[Cycle(list)[k] := At(m, list[k])][list[k] := ZERO], Without(list, k))
  {
    var (prev, a) := (Cycle(list)[k], list[k]);
    var (m', list') := (m[prev := At(m, a)][a := ZERO], Without(list, k));
    assert Cycle(list)[k + 1] == a;
    CycleNodes(list, k, k + 1);
    forall j | 0 <= j <= |list'| ensures At(m', Cycle(list')[j]) == Cycle(list')[j + 1] {
      var i := if j <= k then j else j + 1;
      assert Cycle(list')[j] == Cycle(list)[i];
      CycleNodes(list, i, k + 1);
      if j == k {
        assert At(m', prev) == At(m, a) == Cycle(list)[k + 2] == Cycle(list')[j + 1];
      } else {
        CycleNodes(list, i, k);
        assert Cycle(list')[j + 1] == Cycle(list)[i + 1];
      }
    }
    WithoutElements(list, k);
    assert prev == SENTINEL || prev in list';
  }

  lemma Replace(m: Links, list: seq<Address>, k: nat, b: Address)
    requires Linked(m, list) && k < |list| && b != ZERO && b != SENTINEL && b !in list
    ensures Linked(m[b := At(m, list[k])][Cycle(list)[k] := b][list[k] := ZERO], list[k := b])
  {
    var (prev, a) := (Cycle(list)[k], list[k]);
    var (m', list') := (m[b := At(m, a)][prev := b][a := ZERO], list[k := b]);
    assert Cycle(list)[k + 1] == a;
    CycleNodes(list, k, k + 1);
    forall j | 0 <= j <= |list'| ensures At(m', Cycle(list')[j]) == Cycle(list')[j + 1] {
      if j == k {
        assert Cycle(list')[j] == prev && Cycle(list')[j + 1] == b;
      } else if j == k + 1 {
        assert Cycle(list')[j] == b && Cycle(list')[j + 1] == Cycle(list)[j + 1];
      } else {
        assert Cycle(list')[j] == Cycle(list)[j] && Cycle(list')[j + 1] == Cycle(list)[j + 1];
        CycleNodes(list, j, k);
        CycleNodes(list, j, k + 1);
        assert Cycle(list)[j] != b;
      }
    }
    UpdatedElements(list, k, b);
    assert prev == SENTINEL || prev in list';
    assert Proper(list');
    forall c: Address | c != SENTINEL && c !in list' ensures At(m', c) == ZERO {
      assert c == a || c !in list;
    }
  }

  // ----- building the cycle from scratch, front to back

  /** Where the next element is hung on. */
  ghost function Last(list: seq<Address>): (a: Address)
    ensures a == Cycle(list)[|list|] && (a == SENTINEL || a in list)
  {
    if list == [] then SENTINEL else list[|list| - 1]
  }

  /** Everything linked so far; the last element does not point anywhere yet. */
  ghost predicate OpenChain(m: Links, list: seq<Address>) {
    && Proper(list)
    && (forall k :: 0 <= k < |list| ==> At(m, Cycle(list)[k]) == list[k])
    && (forall a: Address :: (a != SENTINEL && a !in list) || a == Last(list) ==> At(m, a) == ZERO)
  }

  lemma ProperSnoc(list: seq<Address>, a: Address)
    requires Proper(list) && a != ZERO && a != SENTINEL && a !in list
    ensures Proper(list + [a])
    ensures forall b :: b in list + [a] <==> b in list || b == a
  {
  }

  lemma ExtendChain(m: Links, list: seq<Address>, a: Address)
    requires OpenChain(m, list) && a != ZERO && a != SENTINEL && a !in list
    ensures OpenChain(m[Last(list) := a], list + [a])
  {
    var (m', list') := (m[Last(list) := a], list + [a]);
    forall k | 0 <= k < |list'| ensures At(m', Cycle(list')[k]) == list'[k] {
      assert Cycle(list')[k] == Cycle(list)[k];
      if k < |list| {
        CycleNodes(list, k, |list|);
      }
    }
    assert Last(list') == a;
    ProperSnoc(list, a);
    forall b: Address | (b != SENTINEL && b !in list') || b == a ensures At(m', b) == ZERO {
      assert b !in list && b != Last(list);
    }
  }

  /** One turn of the setup loop: an element that is none of the special addresses either can be hung
      on, which keeps the chain open, or is there already, which its link or its being last shows. */
  lemma ChainStep(m: Links, list: seq<Address>, a: Address)
    requires OpenChain(m, list) && a != ZERO && a != SENTINEL
    ensures a == Last(list) || At(m, a) != ZERO ==> a in list
    ensures a != Last(list) && At(m, a) == ZERO ==> OpenChain(m[Last(list) := a], list + [a]) && Last(list + [a]) == a
  {
    ChainMember(m, list, a);
    if a !in list {
      ExtendChain(m, list, a);
    }
  }

  lemma CloseChain(m: Links, list: seq<Address>)
    requires OpenChain(m, list)
    ensures Linked(m[Last(list) := SENTINEL], list)
  {
    var m' := m[Last(list) := SENTINEL];
    forall k | 0 <= k <= |list| ensures At(m', Cycle(list)[k]) == Cycle(list)[k + 1] {
      if k < |list| {
        CycleNodes(list, k, |list|);
      }
    }
  }

  /** In an open chain, an element is free to append exactly when it has no link and is not the last. */
  lemma ChainMember(m: Links, list: seq<Address>, a: Address)
    requires OpenChain(m, list) && a != SENTINEL
    ensures a in list <==> At(m, a) != ZERO || a == Last(list)
  {
    if a in list {
      var k :| 0 <= k < |list| && list[k] == a;
      assert Cycle(list)[k + 1] == a;
    }
  }
}
