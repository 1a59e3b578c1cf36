/** Sorting as JavaScript's `Array.prototype.sort` does it with a comparator
    `cmp`: stably, so that `a` may precede `b` in the result exactly when
    `cmp(a, b) <= 0`. The relation `le(a, b)` below is that test. Two forms:
    a function on sequences for the `.sort` calls whose array is a fresh
    temporary, and a method for the one that sorts a copied array in place.
    Also sums over sequences and key-distinctness, both of which a
    permutation preserves. */
module Sorting {

  /** `le` is total and transitive: what a consistent comparator gives. */
  ghost predicate TotalPreorder<T(!new)>(le: (T, T) -> bool) {
    (forall a, b :: le(a, b) || le(b, a)) &&
    (forall a, b, c :: le(a, b) && le(b, c) ==> le(a, c))
  }

  predicate Sorted<T>(s: seq<T>, le: (T, T) -> bool) {
    forall i, j :: 0 <= i < j < |s| ==> le(s[i], s[j])
  }

  /** Inserts `x` before the first element it may precede. */
  function Insert<T>(x: T, s: seq<T>, le: (T, T) -> bool): (r: seq<T>)
    ensures |r| == |s| + 1
    ensures multiset(r) == multiset(s) + multiset{x}
  {
    if s == [] then [x]
    else if le(x, s[0]) then [x] + s
    else
      assert s == [s[0]] + s[1..];
      [s[0]] + Insert(x, s[1..], le)
  }

  /** Stable insertion sort: each earlier element is inserted in front of
      its equals among the later ones. */
  function SortBy<T>(s: seq<T>, le: (T, T) -> bool): (r: seq<T>)
    ensures |r| == |s|
    ensures multiset(r) == multiset(s)
  {
    if s == [] then []
    else
      assert s == [s[0]] + s[1..];
      Insert(s[0], SortBy(s[1..], le), le)
  }

  lemma {:induction false} InsertSorted<T(!new)>(x: T, s: seq<T>, le: (T, T) -> bool)
    requires TotalPreorder(le) && Sorted(s, le)
    ensures Sorted(Insert(x, s, le), le)
  {
    if s != [] && !le(x, s[0]) {
      InsertSorted(x, s[1..], le);
      var r := Insert(x, s[1..], le);
      forall k | 0 <= k < |r| ensures le(s[0], r[k]) {
        assert r[k] in multiset(s[1..]) + multiset{x};
        if r[k] != x {
          assert r[k] in s[1..];
        }
      }
    }
  }

  lemma {:induction false} SortBySorted<T(!new)>(s: seq<T>, le: (T, T) -> bool)
    requires TotalPreorder(le)
    ensures Sorted(SortBy(s, le), le)
  {
    if s != [] {
      SortBySorted(s[1..], le);
      InsertSorted(s[0], SortBy(s[1..], le), le);
    }
  }

  /** Sorting a sequence that is already in order changes nothing: elements
      the comparator calls equal keep their places. */
  lemma {:induction false} SortBySortedIdentity<T>(s: seq<T>, le: (T, T) -> bool)
    requires Sorted(s, le)
    ensures SortBy(s, le) == s
  {
    if s != [] {
      SortBySortedIdentity(s[1..], le);
      if |s| > 1 {
        assert le(s[0], s[1]);
      }
    }
  }

  /** Sum of `f` over a sequence, accumulated from the left as a `reduce`
      or a `for` loop does. */
  function SumBy<T>(s: seq<T>, f: T -> int): int {
    if s == [] then 0 else SumBy(s[..|s| - 1], f) + f(s[|s| - 1])
  }

  lemma {:induction false} SumByConcat<T>(a: seq<T>, b: seq<T>, f: T -> int)
    ensures SumBy(a + b, f) == SumBy(a, f) + SumBy(b, f)
  {
    if b == [] {
      assert a + b == a;
    } else {
      assert (a + b)[..|a + b| - 1] == a + b[..|b| - 1];
      SumByConcat(a, b[..|b| - 1], f);
    }
  }

  lemma SumByCons<T>(x: T, s: seq<T>, f: T -> int)
    ensures SumBy([x] + s, f) == f(x) + SumBy(s, f)
  {
    SumByConcat([x], s, f);
    assert [x][..0] == [];
  }

  /** A sum does not depend on the order of its terms. */
  lemma {:induction false} SumByPermutation<T>(a: seq<T>, b: seq<T>, f: T -> int)
    requires multiset(a) == multiset(b)
    ensures SumBy(a, f) == SumBy(b, f)
    decreases |a|
  {
    if a == [] {
      assert |b| == |multiset(b)| == 0;
    } else {
      var x := a[0];
      assert x in multiset(b);
      var i :| 0 <= i < |b| && b[i] == x;
      var rest := b[..i] + b[i + 1..];
      assert b == b[..i] + [x] + b[i + 1..];
      assert a == [x] + a[1..];
      assert multiset(b) == multiset(b[..i]) + multiset{x} + multiset(b[i + 1..]);
      assert multiset(a) == multiset{x} + multiset(a[1..]);
      assert multiset(rest) == multiset(b[..i]) + multiset(b[i + 1..]);
      assert multiset(a[1..]) == multiset(a) - multiset{x};
      assert multiset(rest) == multiset(b) - multiset{x};
      SumByPermutation(a[1..], rest, f);
      SumByCons(x, a[1..], f);
      SumByConcat(b[..i] + [x], b[i + 1..], f);
      SumByConcat(b[..i], [x], f);
      SumByConcat(b[..i], b[i + 1..], f);
      assert [x][..0] == [];
    }
  }

  /** No two elements share a key. */
  ghost predicate DistinctBy<T, K>(s: seq<T>, key: T -> K) {
    forall i, j :: 0 <= i < j < |s| ==> key(s[i]) != key(s[j])
  }

  lemma {:induction false} DistinctByOnce<T, K>(s: seq<T>, key: T -> K, x: T)
    requires DistinctBy(s, key)
    ensures multiset(s)[x] <= 1
  {
    if s != [] {
      assert s == [s[0]] + s[1..];
      DistinctByOnce(s[1..], key, x);
      if s[0] == x {
        assert x !in s[1..] by {
          forall k | 1 <= k < |s| ensures s[k] != x {
            assert key(s[0]) != key(s[k]);
          }
        }
      }
    }
  }

  lemma SameKeySameElement<T, K>(a: seq<T>, key: T -> K, x: T, y: T)
    requires DistinctBy(a, key) && x in a && y in a && key(x) == key(y)
    ensures x == y
  {
    var p :| 0 <= p < |a| && a[p] == x;
    var q :| 0 <= q < |a| && a[q] == y;
  }

  /** A permutation of a key-distinct sequence is key-distinct. */
  lemma DistinctByPermutation<T, K>(a: seq<T>, b: seq<T>, key: T -> K)
    requires multiset(a) == multiset(b) && DistinctBy(a, key)
    ensures DistinctBy(b, key)
  {
    forall i, j | 0 <= i < j < |b| ensures key(b[i]) != key(b[j]) {
      if key(b[i]) == key(b[j]) {
        assert b[i] in multiset(a) && b[j] in multiset(a);
        SameKeySameElement(a, key, b[i], b[j]);
        assert b == b[..j] + [b[j]] + b[j + 1..];
        assert b[i] in b[..j];
        assert multiset(b)[b[i]] == multiset(b[..j])[b[i]] + 1 + multiset(b[j + 1..])[b[i]];
        DistinctByOnce(a, key, b[i]);
      }
    }
  }

  /** Sorts `a` in place by insertion with adjacent swaps, moving an element
      left only past elements it strictly precedes, hence stably. */
  method SortInPlace<T(!new)>(a: array<T>, le: (T, T) -> bool)
    requires TotalPreorder(le)
    modifies a
    ensures Sorted(a[..], le)
    ensures multiset(a[..]) == multiset(old(a[..]))
    ensures Sorted(old(a[..]), le) ==> a[..] == old(a[..])
  {
    if a.Length == 0 { return; }
    var i := 1;
    while i < a.Length
      invariant 1 <= i <= a.Length
      invariant Sorted(a[..i], le)
      invariant multiset(a[..]) == multiset(old(a[..]))
      invariant Sorted(old(a[..]), le) ==> a[..] == old(a[..])
    {
      InsertAt(a, i, le);
      i := i + 1;
    }
    assert a[..] == a[..a.Length];
  }

  lemma SwapPreservesMultiset<T>(s: seq<T>, j: nat)
    requires 0 < j < |s|
    ensures multiset(s[j - 1 := s[j]][j := s[j - 1]]) == multiset(s)
  {
    var t := s[j - 1 := s[j]][j := s[j - 1]];
    assert s == s[..j - 1] + [s[j - 1], s[j]] + s[j + 1..];
    assert t == s[..j - 1] + [s[j], s[j - 1]] + s[j + 1..];
  }

  /** Midway through moving the element now at `j` left: every other pair
      in `s[..i + 1]` is in order, and so is that element with everything
      after it up to `i`. */
  ghost predicate Inserting<T>(s: seq<T>, j: nat, i: nat, le: (T, T) -> bool)
    requires j <= i < |s|
  {
    (forall p, q :: 0 <= p < q <= i && p != j && q != j ==> le(s[p], s[q])) &&
    (forall q :: j < q <= i ==> le(s[j], s[q]))
  }

  lemma InsertingStart<T>(s: seq<T>, i: nat, le: (T, T) -> bool)
    requires i < |s| && Sorted(s[..i], le)
    ensures Inserting(s, i, i, le)
  {
    forall p, q | 0 <= p < q <= i && p != i && q != i ensures le(s[p], s[q]) {
      assert s[p] == s[..i][p] && s[q] == s[..i][q];
    }
  }

  lemma InsertingSwap<T(!new)>(s: seq<T>, j: nat, i: nat, le: (T, T) -> bool)
    requires TotalPreorder(le) && 0 < j <= i < |s| && Inserting(s, j, i, le) && !le(s[j - 1], s[j])
    ensures Inserting(s[j - 1 := s[j]][j := s[j - 1]], j - 1, i, le)
  {
    var t := s[j - 1 := s[j]][j := s[j - 1]];
    assert le(s[j], s[j - 1]);
    forall q | j - 1 < q <= i ensures le(t[j - 1], t[q]) {
      if q > j {
        assert le(s[j - 1], s[q]);
      }
    }
    forall p, q | 0 <= p < q <= i && p != j - 1 && q != j - 1 ensures le(t[p], t[q]) {
      if q == j {
        assert le(s[p], s[j - 1]);
      } else if p == j {
        assert le(s[j - 1], s[q]);
      }
    }
  }

  lemma InsertingDone<T(!new)>(s: seq<T>, j: nat, i: nat, le: (T, T) -> bool)
    requires j <= i < |s| && Inserting(s, j, i, le) && (j == 0 || le(s[j - 1], s[j]))
    requires TotalPreorder(le)
    ensures Sorted(s[..i + 1], le)
  {
    forall p, q | 0 <= p < q <= i ensures le(s[p], s[q]) {
      if q == j && p < j - 1 {
        assert le(s[p], s[j - 1]);
      }
    }
  }

  /** Exchanges `a[j - 1]` and `a[j]`. */
  method SwapDown<T>(a: array<T>, j: nat)
    requires 0 < j < a.Length
    modifies a
    ensures a[..] == old(a[..])[j - 1 := old(a[j])][j := old(a[j - 1])]
  {
    a[j - 1], a[j] := a[j], a[j - 1];
  }

  /** Moves `a[i]` left into the sorted prefix `a[..i]`. */
  method InsertAt<T(!new)>(a: array<T>, i: nat, le: (T, T) -> bool)
    requires TotalPreorder(le) && i < a.Length && Sorted(a[..i], le)
    modifies a
    ensures Sorted(a[..i + 1], le)
    ensures multiset(a[..]) == multiset(old(a[..]))
    ensures a[i + 1..] == old(a[i + 1..])
    ensures Sorted(old(a[..i + 1]), le) ==> a[..] == old(a[..])
  {
    var j := i;
    InsertingStart(a[..], i, le);
    while j > 0 && !le(a[j - 1], a[j])
      invariant 0 <= j <= i
      invariant Inserting(a[..], j, i, le)
      invariant multiset(a[..]) == multiset(old(a[..]))
      invariant forall k :: i < k < a.Length ==> a[k] == old(a[k])
      invariant Sorted(old(a[..i + 1]), le) ==> a[..] == old(a[..]) && j == i
    {
      ghost var before := a[..];
      InsertingSwap(before, j, i, le);
      SwapPreservesMultiset(before, j);
      SwapDown(a, j);
      j := j - 1;
    }
    InsertingDone(a[..], j, i, le);
    assert a[i + 1..] == old(a[i + 1..]);
  }
}
