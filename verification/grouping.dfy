/** Grouping a sequence by a key, as the views and the main process do with
    a dictionary filled in a loop: `key` gives an element's group, or `None`
    for an element the loop skips; `w` is the amount it adds to its group.
    Dictionaries here (`Object.entries` of string keys that are not array
    indices, and `Map`) list their keys in the order of first insertion. */
module Grouping {
  import opened Wrappers
  import opened Sorting

  /** The group keys in order of first appearance. */
  function Keys<T, K(==)>(s: seq<T>, key: T -> Option<K>): seq<K> {
    if s == [] then []
    else
      var prev := Keys(s[..|s| - 1], key);
      var k := key(s[|s| - 1]);
      if k.Some? && k.value !in prev then prev + [k.value] else prev
  }

  /** Some element falls in group `k`. */
  ghost predicate Mentions<T, K>(s: seq<T>, key: T -> Option<K>, k: K) {
    exists i :: 0 <= i < |s| && key(s[i]) == Some(k)
  }

  /** The amount of group `k`. */
  function Total<T, K(==)>(s: seq<T>, key: T -> Option<K>, w: T -> int, k: K): int {
    if s == [] then 0
    else Total(s[..|s| - 1], key, w, k) + (if key(s[|s| - 1]) == Some(k) then w(s[|s| - 1]) else 0)
  }

  /** The amount of all elements that belong to some group. */
  function KeyedSum<T, K>(s: seq<T>, key: T -> Option<K>, w: T -> int): int {
    if s == [] then 0
    else KeyedSum(s[..|s| - 1], key, w) + (if key(s[|s| - 1]).Some? then w(s[|s| - 1]) else 0)
  }

  /** The group amounts of the keys `ks`, added up. */
  function KeyTotals<T, K(==)>(ks: seq<K>, s: seq<T>, key: T -> Option<K>, w: T -> int): int {
    if ks == [] then 0
    else KeyTotals(ks[..|ks| - 1], s, key, w) + Total(s, key, w, ks[|ks| - 1])
  }

  /** The weight that counts elements. */
  function One<T>(x: T): int {
    1
  }

  lemma KeysLast<T, K>(s: seq<T>, x: T, key: T -> Option<K>)
    ensures Keys(s + [x], key) ==
      if key(x).Some? && key(x).value !in Keys(s, key) then Keys(s, key) + [key(x).value] else Keys(s, key)
  {
    var s' := s + [x];
    assert s'[..|s'| - 1] == s;
  }

  lemma TotalLast<T, K>(s: seq<T>, x: T, key: T -> Option<K>, w: T -> int, k: K)
    ensures Total(s + [x], key, w, k) == Total(s, key, w, k) + (if key(x) == Some(k) then w(x) else 0)
  {
    var s' := s + [x];
    assert s'[..|s'| - 1] == s;
  }

  /** The keys are distinct, and they are exactly the groups some element
      falls in. */
  lemma {:induction false} KeysExact<T, K>(s: seq<T>, key: T -> Option<K>)
    ensures forall i, j :: 0 <= i < j < |Keys(s, key)| ==> Keys(s, key)[i] != Keys(s, key)[j]
    ensures forall k :: k in Keys(s, key) ==> Mentions(s, key, k)
    ensures forall k :: Mentions(s, key, k) ==> k in Keys(s, key)
  {
    if s != [] {
      var init := s[..|s| - 1];
      var x := s[|s| - 1];
      KeysExact(init, key);
      forall k ensures Mentions(s, key, k) <==> Mentions(init, key, k) || key(x) == Some(k) {
        if Mentions(s, key, k) {
          var i :| 0 <= i < |s| && key(s[i]) == Some(k);
          if i < |s| - 1 {
            assert init[i] == s[i];
          }
        }
        if Mentions(init, key, k) {
          var i :| 0 <= i < |init| && key(init[i]) == Some(k);
          assert s[i] == init[i];
        }
      }
    }
  }

  /** A group no element falls in has amount zero. */
  lemma {:induction false} NotMentionedTotal<T, K>(s: seq<T>, key: T -> Option<K>, w: T -> int, k: K)
    requires !Mentions(s, key, k)
    ensures Total(s, key, w, k) == 0
  {
    if s != [] {
      NotMentionedTotal(s[..|s| - 1], key, w, k);
    }
  }

  /** A value that is not a key has amount zero. */
  lemma AbsentKeyTotal<T, K>(s: seq<T>, key: T -> Option<K>, w: T -> int, k: K)
    requires k !in Keys(s, key)
    ensures Total(s, key, w, k) == 0
  {
    KeysExact(s, key);
    NotMentionedTotal(s, key, w, k);
  }

  lemma DistinctPrefix<K>(ks: seq<K>)
    requires ks != [] && forall i, j :: 0 <= i < j < |ks| ==> ks[i] != ks[j]
    ensures var init := ks[..|ks| - 1]; forall i, j :: 0 <= i < j < |init| ==> init[i] != init[j]
    ensures ks[|ks| - 1] !in ks[..|ks| - 1]
  {
    var init := ks[..|ks| - 1];
    forall j | 0 <= j < |init| ensures init[j] != ks[|ks| - 1] {
      assert init[j] == ks[j];
    }
  }

  /** One more element raises the amounts of distinct keys by its weight
      if its group is among them, and by nothing otherwise. */
  lemma {:induction false} KeyTotalsLast<T, K>(ks: seq<K>, s: seq<T>, x: T, key: T -> Option<K>, w: T -> int)
    requires forall i, j :: 0 <= i < j < |ks| ==> ks[i] != ks[j]
    ensures KeyTotals(ks, s + [x], key, w) ==
      KeyTotals(ks, s, key, w) + (if key(x).Some? && key(x).value in ks then w(x) else 0)
  {
    if ks != [] {
      var init := ks[..|ks| - 1];
      var k := ks[|ks| - 1];
      DistinctPrefix(ks);
      KeyTotalsLast(init, s, x, key, w);
      TotalLast(s, x, key, w, k);
      if key(x) != Some(k) && key(x).Some? {
        assert ks == init + [k];
      }
    }
  }

  /** Grouping loses and invents nothing: the group amounts add up to the
      amount of the grouped elements. */
  lemma {:induction false} GroupSum<T, K>(s: seq<T>, key: T -> Option<K>, w: T -> int)
    ensures KeyTotals(Keys(s, key), s, key, w) == KeyedSum(s, key, w)
  {
    if s != [] {
      var init := s[..|s| - 1];
      var x := s[|s| - 1];
      assert s == init + [x];
      GroupSum(init, key, w);
      KeysExact(init, key);
      KeyTotalsLast(Keys(init, key), init, x, key, w);
      KeysLast(init, x, key);
      if key(x).Some? && key(x).value !in Keys(init, key) {
        var k := key(x).value;
        AbsentKeyTotal(init, key, w, k);
        TotalLast(init, x, key, w, k);
        var ks' := Keys(init, key) + [k];
        assert ks'[..|ks'| - 1] == Keys(init, key);
      }
    }
  }

  /** When the skipped elements are exactly those that would add nothing,
      the grouped amount is the plain sum. */
  lemma {:induction false} KeyedSumAsSum<T, K>(s: seq<T>, key: T -> Option<K>, w: T -> int, v: T -> int)
    requires forall x :: v(x) == if key(x).Some? then w(x) else 0
    ensures KeyedSum(s, key, w) == SumBy(s, v)
  {
    if s != [] {
      KeyedSumAsSum(s[..|s| - 1], key, w, v);
    }
  }
}
