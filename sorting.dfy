/**
 * Ordering a sequence by a numeric key, as both the message store's
 * `sort({ timestamp: 1 })` and the client's `Array.prototype.sort` with a
 * timestamp comparator do. Insertion sort that places an element before the
 * ones with an equal key keeps ties in their original order.
 */
module Sorting {
  import Sequences

  /** Keys never decrease along `s`. */
  predicate SortedBy<T>(s: seq<T>, key: T -> nat) {
    forall i, j :: 0 <= i < j < |s| ==> key(s[i]) <= key(s[j])
  }

  /** Puts `x` in front of the first element of `s` whose key is not smaller. */
  function Insert<T>(x: T, s: seq<T>, key: T -> nat): (r: seq<T>)
    ensures |r| == |s| + 1
  {
    if s == [] || key(x) <= key(s[0]) then [x] + s else [s[0]] + Insert(x, s[1..], key)
  }

  /** Inserting adds exactly the inserted element. */
  lemma {:induction false} InsertAddsElement<T>(x: T, s: seq<T>, key: T -> nat)
    ensures multiset(Insert(x, s, key)) == multiset(s) + multiset{x}
  {
    if s != [] && key(x) > key(s[0]) {
      InsertAddsElement(x, s[1..], key);
      assert s == [s[0]] + s[1..];
    }
  }

  /** A bound below the key of `x` and of every element of `s` stays below every key after inserting. */
  lemma {:induction false} InsertKeepsLowerBound<T>(x: T, s: seq<T>, key: T -> nat, b: nat)
    requires b <= key(x) && forall i :: 0 <= i < |s| ==> b <= key(s[i])
    ensures forall i :: 0 <= i < |s| + 1 ==> b <= key(Insert(x, s, key)[i])
  {
    if s != [] && key(x) > key(s[0]) {
      InsertKeepsLowerBound(x, s[1..], key, b);
    }
  }

  /** Inserting into a sorted sequence keeps it sorted and adds exactly the inserted element. */
  lemma {:induction false} InsertKeepsSorted<T>(x: T, s: seq<T>, key: T -> nat)
    requires SortedBy(s, key)
    ensures SortedBy(Insert(x, s, key), key)
    ensures multiset(Insert(x, s, key)) == multiset(s) + multiset{x}
  {
    InsertAddsElement(x, s, key);
    if s != [] && key(x) > key(s[0]) {
      var rest := Insert(x, s[1..], key);
      InsertKeepsSorted(x, s[1..], key);
      InsertKeepsLowerBound(x, s[1..], key, key(s[0]));
      var r := [s[0]] + rest;
      forall i, j | 0 <= i < j < |r| ensures key(r[i]) <= key(r[j]) {
        if i > 0 { assert r[i] == rest[i - 1] && r[j] == rest[j - 1]; }
      }
    }
  }

  /** The elements of `s` in non-decreasing key order. */
  function SortBy<T>(s: seq<T>, key: T -> nat): (r: seq<T>)
    ensures SortedBy(r, key)
    ensures multiset(r) == multiset(s)
  {
    if s == [] then []
    else
      assert s == [s[0]] + s[1..];
      InsertKeepsSorted(s[0], SortBy(s[1..], key), key);
      Insert(s[0], SortBy(s[1..], key), key)
  }

  /** Sorting a sequence whose keys already never decrease leaves it as it is. */
  lemma {:induction false} SortBySortedUnchanged<T>(s: seq<T>, key: T -> nat)
    requires SortedBy(s, key)
    ensures SortBy(s, key) == s
  {
    if s != [] {
      assert SortedBy(s[1..], key);
      SortBySortedUnchanged(s[1..], key);
      assert s == [s[0]] + s[1..];
    }
  }

  /** A bound below every key of `b` stays below every key of a subsequence of `b`. */
  lemma {:induction false} SubsequenceKeepsLowerBound<T>(a: seq<T>, b: seq<T>, key: T -> nat, bound: nat)
    requires Sequences.IsSubsequence(a, b)
    requires forall i :: 0 <= i < |b| ==> bound <= key(b[i])
    ensures forall i :: 0 <= i < |a| ==> bound <= key(a[i])
    decreases |b|
  {
    if a != [] {
      if a[0] == b[0] && Sequences.IsSubsequence(a[1..], b[1..]) {
        SubsequenceKeepsLowerBound(a[1..], b[1..], key, bound);
        assert forall i :: 0 < i < |a| ==> a[i] == a[1..][i - 1];
      } else {
        SubsequenceKeepsLowerBound(a, b[1..], key, bound);
      }
    }
  }

  /** Dropping elements from a sequence in key order leaves it in key order. */
  lemma {:induction false} SubsequenceKeepsSorted<T>(a: seq<T>, b: seq<T>, key: T -> nat)
    requires Sequences.IsSubsequence(a, b) && SortedBy(b, key)
    ensures SortedBy(a, key)
    decreases |b|
  {
    if a != [] {
      assert SortedBy(b[1..], key);
      if a[0] == b[0] && Sequences.IsSubsequence(a[1..], b[1..]) {
        SubsequenceKeepsSorted(a[1..], b[1..], key);
        SubsequenceKeepsLowerBound(a[1..], b[1..], key, key(b[0]));
        forall i, j | 0 <= i < j < |a| ensures key(a[i]) <= key(a[j]) {
          if i > 0 { assert a[i] == a[1..][i - 1] && a[j] == a[1..][j - 1]; }
          else { assert a[j] == a[1..][j - 1]; }
        }
      } else {
        SubsequenceKeepsSorted(a, b[1..], key);
      }
    }
  }
}
