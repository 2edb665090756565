/**
 * A JavaScript `Map`: key/value entries in insertion order. `set` on a key
 * already present replaces its value where it stands; `set` on a new key
 * appends; `delete` removes the entry; `values()` lists the values in order.
 */
module OrderedMap {
  import opened Wrappers

  type Entries<K, V> = seq<(K, V)>

  /** No key occurs twice; every `Map` satisfies this. */
  predicate KeysDistinct<K(==,!new), V>(m: Entries<K, V>) {
    forall i, j :: 0 <= i < j < |m| ==> m[i].0 != m[j].0
  }

  predicate HasKey<K(==,!new), V>(m: Entries<K, V>, k: K) {
    exists i :: 0 <= i < |m| && m[i].0 == k
  }

  /** The position of the entry for `k`. */
  function IndexOfKey<K(==,!new), V>(m: Entries<K, V>, k: K): (r: Option<nat>)
    ensures r.Some? <==> HasKey(m, k)
    ensures r.Some? ==> r.value < |m| && m[r.value].0 == k
    ensures r.Some? ==> forall j :: 0 <= j < r.value ==> m[j].0 != k
  {
    if m == [] then None
    else if m[0].0 == k then Some(0)
    else match IndexOfKey(m[1..], k)
      case None => assert !HasKey(m, k) by { assert forall i :: 0 < i < |m| ==> m[i] == m[1..][i - 1]; } None
      case Some(i) => Some(i + 1)
  }

  /** `m.get(k)`. */
  function Get<K(==,!new), V>(m: Entries<K, V>, k: K): (r: Option<V>)
    ensures r.Some? <==> HasKey(m, k)
    ensures r.Some? ==> exists i :: 0 <= i < |m| && m[i] == (k, r.value)
  {
    match IndexOfKey(m, k)
    case None => None
    case Some(i) => Some(m[i].1)
  }

  /** `m.set(k, v)`. */
  function Set<K(==,!new), V>(m: Entries<K, V>, k: K, v: V): (r: Entries<K, V>)
    ensures Get(r, k) == Some(v)
    ensures forall k' :: k' != k ==> Get(r, k') == Get(m, k')
    ensures !HasKey(m, k) ==> r == m + [(k, v)]
    ensures HasKey(m, k) && KeysDistinct(m) ==>
      |r| == |m| && forall i :: 0 <= i < |m| ==> r[i] == if m[i].0 == k then (k, v) else m[i]
    ensures KeysDistinct(m) ==> KeysDistinct(r)
  {
    match IndexOfKey(m, k)
    case None =>
      var r := m + [(k, v)];
      assert forall k' :: k' != k ==> IndexOfKey(r, k') == IndexOfKey(m, k') by {
        forall k' | k' != k ensures IndexOfKey(r, k') == IndexOfKey(m, k') {
          IndexOfKeyOnPrefix(m, [(k, v)], k');
        }
      }
      assert [(k, v)][0].0 == k;
      IndexOfKeyOnPrefix(m, [(k, v)], k);
      r
    case Some(i) =>
      var r := m[i := (k, v)];
      assert forall k' :: k' != k ==> IndexOfKey(r, k') == IndexOfKey(m, k') by {
        forall k' | k' != k ensures IndexOfKey(r, k') == IndexOfKey(m, k') {
          IndexOfKeyUnaffected(m, i, (k, v), k');
        }
      }
      IndexOfKeyUnaffected(m, i, (k, v), k);
      r
  }

  /** Appending entries does not move the first entry of a key already present. */
  lemma {:induction false} IndexOfKeyOnPrefix<K(!new), V>(m: Entries<K, V>, extra: Entries<K, V>, k: K)
    ensures HasKey(m, k) ==> IndexOfKey(m + extra, k) == IndexOfKey(m, k)
    ensures !HasKey(m, k) && HasKey(extra, k) ==> IndexOfKey(m + extra, k) == Some(|m| + IndexOfKey(extra, k).value)
  {
    if m != [] {
      assert (m + extra)[1..] == m[1..] + extra;
      if m[0].0 != k {
        IndexOfKeyOnPrefix(m[1..], extra, k);
        assert HasKey(m, k) ==> HasKey(m[1..], k) by {
          if HasKey(m, k) {
            var i :| 0 <= i < |m| && m[i].0 == k;
            assert m[1..][i - 1].0 == k;
          }
        }
      }
    } else {
      assert m + extra == extra;
    }
  }

  /** Overwriting the entry at `i` with one of the same key leaves the position of every key unchanged. */
  lemma {:induction false} IndexOfKeyUnaffected<K(!new), V>(m: Entries<K, V>, i: nat, e: (K, V), k: K)
    requires i < |m| && e.0 == m[i].0
    ensures IndexOfKey(m[i := e], k) == IndexOfKey(m, k)
  {
    if m[0].0 != k && i > 0 {
      assert m[i := e][1..] == m[1..][i - 1 := e];
      IndexOfKeyUnaffected(m[1..], i - 1, e, k);
    }
  }

  /** `m.delete(k)`. */
  function Delete<K(==,!new), V>(m: Entries<K, V>, k: K): (r: Entries<K, V>)
    ensures !HasKey(m, k) ==> r == m
    ensures HasKey(m, k) ==> exists i :: 0 <= i < |m| && m[i].0 == k && r == m[..i] + m[i + 1..]
    ensures KeysDistinct(m) ==> KeysDistinct(r) && !HasKey(r, k)
    ensures forall k' :: k' != k ==> Get(r, k') == Get(m, k')
  {
    match IndexOfKey(m, k)
    case None => m
    case Some(i) =>
      RemovalFacts(m, i, k);
      m[..i] + m[i + 1..]
  }

  /** Removing the entry at `i`, the entry of `k`, leaves every other key's value and keeps keys distinct. */
  lemma RemovalFacts<K(!new), V>(m: Entries<K, V>, i: nat, k: K)
    requires i < |m| && m[i].0 == k
    ensures KeysDistinct(m) ==> KeysDistinct(m[..i] + m[i + 1..]) && !HasKey(m[..i] + m[i + 1..], k)
    ensures forall k' :: k' != k ==> Get(m[..i] + m[i + 1..], k') == Get(m, k')
  {
    var r := m[..i] + m[i + 1..];
    assert forall j :: 0 <= j < |r| ==> r[j] == m[if j < i then j else j + 1];
    forall k' | k' != k ensures Get(r, k') == Get(m, k') {
      IndexOfKeyAfterRemoval(m, i, k');
      match IndexOfKey(m, k')
      case None =>
      case Some(j) =>
    }
  }

  /** Removing the entry at `i` shifts the positions after it down by one. */
  lemma {:induction false} IndexOfKeyAfterRemoval<K(!new), V>(m: Entries<K, V>, i: nat, k: K)
    requires i < |m| && m[i].0 != k
    ensures IndexOfKey(m[..i] + m[i + 1..], k) == match IndexOfKey(m, k)
      case None => None
      case Some(j) => Some(if j < i then j else j - 1)
  {
    if i == 0 {
      assert m[..0] + m[1..] == m[1..];
    } else if m[0].0 != k {
      assert (m[..i] + m[i + 1..])[1..] == m[1..][..i - 1] + m[1..][i..];
      IndexOfKeyAfterRemoval(m[1..], i - 1, k);
    }
  }

  /** `Array.from(m.values())`. */
  function Values<K(==,!new), V>(m: Entries<K, V>): (r: seq<V>)
    ensures |r| == |m| && forall i :: 0 <= i < |m| ==> r[i] == m[i].1
  {
    seq(|m|, i requires 0 <= i < |m| => m[i].1)
  }
}
