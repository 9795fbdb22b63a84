/** Insertion-ordered association lists: the model of a JavaScript `Map`,
    whose `entries()` enumerate keys in first-insertion order. */
module Assoc {
  import opened Wrappers
  import opened Seqs

  ghost predicate UniqueKeys<K, V>(s: seq<(K, V)>)
  {
    forall i, j | 0 <= i < j < |s| :: s[i].0 != s[j].0
  }

  /** `Map.prototype.get`: the value stored under `k`, if any. */
  function Lookup<K(==), V>(s: seq<(K, V)>, k: K): (r: Option<V>)
    ensures r.None? <==> forall i | 0 <= i < |s| :: s[i].0 != k
    ensures r.Some? ==> (k, r.value) in s
  {
    if |s| == 0 then None
    else if s[0].0 == k then Some(s[0].1)
    else Lookup(s[1..], k)
  }

  /** `Map.prototype.set`: overwrites the value of an existing key in place,
      or appends a new key at the end. */
  function Put<K(==,!new), V>(s: seq<(K, V)>, k: K, v: V): (r: seq<(K, V)>)
    ensures Lookup(r, k) == Some(v)
    ensures forall k' | k' != k :: Lookup(r, k') == Lookup(s, k')
    ensures |r| == if Lookup(s, k).None? then |s| + 1 else |s|
    ensures forall i | 0 <= i < |s| :: r[i].0 == s[i].0
    ensures Lookup(s, k).None? ==> r[|s|] == (k, v)
  {
    if |s| == 0 then [(k, v)]
    else if s[0].0 == k then [(k, v)] + s[1..]
    else
      var rest := Put(s[1..], k, v);
      var r := [s[0]] + rest;
      assert r[1..] == rest;
      r
  }

  /** `Put` never duplicates a key. */
  lemma PutKeepsKeysUnique<K(!new), V>(s: seq<(K, V)>, k: K, v: V)
    requires UniqueKeys(s)
    ensures UniqueKeys(Put(s, k, v))
  {
    var r := Put(s, k, v);
    forall i, j | 0 <= i < j < |r|
      ensures r[i].0 != r[j].0
    {
      if j == |s| {
        assert r[j] == (k, v);
        assert Lookup(s, k).None?;
      }
    }
  }

  /** Every entry after a `Put` is the new one or was there before. */
  lemma {:induction false} PutEntries<K(!new), V>(s: seq<(K, V)>, k: K, v: V)
    ensures forall e | e in Put(s, k, v) :: e == (k, v) || e in s
  {
    if |s| > 0 && s[0].0 != k {
      PutEntries(s[1..], k, v);
      assert Put(s, k, v) == [s[0]] + Put(s[1..], k, v);
    }
  }

  /** In a list with unique keys, every entry is what `Lookup` finds for its key. */
  lemma LookupEntry<K, V>(s: seq<(K, V)>, e: (K, V))
    requires UniqueKeys(s)
    requires e in s
    ensures Lookup(s, e.0) == Some(e.1)
  {
    var i :| 0 <= i < |s| && s[i] == e;
    if i > 0 {
      assert s[0].0 != e.0;
      assert s[1..][i - 1] == e;
      LookupEntry(s[1..], e);
    }
  }

  /** Entries drawn without repetition from a list with unique keys still
      have unique keys. */
  lemma SubMultisetKeepsKeysUnique<K, V>(a: seq<(K, V)>, b: seq<(K, V)>)
    requires UniqueKeys(b)
    requires multiset(a) <= multiset(b)
    ensures UniqueKeys(a)
  {
    SubMultisetOfDistinct(a, b);
    forall i, j | 0 <= i < j < |a|
      ensures a[i].0 != a[j].0
    {
      assert a[i] in multiset(b) && a[j] in multiset(b);
      var p :| 0 <= p < |b| && b[p] == a[i];
      var q :| 0 <= q < |b| && b[q] == a[j];
      assert p != q;
    }
  }
}
