/** Sequence helpers shared by the recommender: order-preserving filtering,
    truncation (`Array.prototype.slice(0, n)`), sums of reals and a stable
    descending sort by a real-valued key. */
module Seqs {

  /** `a` is obtained from `b` by deleting some elements, keeping the order of the rest. */
  ghost predicate SubSeq<T>(a: seq<T>, b: seq<T>)
    decreases |b|
  {
    |a| <= |b| &&
    (|a| == 0 || (a[0] == b[0] && SubSeq(a[1..], b[1..])) || SubSeq(a, b[1..]))
  }

  /** `Array.prototype.filter`: the elements satisfying `p`, in their original order. */
  function Filter<T(!new)>(s: seq<T>, p: T -> bool): (r: seq<T>)
    ensures |r| <= |s|
    ensures forall x :: x in r <==> x in s && p(x)
  {
    if |s| == 0 then []
    else
      assert s == [s[0]] + s[1..];
      (if p(s[0]) then [s[0]] else []) + Filter(s[1..], p)
  }

  /** Filtering keeps every occurrence of each element it accepts. */
  lemma {:induction false} FilterKeepsMultiplicity<T(!new)>(s: seq<T>, p: T -> bool)
    ensures forall x | p(x) :: multiset(Filter(s, p))[x] == multiset(s)[x]
  {
    if |s| > 0 {
      FilterKeepsMultiplicity(s[1..], p);
      assert s == [s[0]] + s[1..];
    }
  }

  /** Filtering adds no element and no occurrence. */
  lemma {:induction false} FilterIsSubMultiset<T(!new)>(s: seq<T>, p: T -> bool)
    ensures multiset(Filter(s, p)) <= multiset(s)
  {
    if |s| > 0 {
      FilterIsSubMultiset(s[1..], p);
      assert s == [s[0]] + s[1..];
    }
  }

  lemma {:induction false} FilterIsSubSeq<T(!new)>(s: seq<T>, p: T -> bool)
    ensures SubSeq(Filter(s, p), s)
  {
    if |s| > 0 {
      var rest := Filter(s[1..], p);
      FilterIsSubSeq(s[1..], p);
      if p(s[0]) {
        assert Filter(s, p) == [s[0]] + rest;
        assert ([s[0]] + rest)[1..] == rest;
      } else {
        assert Filter(s, p) == rest;
      }
    }
  }

  /** `Array.prototype.slice(0, n)` for a non-negative `n`. */
  function Take<T>(s: seq<T>, n: nat): (r: seq<T>)
    ensures |r| == if n < |s| then n else |s|
    ensures r == s[..|r|]
  {
    if n < |s| then s[..n] else s
  }

  lemma SubMultisetMembers<T>(a: seq<T>, b: seq<T>)
    requires multiset(a) <= multiset(b)
    ensures forall x | x in a :: x in b
  {
    forall x | x in a
      ensures x in b
    {
      assert x in multiset(a);
    }
  }

  /** Sequences with the same multiset have the same members. */
  lemma SameMembers<T>(a: seq<T>, b: seq<T>)
    requires multiset(a) == multiset(b)
    ensures forall x :: x in a <==> x in b
  {
    SubMultisetMembers(a, b);
    SubMultisetMembers(b, a);
  }

  /** A prefix holds no element more often than the whole. */
  lemma TakeIsSubMultiset<T>(s: seq<T>, n: nat)
    ensures multiset(Take(s, n)) <= multiset(s)
  {
    var r := Take(s, n);
    assert s == r + s[|r|..];
  }

  function Sum(s: seq<real>): real
  {
    if |s| == 0 then 0.0 else s[0] + Sum(s[1..])
  }

  lemma {:induction false} SumSnoc(s: seq<real>, x: real)
    ensures Sum(s + [x]) == Sum(s) + x
  {
    if |s| > 0 {
      assert (s + [x])[1..] == s[1..] + [x];
      SumSnoc(s[1..], x);
    }
  }

  /** Sum of a prefix grows by the next element. */
  lemma PrefixSumStep(s: seq<real>, k: nat)
    requires k < |s|
    ensures Sum(s[..k + 1]) == Sum(s[..k]) + s[k]
  {
    assert s[..k + 1] == s[..k] + [s[k]];
    SumSnoc(s[..k], s[k]);
  }

  /** A sum of positive reals is positive and bounds each of its terms. */
  lemma {:induction false} SumOfPositives(s: seq<real>)
    requires |s| > 0
    requires forall i | 0 <= i < |s| :: s[i] > 0.0
    ensures Sum(s) > 0.0
    ensures forall i | 0 <= i < |s| :: s[i] <= Sum(s)
  {
    if |s| > 1 {
      SumOfPositives(s[1..]);
      assert forall i | 1 <= i < |s| :: s[i] == s[1..][i - 1];
    }
  }

  /** No element occurs twice. */
  ghost predicate Distinct<T>(s: seq<T>)
  {
    forall i, j | 0 <= i < j < |s| :: s[i] != s[j]
  }

  lemma {:induction false} DistinctOccursOnce<T>(s: seq<T>)
    requires Distinct(s)
    ensures forall x :: multiset(s)[x] <= 1
  {
    if |s| > 0 {
      assert s == [s[0]] + s[1..];
      assert Distinct(s[1..]) by {
        forall i, j | 0 <= i < j < |s[1..]|
          ensures s[1..][i] != s[1..][j]
        {
          assert s[1..][i] == s[i + 1] && s[1..][j] == s[j + 1];
        }
      }
      DistinctOccursOnce(s[1..]);
      forall k | 0 <= k < |s[1..]|
        ensures s[1..][k] != s[0]
      {
        assert s[1..][k] == s[k + 1];
      }
    }
  }

  /** A new element in front of a repetition-free sequence keeps it repetition-free. */
  lemma DistinctCons<T>(x: T, s: seq<T>)
    requires Distinct(s) && x !in s
    ensures Distinct([x] + s)
  {
    var r := [x] + s;
    forall i, j | 0 <= i < j < |r|
      ensures r[i] != r[j]
    {
      assert r[j] == s[j - 1];
      if i > 0 {
        assert r[i] == s[i - 1];
      }
    }
  }

  /** Two positions holding the same element count it twice. */
  lemma Repeated<T>(s: seq<T>, i: nat, j: nat)
    requires i < j < |s| && s[i] == s[j]
    ensures multiset(s)[s[i]] >= 2
  {
    assert s == s[..i] + [s[i]] + s[i + 1..j] + [s[j]] + s[j + 1..];
  }

  /** What is drawn without repetition from a repetition-free sequence is
      repetition-free. */
  lemma SubMultisetOfDistinct<T>(a: seq<T>, b: seq<T>)
    requires multiset(a) <= multiset(b)
    requires Distinct(b)
    ensures Distinct(a)
  {
    DistinctOccursOnce(b);
    forall i, j | 0 <= i < j < |a|
      ensures a[i] != a[j]
    {
      if a[i] == a[j] {
        Repeated(a, i, j);
      }
    }
  }

  ghost predicate SortedBy<T>(s: seq<T>, key: T -> real)
  {
    forall i, j | 0 <= i < j < |s| :: key(s[i]) >= key(s[j])
  }

  /** A sorted sequence stays sorted when an element with a key at least
      that of its head goes in front. */
  lemma SortedCons<T>(x: T, s: seq<T>, key: T -> real)
    requires SortedBy(s, key)
    requires |s| == 0 || key(x) >= key(s[0])
    ensures SortedBy([x] + s, key)
  {
    var r := [x] + s;
    forall i, j | 0 <= i < j < |r|
      ensures key(r[i]) >= key(r[j])
    {
      assert r[j] == s[j - 1];
      if i > 0 {
        assert r[i] == s[i - 1];
      } else if j > 1 {
        assert key(s[0]) >= key(s[j - 1]);
      }
    }
  }

  lemma SortedTail<T>(s: seq<T>, key: T -> real)
    requires |s| > 0 && SortedBy(s, key)
    ensures SortedBy(s[1..], key)
  {
    forall i, j | 0 <= i < j < |s[1..]|
      ensures key(s[1..][i]) >= key(s[1..][j])
    {
      assert s[1..][i] == s[i + 1] && s[1..][j] == s[j + 1];
    }
  }

  /** Inserts `x` in front of the first element whose key is not larger. */
  function Insert<T>(x: T, s: seq<T>, key: T -> real): (r: seq<T>)
    requires SortedBy(s, key)
    ensures SortedBy(r, key)
    ensures multiset(r) == multiset(s) + multiset{x}
    ensures |r| == |s| + 1
    ensures r[0] == x || (|s| > 0 && r[0] == s[0])
  {
    if |s| == 0 || key(x) >= key(s[0]) then
      SortedCons(x, s, key);
      [x] + s
    else
      assert s == [s[0]] + s[1..];
      SortedTail(s, key);
      var rest := Insert(x, s[1..], key);
      assert key(s[0]) >= key(rest[0]) by {
        if rest[0] != x {
          assert key(s[0]) >= key(s[1]);
        }
      }
      SortedCons(s[0], rest, key);
      [s[0]] + rest
  }

  /** A stable sort into descending key order (JavaScript's `sort((a, b) => key(b) - key(a))`). */
  function SortDesc<T>(s: seq<T>, key: T -> real): (r: seq<T>)
    ensures SortedBy(r, key)
    ensures multiset(r) == multiset(s)
    ensures |r| == |s|
  {
    if |s| == 0 then []
    else
      assert s == [s[0]] + s[1..];
      Insert(s[0], SortDesc(s[1..], key), key)
  }

  /** Truncating a descending sequence keeps its best elements: nothing left out
      has a larger key than anything kept. */
  lemma TakeSortedIsTop<T>(s: seq<T>, key: T -> real, n: nat)
    requires SortedBy(s, key)
    ensures forall x, y | x in Take(s, n) && y in s && y !in Take(s, n) :: key(x) >= key(y)
  {
    var t := Take(s, n);
    forall x, y | x in t && y in s && y !in t
      ensures key(x) >= key(y)
    {
      var i :| 0 <= i < |t| && t[i] == x;
      var j :| 0 <= j < |s| && s[j] == y;
    }
  }

  /** `sort` by descending key followed by `slice(0, n)`: at most `n`
      elements of `s`, none more often than in `s`, in descending key order,
      and nothing of `s` left out whose key beats one kept; when fewer than
      `n` are kept, all of `s` is kept. */
  function Top<T(!new)>(s: seq<T>, key: T -> real, n: nat): (r: seq<T>)
    ensures |r| <= n
    ensures multiset(r) <= multiset(s)
    ensures forall x | x in r :: x in s
    ensures SortedBy(r, key)
    ensures forall x, y | x in r && y in s && y !in r :: key(x) >= key(y)
    ensures |r| < n ==> forall y | y in s :: y in r
  {
    var sorted := SortDesc(s, key);
    var r := Take(sorted, n);
    SameMembers(s, sorted);
    TakeSortedIsTop(sorted, key, n);
    TakeIsSubMultiset(sorted, n);
    SubMultisetMembers(r, s);
    r
  }
}
