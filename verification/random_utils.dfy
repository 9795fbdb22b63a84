/** The two samplers of `JS/src/randomUtils.ts`. The random function is
    replaced by the draw it would return: a real that the walk takes from its
    explicit sequence of draws, each in [0, 1). */
module RandomUtils {
  import opened Wrappers
  import opened Seqs

  ghost predicate IsDraw(r: real)
  {
    0.0 <= r < 1.0
  }

  /** `Math.floor(length * r)`. */
  function UniformIndex(length: nat, r: real): int
  {
    ((length as real) * r).Floor
  }

  /** A draw in [0, 1) always picks a position inside a non-empty array. */
  lemma UniformIndexInRange(length: nat, r: real)
    ensures length > 0 && IsDraw(r) ==> 0 <= UniformIndex(length, r) < length
  {
    if length > 0 && IsDraw(r) {
      var x := (length as real) * r;
      assert 0.0 <= x;
      assert x < length as real by {
        assert (length as real) * (1.0 - r) > 0.0;
      }
    }
  }

  /** `randomUniformItem`: `array[floor(length * r)]`, where an index outside
      the array reads JavaScript's `undefined` (here `None`). */
  function RandomUniformItem<T>(a: seq<T>, r: real): (x: Option<T>)
    ensures |a| == 0 ==> x == None
    ensures |a| > 0 && IsDraw(r) ==>
      0 <= UniformIndex(|a|, r) < |a| && x == Some(a[UniformIndex(|a|, r)])
    ensures x.Some? <==> 0 <= UniformIndex(|a|, r) < |a|
    ensures x.Some? ==> x.value == a[UniformIndex(|a|, r)] && x.value in a
  {
    var i := UniformIndex(|a|, r);
    UniformIndexInRange(|a|, r);
    if 0 <= i < |a| then Some(a[i]) else None
  }

  datatype SampleError = LengthMismatch | EmptyDistribution

  /** A weighted pick, and whether the random function was called to make it. */
  datatype Sample<T> = Sample(item: T, drewRandom: bool)

  /** The sum of the weights up to and including position `k`. */
  function RunningSum(dist: seq<real>, k: nat): real
    requires k < |dist|
  {
    Sum(dist[..k + 1])
  }

  /** The running sums built by the `forEach` loop: each entry is the weight
      plus the entry before it. */
  function Cdf(dist: seq<real>): (c: seq<real>)
    ensures |c| == |dist|
    ensures forall i | 0 <= i < |c| :: c[i] == RunningSum(dist, i)
  {
    if |dist| == 0 then []
    else
      var n := |dist| - 1;
      var prev := Cdf(dist[..n]);
      var c := prev + [if n == 0 then dist[n] else dist[n] + prev[n - 1]];
      assert forall i | 0 <= i < n :: RunningSum(dist[..n], i) == RunningSum(dist, i) by {
        forall i | 0 <= i < n ensures RunningSum(dist[..n], i) == RunningSum(dist, i) {
          assert dist[..n][..i + 1] == dist[..i + 1];
        }
      }
      PrefixSumStep(dist, n);
      assert n > 0 ==> Sum(dist[..n]) == prev[n - 1] by {
        if n > 0 {
          assert dist[..n - 1 + 1] == dist[..n];
        }
      }
      assert n == 0 ==> Sum(dist[..n]) == 0.0;
      c
  }

  /** With non-negative weights the running sums never decrease. */
  lemma {:induction false} CdfMonotone(dist: seq<real>)
    requires forall i | 0 <= i < |dist| :: dist[i] >= 0.0
    ensures forall i, j | 0 <= i <= j < |dist| :: Cdf(dist)[i] <= Cdf(dist)[j]
  {
    var c := Cdf(dist);
    forall i, j | 0 <= i <= j < |dist|
      ensures c[i] <= c[j]
    {
      PrefixSumsGrow(dist, i, j);
    }
  }

  lemma {:induction false} PrefixSumsGrow(dist: seq<real>, i: nat, j: nat)
    requires forall k | 0 <= k < |dist| :: dist[k] >= 0.0
    requires i <= j < |dist|
    ensures RunningSum(dist, i) <= RunningSum(dist, j)
    decreases j - i
  {
    if i < j {
      PrefixSumsGrow(dist, i, j - 1);
      PrefixSumStep(dist, j);
    }
  }

  /** `Array.prototype.findIndex(v => v >= r)` started at `from`: the first
      position at or after `from` whose value reaches `r`, or -1. */
  function FindIndexFrom(c: seq<real>, r: real, from: nat): (k: int)
    requires from <= |c|
    ensures k == -1 || from <= k < |c|
    ensures k == -1 <==> forall i | from <= i < |c| :: c[i] < r
    ensures k != -1 ==> c[k] >= r && forall i | from <= i < k :: c[i] < r
    decreases |c| - from
  {
    if from == |c| then -1
    else if c[from] >= r then from
    else FindIndexFrom(c, r, from + 1)
  }

  function FindIndex(c: seq<real>, r: real): (k: int)
    ensures k == -1 || 0 <= k < |c|
    ensures k == -1 <==> forall i | 0 <= i < |c| :: c[i] < r
    ensures k != -1 ==> c[k] >= r && forall i | 0 <= i < k :: c[i] < r
  {
    FindIndexFrom(c, r, 0)
  }

  /** Position `k` holds the first running sum that reaches `r`. */
  ghost predicate FirstReaching(dist: seq<real>, r: real, k: int)
  {
    0 <= k < |dist| && RunningSum(dist, k) >= r && forall i | 0 <= i < k :: RunningSum(dist, i) < r
  }

  /** `randomWeightedItem`: throws on a length mismatch or on empty input,
      returns the only element without drawing, and otherwise returns the
      element at the first running sum that reaches the draw, falling back to
      the last element when no running sum does. */
  function RandomWeightedItem<T>(a: seq<T>, dist: seq<real>, r: real): (res: Result<Sample<T>, SampleError>)
    ensures |a| != |dist| <==> res == Err(LengthMismatch)
    ensures |a| == |dist| == 0 <==> res == Err(EmptyDistribution)
    ensures |a| == |dist| == 1 ==> res == Ok(Sample(a[0], false))
    ensures res.Ok? ==> res.value.item in a
    ensures |a| == |dist| >= 2 ==> res.Ok? && res.value.drewRandom
    ensures |a| == |dist| >= 2 ==>
      forall k | FirstReaching(dist, r, k) :: res.value.item == a[k]
    ensures |a| == |dist| >= 2 && (forall i | 0 <= i < |dist| :: RunningSum(dist, i) < r) ==>
      res.value.item == a[|a| - 1]
  {
    if |a| != |dist| then Err(LengthMismatch)
    else if |dist| == 0 then Err(EmptyDistribution)
    else if |dist| == 1 then Ok(Sample(a[0], false))
    else
      var cdf := Cdf(dist);
      var index := FindIndex(cdf, r);
      if index == -1 then Ok(Sample(a[|a| - 1], true))
      else
        Ok(Sample(a[index], true))
  }
}
