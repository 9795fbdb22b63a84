/** Neighbour selection: `getNeighborRowIndices`, `softmax` and
    `getNeighborProbabilities` of `JS/src/randomWalk.ts`. */
module Neighbors {
  import opened Wrappers
  import opened Seqs
  import opened Dataset
  import opened Config

  /** `getNeighborRowIndices`: the node's rows in the mapping, minus its
      entrance row; an unknown identifier has no rows. */
  function NeighborRowIndices(node: Node, mapping: Mapping): (r: seq<nat>)
    ensures node.id !in mapping ==> r == []
    ensures forall i :: i in r <==> node.id in mapping && i in mapping[node.id] && Some(i) != node.entrance
  {
    Filter(RowsOf(mapping, node.id), i => Some(i) != node.entrance)
  }

  /** Every remaining row occurs as often as in the mapping. */
  lemma NeighborRowIndicesKeepCounts(node: Node, mapping: Mapping)
    requires node.id in mapping
    ensures forall i | Some(i) != node.entrance ::
      multiset(NeighborRowIndices(node, mapping))[i] == multiset(mapping[node.id])[i]
  {
    FilterKeepsMultiplicity(mapping[node.id], i => Some(i) != node.entrance);
  }

  /** The remaining rows keep the order they have in the mapping. */
  lemma NeighborRowIndicesKeepOrder(node: Node, mapping: Mapping)
    requires node.id in mapping
    ensures SubSeq(NeighborRowIndices(node, mapping), mapping[node.id])
  {
    FilterIsSubSeq(mapping[node.id], i => Some(i) != node.entrance);
  }

  /** `Math.max(...v)` for a non-empty `v`. */
  function Max(v: seq<real>): (m: real)
    requires |v| > 0
    ensures m in v
    ensures forall i | 0 <= i < |v| :: v[i] <= m
  {
    if |v| == 1 then v[0]
    else
      var rest := Max(v[1..]);
      assert forall i | 1 <= i < |v| :: v[i] == v[1..][i - 1];
      if v[0] >= rest then v[0] else rest
  }

  /** `map(value => value / t)`. */
  function Divide(e: seq<real>, t: real): (r: seq<real>)
    requires t != 0.0
    ensures |r| == |e|
    ensures forall i | 0 <= i < |e| :: r[i] == e[i] / t
  {
    seq(|e|, i requires 0 <= i < |e| => e[i] / t)
  }

  /** Dividing every term by `t` divides the sum by `t`. */
  lemma {:induction false} SumDivided(e: seq<real>, t: real)
    requires t != 0.0
    ensures Sum(Divide(e, t)) == Sum(e) / t
  {
    if |e| > 0 {
      assert Divide(e, t)[1..] == Divide(e[1..], t);
      SumDivided(e[1..], t);
      DivideSum(e[0], Sum(e[1..]), t);
    }
  }

  lemma DivideSum(a: real, b: real, t: real)
    requires t != 0.0
    ensures a / t + b / t == (a + b) / t
  {
  }

  /** Each positive value divided by their total: shares in (0, 1] that
      sum to 1. */
  function Shares(e: seq<real>): (p: seq<real>)
    requires |e| > 0
    requires forall i | 0 <= i < |e| :: e[i] > 0.0
    ensures |p| == |e|
    ensures forall i | 0 <= i < |p| :: 0.0 < p[i] <= 1.0
    ensures Sum(p) == 1.0
  {
    SumOfPositives(e);
    var total := Sum(e);
    var p := Divide(e, total);
    forall i | 0 <= i < |p|
      ensures 0.0 < p[i] <= 1.0
    {
      ShareOfTotal(e[i], total);
    }
    SumDivided(e, total);
    p
  }

  /** `softmax`: exponentiate after subtracting the maximum, then divide by
      the total. Every probability lies in (0, 1], and together they sum
      to 1. */
  function Softmax(v: seq<real>, exp: PositiveFunction): (p: seq<real>)
    ensures |p| == |v|
    ensures forall i | 0 <= i < |p| :: 0.0 < p[i] <= 1.0
    ensures |v| > 0 ==> Sum(p) == 1.0
  {
    if |v| == 0 then []
    else
      var m := Max(v);
      Shares(seq(|v|, i requires 0 <= i < |v| => exp(v[i] - m)))
  }

  lemma ShareOfTotal(part: real, total: real)
    requires 0.0 < part <= total
    ensures 0.0 < part / total <= 1.0
  {
  }

  /** A row index paired with its selection probability. */
  datatype Weighted = Weighted(index: nat, probability: real)

  function Indices(ws: seq<Weighted>): (r: seq<nat>)
    ensures |r| == |ws|
    ensures forall k | 0 <= k < |ws| :: r[k] == ws[k].index
  {
    seq(|ws|, k requires 0 <= k < |ws| => ws[k].index)
  }

  function Probabilities(ws: seq<Weighted>): (r: seq<real>)
    ensures |r| == |ws|
    ensures forall k | 0 <= k < |ws| :: r[k] == ws[k].probability
  {
    seq(|ws|, k requires 0 <= k < |ws| => ws[k].probability)
  }

  /** The values of `keys` in row `i` (each key read from that row); a
      missing row yields no values, which only happens when `keys` is empty
      or the caller has already reported the undefined read. */
  function VectorAt(data: seq<Row>, i: Option<nat>, keys: seq<string>): (v: seq<Cell>)
    ensures i.Some? && i.value < |data| ==>
      |v| == |keys| && forall k | 0 <= k < |keys| :: v[k] == Get(data[i.value], keys[k])
    ensures !(i.Some? && i.value < |data|) ==> v == []
  {
    if i.Some? && i.value < |data| then seq(|keys|, k requires 0 <= k < |keys| => Get(data[i.value], keys[k]))
    else []
  }

  /** The raw similarity of candidate row `c` to the node's entrance row. */
  function Similarity(cfg: WalkConfig, data: seq<Row>, node: Node, keys: seq<string>, c: nat): real
  {
    cfg.vectorSimilarity(VectorAt(data, node.entrance, keys), VectorAt(data, Some(c), keys))
  }

  predicate Similar(cfg: WalkConfig, data: seq<Row>, node: Node, keys: seq<string>, c: nat)
  {
    Similarity(cfg, data, node, keys, c) > 0.0
  }

  /** Whether computing the similarity vectors reads a row that does not exist. */
  predicate ReadsUndefinedRow(data: seq<Row>, node: Node, keys: seq<string>, cands: seq<nat>)
  {
    |keys| > 0 &&
    (node.entrance.None? || node.entrance.value >= |data| || exists c | c in cands :: c >= |data|)
  }

  /** Each row index with the probability at the same position. */
  function Pair(rows: seq<nat>, probs: seq<real>): (ws: seq<Weighted>)
    requires |rows| == |probs|
    ensures Indices(ws) == rows && Probabilities(ws) == probs
  {
    seq(|rows|, k requires 0 <= k < |rows| => Weighted(rows[k], probs[k]))
  }

  /** `activationFunction(vectorSimilarity(...))` for every kept row. */
  function Scores(cfg: WalkConfig, data: seq<Row>, node: Node, keys: seq<string>, kept: seq<nat>): (v: seq<real>)
    ensures |v| == |kept|
  {
    seq(|kept|, k requires 0 <= k < |kept| => cfg.activationFunction(Similarity(cfg, data, node, keys, kept[k])))
  }

  /** The candidates with positive similarity: exactly those, as often as
      among the candidates, and in the same order. */
  function SimilarRows(cfg: WalkConfig, data: seq<Row>, node: Node, keys: seq<string>, cands: seq<nat>)
    : (kept: seq<nat>)
    ensures forall c :: c in kept <==> c in cands && Similar(cfg, data, node, keys, c)
    ensures SubSeq(kept, cands)
  {
    var similar := c => Similar(cfg, data, node, keys, c);
    FilterIsSubSeq(cands, similar);
    Filter(cands, similar)
  }

  /** Every candidate with positive similarity is kept as often as it occurs. */
  lemma SimilarRowsKeepCounts(cfg: WalkConfig, data: seq<Row>, node: Node, keys: seq<string>, cands: seq<nat>)
    ensures forall c | Similar(cfg, data, node, keys, c) ::
      multiset(SimilarRows(cfg, data, node, keys, cands))[c] == multiset(cands)[c]
  {
    FilterKeepsMultiplicity(cands, c => Similar(cfg, data, node, keys, c));
  }

  /** The scoring half of `getNeighborProbabilities`: the candidates with
      positive similarity, in their original order and with their
      multiplicity, each weighted by the softmax of its activated similarity. */
  function WeighSimilar(cfg: WalkConfig, exp: PositiveFunction, data: seq<Row>, node: Node, keys: seq<string>, cands: seq<nat>)
    : (ws: seq<Weighted>)
    ensures forall w | w in ws :: w.index in cands && 0.0 < w.probability <= 1.0
    ensures forall c :: c in Indices(ws) <==> c in cands && Similar(cfg, data, node, keys, c)
    ensures SubSeq(Indices(ws), cands)
    ensures |ws| > 0 ==> Sum(Probabilities(ws)) == 1.0
  {
    var kept := SimilarRows(cfg, data, node, keys, cands);
    var probs := Softmax(Scores(cfg, data, node, keys, kept), exp);
    var ws := Pair(kept, probs);
    forall w | w in ws
      ensures w.index in cands && 0.0 < w.probability <= 1.0
    {
      var k :| 0 <= k < |ws| && ws[k] == w;
      assert Indices(ws)[k] == kept[k] && kept[k] in kept;
      assert Probabilities(ws)[k] == probs[k];
    }
    ws
  }

  /** Every candidate with positive similarity is weighted as often as it occurs. */
  lemma WeighSimilarKeepsCounts(cfg: WalkConfig, exp: PositiveFunction, data: seq<Row>, node: Node,
                                keys: seq<string>, cands: seq<nat>)
    ensures forall c | Similar(cfg, data, node, keys, c) ::
      multiset(Indices(WeighSimilar(cfg, exp, data, node, keys, cands)))[c] == multiset(cands)[c]
  {
    SimilarRowsKeepCounts(cfg, data, node, keys, cands);
  }

  /** `getNeighborProbabilities`. No candidates: empty. One candidate: it,
      with probability 1. Otherwise the candidates with positive similarity,
      in their original order, each with a probability in (0, 1]; a missing
      edge configuration or an undefined row read throws. */
  function NeighborProbabilities(cfg: WalkConfig, exp: PositiveFunction, data: seq<Row>, node: Node, cands: seq<nat>)
    : (r: Result<seq<Weighted>, WalkError>)
    ensures |cands| == 0 ==> r == Ok([])
    ensures |cands| == 1 ==> r == Ok([Weighted(cands[0], 1.0)])
    ensures r.Err? <==>
      && |cands| >= 2
      && (node.nodeType !in cfg.dataConfig.edges ||
          ReadsUndefinedRow(data, node, cfg.dataConfig.edges[node.nodeType], cands))
    ensures r.Ok? ==> forall w | w in r.value :: w.index in cands && 0.0 < w.probability <= 1.0
    ensures r.Ok? && |r.value| > 0 ==> Sum(Probabilities(r.value)) == 1.0
    ensures r.Ok? && |cands| >= 2 ==>
      r.value == WeighSimilar(cfg, exp, data, node, cfg.dataConfig.edges[node.nodeType], cands)
  {
    if |cands| == 0 then Ok([])
    else if |cands| == 1 then
      assert Probabilities([Weighted(cands[0], 1.0)]) == [1.0];
      Ok([Weighted(cands[0], 1.0)])
    else if node.nodeType !in cfg.dataConfig.edges then Err(MissingEdgeConfig(node.nodeType))
    else
      var keys := cfg.dataConfig.edges[node.nodeType];
      if ReadsUndefinedRow(data, node, keys, cands) then Err(UndefinedRowRead)
      else Ok(WeighSimilar(cfg, exp, data, node, keys, cands))
  }
}
