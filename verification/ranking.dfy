/** The aggregation after the walk in `rwrvee` (`JS/src/randomWalk.ts`): the
    target neighbourhood, the per-item tallies, the items the target already
    has, and the final ranking by weighted average rating. */
module Ranking {
  import opened Wrappers
  import opened Seqs
  import opened Assoc
  import opened Dataset
  import opened Config

  function CountKey(e: (Cell, nat)): real
  {
    e.1 as real
  }

  /** A visit entry that passes the threshold and the neighbour filter. */
  predicate InNeighbourhood(cfg: WalkConfig, e: (Cell, nat))
  {
    e.1 > cfg.targetNeighbourhoodThreshold && cfg.neighborFilter(e.0, e.1)
  }

  /** The target neighbourhood: visit entries above the threshold that pass
      the neighbour filter, by decreasing count, at most `maxTargetNeighbours`
      of them, and none left out that was visited more often than one kept.
      Each neighbour appears once, as it does in the visit counts. */
  function TargetNeighbourhood(cfg: WalkConfig, visits: seq<(Cell, nat)>): (r: seq<(Cell, nat)>)
    ensures |r| <= cfg.maxTargetNeighbours
    ensures forall e | e in r :: e in visits && InNeighbourhood(cfg, e)
    ensures forall i, j | 0 <= i < j < |r| :: r[i].1 >= r[j].1
    ensures forall e, f | e in r && f in visits && InNeighbourhood(cfg, f) && f !in r :: e.1 >= f.1
    ensures |r| < cfg.maxTargetNeighbours ==> forall f | f in visits && InNeighbourhood(cfg, f) :: f in r
    ensures UniqueKeys(visits) ==> UniqueKeys(r)
  {
    // the two `filter` calls, fused into one predicate
    var keep := (e: (Cell, nat)) => InNeighbourhood(cfg, e);
    var eligible := Filter(visits, keep);
    var r := Top(eligible, CountKey, cfg.maxTargetNeighbours);
    FilterIsSubMultiset(visits, keep);
    assert UniqueKeys(visits) ==> UniqueKeys(r) by {
      if UniqueKeys(visits) {
        SubMultisetKeepsKeysUnique(r, visits);
      }
    }
    forall i, j | 0 <= i < j < |r|
      ensures r[i].1 >= r[j].1
    {
      assert CountKey(r[i]) >= CountKey(r[j]);
    }
    forall e, f | e in r && f in visits && InNeighbourhood(cfg, f) && f !in r
      ensures e.1 >= f.1
    {
      assert f in eligible;
      assert CountKey(e) >= CountKey(f);
    }
    r
  }

  /** One row's share: the item it names, the neighbour's visit count and the row's rating. */
  datatype Contribution = Contribution(id: Cell, count: nat, rating: real)

  /** `rating * count`, the row's part of the item's weighted sum. */
  function Weight(c: Contribution): real
  {
    c.rating * (c.count as real)
  }

  /** A rating cell used as a number in `rating * count`: a number is
      itself, `true` and `false` are 1 and 0, and `null` is 0, as JavaScript
      converts them. */
  function NumericValue(c: Cell): (x: real)
    ensures c.Number? ==> x == c.number
    ensures c.Bool? ==> x == if c.flag then 1.0 else 0.0
    ensures c.Null? ==> x == 0.0
  {
    match c
    case Number(x) => x
    case Bool(b) => if b then 1.0 else 0.0
    case _ => 0.0
  }

  /** The column read for ratings; an absent `ratingColumn` becomes the
      property name "undefined". */
  function RatingColumn(c: NodeTypeConfig): string
  {
    match c.ratingColumn
    case Some(column) => column
    case None => "undefined"
  }

  /** The share of `row`, reached through a neighbour visited `count` times:
      the item in its id column and the rating in its rating column. */
  function RowContribution(row: Row, count: nat, idColumn: string, ratingColumn: string): Contribution
  {
    Contribution(Get(row, idColumn), count, NumericValue(Get(row, ratingColumn)))
  }

  /** The contributions of one neighbourhood entry: one per row of its identifier. */
  function EntryContributions(rows: seq<nat>, count: nat, data: seq<Row>, idColumn: string, ratingColumn: string)
    : (cs: seq<Contribution>)
    requires forall k | 0 <= k < |rows| :: rows[k] < |data|
    ensures |cs| == |rows|
    ensures forall k | 0 <= k < |rows| :: cs[k] == RowContribution(data[rows[k]], count, idColumn, ratingColumn)
  {
    seq(|rows|, k requires 0 <= k < |rows| => RowContribution(data[rows[k]], count, idColumn, ratingColumn))
  }

  /** How many rows the identifiers of the neighbourhood have between them. */
  function RowTotal(nbhd: seq<(Cell, nat)>, mapping: Mapping): nat
  {
    if |nbhd| == 0 then 0 else |RowsOf(mapping, nbhd[0].0)| + RowTotal(nbhd[1..], mapping)
  }

  /** The rows before entry `p > 0` are the first entry's and those before
      entry `p - 1` of the rest. */
  lemma RowTotalOfLaterPrefix(nbhd: seq<(Cell, nat)>, mapping: Mapping, p: nat)
    requires 0 < p < |nbhd|
    ensures RowTotal(nbhd[..p], mapping) == |RowsOf(mapping, nbhd[0].0)| + RowTotal(nbhd[1..][..p - 1], mapping)
    ensures nbhd[p] == nbhd[1..][p - 1]
  {
    assert nbhd[..p][1..] == nbhd[1..][..p - 1];
  }

  /** Entry by entry and row by row: the share of row `k` of entry `p` sits
      right after the shares of the rows of the entries before `p`. */
  ghost predicate InRowOrder(cs: seq<Contribution>, nbhd: seq<(Cell, nat)>, mapping: Mapping, data: seq<Row>,
                             idColumn: string, ratingColumn: string)
    requires RowsBelow(mapping, |data|)
  {
    forall p, k | 0 <= p < |nbhd| && 0 <= k < |RowsOf(mapping, nbhd[p].0)| ::
      && RowTotal(nbhd[..p], mapping) + k < |cs|
      && cs[RowTotal(nbhd[..p], mapping) + k] ==
         RowContribution(data[RowsOf(mapping, nbhd[p].0)[k]], nbhd[p].1, idColumn, ratingColumn)
  }

  /** The shares of the first entry's rows, followed by those of the rest of
      the neighbourhood in row order, are in row order. */
  lemma InRowOrderCons(here: seq<Contribution>, rest: seq<Contribution>, nbhd: seq<(Cell, nat)>, mapping: Mapping,
                       data: seq<Row>, idColumn: string, ratingColumn: string)
    requires RowsBelow(mapping, |data|)
    requires |nbhd| > 0
    requires here == EntryContributions(RowsOf(mapping, nbhd[0].0), nbhd[0].1, data, idColumn, ratingColumn)
    requires InRowOrder(rest, nbhd[1..], mapping, data, idColumn, ratingColumn)
    ensures InRowOrder(here + rest, nbhd, mapping, data, idColumn, ratingColumn)
  {
    forall p, k | 0 <= p < |nbhd| && 0 <= k < |RowsOf(mapping, nbhd[p].0)|
      ensures RowTotal(nbhd[..p], mapping) + k < |here + rest|
      ensures (here + rest)[RowTotal(nbhd[..p], mapping) + k] ==
              RowContribution(data[RowsOf(mapping, nbhd[p].0)[k]], nbhd[p].1, idColumn, ratingColumn)
    {
      if p == 0 {
        assert RowTotal(nbhd[..p], mapping) == 0 by { assert nbhd[..p] == []; }
        assert (here + rest)[k] == here[k];
      } else {
        RowTotalOfLaterPrefix(nbhd, mapping, p);
        var q := RowTotal(nbhd[1..][..p - 1], mapping) + k;
        assert q < |rest| && rest[q] ==
          RowContribution(data[RowsOf(mapping, nbhd[1..][p - 1].0)[k]], nbhd[1..][p - 1].1, idColumn, ratingColumn);
        assert (here + rest)[|here| + q] == rest[q];
      }
    }
  }

  /** `c` is the share of one of the rows of a neighbourhood entry. */
  ghost predicate FromNeighbourhood(c: Contribution, nbhd: seq<(Cell, nat)>, mapping: Mapping, data: seq<Row>,
                                    idColumn: string, ratingColumn: string)
    requires RowsBelow(mapping, |data|)
  {
    exists e, k | e in nbhd && 0 <= k < |RowsOf(mapping, e.0)| ::
      c == RowContribution(data[RowsOf(mapping, e.0)[k]], e.1, idColumn, ratingColumn)
  }

  /** The contributions of the whole neighbourhood, entry by entry: one for
      every row of every neighbour, and nothing else. */
  function Contributions(nbhd: seq<(Cell, nat)>, mapping: Mapping, data: seq<Row>, idColumn: string, ratingColumn: string)
    : (cs: seq<Contribution>)
    requires RowsBelow(mapping, |data|)
    ensures |cs| == RowTotal(nbhd, mapping)
    ensures forall c :: c in cs <==> FromNeighbourhood(c, nbhd, mapping, data, idColumn, ratingColumn)
    ensures InRowOrder(cs, nbhd, mapping, data, idColumn, ratingColumn)
  {
    if |nbhd| == 0 then []
    else
      var rows := RowsOf(mapping, nbhd[0].0);
      var here := EntryContributions(rows, nbhd[0].1, data, idColumn, ratingColumn);
      var rest := Contributions(nbhd[1..], mapping, data, idColumn, ratingColumn);
      assert nbhd[0] in nbhd;
      forall c | c in here + rest
        ensures FromNeighbourhood(c, nbhd, mapping, data, idColumn, ratingColumn)
      {
        if c in here {
          var k :| 0 <= k < |here| && here[k] == c;
        } else {
          var e, k :| e in nbhd[1..] && 0 <= k < |RowsOf(mapping, e.0)| &&
            c == RowContribution(data[RowsOf(mapping, e.0)[k]], e.1, idColumn, ratingColumn);
          assert e in nbhd;
        }
      }
      forall c | FromNeighbourhood(c, nbhd, mapping, data, idColumn, ratingColumn)
        ensures c in here + rest
      {
        var e, k :| e in nbhd && 0 <= k < |RowsOf(mapping, e.0)| &&
          c == RowContribution(data[RowsOf(mapping, e.0)[k]], e.1, idColumn, ratingColumn);
        if e == nbhd[0] {
          assert here[k] == c;
        } else {
          var i :| 0 <= i < |nbhd| && nbhd[i] == e;
          assert nbhd[1..][i - 1] == e;
          assert FromNeighbourhood(c, nbhd[1..], mapping, data, idColumn, ratingColumn);
        }
      }
      InRowOrderCons(here, rest, nbhd, mapping, data, idColumn, ratingColumn);
      here + rest
  }

  /** Each contribution carries the visit count of the neighbour it comes
      from, so neighbours with positive counts give only positive counts. */
  lemma ContributionCountsPositive(nbhd: seq<(Cell, nat)>, mapping: Mapping, data: seq<Row>,
                                   idColumn: string, ratingColumn: string)
    requires RowsBelow(mapping, |data|)
    requires forall e | e in nbhd :: e.1 > 0
    ensures forall c | c in Contributions(nbhd, mapping, data, idColumn, ratingColumn) :: c.count > 0
  {
    forall c | c in Contributions(nbhd, mapping, data, idColumn, ratingColumn)
      ensures c.count > 0
    {
      var e, k :| e in nbhd && 0 <= k < |RowsOf(mapping, e.0)| &&
        c == RowContribution(data[RowsOf(mapping, e.0)[k]], e.1, idColumn, ratingColumn);
    }
  }

  /** What one row adds to its item's tally. */
  function AddContribution(t: Tally, c: Contribution): Tally
  {
    Tally(t.unweightedCount + 1, t.weightedCount + c.count, t.sum + Weight(c))
  }

  const NoTally := Tally(0, 0, 0.0)

  /** The tally of an item; an untallied item has the zero tally. */
  function TallyIn(recs: seq<(Cell, Tally)>, id: Cell): Tally
  {
    match Lookup(recs, id)
    case Some(t) => t
    case None => NoTally
  }

  /** The `recommendations` map, filled contribution by contribution. */
  function Accumulate(cs: seq<Contribution>): (recs: seq<(Cell, Tally)>)
    ensures UniqueKeys(recs)
  {
    if |cs| == 0 then []
    else
      var prev := Accumulate(cs[..|cs| - 1]);
      var c := cs[|cs| - 1];
      PutKeepsKeysUnique(prev, c.id, AddContribution(TallyIn(prev, c.id), c));
      Put(prev, c.id, AddContribution(TallyIn(prev, c.id), c))
  }

  ghost predicate Mentions(cs: seq<Contribution>, id: Cell)
  {
    exists c | c in cs :: c.id == id
  }

  /** The reference tally of `id`, summed over the contributions naming it:
      how many there are, the sum of their counts, and the sum of rating
      times count. */
  function TallyOf(cs: seq<Contribution>, id: Cell): Tally
  {
    if |cs| == 0 then NoTally
    else
      var rest := TallyOf(cs[1..], id);
      var c := cs[0];
      if c.id == id then Tally(rest.unweightedCount + 1, rest.weightedCount + c.count, rest.sum + Weight(c))
      else rest
  }

  lemma {:induction false} TallyOfSnoc(cs: seq<Contribution>, c: Contribution, id: Cell)
    ensures TallyOf(cs + [c], id) == if c.id == id then AddContribution(TallyOf(cs, id), c) else TallyOf(cs, id)
  {
    if |cs| == 0 {
      assert cs + [c] == [c];
      assert TallyOf([c][1..], id) == NoTally;
    } else {
      var head := cs[0];
      assert (cs + [c])[0] == head;
      assert (cs + [c])[1..] == cs[1..] + [c];
      TallyOfSnoc(cs[1..], c, id);
    }
  }

  /** Accumulating into the map gives every item exactly its reference
      tally: one per contributing row, the sum of their counts, and the sum of
      rating times count; items no row names are absent. */
  lemma {:induction false} AccumulateTallies(cs: seq<Contribution>, id: Cell)
    ensures Lookup(Accumulate(cs), id).Some? <==> Mentions(cs, id)
    ensures Mentions(cs, id) ==> Lookup(Accumulate(cs), id) == Some(TallyOf(cs, id))
  {
    if |cs| > 0 {
      var init := cs[..|cs| - 1];
      var c := cs[|cs| - 1];
      assert cs == init + [c];
      AccumulateTallies(init, id);
      TallyOfSnoc(init, c, id);
      if !Mentions(init, id) {
        NoMentionNoTally(init, id);
      }
    }
  }

  lemma {:induction false} NoMentionNoTally(cs: seq<Contribution>, id: Cell)
    requires !Mentions(cs, id)
    ensures TallyOf(cs, id) == NoTally
  {
    if |cs| > 0 {
      assert cs[0] in cs;
      assert forall c | c in cs[1..] :: c in cs;
      NoMentionNoTally(cs[1..], id);
    }
  }

  /** With positive visit counts every named item has a positive weighted
      count, so its average never divides by zero. */
  lemma {:induction false} WeightedCountPositive(cs: seq<Contribution>, id: Cell)
    requires forall c | c in cs :: c.count > 0
    requires Mentions(cs, id)
    ensures TallyOf(cs, id).weightedCount > 0
  {
    if cs[0].id != id {
      assert forall c | c in cs[1..] :: c in cs;
      var c :| c in cs && c.id == id;
      assert c in cs[1..] by {
        var k :| 0 <= k < |cs| && cs[k] == c;
        assert k != 0;
        assert cs[1..][k - 1] == c;
      }
      WeightedCountPositive(cs[1..], id);
    }
  }

  /** `sum / weighted_count`: the count-weighted mean rating; a zero
      weighted count cannot arise from a walk. */
  function Average(t: Tally): (a: real)
    ensures t.weightedCount > 0 ==> a * (t.weightedCount as real) == t.sum
    ensures t.weightedCount == 0 ==> a == 0.0
  {
    if t.weightedCount == 0 then 0.0 else t.sum / (t.weightedCount as real)
  }

  function AverageKey(e: (Cell, Tally)): real
  {
    Average(e.1)
  }

  /** An item still in the running: not already linked to the target and
      accepted by the item filter. */
  predicate Candidate(rated: set<Cell>, itemFilter: (Cell, Tally) -> bool, e: (Cell, Tally))
  {
    e.0 !in rated && itemFilter(e.0, e.1)
  }

  /** The tallied items still in the running, in map order. */
  function Eligible(recs: seq<(Cell, Tally)>, rated: set<Cell>, itemFilter: (Cell, Tally) -> bool)
    : (r: seq<(Cell, Tally)>)
    ensures forall e :: e in r <==> e in recs && Candidate(rated, itemFilter, e)
    ensures multiset(r) <= multiset(recs)
  {
    var keep := (e: (Cell, Tally)) => Candidate(rated, itemFilter, e);
    FilterIsSubMultiset(recs, keep);
    Filter(recs, keep)
  }

  function Ids(entries: seq<(Cell, Tally)>): (r: seq<Cell>)
    ensures |r| == |entries|
    ensures forall k | 0 <= k < |entries| :: r[k] == entries[k].0
  {
    seq(|entries|, k requires 0 <= k < |entries| => entries[k].0)
  }

  /** The final ranking: `filter`, `filter`, `map` to averages, `sort`,
      `slice(0, maxRecommendations)`, `map` to identifiers. Tallied items
      are keyed once, so no item is listed twice. */
  function Rank(recs: seq<(Cell, Tally)>, rated: set<Cell>, itemFilter: (Cell, Tally) -> bool, maxRecommendations: nat)
    : (r: seq<Cell>)
    ensures |r| <= maxRecommendations
    ensures UniqueKeys(recs) ==> Distinct(r)
  {
    var top := Top(Eligible(recs, rated, itemFilter), AverageKey, maxRecommendations);
    var r := Ids(top);
    assert UniqueKeys(recs) ==> Distinct(r) by {
      if UniqueKeys(recs) {
        SubMultisetKeepsKeysUnique(top, recs);
      }
    }
    r
  }

  /** Each ranked item is tallied, not already linked to the target, and
      accepted by the item filter; its average is the one it was sorted by. */
  lemma RankedAreCandidates(recs: seq<(Cell, Tally)>, rated: set<Cell>, itemFilter: (Cell, Tally) -> bool, n: nat)
    requires UniqueKeys(recs)
    ensures forall id | id in Rank(recs, rated, itemFilter, n) ::
      Lookup(recs, id).Some? && Candidate(rated, itemFilter, (id, TallyIn(recs, id)))
  {
    var top := Top(Eligible(recs, rated, itemFilter), AverageKey, n);
    forall k | 0 <= k < |top|
      ensures Lookup(recs, top[k].0) == Some(top[k].1)
    {
      assert top[k] in top;
      LookupEntry(recs, top[k]);
    }
  }

  /** The ranking is in decreasing order of average rating. */
  lemma RankedByAverage(recs: seq<(Cell, Tally)>, rated: set<Cell>, itemFilter: (Cell, Tally) -> bool, n: nat)
    requires UniqueKeys(recs)
    ensures var r := Rank(recs, rated, itemFilter, n);
      forall i, j | 0 <= i < j < |r| :: Average(TallyIn(recs, r[i])) >= Average(TallyIn(recs, r[j]))
  {
    var top := Top(Eligible(recs, rated, itemFilter), AverageKey, n);
    forall k | 0 <= k < |top|
      ensures TallyIn(recs, top[k].0) == top[k].1
    {
      assert top[k] in top;
      LookupEntry(recs, top[k]);
    }
  }

  /** No item left out of the ranking averages higher than one in it. */
  lemma RankedAreBest(recs: seq<(Cell, Tally)>, rated: set<Cell>, itemFilter: (Cell, Tally) -> bool, n: nat)
    requires UniqueKeys(recs)
    ensures var r := Rank(recs, rated, itemFilter, n);
      forall e | e in recs && Candidate(rated, itemFilter, e) && e.0 !in r ::
        forall id | id in r :: Average(TallyIn(recs, id)) >= Average(e.1)
  {
    var eligible := Eligible(recs, rated, itemFilter);
    var top := Top(eligible, AverageKey, n);
    var r := Ids(top);
    forall k | 0 <= k < |top|
      ensures TallyIn(recs, r[k]) == top[k].1
    {
      assert top[k] in top;
      LookupEntry(recs, top[k]);
    }
    forall e, id | e in recs && Candidate(rated, itemFilter, e) && e.0 !in r && id in r
      ensures Average(TallyIn(recs, id)) >= Average(e.1)
    {
      assert e in eligible;
      var k :| 0 <= k < |r| && r[k] == id;
      assert top[k] in top && e !in top;
      assert AverageKey(top[k]) >= AverageKey(e);
      assert TallyIn(recs, id) == top[k].1;
    }
  }

  /** A ranking shorter than `n` holds every candidate. */
  lemma ShortRankingIsComplete(recs: seq<(Cell, Tally)>, rated: set<Cell>, itemFilter: (Cell, Tally) -> bool, n: nat)
    ensures var r := Rank(recs, rated, itemFilter, n);
      |r| < n ==> forall e | e in recs && Candidate(rated, itemFilter, e) :: e.0 in r
  {
    var eligible := Eligible(recs, rated, itemFilter);
    var top := Top(eligible, AverageKey, n);
    var r := Ids(top);
    forall e | |r| < n && e in recs && Candidate(rated, itemFilter, e)
      ensures e.0 in r
    {
      assert e in eligible;
      assert e in top;
      var k :| 0 <= k < |top| && top[k] == e;
      assert r[k] == e.0;
    }
  }
}
