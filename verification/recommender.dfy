/** `rwrvee` end to end: the walk, then the aggregation of its visit counts
    into a ranked list of recommendation identifiers. */
module Recommender {
  import opened Wrappers
  import opened Seqs
  import opened Assoc
  import opened Dataset
  import opened Config
  import opened Walk
  import opened Ranking

  /** The configuration entry of the recommendation type. */
  function RecommendationType(cfg: WalkConfig): (c: NodeTypeConfig)
    requires IsType(cfg.dataConfig.nodeTypes, cfg.recommendationType)
    ensures c in cfg.dataConfig.nodeTypes && c.name == cfg.recommendationType
  {
    Find(cfg.dataConfig.nodeTypes, cfg.recommendationType).value
  }

  /** The items linked to the target's own rows (`targetItemAlreadyRated`). */
  function AlreadyRated(cfg: WalkConfig, target: Target, data: seq<Row>, ms: Mappings): (s: set<Cell>)
    requires ConfigOk(cfg, target, ms)
    requires IndicesBelow(ms, |data|)
    ensures forall i | i in RowsOf(ms[target.nodeType], target.id) ::
      Get(data[i], RecommendationType(cfg).idColumn) in s
    ensures forall id | id in s :: exists i | i in RowsOf(ms[target.nodeType], target.id) ::
      Get(data[i], RecommendationType(cfg).idColumn) == id
  {
    var rows := RowsOf(ms[target.nodeType], target.id);
    set i | i in rows :: Get(data[i], RecommendationType(cfg).idColumn)
  }

  /** The contributions of the target neighbourhood's rows: one per row of
      the target type's mapping under each neighbour, and with the positive
      counts of a walk, each carrying a positive count. */
  function NeighbourhoodContributions(cfg: WalkConfig, target: Target, data: seq<Row>, ms: Mappings, visits: seq<(Cell, nat)>)
    : (cs: seq<Contribution>)
    requires ConfigOk(cfg, target, ms)
    requires IndicesBelow(ms, |data|)
    ensures |cs| == RowTotal(TargetNeighbourhood(cfg, visits), ms[target.nodeType])
    ensures VisitsOk(visits, target) ==> forall c | c in cs :: c.count > 0
  {
    var rec := RecommendationType(cfg);
    var nbhd := TargetNeighbourhood(cfg, visits);
    var mapping := ms[target.nodeType];
    var cs := Contributions(nbhd, mapping, data, rec.idColumn, RatingColumn(rec));
    assert VisitsOk(visits, target) ==> forall c | c in cs :: c.count > 0 by {
      if VisitsOk(visits, target) {
        forall e | e in nbhd
          ensures e.1 > 0
        {
          var i :| 0 <= i < |visits| && visits[i] == e;
        }
        ContributionCountsPositive(nbhd, mapping, data, rec.idColumn, RatingColumn(rec));
      }
    }
    cs
  }

  /** The `recommendations` map after the neighbourhood has been folded in. */
  function Tallies(cfg: WalkConfig, target: Target, data: seq<Row>, ms: Mappings, visits: seq<(Cell, nat)>)
    : (recs: seq<(Cell, Tally)>)
    requires ConfigOk(cfg, target, ms)
    requires IndicesBelow(ms, |data|)
    ensures UniqueKeys(recs)
  {
    Accumulate(NeighbourhoodContributions(cfg, target, data, ms, visits))
  }

  /** Visit counts from a walk are positive, so every tallied item has a
      positive weighted count and `sum / weighted_count` is a true average. */
  lemma TalliedWeightsPositive(cfg: WalkConfig, target: Target, data: seq<Row>, ms: Mappings,
                               visits: seq<(Cell, nat)>, id: Cell)
    requires ConfigOk(cfg, target, ms)
    requires IndicesBelow(ms, |data|)
    requires VisitsOk(visits, target)
    ensures Lookup(Tallies(cfg, target, data, ms, visits), id).Some? ==>
      TallyIn(Tallies(cfg, target, data, ms, visits), id).weightedCount > 0
  {
    var cs := NeighbourhoodContributions(cfg, target, data, ms, visits);
    AccumulateTallies(cs, id);
    if Mentions(cs, id) {
      WeightedCountPositive(cs, id);
    }
  }

  /** What `rwrvee` promises of its list for the given visit counts: at most
      `maxRecommendations` items, none twice; each tallied from the
      neighbourhood's rows, not already linked to the target and accepted by
      the item filter; best average first; no candidate left out averages
      higher than one listed; and a list shorter than the limit holds every
      candidate. */
  ghost predicate IsTopRanking(cfg: WalkConfig, target: Target, data: seq<Row>, ms: Mappings,
                               visits: seq<(Cell, nat)>, r: seq<Cell>)
    requires ConfigOk(cfg, target, ms)
    requires IndicesBelow(ms, |data|)
  {
    var recs := Tallies(cfg, target, data, ms, visits);
    var rated := AlreadyRated(cfg, target, data, ms);
    && |r| <= cfg.maxRecommendations
    && Distinct(r)
    && (forall id | id in r ::
          && id !in rated
          && Mentions(NeighbourhoodContributions(cfg, target, data, ms, visits), id)
          && cfg.itemFilter(id, TallyIn(recs, id)))
    && (forall i, j | 0 <= i < j < |r| :: Average(TallyIn(recs, r[i])) >= Average(TallyIn(recs, r[j])))
    && (forall e, id | e in recs && Candidate(rated, cfg.itemFilter, e) && e.0 !in r && id in r ::
          Average(TallyIn(recs, id)) >= Average(e.1))
    && (|r| < cfg.maxRecommendations ==> forall e | e in recs && Candidate(rated, cfg.itemFilter, e) :: e.0 in r)
  }

  /** The aggregation after the walk: the ranking of the tallies of the
      target neighbourhood, with everything `IsTopRanking` promises. */
  function Recommend(cfg: WalkConfig, target: Target, data: seq<Row>, ms: Mappings, visits: seq<(Cell, nat)>)
    : (r: seq<Cell>)
    requires ConfigOk(cfg, target, ms)
    requires IndicesBelow(ms, |data|)
    ensures IsTopRanking(cfg, target, data, ms, visits, r)
  {
    var recs := Tallies(cfg, target, data, ms, visits);
    var rated := AlreadyRated(cfg, target, data, ms);
    var n := cfg.maxRecommendations;
    RankedAreCandidates(recs, rated, cfg.itemFilter, n);
    RankedByAverage(recs, rated, cfg.itemFilter, n);
    RankedAreBest(recs, rated, cfg.itemFilter, n);
    ShortRankingIsComplete(recs, rated, cfg.itemFilter, n);
    var r := Rank(recs, rated, cfg.itemFilter, n);
    assert forall id | id in r :: Mentions(NeighbourhoodContributions(cfg, target, data, ms, visits), id) by {
      forall id | id in r ensures Mentions(NeighbourhoodContributions(cfg, target, data, ms, visits), id) {
        AccumulateTallies(NeighbourhoodContributions(cfg, target, data, ms, visits), id);
      }
    }
    r
  }

  /** `rwrvee`: walk from the target, then rank. Errors are the `TypeError`s
      the walk can hit; on success the list is the top ranking of the visit
      counts the walk produced, and every listed item's average divides by a
      positive weighted count. */
  function Rwrvee(cfg: WalkConfig, target: Target, data: seq<Row>, ms: Mappings, exp: PositiveFunction, draws: seq<real>)
    : (r: Result<seq<Cell>, WalkError>)
    requires ConfigOk(cfg, target, ms)
    requires IndicesBelow(ms, |data|)
    requires |draws| >= 3 * Passes(cfg.maxIterations, 0)
    ensures r.Ok? <==> RunWalk(cfg, target, data, ms, exp, draws).Ok?
    ensures r.Err? ==> r.error == RunWalk(cfg, target, data, ms, exp, draws).error
    ensures r.Ok? ==> IsTopRanking(cfg, target, data, ms, RunWalk(cfg, target, data, ms, exp, draws).value.visits, r.value)
    ensures r.Ok? ==>
      var recs := Tallies(cfg, target, data, ms, RunWalk(cfg, target, data, ms, exp, draws).value.visits);
      forall id | id in r.value :: TallyIn(recs, id).weightedCount > 0
  {
    var w :- RunWalk(cfg, target, data, ms, exp, draws);
    var r := Recommend(cfg, target, data, ms, w.visits);
    assert forall id | id in r :: TallyIn(Tallies(cfg, target, data, ms, w.visits), id).weightedCount > 0 by {
      forall id | id in r
        ensures TallyIn(Tallies(cfg, target, data, ms, w.visits), id).weightedCount > 0
      {
        AccumulateTallies(NeighbourhoodContributions(cfg, target, data, ms, w.visits), id);
        TalliedWeightsPositive(cfg, target, data, ms, w.visits, id);
      }
    }
    Ok(r)
  }

  /** Mappings built by `computeMappings` from the data and its configuration
      meet everything the walk and the ranking expect of them. */
  lemma ComputedMappingsFit(cfg: WalkConfig, target: Target, data: seq<Row>)
    requires DistinctNames(cfg.dataConfig.nodeTypes)
    requires IsType(cfg.dataConfig.nodeTypes, target.nodeType)
    requires IsType(cfg.dataConfig.nodeTypes, cfg.recommendationType)
    ensures ConfigOk(cfg, target, ComputeMappings(data, cfg.dataConfig.nodeTypes))
    ensures IndicesBelow(ComputeMappings(data, cfg.dataConfig.nodeTypes), |data|)
  {
    ComputeMappingsInRange(data, cfg.dataConfig.nodeTypes);
  }
}
