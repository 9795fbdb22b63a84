/** The walk configuration, the target, the per-item accumulator and the
    errors the walk can throw. Caller-supplied strategies are pure function
    parameters. */
module Config {
  import opened Dataset

  /** The running numbers kept for one candidate recommendation. */
  datatype Tally = Tally(unweightedCount: nat, weightedCount: nat, sum: real)

  datatype WalkConfig = WalkConfig(
    maxIterations: int,
    maxRecommendations: nat,
    maxTargetNeighbours: nat,
    restartProbability: real,
    recommendationType: string,
    neighborFilter: (Cell, nat) -> bool,
    itemFilter: (Cell, Tally) -> bool,
    targetNeighbourhoodThreshold: int,
    vectorSimilarity: (seq<Cell>, seq<Cell>) -> real,
    activationFunction: real -> real,
    dataConfig: DataConfig)

  datatype Target = Target(id: Cell, nodeType: string)

  /** The `TypeError`s the walk can run into. */
  datatype WalkError =
    | MissingEdgeConfig(nodeType: string)  // `edges[type]` is undefined
    | UndefinedRowRead                     // a vector field read on a row index with no row
    | NoNodeTypeInRow(row: nat)            // the selected row carries no node type at all

  /** A stand-in for `Math.exp`: any function with positive values. */
  type PositiveFunction = f: real -> real | forall x :: 0.0 < f(x) witness (x: real) => 1.0

  /** What the walk expects of its inputs: node-type names are object keys,
      the target and recommendation types are configured, and every
      configured type has a mapping. */
  ghost predicate ConfigOk(cfg: WalkConfig, target: Target, ms: Mappings)
  {
    var types := cfg.dataConfig.nodeTypes;
    && DistinctNames(types)
    && IsType(types, target.nodeType)
    && IsType(types, cfg.recommendationType)
    && (forall c | c in types :: c.name in ms)
  }
}
