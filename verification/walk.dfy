/** The random walk with restart of `rwrvee` (`JS/src/randomWalk.ts`): one
    loop pass is the pure function `Step`, and `Loop` drives it exactly as
    the source's pre-incrementing `while` loop does. The seeded
    generator is replaced by the sequence of draws it would produce, and the
    walk state records how many of them it has used. */
module Walk {
  import opened Wrappers
  import opened Assoc
  import opened Dataset
  import opened RandomUtils
  import opened Config
  import opened Neighbors

  /** The loop state: the current node, the iteration counter, the visit
      counts (a `Map` in insertion order) and how many draws the generator
      has produced so far; the next draw is `draws[used]`. */
  datatype Walker = Walker(current: Node, iteration: nat, visits: seq<(Cell, nat)>, used: nat)

  /** The node every restart returns to. */
  function Seed(target: Target): Node
  {
    Node(target.id, target.nodeType, None)
  }

  /** The visit count of an identifier; an uncounted one has count 0. */
  function Count(visits: seq<(Cell, nat)>, id: Cell): nat
  {
    match Lookup(visits, id)
    case Some(n) => n
    case None => 0
  }

  /** Visit counts are positive, keyed once each, and never for the target. */
  ghost predicate VisitsOk(visits: seq<(Cell, nat)>, target: Target)
  {
    && UniqueKeys(visits)
    && forall i | 0 <= i < |visits| :: visits[i].0 != target.id && visits[i].1 > 0
  }

  ghost predicate Valid(cfg: WalkConfig, target: Target, w: Walker)
  {
    IsType(cfg.dataConfig.nodeTypes, w.current.nodeType) && VisitsOk(w.visits, target)
  }

  /** Whether a loop pass counts a visit to `node`. */
  predicate Counted(node: Node, target: Target)
  {
    node.id != target.id && node.nodeType == target.nodeType
  }

  ghost predicate AllDraws(draws: seq<real>)
  {
    forall i | 0 <= i < |draws| :: IsDraw(draws[i])
  }

  /** Counts one more visit to `id`. */
  function Increment(visits: seq<(Cell, nat)>, id: Cell): seq<(Cell, nat)>
  {
    Put<Cell, nat>(visits, id, Count(visits, id) + 1)
  }

  /** Counting a visit adds one to that identifier and changes no other count. */
  lemma IncrementCounts(visits: seq<(Cell, nat)>, id: Cell)
    ensures forall x :: Count(Increment(visits, id), x) == Count(visits, x) + (if x == id then 1 else 0)
  {
  }

  /** Counting a visit to a node other than the target keeps the counts well formed. */
  lemma IncrementKeepsVisitsOk(visits: seq<(Cell, nat)>, id: Cell, target: Target)
    requires VisitsOk(visits, target)
    requires id != target.id
    ensures VisitsOk(Increment(visits, id), target)
  {
    var r := Increment(visits, id);
    PutKeepsKeysUnique<Cell, nat>(visits, id, Count(visits, id) + 1);
    PutEntries<Cell, nat>(visits, id, Count(visits, id) + 1);
    forall i | 0 <= i < |r|
      ensures r[i].0 != target.id && r[i].1 > 0
    {
      assert r[i] in r;
    }
  }

  /** Where one loop pass may take the walk from `from`: back to the seed
      (no entrance row), or to the node read from an existing neighbour row,
      under its type's id column. Leaving a node of the target type lands on
      a type the row really carries; leaving any other type lands on the
      target type. */
  ghost predicate Hop(cfg: WalkConfig, target: Target, data: seq<Row>, ms: Mappings, from: Node, to: Node)
    requires ConfigOk(cfg, target, ms)
    requires IsType(cfg.dataConfig.nodeTypes, from.nodeType)
  {
    && IsType(cfg.dataConfig.nodeTypes, to.nodeType)
    && (to.entrance.None? ==> to == Seed(target))
    && (to.entrance.Some? ==>
         var i := to.entrance.value;
         && i < |data|
         && i in NeighborRowIndices(from, ms[from.nodeType])
         && to.id == Get(data[i], IdColumn(cfg.dataConfig.nodeTypes, to.nodeType))
         && (from.nodeType == target.nodeType ==> HasId(data[i], IdColumn(cfg.dataConfig.nodeTypes, to.nodeType))))
    && (from.nodeType != target.nodeType ==> to.nodeType == target.nodeType)
  }

  /** The counting at the top of a pass: a visit to a node of the target
      type, other than the target itself, adds one to its count. */
  function CountVisit(target: Target, w: Walker): (r: Walker)
    requires VisitsOk(w.visits, target)
    requires w.current.id != target.id
    ensures r == w.(visits := r.visits)
    ensures VisitsOk(r.visits, target)
    ensures forall id ::
      Count(r.visits, id) == Count(w.visits, id) + (if Counted(w.current, target) && id == w.current.id then 1 else 0)
  {
    IncrementCounts(w.visits, w.current.id);
    IncrementKeepsVisitsOk(w.visits, w.current.id, target);
    if w.current.nodeType == target.nodeType then w.(visits := Increment(w.visits, w.current.id))
    else w
  }

  /** The hop from a node of the target type: one draw picks a neighbour
      row uniformly, a second picks uniformly among the node types that row
      carries. No row to pick is a forced restart; a row carrying no type
      is the `TypeError` of reading `type` from `undefined`. */
  function UniformHop(cfg: WalkConfig, target: Target, data: seq<Row>, ms: Mappings, draws: seq<real>, w: Walker)
    : (r: Result<Walker, WalkError>)
    requires ConfigOk(cfg, target, ms)
    requires w.current.nodeType == target.nodeType
    requires w.used + 2 <= |draws|
    ensures r.Ok? ==> r.value.visits == w.visits && r.value.iteration == w.iteration
    ensures r.Ok? ==> w.used < r.value.used <= w.used + 2
    ensures r.Ok? ==> Hop(cfg, target, data, ms, w.current, r.value.current)
    ensures r.Err? ==>
      && r.error.NoNodeTypeInRow?
      && r.error.row < |data|
      && (AllDraws(draws) ==> RowNodeTypes(data[r.error.row], cfg.dataConfig.nodeTypes) == [])
    ensures var ns := NeighborRowIndices(w.current, ms[w.current.nodeType]);
      var k := UniformIndex(|ns|, draws[w.used]);
      !(0 <= k < |ns| && ns[k] < |data|) ==> r == Ok(w.(current := Seed(target), used := w.used + 1))
    ensures var ns := NeighborRowIndices(w.current, ms[w.current.nodeType]);
      var k := UniformIndex(|ns|, draws[w.used]);
      0 <= k < |ns| && ns[k] < |data| ==>
        var offered := RowNodeTypes(data[ns[k]], cfg.dataConfig.nodeTypes);
        var j := UniformIndex(|offered|, draws[w.used + 1]);
        if 0 <= j < |offered| then
          r == Ok(w.(current := Node(Get(data[ns[k]], IdColumn(cfg.dataConfig.nodeTypes, offered[j])), offered[j], Some(ns[k])),
                     used := w.used + 2))
        else
          r == Err(NoNodeTypeInRow(ns[k]))
  {
    var types := cfg.dataConfig.nodeTypes;
    var neighbors := NeighborRowIndices(w.current, ms[w.current.nodeType]);
    match RandomUniformItem(neighbors, draws[w.used])
    case None => Ok(w.(current := Seed(target), used := w.used + 1))
    case Some(i) =>
      if i >= |data| then Ok(w.(current := Seed(target), used := w.used + 1))
      else
        var offered := RowNodeTypes(data[i], types);
        match RandomUniformItem(offered, draws[w.used + 1])
        case None => Err(NoNodeTypeInRow(i))
        case Some(t) =>
          RowNodeTypesCarryIds(data[i], types, t);
          Ok(w.(current := Node(Get(data[i], IdColumn(types, t)), t, Some(i)), used := w.used + 2))
  }

  /** The hop from a node of any other type: back to the target type through
      a neighbour row drawn by similarity-weighted probability. No similar
      neighbour, or a pick outside the table, is a forced restart. */
  function WeightedHop(cfg: WalkConfig, target: Target, data: seq<Row>, ms: Mappings, exp: PositiveFunction,
                       draws: seq<real>, w: Walker)
    : (r: Result<Walker, WalkError>)
    requires ConfigOk(cfg, target, ms)
    requires IsType(cfg.dataConfig.nodeTypes, w.current.nodeType)
    requires w.current.nodeType != target.nodeType
    requires w.used + 1 <= |draws|
    ensures r.Ok? ==> r.value.visits == w.visits && r.value.iteration == w.iteration
    ensures r.Ok? ==> w.used <= r.value.used <= w.used + 1
    ensures r.Ok? ==> Hop(cfg, target, data, ms, w.current, r.value.current)
    ensures r.Err? ==> !r.error.NoNodeTypeInRow?
    ensures var ps := NeighborProbabilities(cfg, exp, data, w.current, NeighborRowIndices(w.current, ms[w.current.nodeType]));
      ps.Err? ==> r == Err(ps.error)
    ensures var ps := NeighborProbabilities(cfg, exp, data, w.current, NeighborRowIndices(w.current, ms[w.current.nodeType]));
      ps == Ok([]) ==> r == Ok(w.(current := Seed(target)))
    ensures var ps := NeighborProbabilities(cfg, exp, data, w.current, NeighborRowIndices(w.current, ms[w.current.nodeType]));
      ps.Ok? && |ps.value| > 0 ==>
        var i := RandomWeightedItem(Indices(ps.value), Probabilities(ps.value), draws[w.used]).value.item;
        var used := if |ps.value| >= 2 then w.used + 1 else w.used;
        if i < |data| then
          r == Ok(w.(current := Node(Get(data[i], IdColumn(cfg.dataConfig.nodeTypes, target.nodeType)), target.nodeType, Some(i)),
                     used := used))
        else
          r == Ok(w.(current := Seed(target), used := used))
  {
    var neighbors := NeighborRowIndices(w.current, ms[w.current.nodeType]);
    var weighted :- NeighborProbabilities(cfg, exp, data, w.current, neighbors);
    if |weighted| == 0 then Ok(w.(current := Seed(target)))
    else
      var pick := RandomWeightedItem(Indices(weighted), Probabilities(weighted), draws[w.used]).value;
      var used := if pick.drewRandom then w.used + 1 else w.used;
      var i := pick.item;
      if i >= |data| then Ok(w.(current := Seed(target), used := used))
      else
        var column := IdColumn(cfg.dataConfig.nodeTypes, target.nodeType);
        Ok(w.(current := Node(Get(data[i], column), target.nodeType, Some(i)), used := used))
  }

  /** The part of a loop pass after the restart check: a hop from the
      current node, or a forced restart when no neighbour row resolves. */
  function Move(cfg: WalkConfig, target: Target, data: seq<Row>, ms: Mappings, exp: PositiveFunction,
                draws: seq<real>, w: Walker)
    : (r: Result<Walker, WalkError>)
    requires ConfigOk(cfg, target, ms)
    requires IsType(cfg.dataConfig.nodeTypes, w.current.nodeType)
    requires w.used + 2 <= |draws|
    ensures r.Ok? ==> r.value.visits == w.visits && r.value.iteration == w.iteration
    ensures r.Ok? ==> w.used <= r.value.used <= w.used + 2
    ensures r.Ok? ==> Hop(cfg, target, data, ms, w.current, r.value.current)
    ensures r.Err? ==> (r.error.NoNodeTypeInRow? <==> w.current.nodeType == target.nodeType)
    ensures w.current.nodeType == target.nodeType ==> r == UniformHop(cfg, target, data, ms, draws, w)
    ensures w.current.nodeType != target.nodeType ==> r == WeightedHop(cfg, target, data, ms, exp, draws, w)
  {
    if w.current.nodeType == target.nodeType then UniformHop(cfg, target, data, ms, draws, w)
    else WeightedHop(cfg, target, data, ms, exp, draws, w)
  }

  /** One pass of the loop body (after `iteration++`). A node other than the
      target is counted when it has the target's type, then one draw decides
      a restart; otherwise the walk moves on. */
  function Step(cfg: WalkConfig, target: Target, data: seq<Row>, ms: Mappings, exp: PositiveFunction,
                draws: seq<real>, w: Walker)
    : (r: Result<Walker, WalkError>)
    requires ConfigOk(cfg, target, ms)
    requires Valid(cfg, target, w)
    requires w.used + 3 <= |draws|
    ensures r.Ok? ==> Valid(cfg, target, r.value) && r.value.iteration == w.iteration
    ensures r.Ok? ==> w.used <= r.value.used <= w.used + 3
    ensures r.Ok? ==>
      forall id :: Count(r.value.visits, id) ==
        Count(w.visits, id) + (if Counted(w.current, target) && id == w.current.id then 1 else 0)
    ensures w.current.id != target.id && draws[w.used] < cfg.restartProbability ==>
      r == Ok(CountVisit(target, w).(current := Seed(target), used := w.used + 1))
    ensures w.current.id != target.id && draws[w.used] >= cfg.restartProbability ==>
      r == Move(cfg, target, data, ms, exp, draws, CountVisit(target, w).(used := w.used + 1))
    ensures w.current.id == target.id ==> r == Move(cfg, target, data, ms, exp, draws, w)
    ensures r.Ok? ==> Hop(cfg, target, data, ms, w.current, r.value.current)
    ensures r.Err? ==> (r.error.NoNodeTypeInRow? <==> w.current.nodeType == target.nodeType)
  {
    if w.current.id != target.id then
      var counted := CountVisit(target, w);
      if draws[w.used] < cfg.restartProbability then
        Ok(counted.(current := Seed(target), used := w.used + 1))
      else
        Move(cfg, target, data, ms, exp, draws, counted.(used := w.used + 1))
    else
      Move(cfg, target, data, ms, exp, draws, w)
  }

  /** With the mappings `computeMappings` builds, a pass that does not
      restart follows an edge of the graph: its entrance row holds the node
      the walk left, in that node's id column, and the node it reached, in
      its own. */
  lemma StepFollowsEdge(cfg: WalkConfig, target: Target, data: seq<Row>, exp: PositiveFunction,
                        draws: seq<real>, w: Walker)
    requires DistinctNames(cfg.dataConfig.nodeTypes)
    requires IsType(cfg.dataConfig.nodeTypes, target.nodeType)
    requires IsType(cfg.dataConfig.nodeTypes, cfg.recommendationType)
    requires Valid(cfg, target, w)
    requires w.used + 3 <= |draws|
    ensures var r := Step(cfg, target, data, ComputeMappings(data, cfg.dataConfig.nodeTypes), exp, draws, w);
      r.Ok? && r.value.current.entrance.Some? ==>
        var i := r.value.current.entrance.value;
        && i < |data|
        && Get(data[i], IdColumn(cfg.dataConfig.nodeTypes, w.current.nodeType)) == w.current.id
        && Get(data[i], IdColumn(cfg.dataConfig.nodeTypes, r.value.current.nodeType)) == r.value.current.id
  {
    var types := cfg.dataConfig.nodeTypes;
    var ms := ComputeMappings(data, types);
    var r := Step(cfg, target, data, ms, exp, draws, w);
    if r.Ok? && r.value.current.entrance.Some? {
      var i := r.value.current.entrance.value;
      var c := Find(types, w.current.nodeType).value;
      var rows := ms[w.current.nodeType][w.current.id];
      assert rows == RowsWith(data, c.idColumn, w.current.id, |data|);
      var k :| 0 <= k < |rows| && rows[k] == i;
    }
  }

  /** A seed without neighbour rows does not raise the "has no neighbors"
      error: the lookup yields an empty list, the uniform pick over it reads
      `undefined`, and the pass ends in a forced restart that used one draw. */
  lemma SeedWithoutNeighborsRestarts(cfg: WalkConfig, target: Target, data: seq<Row>, ms: Mappings,
                                     exp: PositiveFunction, draws: seq<real>, w: Walker)
    requires ConfigOk(cfg, target, ms)
    requires Valid(cfg, target, w)
    requires w.used + 3 <= |draws|
    requires w.current == Seed(target)
    requires NeighborRowIndices(Seed(target), ms[target.nodeType]) == []
    ensures Step(cfg, target, data, ms, exp, draws, w) == Ok(w.(used := w.used + 1))
  {
  }

  /** The loop body: `iteration++`, then one `Step`. */
  function Pass(cfg: WalkConfig, target: Target, data: seq<Row>, ms: Mappings, exp: PositiveFunction,
                draws: seq<real>, w: Walker)
    : (r: Result<Walker, WalkError>)
    requires ConfigOk(cfg, target, ms)
    requires Valid(cfg, target, w)
    requires w.used + 3 <= |draws|
    ensures r.Ok? ==> Valid(cfg, target, r.value) && r.value.iteration == w.iteration + 1
    ensures r.Ok? ==> w.used <= r.value.used <= w.used + 3
  {
    Step(cfg, target, data, ms, exp, draws, w.(iteration := w.iteration + 1))
  }

  /** How many more times `while (iteration <= maxIterations)` admits the body. */
  function Passes(maxIterations: int, iteration: nat): nat
  {
    if iteration <= maxIterations then maxIterations + 1 - iteration else 0
  }

  /** `k` passes of the loop body, counted rather than driven by the loop
      condition: the first error ends the walk. */
  function Iterate(cfg: WalkConfig, target: Target, data: seq<Row>, ms: Mappings, exp: PositiveFunction,
                   draws: seq<real>, w: Walker, k: nat)
    : (r: Result<Walker, WalkError>)
    requires ConfigOk(cfg, target, ms)
    requires Valid(cfg, target, w)
    requires w.used + 3 * k <= |draws|
    ensures r.Ok? ==> Valid(cfg, target, r.value) && r.value.iteration == w.iteration + k
    ensures r.Ok? ==> w.used <= r.value.used <= w.used + 3 * k
    decreases k, 1
  {
    if k == 0 then Ok(w) else IteratePass(cfg, target, data, ms, exp, draws, w, k)
  }

  /** The first of `k` counted passes: it increments `iteration` and runs
      `Step`, and the other `k - 1` go on from its result. */
  function IteratePass(cfg: WalkConfig, target: Target, data: seq<Row>, ms: Mappings, exp: PositiveFunction,
                       draws: seq<real>, w: Walker, k: nat)
    : (r: Result<Walker, WalkError>)
    requires ConfigOk(cfg, target, ms)
    requires Valid(cfg, target, w)
    requires k > 0 && w.used + 3 * k <= |draws|
    ensures r.Ok? ==> Valid(cfg, target, r.value) && r.value.iteration == w.iteration + k
    ensures r.Ok? ==> w.used <= r.value.used <= w.used + 3 * k
    decreases k, 0
  {
    IterateAfter(cfg, target, data, ms, exp, draws, Pass(cfg, target, data, ms, exp, draws, w), k - 1)
  }

  /** The remaining `k` counted passes after the result of a pass: an error
      ends the walk, and otherwise the passes go on from where it left it. */
  function IterateAfter(cfg: WalkConfig, target: Target, data: seq<Row>, ms: Mappings, exp: PositiveFunction,
                        draws: seq<real>, pass: Result<Walker, WalkError>, k: nat)
    : (r: Result<Walker, WalkError>)
    requires ConfigOk(cfg, target, ms)
    requires pass.Ok? ==> Valid(cfg, target, pass.value) && pass.value.used + 3 * k <= |draws|
    ensures pass.Err? ==> r == pass
    ensures r.Ok? ==> pass.Ok? && Valid(cfg, target, r.value) && r.value.iteration == pass.value.iteration + k
    ensures r.Ok? ==> pass.value.used <= r.value.used <= pass.value.used + 3 * k
    decreases k, 2
  {
    match pass
    case Err(_) => pass
    case Ok(next) => Iterate(cfg, target, data, ms, exp, draws, next, k)
  }

  /** How many passes the loop still runs after a pass's result: none after an error. */
  function PassesAfter(maxIterations: int, pass: Result<Walker, WalkError>): nat
  {
    if pass.Ok? then Passes(maxIterations, pass.value.iteration) else 0
  }

  /** The `while` loop of `rwrvee`: it runs the body while
      `iteration <= maxIterations`. It stops with `iteration == maxIterations + 1`
      (or at once when the counter already exceeds the bound), whatever the
      graph looks like, and every pass uses at most three draws. */
  function Loop(cfg: WalkConfig, target: Target, data: seq<Row>, ms: Mappings, exp: PositiveFunction,
                draws: seq<real>, w: Walker)
    : (r: Result<Walker, WalkError>)
    requires ConfigOk(cfg, target, ms)
    requires Valid(cfg, target, w)
    requires w.used + 3 * Passes(cfg.maxIterations, w.iteration) <= |draws|
    ensures r.Ok? ==> Valid(cfg, target, r.value)
    ensures r.Ok? ==> r.value.iteration == w.iteration + Passes(cfg.maxIterations, w.iteration)
    ensures r.Ok? ==> r.value.iteration > cfg.maxIterations
    ensures r.Ok? ==> w.used <= r.value.used <= w.used + 3 * Passes(cfg.maxIterations, w.iteration)
    decreases Passes(cfg.maxIterations, w.iteration), 1
  {
    if w.iteration <= cfg.maxIterations then LoopPass(cfg, target, data, ms, exp, draws, w) else Ok(w)
  }

  /** One pass the loop admits: the body increments `iteration` and runs
      `Step`, and the loop goes on from its result. */
  function LoopPass(cfg: WalkConfig, target: Target, data: seq<Row>, ms: Mappings, exp: PositiveFunction,
                    draws: seq<real>, w: Walker)
    : (r: Result<Walker, WalkError>)
    requires ConfigOk(cfg, target, ms)
    requires Valid(cfg, target, w)
    requires w.iteration <= cfg.maxIterations
    requires w.used + 3 * Passes(cfg.maxIterations, w.iteration) <= |draws|
    ensures r.Ok? ==> Valid(cfg, target, r.value) && r.value.iteration == cfg.maxIterations + 1
    ensures r.Ok? ==> w.used <= r.value.used <= w.used + 3 * Passes(cfg.maxIterations, w.iteration)
    decreases Passes(cfg.maxIterations, w.iteration), 0
  {
    LoopAfter(cfg, target, data, ms, exp, draws, Pass(cfg, target, data, ms, exp, draws, w))
  }

  /** The loop after the result of a pass: an error ends the walk, and
      otherwise the loop goes on from where the pass left it. */
  function LoopAfter(cfg: WalkConfig, target: Target, data: seq<Row>, ms: Mappings, exp: PositiveFunction,
                     draws: seq<real>, pass: Result<Walker, WalkError>)
    : (r: Result<Walker, WalkError>)
    requires ConfigOk(cfg, target, ms)
    requires pass.Ok? ==> Valid(cfg, target, pass.value) &&
                          pass.value.used + 3 * Passes(cfg.maxIterations, pass.value.iteration) <= |draws|
    ensures pass.Err? ==> r == pass
    ensures r.Ok? ==> pass.Ok? && Valid(cfg, target, r.value) && r.value.iteration > cfg.maxIterations
    ensures r.Ok? ==> r.value.iteration == pass.value.iteration + Passes(cfg.maxIterations, pass.value.iteration)
    ensures r.Ok? ==> pass.value.used <= r.value.used <= pass.value.used + 3 * Passes(cfg.maxIterations, pass.value.iteration)
    decreases PassesAfter(cfg.maxIterations, pass), 2
  {
    match pass
    case Err(_) => pass
    case Ok(next) => Loop(cfg, target, data, ms, exp, draws, next)
  }

  /** A pass the loop admits and the first of the counted passes left agree. */
  lemma {:induction false} LoopPassIsIteratePass(cfg: WalkConfig, target: Target, data: seq<Row>, ms: Mappings,
                                                 exp: PositiveFunction, draws: seq<real>, w: Walker)
    requires ConfigOk(cfg, target, ms)
    requires Valid(cfg, target, w)
    requires w.iteration <= cfg.maxIterations
    requires w.used + 3 * Passes(cfg.maxIterations, w.iteration) <= |draws|
    ensures LoopPass(cfg, target, data, ms, exp, draws, w) ==
            IteratePass(cfg, target, data, ms, exp, draws, w, Passes(cfg.maxIterations, w.iteration))
    decreases Passes(cfg.maxIterations, w.iteration), 0
  {
    // Both sides run the same pass on the same walker, so its body is not needed.
    hide Pass;
    var next := Pass(cfg, target, data, ms, exp, draws, w);
    var k := Passes(cfg.maxIterations, w.iteration);
    assert next.Ok? ==> PassesAfter(cfg.maxIterations, next) == k - 1;
    LoopAfterIsIterateAfter(cfg, target, data, ms, exp, draws, next);
    assert LoopPass(cfg, target, data, ms, exp, draws, w) == LoopAfter(cfg, target, data, ms, exp, draws, next);
    assert IteratePass(cfg, target, data, ms, exp, draws, w, k) == IterateAfter(cfg, target, data, ms, exp, draws, next, k - 1);
  }

  /** After any pass, the loop and the counted passes it has left agree. */
  lemma {:induction false} LoopAfterIsIterateAfter(cfg: WalkConfig, target: Target, data: seq<Row>, ms: Mappings,
                                                   exp: PositiveFunction, draws: seq<real>, pass: Result<Walker, WalkError>)
    requires ConfigOk(cfg, target, ms)
    requires pass.Ok? ==> Valid(cfg, target, pass.value) &&
                          pass.value.used + 3 * Passes(cfg.maxIterations, pass.value.iteration) <= |draws|
    ensures LoopAfter(cfg, target, data, ms, exp, draws, pass) ==
            IterateAfter(cfg, target, data, ms, exp, draws, pass, PassesAfter(cfg.maxIterations, pass))
    decreases PassesAfter(cfg.maxIterations, pass), 1
  {
    if pass.Ok? && pass.value.iteration <= cfg.maxIterations {
      LoopPassIsIteratePass(cfg, target, data, ms, exp, draws, pass.value);
    }
  }

  /** The loop runs exactly `Passes` passes of the body: driven by its
      condition, it computes what the counted `Iterate` computes. */
  lemma LoopIsIterate(cfg: WalkConfig, target: Target, data: seq<Row>, ms: Mappings,
                      exp: PositiveFunction, draws: seq<real>, w: Walker)
    requires ConfigOk(cfg, target, ms)
    requires Valid(cfg, target, w)
    requires w.used + 3 * Passes(cfg.maxIterations, w.iteration) <= |draws|
    ensures Loop(cfg, target, data, ms, exp, draws, w) ==
            Iterate(cfg, target, data, ms, exp, draws, w, Passes(cfg.maxIterations, w.iteration))
  {
    LoopAfterIsIterateAfter(cfg, target, data, ms, exp, draws, Ok(w));
  }

  /** The walk's starting state: at the seed, with no visits and no draw used. */
  function Start(target: Target): Walker
  {
    Walker(Seed(target), 0, [], 0)
  }

  /** The whole walk from the seed with no visits: the loop body runs exactly
      `maxIterations + 1` times (none for a negative bound). */
  function RunWalk(cfg: WalkConfig, target: Target, data: seq<Row>, ms: Mappings, exp: PositiveFunction, draws: seq<real>)
    : (r: Result<Walker, WalkError>)
    requires ConfigOk(cfg, target, ms)
    requires 3 * Passes(cfg.maxIterations, 0) <= |draws|
    ensures r.Ok? ==> VisitsOk(r.value.visits, target)
    ensures r.Ok? ==> r.value.iteration == if cfg.maxIterations >= 0 then cfg.maxIterations + 1 else 0
    ensures r.Ok? ==> r.value.used <= 3 * Passes(cfg.maxIterations, 0)
    ensures r == Iterate(cfg, target, data, ms, exp, draws, Start(target),
                         if cfg.maxIterations >= 0 then cfg.maxIterations + 1 else 0)
  {
    LoopIsIterate(cfg, target, data, ms, exp, draws, Start(target));
    Loop(cfg, target, data, ms, exp, draws, Start(target))
  }
}
