/** The data model of `JS/src/randomWalk.ts`: schemaless rows, node-type
    configuration, walk nodes, and the per-type index from identifier to rows
    that `computeMappings` builds. */
module Dataset {
  import opened Wrappers
  import Seqs

  /** A cell value. A column a row does not have reads as `Undefined`; a
      column may also hold `undefined` explicitly. */
  datatype Cell = Text(text: string) | Number(number: real) | Bool(flag: bool) | Null | Undefined

  type Row = map<string, Cell>

  /** The value of a column in a row; a column the row lacks reads as `Undefined`. */
  function Get(row: Row, column: string): Cell
  {
    if column in row then row[column] else Undefined
  }

  /** The row has the column as its own property, holding something other than `null`. */
  predicate HasId(row: Row, column: string)
  {
    column in row && row[column] != Null
  }

  /** One entry of the node-type table. The model uses one `name` both as the
      table key and as the entry's `type` field. */
  datatype NodeTypeConfig = NodeTypeConfig(name: string, idColumn: string, ratingColumn: Option<string>)

  /** `edges` maps a node type to the vector fields compared when the walk
      leaves a node of that type. */
  datatype DataConfig = DataConfig(nodeTypes: seq<NodeTypeConfig>, edges: map<string, seq<string>>)

  /** Node-type names are keys of a JavaScript object, hence distinct. */
  ghost predicate DistinctNames(types: seq<NodeTypeConfig>)
  {
    forall i, j | 0 <= i < j < |types| :: types[i].name != types[j].name
  }

  ghost predicate IsType(types: seq<NodeTypeConfig>, t: string)
  {
    exists c | c in types :: c.name == t
  }

  /** The configuration entry of node type `t`, if there is one. */
  function Find(types: seq<NodeTypeConfig>, t: string): (r: Option<NodeTypeConfig>)
    ensures r.Some? <==> IsType(types, t)
    ensures r.Some? ==> r.value in types && r.value.name == t
    ensures DistinctNames(types) ==> forall c | c in types && c.name == t :: r == Some(c)
  {
    if |types| == 0 then None
    else if types[0].name == t then Some(types[0])
    else
      var r := Find(types[1..], t);
      assert forall c | c in types && c != types[0] :: c in types[1..];
      r
  }

  /** The id column of a configured node type. */
  function IdColumn(types: seq<NodeTypeConfig>, t: string): string
    requires IsType(types, t)
  {
    Find(types, t).value.idColumn
  }

  /** Identifier -> the row indices carrying it, for one node type. */
  type Mapping = map<Cell, seq<nat>>

  /** Node type -> its mapping. */
  type Mappings = map<string, Mapping>

  /** A walk position; `entrance` is the row through which it was reached. */
  datatype Node = Node(id: Cell, nodeType: string, entrance: Option<nat>)

  ghost predicate Increasing(s: seq<nat>)
  {
    forall i, j | 0 <= i < j < |s| :: s[i] < s[j]
  }

  /** The rows of an identifier; an unknown identifier has none. */
  function RowsOf(mapping: Mapping, id: Cell): seq<nat>
  {
    if id in mapping then mapping[id] else []
  }

  /** Every row index stored in the mapping addresses one of `count` rows. */
  ghost predicate RowsBelow(mapping: Mapping, count: nat)
  {
    forall id | id in mapping :: forall k | 0 <= k < |mapping[id]| :: mapping[id][k] < count
  }

  ghost predicate IndicesBelow(ms: Mappings, count: nat)
  {
    forall t | t in ms :: RowsBelow(ms[t], count)
  }

  /** The rows among the first `n` whose `column` holds `id`, in increasing
      order: exactly those rows, each once. */
  function RowsWith(data: seq<Row>, column: string, id: Cell, n: nat): (rows: seq<nat>)
    requires n <= |data|
    ensures forall k | 0 <= k < |rows| :: rows[k] < n && Get(data[rows[k]], column) == id
    ensures forall i | 0 <= i < n && Get(data[i], column) == id :: i in rows
    ensures Increasing(rows)
  {
    if n == 0 then []
    else
      var prev := RowsWith(data, column, id, n - 1);
      if Get(data[n - 1], column) == id then prev + [n - 1] else prev
  }

  /** The index of the first `n` rows on `column`: the keys are exactly the
      values found in that column, and each lists the rows holding it. */
  function IndexRows(data: seq<Row>, column: string, n: nat): (m: Mapping)
    requires n <= |data|
    ensures forall id :: id in m <==> |RowsWith(data, column, id, n)| > 0
    ensures forall id | id in m :: m[id] == RowsWith(data, column, id, n)
  {
    if n == 0 then map[]
    else
      var m := IndexRows(data, column, n - 1);
      var id := Get(data[n - 1], column);
      assert RowsWith(data, column, id, n) == RowsWith(data, column, id, n - 1) + [n - 1];
      assert forall x | x != id :: RowsWith(data, column, x, n) == RowsWith(data, column, x, n - 1);
      m[id := (if id in m then m[id] else []) + [n - 1]]
  }

  /** The keys of `ms` are exactly the names of `types`. */
  ghost predicate KeysAreTypes(ms: Mappings, types: seq<NodeTypeConfig>)
  {
    forall t :: t in ms <==> IsType(types, t)
  }

  /** Every type of `types` is mapped, under its name, to `f` of its entry. */
  ghost predicate MapsTypes<V>(ms: map<string, V>, types: seq<NodeTypeConfig>, f: NodeTypeConfig -> V)
  {
    forall c | c in types :: c.name in ms && ms[c.name] == f(c)
  }

  lemma IsTypeSnoc(types: seq<NodeTypeConfig>, t: string)
    requires |types| > 0
    ensures IsType(types, t) <==> IsType(types[..|types| - 1], t) || types[|types| - 1].name == t
  {
    var n := |types| - 1;
    assert types == types[..n] + [types[n]];
  }

  /** A type other than the last has the same entry before the last is indexed. */
  lemma EarlierType(types: seq<NodeTypeConfig>, c: NodeTypeConfig)
    requires |types| > 0 && DistinctNames(types)
    requires c in types && c != types[|types| - 1]
    ensures c in types[..|types| - 1] && c.name != types[|types| - 1].name
  {
    var i :| 0 <= i < |types| && types[i] == c;
    assert types[..|types| - 1][i] == c;
  }

  /** Adding the last type's name to the keys of the types before it. */
  lemma KeysOneMoreType(types: seq<NodeTypeConfig>, prev: Mappings, m: Mapping)
    requires |types| > 0
    requires KeysAreTypes(prev, types[..|types| - 1])
    ensures KeysAreTypes(prev[types[|types| - 1].name := m], types)
  {
    forall t
      ensures t in prev[types[|types| - 1].name := m] <==> IsType(types, t)
    {
      IsTypeSnoc(types, t);
    }
  }

  /** Mapping the last type keeps the entries of the types before it. */
  lemma MapsOneMoreType<V>(types: seq<NodeTypeConfig>, prev: map<string, V>, f: NodeTypeConfig -> V)
    requires |types| > 0 && DistinctNames(types)
    requires MapsTypes(prev, types[..|types| - 1], f)
    ensures MapsTypes(prev[types[|types| - 1].name := f(types[|types| - 1])], types, f)
  {
    var n := |types| - 1;
    var ms := prev[types[n].name := f(types[n])];
    forall c | c in types
      ensures c.name in ms && ms[c.name] == f(c)
    {
      if c != types[n] {
        EarlierType(types, c);
      }
    }
  }

  /** `computeMappings`: one index per configured node type, on its id column. */
  function ComputeMappings(data: seq<Row>, types: seq<NodeTypeConfig>): (ms: Mappings)
    requires DistinctNames(types)
    ensures forall t :: t in ms <==> IsType(types, t)
    ensures forall c | c in types :: c.name in ms && ms[c.name] == IndexRows(data, c.idColumn, |data|)
  {
    if |types| == 0 then map[]
    else
      var n := |types| - 1;
      assert DistinctNames(types[..n]);
      var prev := ComputeMappings(data, types[..n]);
      var index := (c: NodeTypeConfig) => IndexRows(data, c.idColumn, |data|);
      KeysOneMoreType(types, prev, index(types[n]));
      MapsOneMoreType(types, prev, index);
      prev[types[n].name := index(types[n])]
  }

  /** Every row index the built mappings store addresses a row of `data`. */
  lemma ComputeMappingsInRange(data: seq<Row>, types: seq<NodeTypeConfig>)
    requires DistinctNames(types)
    ensures IndicesBelow(ComputeMappings(data, types), |data|)
  {
    var ms := ComputeMappings(data, types);
    forall t, id | t in ms && id in ms[t]
      ensures forall k | 0 <= k < |ms[t][id]| :: ms[t][id][k] < |data|
    {
      var c := Find(types, t).value;
      assert ms[t][id] == RowsWith(data, c.idColumn, id, |data|);
    }
    assert forall t | t in ms :: RowsBelow(ms[t], |data|);
  }

  /** The names of the node types, in table order. */
  function Names(types: seq<NodeTypeConfig>): (r: seq<string>)
    ensures |r| == |types|
    ensures forall k | 0 <= k < |types| :: r[k] == types[k].name
  {
    seq(|types|, k requires 0 <= k < |types| => types[k].name)
  }

  /** The node types a row represents: those whose id column it carries with a
      non-null value, in table order, each configured type at most once. */
  function RowNodeTypes(row: Row, types: seq<NodeTypeConfig>): (r: seq<string>)
    ensures |r| <= |types|
    ensures forall t :: t in r <==> exists c | c in types :: c.name == t && HasId(row, c.idColumn)
    ensures forall k | 0 <= k < |r| :: IsType(types, r[k])
  {
    if |types| == 0 then []
    else
      assert forall c | c in types && c != types[0] :: c in types[1..];
      var rest := RowNodeTypes(row, types[1..]);
      if HasId(row, types[0].idColumn) then [types[0].name] + rest else rest
  }

  /** The types a row offers come in table order, and none is offered twice
      when the configured names are distinct. */
  lemma {:induction false} RowNodeTypesInOrder(row: Row, types: seq<NodeTypeConfig>)
    ensures Seqs.SubSeq(RowNodeTypes(row, types), Names(types))
    ensures DistinctNames(types) ==> Seqs.Distinct(RowNodeTypes(row, types))
  {
    if |types| > 0 {
      var rest := RowNodeTypes(row, types[1..]);
      RowNodeTypesInOrder(row, types[1..]);
      assert Names(types)[1..] == Names(types[1..]);
      if HasId(row, types[0].idColumn) {
        var r := [types[0].name] + rest;
        assert r[1..] == rest;
        if DistinctNames(types) {
          assert DistinctNames(types[1..]);
          LaterNamesDiffer(types);
          Seqs.DistinctCons(types[0].name, rest);
        }
      }
    }
  }

  /** With distinct names, no later entry shares the first entry's name. */
  lemma LaterNamesDiffer(types: seq<NodeTypeConfig>)
    requires |types| > 0 && DistinctNames(types)
    ensures forall c | c in types[1..] :: c.name != types[0].name
  {
    forall c | c in types[1..]
      ensures c.name != types[0].name
    {
      var j :| 0 <= j < |types[1..]| && types[1..][j] == c;
      assert types[j + 1] == c;
    }
  }

  /** Every type `RowNodeTypes` offers is configured, and the row carries a
      non-null value in that type's id column. */
  lemma RowNodeTypesCarryIds(row: Row, types: seq<NodeTypeConfig>, t: string)
    requires DistinctNames(types)
    requires t in RowNodeTypes(row, types)
    ensures IsType(types, t) && HasId(row, IdColumn(types, t))
  {
  }
}
