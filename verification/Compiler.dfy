/**
 Validation of parsed graphs and the runtime model (graph-forge/src/compiler.ts and graph-forge/src/model.ts).
 */
module GraphForgeCompiler {
  import opened Outcomes
  import opened JsMaps
  import opened Syntax
  import RoundTrip

  /** Attribute values at run time: an identifier becomes a string. */
  datatype Primitive = NumberPrimitive(digits: string) | StringPrimitive(text: string) | BooleanPrimitive(truth: bool)

  type Table = map<string, Primitive>

  datatype NodeData = NodeData(id: string, attributes: Table)

  datatype EdgeData = EdgeData(from: string, to: string, attributes: Table)

  datatype CompiledAnalysis = CompiledAnalysis(name: string, args: seq<Primitive>)

  datatype CompileError =
    | NoGraphs
    | GraphNotFound(name: string)
    | DuplicateNode(name: string)
    | DuplicateAttribute(key: string)
    | UnknownSource(name: string)
    | UnknownTarget(name: string)
    | DuplicateDirective(name: string)

  /** The value as parsed: the digits of a numeral, a text, the name of an identifier, or a truth value. */
  predicate Means(p: Primitive, v: Value) {
    && (p.NumberPrimitive? <==> v.NumberValue?) && (p.BooleanPrimitive? <==> v.BooleanValue?)
    && (v.NumberValue? ==> p.digits == v.digits)
    && (v.StringValue? ==> p.text == v.text)
    && (v.BooleanValue? ==> p.truth == v.truth)
    && (v.IdentifierValue? ==> p.text == v.name)
  }

  function ToPrimitive(v: Value): (p: Primitive)
    ensures Means(p, v) && forall q :: Means(q, v) ==> q == p
  {
    match v
    case NumberValue(digits) => NumberPrimitive(digits)
    case StringValue(text) => StringPrimitive(text)
    case BooleanValue(truth) => BooleanPrimitive(truth)
    case IdentifierValue(name) => StringPrimitive(name)
  }

  // ---------------------------------------------------------------------------------------------
  // Attribute blocks
  // ---------------------------------------------------------------------------------------------

  /**
   The one key a plain object does not store: assigning a primitive to `__proto__` calls a setter that
   ignores it, so the key never becomes an own property.
   */
  const PROTO := "__proto__"

  predicate DistinctKeys(attributes: seq<Attribute>) {
    forall i, j :: 0 <= i < j < |attributes| && attributes[i].key == attributes[j].key ==> attributes[i].key == PROTO
  }

  /** The key at `i` was given before. */
  predicate Repeats(attributes: seq<Attribute>, i: int) {
    0 <= i < |attributes| && attributes[i].key != PROTO
      && exists h :: 0 <= h < i && attributes[h].key == attributes[i].key
  }

  /** `table` holds exactly the attributes, but for `__proto__`. */
  predicate Tabulates(table: Table, attributes: seq<Attribute>) {
    && (forall k :: k in table ==> k != PROTO && exists i :: 0 <= i < |attributes| && attributes[i].key == k)
    && (forall i :: 0 <= i < |attributes| && attributes[i].key != PROTO ==>
          attributes[i].key in table && Means(table[attributes[i].key], attributes[i].value))
  }

  /** The error names the first key of the block that was given before. */
  ghost predicate NamesRepeatedKey(error: CompileError, attributes: seq<Attribute>) {
    exists i ::
      Repeats(attributes, i) && (forall j :: 0 <= j < i ==> !Repeats(attributes, j)) &&
      error == DuplicateAttribute(attributes[i].key)
  }

  /** A block compiles exactly when its keys, `__proto__` aside, are distinct; the error names the
      first repeated key. */
  method FoldAttributes(attributes: seq<Attribute>) returns (r: Result<Table, CompileError>)
    ensures r.Ok? <==> DistinctKeys(attributes)
    ensures r.Ok? ==> Tabulates(r.value, attributes)
    ensures r.Err? ==> NamesRepeatedKey(r.error, attributes)
  {
    hide Means;
    var result: Table := map[];
    for n := 0 to |attributes|
      invariant forall i :: 0 <= i < n ==> !Repeats(attributes, i)
      invariant forall k :: k in result ==> k != PROTO && exists i :: 0 <= i < n && attributes[i].key == k
      invariant forall i :: 0 <= i < n && attributes[i].key != PROTO ==>
                  attributes[i].key in result && Means(result[attributes[i].key], attributes[i].value)
    {
      var attribute := attributes[n];
      if attribute.key in result {
        assert Repeats(attributes, n);
        return Err(DuplicateAttribute(attribute.key));
      }
      assert !Repeats(attributes, n);
      if attribute.key != PROTO {
        result := result[attribute.key := ToPrimitive(attribute.value)];
      }
    }
    assert forall i, j :: 0 <= i < j < |attributes| && attributes[i].key == attributes[j].key ==>
      attributes[i].key == PROTO by {
      forall i, j | 0 <= i < j < |attributes| && attributes[i].key == attributes[j].key
        ensures attributes[i].key == PROTO {
        assert !Repeats(attributes, j);
      }
    }
    return Ok(result);
  }

  /** Two `__proto__` attributes compile and both are lost. */
  lemma ProtoIsNotChecked(v: Value, w: Value)
    ensures var twice := [Attribute(PROTO, v), Attribute(PROTO, w)];
            DistinctKeys(twice) && forall table :: Tabulates(table, twice) ==> table == map[]
  {
    var twice := [Attribute(PROTO, v), Attribute(PROTO, w)];
    forall table | Tabulates(table, twice) ensures table == map[] {
      assert twice[0].key == twice[1].key == PROTO;
    }
  }

  /** The attributes a plain object stores. */
  function Stored(attributes: seq<Attribute>): seq<Attribute> {
    if attributes == [] then []
    else
      var last := attributes[|attributes| - 1];
      Stored(attributes[..|attributes| - 1]) + if last.key == PROTO then [] else [last]
  }

  /**
   A block that folds keeps every attribute but those named `__proto__`, each with its value, and nothing else:
   there is one such table, with as many entries as there are attributes to store.
   */
  lemma TableHasEveryAttribute(table: Table, attributes: seq<Attribute>)
    requires DistinctKeys(attributes) && Tabulates(table, attributes)
    ensures |table| == |Stored(attributes)|
    ensures forall a :: a in Stored(attributes) ==> a.key in table && Means(table[a.key], a.value)
    ensures forall k :: k in table <==> exists a :: a in Stored(attributes) && a.key == k
    ensures forall other :: Tabulates(other, attributes) ==> other == table
  {
    hide DistinctKeys, ToPrimitive;
    TableSize(table, attributes);
    StoredAttributes(attributes);
    forall k ensures k in table <==> exists a :: a in Stored(attributes) && a.key == k {
      if k in table {
        var i :| 0 <= i < |attributes| && attributes[i].key == k;
        assert attributes[i] in Stored(attributes);
      }
    }
    forall other | Tabulates(other, attributes) ensures other == table {
      TablesAgree(other, table, attributes);
    }
  }

  lemma {:induction false} StoredAttributes(attributes: seq<Attribute>)
    ensures forall a :: a in Stored(attributes) <==> a.key != PROTO && a in attributes
  {
    if attributes != [] {
      StoredAttributes(attributes[..|attributes| - 1]);
      assert attributes == attributes[..|attributes| - 1] + [attributes[|attributes| - 1]];
    }
  }

  lemma TablesAgree(a: Table, b: Table, attributes: seq<Attribute>)
    requires Tabulates(a, attributes) && Tabulates(b, attributes)
    ensures a == b
  {
    hide ToPrimitive;
    forall k ensures k in a <==> k in b {
    }
  }

  lemma {:induction false} TableSize(table: Table, attributes: seq<Attribute>)
    requires DistinctKeys(attributes) && Tabulates(table, attributes)
    ensures |table| == |Stored(attributes)|
    decreases |attributes|
  {
    hide ToPrimitive, Tabulates, DistinctKeys;
    if attributes == [] {
      TablesAgree(table, map[], []) by { EmptyTable(); }
    } else {
      var last := attributes[|attributes| - 1];
      ShorterTable(table, attributes);
      if last.key == PROTO {
        TableSize(table, attributes[..|attributes| - 1]);
      } else {
        TableSize(table - {last.key}, attributes[..|attributes| - 1]);
        assert table == (table - {last.key})[last.key := ToPrimitive(last.value)];
      }
    }
  }

  lemma EmptyTable()
    ensures Tabulates(map[], [])
  {
  }

  /** Without its last attribute the block is tabulated by what is left of the table. */
  lemma ShorterTable(table: Table, attributes: seq<Attribute>)
    requires DistinctKeys(attributes) && Tabulates(table, attributes) && attributes != []
    ensures var front, last := attributes[..|attributes| - 1], attributes[|attributes| - 1];
            && DistinctKeys(front)
            && Tabulates(if last.key == PROTO then table else table - {last.key}, front)
            && (last.key != PROTO ==> last.key in table && Means(table[last.key], last.value))
  {
    hide ToPrimitive;
    var n := |attributes| - 1;
    var smaller := if attributes[n].key == PROTO then table else table - {attributes[n].key};
    forall k | k in smaller ensures k != PROTO && exists i :: 0 <= i < n && attributes[..n][i].key == k {
      var i :| 0 <= i < |attributes| && attributes[i].key == k;
      assert attributes[..n][i].key == k;
    }
    forall i | 0 <= i < n && attributes[..n][i].key != PROTO
      ensures attributes[..n][i].key in smaller
        && Means(smaller[attributes[..n][i].key], attributes[..n][i].value)
    {
      assert attributes[i] == attributes[..n][i];
    }
  }

  // ---------------------------------------------------------------------------------------------
  // Graphs
  // ---------------------------------------------------------------------------------------------

  predicate DistinctNodes(nodes: seq<NodeDecl>) {
    forall i, j :: 0 <= i < j < |nodes| ==> nodes[i].name != nodes[j].name
  }

  predicate Declared(nodes: seq<NodeDecl>, name: string) {
    exists i :: 0 <= i < |nodes| && nodes[i].name == name
  }

  predicate DistinctDirectives(ds: seq<DirectiveNode>) {
    forall i, j :: 0 <= i < j < |ds| ==> ds[i].name != ds[j].name
  }

  predicate EdgeCompiles(e: EdgeDecl, nodes: seq<NodeDecl>) {
    Declared(nodes, e.from) && Declared(nodes, e.to) && DistinctKeys(e.attributes)
  }

  predicate NodesCompile(nodes: seq<NodeDecl>) {
    forall i :: 0 <= i < |nodes| ==> DistinctKeys(nodes[i].attributes)
  }

  predicate EdgesCompile(edges: seq<EdgeDecl>, nodes: seq<NodeDecl>) {
    forall i :: 0 <= i < |edges| ==> EdgeCompiles(edges[i], nodes)
  }

  predicate Compilable(g: GraphNode) {
    DistinctNodes(g.nodes) && NodesCompile(g.nodes) && EdgesCompile(g.edges, g.nodes)
      && DistinctDirectives(g.directives)
  }

  /** The name at `j` is the first one given before. */
  predicate FirstRepeat(names: seq<string>, j: int) {
    && 0 <= j < |names| && names[j] in names[..j]
    && forall h, i :: 0 <= h < i < j ==> names[h] != names[i]
  }

  function NodeNames(nodes: seq<NodeDecl>): (names: seq<string>)
    ensures |names| == |nodes| && forall i :: 0 <= i < |nodes| ==> names[i] == nodes[i].name
  {
    seq(|nodes|, i requires 0 <= i < |nodes| => nodes[i].name)
  }

  function DirectiveNames(ds: seq<DirectiveNode>): (names: seq<string>)
    ensures |names| == |ds| && forall i :: 0 <= i < |ds| ==> names[i] == ds[i].name
  {
    seq(|ds|, i requires 0 <= i < |ds| => ds[i].name)
  }

  ghost predicate BlamesNode(error: CompileError, nodes: seq<NodeDecl>, i: int) {
    0 <= i < |nodes| && NodesCompile(nodes[..i]) && NamesRepeatedKey(error, nodes[i].attributes)
  }

  /** What is wrong with an edge: its source, else its target, else its attributes. */
  ghost predicate EdgeFault(error: CompileError, e: EdgeDecl, nodes: seq<NodeDecl>) {
    if !Declared(nodes, e.from) then error == UnknownSource(e.from)
    else if !Declared(nodes, e.to) then error == UnknownTarget(e.to)
    else NamesRepeatedKey(error, e.attributes)
  }

  ghost predicate BlamesEdge(error: CompileError, edges: seq<EdgeDecl>, nodes: seq<NodeDecl>, i: int) {
    0 <= i < |edges| && EdgesCompile(edges[..i], nodes) && EdgeFault(error, edges[i], nodes)
  }

  /** The checks run in this order, and an error reports the first failure of the first one that fails. */
  ghost predicate Blames(error: CompileError, g: GraphNode) {
    if !DistinctNodes(g.nodes) then
      exists j :: FirstRepeat(NodeNames(g.nodes), j) && error == DuplicateNode(g.nodes[j].name)
    else if !NodesCompile(g.nodes) then exists i :: BlamesNode(error, g.nodes, i)
    else if !EdgesCompile(g.edges, g.nodes) then exists i :: BlamesEdge(error, g.edges, g.nodes, i)
    else
      exists j :: FirstRepeat(DirectiveNames(g.directives), j) && error == DuplicateDirective(g.directives[j].name)
  }

  predicate NodeMatches(data: NodeData, n: NodeDecl) {
    data.id == n.name && Tabulates(data.attributes, n.attributes)
  }

  predicate EdgeMatches(data: EdgeData, e: EdgeDecl) {
    data.from == e.from && data.to == e.to && Tabulates(data.attributes, e.attributes)
  }

  predicate NodesCopy(data: seq<NodeData>, nodes: seq<NodeDecl>) {
    |data| == |nodes| && forall i :: 0 <= i < |nodes| ==> NodeMatches(data[i], nodes[i])
  }

  predicate EdgesCopy(data: seq<EdgeData>, edges: seq<EdgeDecl>) {
    |data| == |edges| && forall i :: 0 <= i < |edges| ==> EdgeMatches(data[i], edges[i])
  }

  predicate DirectivesMatch(table: Table, ds: seq<DirectiveNode>) {
    && (forall k :: k in table ==> exists i :: 0 <= i < |ds| && ds[i].name == k)
    && (forall i :: 0 <= i < |ds| ==> ds[i].name in table && Means(table[ds[i].name], ds[i].value))
  }

  predicate AnalysesMatch(compiled: seq<CompiledAnalysis>, xs: seq<AnalysisNode>) {
    && |compiled| == |xs|
    && forall i :: 0 <= i < |xs| ==>
         && compiled[i].name == xs[i].name && |compiled[i].args| == |xs[i].args|
         && forall k :: 0 <= k < |xs[i].args| ==> Means(compiled[i].args[k], xs[i].args[k])
  }

  method BuildNodeMap(nodes: seq<NodeDecl>) returns (r: Result<map<string, NodeDecl>, CompileError>)
    ensures r.Ok? <==> DistinctNodes(nodes)
    ensures r.Ok? ==> forall name :: name in r.value <==> Declared(nodes, name)
    ensures r.Err? ==> exists j :: FirstRepeat(NodeNames(nodes), j) && r.error == DuplicateNode(nodes[j].name)
  {
    var found: map<string, NodeDecl> := map[];
    for n := 0 to |nodes|
      invariant DistinctNodes(nodes[..n])
      invariant forall name :: name in found ==> exists i :: 0 <= i < n && nodes[i].name == name
      invariant forall i :: 0 <= i < n ==> nodes[i].name in found
    {
      if nodes[n].name in found {
        var i :| 0 <= i < n && nodes[i].name == nodes[n].name;
        assert NodeNames(nodes)[..n][i] == nodes[n].name;
        assert FirstRepeat(NodeNames(nodes), n);
        return Err(DuplicateNode(nodes[n].name));
      }
      found := found[nodes[n].name := nodes[n]];
    }
    assert nodes[..|nodes|] == nodes;
    return Ok(found);
  }

  method ToNodeData(node: NodeDecl) returns (r: Result<NodeData, CompileError>)
    ensures r.Ok? <==> DistinctKeys(node.attributes)
    ensures r.Ok? ==> NodeMatches(r.value, node)
    ensures r.Err? ==> NamesRepeatedKey(r.error, node.attributes)
  {
    hide NamesRepeatedKey;
    var attributes := FoldAttributes(node.attributes);
    if attributes.Err? {
      return Err(attributes.error);
    }
    return Ok(NodeData(node.name, attributes.value));
  }

  method ToEdgeData(edge: EdgeDecl, nodes: seq<NodeDecl>, nodeMap: map<string, NodeDecl>)
    returns (r: Result<EdgeData, CompileError>)
    requires forall name :: name in nodeMap <==> Declared(nodes, name)
    ensures r.Ok? <==> EdgeCompiles(edge, nodes)
    ensures r.Ok? ==> EdgeMatches(r.value, edge)
    ensures r.Err? ==> EdgeFault(r.error, edge, nodes)
  {
    hide NamesRepeatedKey;
    if edge.from !in nodeMap {
      return Err(UnknownSource(edge.from));
    }
    if edge.to !in nodeMap {
      return Err(UnknownTarget(edge.to));
    }
    var attributes := FoldAttributes(edge.attributes);
    if attributes.Err? {
      return Err(attributes.error);
    }
    return Ok(EdgeData(edge.from, edge.to, attributes.value));
  }

  method BuildDirectiveMap(ds: seq<DirectiveNode>) returns (r: Result<Table, CompileError>)
    ensures r.Ok? <==> DistinctDirectives(ds)
    ensures r.Ok? ==> DirectivesMatch(r.value, ds)
    ensures r.Err? ==> exists j :: FirstRepeat(DirectiveNames(ds), j) && r.error == DuplicateDirective(ds[j].name)
  {
    hide Means;
    var table: Table := map[];
    for n := 0 to |ds|
      invariant DistinctDirectives(ds[..n])
      invariant forall k :: k in table ==> exists i :: 0 <= i < n && ds[i].name == k
      invariant forall i :: 0 <= i < n ==> ds[i].name in table && Means(table[ds[i].name], ds[i].value)
    {
      if ds[n].name in table {
        var i :| 0 <= i < n && ds[i].name == ds[n].name;
        assert DirectiveNames(ds)[..n][i] == ds[n].name;
        assert FirstRepeat(DirectiveNames(ds), n);
        return Err(DuplicateDirective(ds[n].name));
      }
      table := table[ds[n].name := ToPrimitive(ds[n].value)];
    }
    assert ds[..|ds|] == ds;
    return Ok(table);
  }

  function ToAnalysis(a: AnalysisNode): CompiledAnalysis {
    CompiledAnalysis(a.name, seq(|a.args|, k requires 0 <= k < |a.args| => ToPrimitive(a.args[k])))
  }

  method CompileNodes(nodes: seq<NodeDecl>) returns (r: Result<seq<NodeData>, CompileError>)
    ensures r.Ok? <==> NodesCompile(nodes)
    ensures r.Ok? ==> NodesCopy(r.value, nodes)
    ensures r.Err? ==> exists i :: BlamesNode(r.error, nodes, i)
  {
    hide DistinctKeys, Tabulates, NamesRepeatedKey;
    var data: seq<NodeData> := [];
    for n := 0 to |nodes|
      invariant |data| == n
      invariant forall i :: 0 <= i < n ==> DistinctKeys(nodes[i].attributes) && NodeMatches(data[i], nodes[i])
    {
      var one := ToNodeData(nodes[n]);
      if one.Err? {
        assert BlamesNode(one.error, nodes, n);
        return Err(one.error);
      }
      data := data + [one.value];
    }
    return Ok(data);
  }

  method CompileEdges(edges: seq<EdgeDecl>, nodes: seq<NodeDecl>, nodeMap: map<string, NodeDecl>)
    returns (r: Result<seq<EdgeData>, CompileError>)
    requires forall name :: name in nodeMap <==> Declared(nodes, name)
    ensures r.Ok? <==> EdgesCompile(edges, nodes)
    ensures r.Ok? ==> EdgesCopy(r.value, edges)
    ensures r.Err? ==> exists i :: BlamesEdge(r.error, edges, nodes, i)
  {
    hide DistinctKeys, Tabulates, Declared, EdgeFault;
    var data: seq<EdgeData> := [];
    for n := 0 to |edges|
      invariant |data| == n
      invariant forall i :: 0 <= i < n ==> EdgeCompiles(edges[i], nodes) && EdgeMatches(data[i], edges[i])
    {
      var one := ToEdgeData(edges[n], nodes, nodeMap);
      if one.Err? {
        assert BlamesEdge(one.error, edges, nodes, n);
        return Err(one.error);
      }
      data := data + [one.value];
    }
    return Ok(data);
  }

  // ---------------------------------------------------------------------------------------------
  // The runtime model
  // ---------------------------------------------------------------------------------------------

  /** The edges that leave `id`, in declaration order. */
  function EdgesFrom(edges: seq<EdgeData>, id: string): seq<EdgeData> {
    if edges == [] then []
    else
      var last := edges[|edges| - 1];
      EdgesFrom(edges[..|edges| - 1], id) + if last.from == id then [last] else []
  }

  predicate DistinctIds(nodes: seq<NodeData>) {
    forall i, j :: 0 <= i < j < |nodes| ==> nodes[i].id != nodes[j].id
  }

  /** The map iterates over exactly `nodes`, in order. */
  predicate Lists(m: JsMap<NodeData>, nodes: seq<NodeData>) {
    |m.keys| == |nodes|
      && forall i :: 0 <= i < |nodes| ==> m.keys[i] == nodes[i].id && m.Get(nodes[i].id) == Some(nodes[i])
  }

  /** One declared node for each declared identifier; all of them, in order, when identifiers are distinct. */
  ghost predicate Collects(m: JsMap<NodeData>, nodes: seq<NodeData>) {
    && m.Valid()
    && (forall k :: k in m.rows ==> m.rows[k].id == k && m.rows[k] in nodes)
    && (forall node :: node in nodes ==> node.id in m.rows)
    && (DistinctIds(nodes) ==> Lists(m, nodes))
  }

  /** `new Map(...)` over the nodes. */
  method CollectNodes(nodes: seq<NodeData>) returns (m: JsMap<NodeData>)
    ensures Collects(m, nodes)
  {
    hide Collects;
    m := Empty();
    NothingCollected();
    for n := 0 to |nodes|
      invariant Collects(m, nodes[..n])
    {
      assert nodes[..n + 1] == nodes[..n] + [nodes[n]];
      CollectsOneMore(m, nodes[..n], nodes[n]);
      m := m.Put(nodes[n].id, nodes[n]);
    }
    assert nodes[..|nodes|] == nodes;
  }

  lemma NoEdges()
    ensures forall id :: EdgesFrom([], id) == []
  {
  }

  lemma NextEdge(edges: seq<EdgeData>, n: nat)
    requires n < |edges|
    ensures forall id ::
      EdgesFrom(edges[..n + 1], id) == EdgesFrom(edges[..n], id) + (if edges[n].from == id then [edges[n]] else [])
  {
    assert edges[..n + 1][..n] == edges[..n];
  }

  lemma NothingCollected()
    ensures Collects(Empty(), [])
  {
  }

  lemma CollectsOneMore(m: JsMap<NodeData>, nodes: seq<NodeData>, node: NodeData)
    requires Collects(m, nodes)
    ensures Collects(m.Put(node.id, node), nodes + [node])
  {
    hide Lists;
    var m' := m.Put(node.id, node);
    forall k | k in m'.rows ensures m'.rows[k].id == k && m'.rows[k] in nodes + [node] {
      assert k != node.id ==> m'.rows[k] == m.rows[k];
    }
    if DistinctIds(nodes + [node]) {
      assert DistinctIds(nodes) by {
        assert forall i :: 0 <= i < |nodes| ==> (nodes + [node])[i] == nodes[i];
      }
      ListsOneMore(m, nodes, node);
    }
  }

  lemma ListsOneMore(m: JsMap<NodeData>, nodes: seq<NodeData>, node: NodeData)
    requires m.Valid() && DistinctIds(nodes + [node]) && Lists(m, nodes)
    ensures Lists(m.Put(node.id, node), nodes + [node])
  {
    forall i | 0 <= i < |nodes| ensures nodes[i].id != node.id {
      assert (nodes + [node])[i].id != (nodes + [node])[|nodes|].id;
    }
    assert node.id !in m.keys;
  }

  function Bucket(adjacency: map<string, seq<EdgeData>>, id: string): seq<EdgeData> {
    if id in adjacency then adjacency[id] else []
  }

  /** The loops of the constructor over nodes and edges. */
  method IndexEdges(nodes: seq<NodeData>, edges: seq<EdgeData>) returns (adjacency: map<string, seq<EdgeData>>)
    ensures forall id :: Bucket(adjacency, id) == EdgesFrom(edges, id)
  {
    hide EdgesFrom;
    NoEdges();
    adjacency := map[];
    for n := 0 to |nodes|
      invariant forall id :: Bucket(adjacency, id) == []
    {
      assert forall id :: id in adjacency ==> Bucket(adjacency, id) == adjacency[id];
      adjacency := adjacency[nodes[n].id := []];
    }
    assert edges[..0] == [];
    for n := 0 to |edges|
      invariant forall id :: Bucket(adjacency, id) == EdgesFrom(edges[..n], id)
    {
      var edge := edges[n];
      NextEdge(edges, n);
      ghost var before := adjacency;
      if edge.from !in adjacency {
        adjacency := adjacency[edge.from := []];
      }
      adjacency := adjacency[edge.from := adjacency[edge.from] + [edge]];
      forall id ensures Bucket(adjacency, id) == EdgesFrom(edges[..n + 1], id) {
        assert Bucket(before, id) == EdgesFrom(edges[..n], id);
        if id == edge.from {
          assert Bucket(adjacency, id) == Bucket(before, id) + [edge];
        } else {
          assert Bucket(adjacency, id) == Bucket(before, id) + [];
        }
      }
    }
    assert edges[..|edges|] == edges;
  }

  class GraphModel {
    const name: string
    const edges: seq<EdgeData>
    const directives: Table
    var nodes: JsMap<NodeData>
    var adjacency: map<string, seq<EdgeData>>
    /** The nodes as they were declared. */
    ghost const declared: seq<NodeData>

    /** The map holds the declared nodes, and the adjacency index the edges by source. */
    ghost predicate Valid()
      reads this
    {
      && Collects(nodes, declared)
      && forall id :: Bucket(adjacency, id) == EdgesFrom(edges, id)
    }

    constructor (name: string, nodes: seq<NodeData>, edges: seq<EdgeData>, directives: Table)
      ensures this.name == name && this.edges == edges && this.directives == directives && declared == nodes
      ensures Valid()
    {
      hide Collects, EdgesFrom, Bucket;
      this.name, this.edges, this.directives, this.declared := name, edges, directives, nodes;
      this.nodes := Empty();
      this.adjacency := map[];
      new;
      this.nodes := CollectNodes(nodes);
      this.adjacency := IndexEdges(nodes, edges);
    }

    /** An identifier nobody declared has no outgoing edges. */
    method GetOutgoing(id: string) returns (outgoing: seq<EdgeData>)
      requires Valid()
      ensures outgoing == EdgesFrom(edges, id)
    {
      assert Bucket(adjacency, id) == EdgesFrom(edges, id);
      if id in adjacency {
        return adjacency[id];
      }
      return [];
    }

    /** Under distinct identifiers these are the declared nodes; in any case one declared node for each identifier. */
    method ListNodes() returns (list: seq<NodeData>)
      requires Valid()
      ensures DistinctIds(declared) ==> list == declared
      ensures DistinctIds(list) && forall node :: node in list ==> node in declared
      ensures forall node :: node in declared ==> exists k :: 0 <= k < |list| && list[k].id == node.id
    {
      list := seq(|nodes.keys|,
                  i requires 0 <= i < |nodes.keys| && nodes.Valid() reads this => nodes.rows[nodes.keys[i]]);
      assert forall k :: 0 <= k < |list| ==> nodes.keys[k] in nodes.rows && list[k] == nodes.rows[nodes.keys[k]];
      CollectedNodes(nodes, declared, list);
    }
  }

  lemma CollectedNodes(m: JsMap<NodeData>, nodes: seq<NodeData>, list: seq<NodeData>)
    requires Collects(m, nodes) && |list| == |m.keys|
    requires forall k :: 0 <= k < |list| ==> m.keys[k] in m.rows && list[k] == m.rows[m.keys[k]]
    ensures DistinctIds(nodes) ==> list == nodes
    ensures DistinctIds(list) && forall node :: node in list ==> node in nodes
    ensures forall node :: node in nodes ==> exists k :: 0 <= k < |list| && list[k].id == node.id
  {
    hide Lists;
    forall node | node in nodes ensures exists k :: 0 <= k < |list| && list[k].id == node.id {
      assert node.id in m.keys;
      var k :| 0 <= k < |m.keys| && m.keys[k] == node.id;
      assert list[k].id == node.id;
    }
    if DistinctIds(nodes) {
      ListedNodes(m, nodes, list);
    }
  }

  lemma ListedNodes(m: JsMap<NodeData>, nodes: seq<NodeData>, list: seq<NodeData>)
    requires Lists(m, nodes) && |list| == |m.keys|
    requires forall k :: 0 <= k < |list| ==> m.keys[k] in m.rows && list[k] == m.rows[m.keys[k]]
    ensures list == nodes
  {
    forall i | 0 <= i < |nodes| ensures list[i] == nodes[i] {
      assert m.Get(nodes[i].id) == Some(nodes[i]);
    }
  }

  /** The filter keeps exactly the edges with that source, none reordered: positions map to increasing positions. */
  lemma {:induction false} EdgesFromInOrder(edges: seq<EdgeData>, id: string) returns (at: seq<nat>)
    ensures |at| == |EdgesFrom(edges, id)|
    ensures forall k :: 0 <= k < |at| ==>
      at[k] < |edges| && edges[at[k]] == EdgesFrom(edges, id)[k] && edges[at[k]].from == id
    ensures forall j, k :: 0 <= j < k < |at| ==> at[j] < at[k]
    ensures forall i :: 0 <= i < |edges| && edges[i].from == id ==> i in at
  {
    if edges == [] {
      at := [];
    } else {
      var n := |edges| - 1;
      at := EdgesFromInOrder(edges[..n], id);
      if edges[n].from == id {
        at := at + [n];
      }
    }
  }

  // ---------------------------------------------------------------------------------------------
  // Compiling
  // ---------------------------------------------------------------------------------------------

  /** The declared edges that leave `id`, in order. */
  function EdgesLeaving(edges: seq<EdgeDecl>, id: string): seq<EdgeDecl> {
    if edges == [] then []
    else
      var last := edges[|edges| - 1];
      EdgesLeaving(edges[..|edges| - 1], id) + if last.from == id then [last] else []
  }

  /** Filtering by source commutes with compiling edges. */
  lemma {:induction false} FilteredEdgesCopy(data: seq<EdgeData>, edges: seq<EdgeDecl>, id: string)
    requires EdgesCopy(data, edges)
    ensures EdgesCopy(EdgesFrom(data, id), EdgesLeaving(edges, id))
  {
    hide Tabulates;
    if edges != [] {
      FilteredEdgesCopy(data[..|data| - 1], edges[..|edges| - 1], id);
      assert EdgeMatches(data[|data| - 1], edges[|edges| - 1]);
    }
  }

  datatype CompiledGraph = CompiledGraph(graph: GraphModel, analyses: seq<CompiledAnalysis>)

  /**
   The model is a copy of the graph: its nodes in order, for each identifier its outgoing edges in order, its
   directives and its analyses.
   */
  ghost predicate Compiles(c: CompiledGraph, g: GraphNode)
    reads c.graph
  {
    && c.graph.Valid() && c.graph.name == g.name
    && DistinctIds(c.graph.declared) && NodesCopy(c.graph.declared, g.nodes)
    && EdgesCopy(c.graph.edges, g.edges)
    && (forall id :: EdgesCopy(EdgesFrom(c.graph.edges, id), EdgesLeaving(g.edges, id)))
    && DirectivesMatch(c.graph.directives, g.directives)
    && AnalysesMatch(c.analyses, g.analyses)
  }

  /** A graph compiles exactly when names are unique and endpoints declared, to a model of itself. */
  method CompileGraphNode(g: GraphNode) returns (r: Result<CompiledGraph, CompileError>)
    ensures r.Ok? <==> Compilable(g)
    ensures r.Ok? ==> fresh(r.value.graph) && Compiles(r.value, g)
    ensures r.Err? ==> Blames(r.error, g)
  {
    hide DistinctKeys, Tabulates, DirectivesMatch, FirstRepeat, BlamesNode, BlamesEdge, GraphModel.Valid;
    var nodeMap :- BuildNodeMap(g.nodes);
    var nodeData :- CompileNodes(g.nodes);
    var edgeData := CompileEdges(g.edges, g.nodes, nodeMap);
    if edgeData.Err? {
      return Err(edgeData.error);
    }
    var directives :- BuildDirectiveMap(g.directives);
    var analyses := seq(|g.analyses|, k requires 0 <= k < |g.analyses| => ToAnalysis(g.analyses[k]));
    var model := new GraphModel(g.name, nodeData, edgeData.value, directives);
    forall id ensures EdgesCopy(EdgesFrom(edgeData.value, id), EdgesLeaving(g.edges, id)) {
      FilteredEdgesCopy(edgeData.value, g.edges, id);
    }
    return Ok(CompiledGraph(model, analyses));
  }

  /** A graph that cannot be compiled has one error to report, and a compilable one has none. */
  lemma BlameIsUnique(g: GraphNode, error: CompileError, other: CompileError)
    requires Blames(error, g) && Blames(other, g)
    ensures error == other && !Compilable(g)
  {
    hide DistinctKeys, BlamesNode, BlamesEdge;
    if !DistinctNodes(g.nodes) {
      FirstRepeatIsUnique(NodeNames(g.nodes));
    } else if !NodesCompile(g.nodes) {
      var i :| BlamesNode(error, g.nodes, i);
      var j :| BlamesNode(other, g.nodes, j);
      BlamedNodeIsUnique(g.nodes, error, i, other, j);
    } else if !EdgesCompile(g.edges, g.nodes) {
      var i :| BlamesEdge(error, g.edges, g.nodes, i);
      var j :| BlamesEdge(other, g.edges, g.nodes, j);
      BlamedEdgeIsUnique(g.edges, g.nodes, error, i, other, j);
    } else {
      FirstRepeatIsUnique(DirectiveNames(g.directives));
    }
  }

  lemma BlamedNodeIsUnique(nodes: seq<NodeDecl>, error: CompileError, i: int, other: CompileError, j: int)
    requires BlamesNode(error, nodes, i) && BlamesNode(other, nodes, j)
    ensures error == other
  {
    hide DistinctKeys, NamesRepeatedKey;
    RepeatedKeyFails(error, nodes[i].attributes);
    RepeatedKeyFails(other, nodes[j].attributes);
    assert forall k :: 0 <= k < i ==> DistinctKeys(nodes[..i][k].attributes) && nodes[..i][k] == nodes[k];
    assert forall k :: 0 <= k < j ==> DistinctKeys(nodes[..j][k].attributes) && nodes[..j][k] == nodes[k];
    RepeatedKeyIsUnique(nodes[i].attributes);
  }

  lemma BlamedEdgeIsUnique(
    edges: seq<EdgeDecl>, nodes: seq<NodeDecl>, error: CompileError, i: int, other: CompileError, j: int)
    requires BlamesEdge(error, edges, nodes, i) && BlamesEdge(other, edges, nodes, j)
    ensures error == other
  {
    hide DistinctKeys, NamesRepeatedKey, Declared, EdgeCompiles;
    FaultyEdgeFails(error, edges[i], nodes);
    FaultyEdgeFails(other, edges[j], nodes);
    assert forall k :: 0 <= k < i ==> EdgeCompiles(edges[..i][k], nodes) && edges[..i][k] == edges[k];
    assert forall k :: 0 <= k < j ==> EdgeCompiles(edges[..j][k], nodes) && edges[..j][k] == edges[k];
    RepeatedKeyIsUnique(edges[i].attributes);
  }

  lemma FirstRepeatIsUnique(names: seq<string>)
    ensures forall i, j :: FirstRepeat(names, i) && FirstRepeat(names, j) ==> i == j
    ensures forall j :: FirstRepeat(names, j) ==> exists h :: 0 <= h < j && names[h] == names[j]
  {
    forall j | FirstRepeat(names, j) ensures exists h :: 0 <= h < j && names[h] == names[j] {
      var h :| 0 <= h < j && names[..j][h] == names[j];
      assert names[h] == names[j];
    }
  }

  lemma RepeatedKeyFails(error: CompileError, attributes: seq<Attribute>)
    requires NamesRepeatedKey(error, attributes)
    ensures !DistinctKeys(attributes)
  {
  }

  lemma RepeatedKeyIsUnique(attributes: seq<Attribute>)
    ensures forall error, other ::
      NamesRepeatedKey(error, attributes) && NamesRepeatedKey(other, attributes) ==> error == other
  {
  }

  lemma FaultyEdgeFails(error: CompileError, e: EdgeDecl, nodes: seq<NodeDecl>)
    requires EdgeFault(error, e, nodes)
    ensures !EdgeCompiles(e, nodes)
  {
    hide NamesRepeatedKey, DistinctKeys, Declared;
    if Declared(nodes, e.from) && Declared(nodes, e.to) {
      RepeatedKeyFails(error, e.attributes);
    }
  }

  /** The graph a caller asks for: the first one of that name, or the first of all when no name is given. */
  predicate IsTarget(file: GraphFile, entry: string, k: int) {
    0 <= k < |file| && (entry == "" ==> k == 0)
    && (entry != "" ==> file[k].name == entry && forall i :: 0 <= i < k ==> file[i].name != entry)
  }

  /** An absent entry name and the empty one are treated alike. */
  method CompileAst(file: GraphFile, entry: string) returns (r: Result<CompiledGraph, CompileError>)
    ensures r.Ok? <==> exists k :: IsTarget(file, entry, k) && Compilable(file[k])
    ensures r.Ok? ==> fresh(r.value.graph) && exists k :: IsTarget(file, entry, k) && Compiles(r.value, file[k])
    ensures file == [] ==> r == Err(NoGraphs)
    ensures file != [] && (forall k :: !IsTarget(file, entry, k)) ==> r == Err(GraphNotFound(entry))
    ensures r.Err? ==> forall k :: IsTarget(file, entry, k) ==> Blames(r.error, file[k])
  {
    hide Compilable, Compiles, Blames;
    if |file| == 0 {
      return Err(NoGraphs);
    }
    var k := 0;
    if entry != "" {
      while k < |file| && file[k].name != entry
        invariant 0 <= k <= |file|
        invariant forall i :: 0 <= i < k ==> file[i].name != entry
      {
        k := k + 1;
      }
      if k == |file| {
        return Err(GraphNotFound(entry));
      }
    }
    assert IsTarget(file, entry, k);
    assert forall i :: IsTarget(file, entry, i) ==> i == k;
    r := CompileGraphNode(file[k]);
  }

  /**
   From text to model: compiling a source gives the model of the graph that was parsed, whose outgoing edges are
   the declared edges filtered by source, or the one error that graph has.
   */
  method CompileSource(source: string, entry: string)
    returns (parsed: Result<GraphFile, RoundTrip.SourceError>, r: Result<CompiledGraph, CompileError>)
    ensures parsed == RoundTrip.ParseSource(source)
    ensures parsed.Ok? ==>
              (r.Ok? <==> exists k :: IsTarget(parsed.value, entry, k) && Compilable(parsed.value[k]))
    ensures parsed.Ok? && r.Ok? ==>
              fresh(r.value.graph) && exists k :: IsTarget(parsed.value, entry, k) && Compiles(r.value, parsed.value[k])
    ensures parsed.Ok? && r.Err? ==> forall k :: IsTarget(parsed.value, entry, k) ==> Blames(r.error, parsed.value[k])
  {
    hide Compilable, Compiles, IsTarget, Blames;
    r := Err(NoGraphs);
    parsed := RoundTrip.Parse(source);
    if parsed.Ok? {
      r := CompileAst(parsed.value, entry);
    }
  }
}
