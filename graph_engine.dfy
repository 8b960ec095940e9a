/**
 * `GraphEngine` (app/graph_engine.py): an in-memory `DiGraph` kept beside
 * two durable tables, `nodes` keyed by id holding a JSON metadata blob and
 * `edges` keyed by (source, target, type) holding a weight.  Batches are
 * written to memory first and then to the table, record by record.
 */
module GraphStore {

  import opened Models
  import opened Wrappers
  import opened DiGraphs

  /** A stored metadata column: JSON text of some value, or text that does not decode. */
  datatype Blob = Json(value: Value) | Corrupt(raw: string)

  /** `json.dumps(metadata)`: metadata is written as a JSON object. */
  function Dumps(m: Metadata): Blob {
    Json(Obj(m))
  }

  /** `json.loads(blob)`, `None` when the text does not decode. */
  function Loads(b: Blob): Option<Value> {
    match b
    case Json(v) => Some(v)
    case Corrupt(_) => None
  }

  lemma LoadsDumps(m: Metadata)
    ensures Loads(Dumps(m)) == Some(Obj(m))
  {
  }

  /**
   * One node row of `_load_graph_from_db` as written: a blob that does not
   * decode falls into the bare `except` and gives no attributes; a decoded
   * object gives its fields; any other decoded value (`null`, a number, a
   * string, a list) makes `add_node(n_id, **meta_dict)` raise, which is
   * outside the `try`, so `None` here means that hydration is aborted.
   */
  function HydrateRow(b: Blob): (r: Option<Metadata>)
    ensures r.None? <==> Loads(b).Some? && !Loads(b).value.Obj?
    ensures Loads(b).None? ==> r == Some(map[])
    ensures Loads(b).Some? && Loads(b).value.Obj? ==> r == Some(Loads(b).value.fields)
  {
    match Loads(b)
    case None => Some(map[])
    case Some(Obj(m)) => Some(m)
    case Some(_) => None
  }

  /** A single row holding JSON `null` aborts the hydration of every row. */
  lemma NullRowAbortsHydration()
    ensures HydrateRow(Json(Null)) == None
    ensures HydrateRow(Corrupt("{")) == Some(map[])
  {
  }

  /**
   * The attributes hydration gives a node row, as the `try`/`except`
   * evidently intends: its decoded object's fields, and no attributes for
   * any other blob, so that one bad row never blocks loading.  Wherever the
   * code as written succeeds the two agree.
   */
  function HydratedAttrs(b: Blob): (m: Metadata)
    ensures HydrateRow(b).Some? ==> m == HydrateRow(b).value
    ensures HydrateRow(b).None? ==> m == map[]
    ensures Loads(b).Some? && Loads(b).value.Obj? ==> m == Loads(b).value.fields
  {
    match Loads(b)
    case Some(Obj(m)) => m
    case _ => map[]
  }

  /** The primary key of the `edges` table. */
  type EdgeKey = (NodeId, NodeId, string)

  function Endpoints(keys: set<EdgeKey>): set<NodeId> {
    (set k | k in keys :: k.0) + (set k | k in keys :: k.1)
  }

  function Pairs(keys: set<EdgeKey>): set<(NodeId, NodeId)> {
    set k | k in keys :: (k.0, k.1)
  }

  /** `m` holds every entry of `sub`. */
  ghost predicate SubMap(sub: Metadata, m: Metadata) {
    forall k :: k in sub ==> k in m && m[k] == sub[k]
  }

  /** Each pair of `ps` has an in-memory edge equal to one of that pair's rows. */
  ghost predicate EdgesMatchRows(g: DiGraph, et: map<EdgeKey, real>, ps: set<(NodeId, NodeId)>) {
    forall p :: p in ps ==>
      && p in g.edges
      && (p.0, p.1, g.edges[p].relType) in et
      && et[(p.0, p.1, g.edges[p].relType)] == g.edges[p].weight
  }

  /** Each node row's decodable metadata is contained in the node's in-memory attributes. */
  ghost predicate AttrsMatchRows(g: DiGraph, nt: map<NodeId, Blob>) {
    forall id :: id in nt ==> id in g.nodes && SubMap(HydratedAttrs(nt[id]), g.nodes[id])
  }

  /**
   * How far the two halves agree: the same node ids (table rows plus edge
   * endpoints), the same ordered pairs, each in-memory edge equal to one of
   * the rows for its pair, and each decodable row's metadata contained in
   * the node's in-memory attributes.
   */
  ghost predicate Coherent(g: DiGraph, nodeTable: map<NodeId, Blob>, edgeTable: map<EdgeKey, real>) {
    && WellFormed(g)
    && g.nodes.Keys == nodeTable.Keys + Endpoints(edgeTable.Keys)
    && g.edges.Keys == Pairs(edgeTable.Keys)
    && EdgesMatchRows(g, edgeTable, g.edges.Keys)
    && AttrsMatchRows(g, nodeTable)
  }

  function Last<T>(s: seq<T>): T
    requires s != []
  {
    s[|s| - 1]
  }

  // ---------------------------------------------------------------------
  // Batch effects, one record after the other

  /** The in-memory graph after `add_node` of each record in turn. */
  function ApplyNodes(g: DiGraph, ns: seq<NodeCreate>): DiGraph
    decreases |ns|
  {
    if ns == [] then g
    else AddNode(ApplyNodes(g, ns[..|ns| - 1]), Last(ns).id, Last(ns).metadata)
  }

  /** The `nodes` table after `INSERT OR REPLACE` of each record in turn. */
  function WriteNodeRows(t: map<NodeId, Blob>, ns: seq<NodeCreate>): map<NodeId, Blob>
    decreases |ns|
  {
    if ns == [] then t
    else WriteNodeRows(t, ns[..|ns| - 1])[Last(ns).id := Dumps(Last(ns).metadata)]
  }

  /** The in-memory graph after `add_edge` of each record in turn. */
  function ApplyEdges(g: DiGraph, es: seq<EdgeCreate>): DiGraph
    decreases |es|
  {
    if es == [] then g
    else
      var e := Last(es);
      AddEdge(ApplyEdges(g, es[..|es| - 1]), e.source, e.target, e.relType, e.weight)
  }

  /** The `edges` table after `INSERT OR REPLACE` of each record in turn. */
  function WriteEdgeRows(t: map<EdgeKey, real>, es: seq<EdgeCreate>): map<EdgeKey, real>
    decreases |es|
  {
    if es == [] then t
    else
      var e := Last(es);
      WriteEdgeRows(t, es[..|es| - 1])[(e.source, e.target, e.relType) := e.weight]
  }

  function KeyOf(e: EdgeCreate): EdgeKey {
    (e.source, e.target, e.relType)
  }

  /** One more record of a batch is one more `add_node` and one more row write. */
  lemma ApplyNodesSnoc(g: DiGraph, t: map<NodeId, Blob>, ns: seq<NodeCreate>, i: nat)
    requires i < |ns|
    ensures ApplyNodes(g, ns[..i + 1]) == AddNode(ApplyNodes(g, ns[..i]), ns[i].id, ns[i].metadata)
    ensures WriteNodeRows(t, ns[..i + 1]) == WriteNodeRows(t, ns[..i])[ns[i].id := Dumps(ns[i].metadata)]
  {
    assert ns[..i + 1][..i] == ns[..i];
  }

  /** One more record of a batch is one more `add_edge` and one more row write. */
  lemma ApplyEdgesSnoc(g: DiGraph, t: map<EdgeKey, real>, es: seq<EdgeCreate>, i: nat)
    requires i < |es|
    ensures ApplyEdges(g, es[..i + 1]) == AddEdge(ApplyEdges(g, es[..i]), es[i].source, es[i].target, es[i].relType, es[i].weight)
    ensures WriteEdgeRows(t, es[..i + 1]) == WriteEdgeRows(t, es[..i])[KeyOf(es[i]) := es[i].weight]
  {
    assert es[..i + 1][..i] == es[..i];
  }

  /** The ids a batch of node records names. */
  function Ids(ns: seq<NodeCreate>): (r: set<NodeId>)
    ensures forall i :: 0 <= i < |ns| ==> ns[i].id in r
    decreases |ns|
  {
    if ns == [] then {} else Ids(ns[..|ns| - 1]) + {Last(ns).id}
  }

  /** Every record's id is a node afterwards; other nodes keep their attributes. */
  lemma {:induction false} ApplyNodesRegisters(g: DiGraph, ns: seq<NodeCreate>)
    ensures ApplyNodes(g, ns).nodes.Keys == g.nodes.Keys + Ids(ns)
    ensures ApplyNodes(g, ns).edges == g.edges
    ensures forall id :: id in g.nodes && id !in Ids(ns) ==> ApplyNodes(g, ns).nodes[id] == g.nodes[id]
    decreases |ns|
  {
    if ns != [] {
      ApplyNodesRegisters(g, ns[..|ns| - 1]);
    }
  }

  /** The row for an id holds the metadata of the last record with that id. */
  lemma {:induction false} NodeRowIsLastWrite(t: map<NodeId, Blob>, ns: seq<NodeCreate>, i: nat)
    requires i < |ns|
    requires forall j :: i < j < |ns| ==> ns[j].id != ns[i].id
    ensures ns[i].id in WriteNodeRows(t, ns)
    ensures WriteNodeRows(t, ns)[ns[i].id] == Dumps(ns[i].metadata)
    decreases |ns|
  {
    if i < |ns| - 1 {
      NodeRowIsLastWrite(t, ns[..|ns| - 1], i);
    }
  }

  /** Rows of ids that no record names are left alone. */
  lemma {:induction false} NodeRowsUntouched(t: map<NodeId, Blob>, ns: seq<NodeCreate>, id: NodeId)
    requires forall i :: 0 <= i < |ns| ==> ns[i].id != id
    ensures id in WriteNodeRows(t, ns) <==> id in t
    ensures id in t ==> WriteNodeRows(t, ns)[id] == t[id]
    decreases |ns|
  {
    if ns != [] {
      NodeRowsUntouched(t, ns[..|ns| - 1], id);
    }
  }

  /**
   * Adding a node that already exists merges in memory (old attribute keys
   * stay, the new ones overwrite) but replaces the whole durable row.
   */
  lemma ReAddMergesButReplacesRow(g: DiGraph, t: map<NodeId, Blob>, n: NodeCreate)
    requires n.id in g.nodes
    ensures ApplyNodes(g, [n]).nodes[n.id] == g.nodes[n.id] + n.metadata
    ensures WriteNodeRows(t, [n])[n.id] == Dumps(n.metadata)
  {
    assert [n][..0] == [];
  }

  /** The ids a batch of edge records names as endpoints. */
  function Mentioned(es: seq<EdgeCreate>): (r: set<NodeId>)
    ensures forall i :: 0 <= i < |es| ==> es[i].source in r && es[i].target in r
    decreases |es|
  {
    if es == [] then {} else Mentioned(es[..|es| - 1]) + {Last(es).source, Last(es).target}
  }

  /** The ordered pairs a batch of edge records names. */
  function PairsOf(es: seq<EdgeCreate>): (r: set<(NodeId, NodeId)>)
    ensures forall i :: 0 <= i < |es| ==> (es[i].source, es[i].target) in r
    decreases |es|
  {
    if es == [] then {} else PairsOf(es[..|es| - 1]) + {(Last(es).source, Last(es).target)}
  }

  /** Both endpoints of every record are nodes afterwards, and no other node appears. */
  lemma {:induction false} ApplyEdgesEndpoints(g: DiGraph, es: seq<EdgeCreate>)
    ensures ApplyEdges(g, es).nodes.Keys == g.nodes.Keys + Mentioned(es)
    ensures forall id :: id in g.nodes ==> ApplyEdges(g, es).nodes[id] == g.nodes[id]
    ensures ApplyEdges(g, es).edges.Keys == g.edges.Keys + PairsOf(es)
    decreases |es|
  {
    if es != [] {
      ApplyEdgesEndpoints(g, es[..|es| - 1]);
    }
  }

  /** The one in-memory edge for an ordered pair carries the type and weight of the last record for that pair. */
  lemma {:induction false} MemoryEdgeIsLastForPair(g: DiGraph, es: seq<EdgeCreate>, i: nat)
    requires i < |es|
    requires forall j :: i < j < |es| ==> (es[j].source, es[j].target) != (es[i].source, es[i].target)
    ensures (es[i].source, es[i].target) in ApplyEdges(g, es).edges
    ensures ApplyEdges(g, es).edges[(es[i].source, es[i].target)] == EdgeData(es[i].relType, es[i].weight)
    decreases |es|
  {
    if i < |es| - 1 {
      MemoryEdgeIsLastForPair(g, es[..|es| - 1], i);
    }
  }

  /** The row for a (source, target, type) key holds the weight of the last record with that key. */
  lemma {:induction false} EdgeRowIsLastWrite(t: map<EdgeKey, real>, es: seq<EdgeCreate>, i: nat)
    requires i < |es|
    requires forall j :: i < j < |es| ==> KeyOf(es[j]) != KeyOf(es[i])
    ensures KeyOf(es[i]) in WriteEdgeRows(t, es)
    ensures WriteEdgeRows(t, es)[KeyOf(es[i])] == es[i].weight
    decreases |es|
  {
    if i < |es| - 1 {
      EdgeRowIsLastWrite(t, es[..|es| - 1], i);
    }
  }

  /** Every record leaves a row of its own key: different types between one pair are separate rows. */
  lemma {:induction false} EdgeRowKeys(t: map<EdgeKey, real>, es: seq<EdgeCreate>)
    ensures WriteEdgeRows(t, es).Keys == t.Keys + (set i | 0 <= i < |es| :: KeyOf(es[i]))
    decreases |es|
  {
    if es != [] {
      var init := es[..|es| - 1];
      EdgeRowKeys(t, init);
      assert (set i | 0 <= i < |es| :: KeyOf(es[i])) == (set i | 0 <= i < |init| :: KeyOf(init[i])) + {KeyOf(Last(es))};
    }
  }

  /**
   * Two records for one pair with different types: memory keeps only the
   * later one, the table keeps both rows.
   */
  lemma TwoTypesOnePair(g: DiGraph, t: map<EdgeKey, real>, a: EdgeCreate, b: EdgeCreate)
    requires a.source == b.source && a.target == b.target && a.relType != b.relType
    ensures ApplyEdges(g, [a, b]).edges[(a.source, a.target)] == EdgeData(b.relType, b.weight)
    ensures KeyOf(a) in WriteEdgeRows(t, [a, b]) && WriteEdgeRows(t, [a, b])[KeyOf(a)] == a.weight
    ensures KeyOf(b) in WriteEdgeRows(t, [a, b]) && WriteEdgeRows(t, [a, b])[KeyOf(b)] == b.weight
  {
    MemoryEdgeIsLastForPair(g, [a, b], 1);
    EdgeRowIsLastWrite(t, [a, b], 0);
    EdgeRowIsLastWrite(t, [a, b], 1);
  }

  // ---------------------------------------------------------------------
  // Coherence of the two halves

  lemma UnionAssoc<T>(a: set<T>, b: set<T>, c: set<T>)
    ensures (a + b) + c == a + (b + c)
  {
  }

  lemma UpdateKeys<K, V>(m: map<K, V>, k: K, v: V)
    ensures m[k := v].Keys == m.Keys + {k}
  {
  }

  lemma EndpointsAdd(done: set<EdgeKey>, k: EdgeKey)
    ensures Endpoints(done + {k}) == Endpoints(done) + {k.0, k.1}
  {
  }

  lemma PairsAdd(done: set<EdgeKey>, k: EdgeKey)
    ensures Pairs(done + {k}) == Pairs(done) + {(k.0, k.1)}
  {
  }

  /** Writing row `k` and setting the in-memory edge of its pair to match keeps the pairs matched. */
  lemma SetEdgeMatchesRows(g: DiGraph, et: map<EdgeKey, real>, ps: set<(NodeId, NodeId)>, k: EdgeKey, w: real)
    requires EdgesMatchRows(g, et, ps)
    ensures EdgesMatchRows(AddEdge(g, k.0, k.1, k.2, w), et[k := w], ps + {(k.0, k.1)})
  {
    var h := AddEdge(g, k.0, k.1, k.2, w);
    forall p | p in ps && p != (k.0, k.1)
      ensures h.edges[p] == g.edges[p]
    {
    }
  }

  lemma AddNodeKeepsAttrs(g: DiGraph, nt: map<NodeId, Blob>, id: NodeId, m: Metadata)
    requires AttrsMatchRows(g, nt)
    ensures AttrsMatchRows(AddNode(g, id, m), nt[id := Dumps(m)])
  {
    var h := AddNode(g, id, m);
    forall x | x in nt && x != id
      ensures h.nodes[x] == g.nodes[x]
    {
    }
  }

  lemma AddEdgeKeepsAttrs(g: DiGraph, nt: map<NodeId, Blob>, s: NodeId, t: NodeId, r: string, w: real)
    requires AttrsMatchRows(g, nt)
    ensures AttrsMatchRows(AddEdge(g, s, t, r, w), nt)
  {
  }

  lemma AddNodeKeepsCoherent(g: DiGraph, nt: map<NodeId, Blob>, et: map<EdgeKey, real>, n: NodeCreate)
    requires Coherent(g, nt, et)
    ensures Coherent(AddNode(g, n.id, n.metadata), nt[n.id := Dumps(n.metadata)], et)
  {
    AddNodeKeepsAttrs(g, nt, n.id, n.metadata);
  }

  lemma AddEdgeKeepsCoherent(g: DiGraph, nt: map<NodeId, Blob>, et: map<EdgeKey, real>, e: EdgeCreate)
    requires Coherent(g, nt, et)
    ensures Coherent(AddEdge(g, e.source, e.target, e.relType, e.weight), nt, et[KeyOf(e) := e.weight])
  {
    UpdateKeys(et, KeyOf(e), e.weight);
    EndpointsAdd(et.Keys, KeyOf(e));
    PairsAdd(et.Keys, KeyOf(e));
    UnionAssoc(nt.Keys, Endpoints(et.Keys), {e.source, e.target});
    SetEdgeMatchesRows(g, et, g.edges.Keys, KeyOf(e), e.weight);
    AddEdgeKeepsAttrs(g, nt, e.source, e.target, e.relType, e.weight);
  }

  /** A whole batch of `add_node` and row writes keeps the halves coherent. */
  lemma {:induction false} ApplyNodesKeepsCoherent(g: DiGraph, nt: map<NodeId, Blob>, et: map<EdgeKey, real>, ns: seq<NodeCreate>)
    requires Coherent(g, nt, et)
    ensures Coherent(ApplyNodes(g, ns), WriteNodeRows(nt, ns), et)
    decreases |ns|
  {
    if ns != [] {
      ApplyNodesKeepsCoherent(g, nt, et, ns[..|ns| - 1]);
      AddNodeKeepsCoherent(ApplyNodes(g, ns[..|ns| - 1]), WriteNodeRows(nt, ns[..|ns| - 1]), et, Last(ns));
    }
  }

  /** A whole batch of `add_edge` and row writes keeps the halves coherent. */
  lemma {:induction false} ApplyEdgesKeepsCoherent(g: DiGraph, nt: map<NodeId, Blob>, et: map<EdgeKey, real>, es: seq<EdgeCreate>)
    requires Coherent(g, nt, et)
    ensures Coherent(ApplyEdges(g, es), nt, WriteEdgeRows(et, es))
    decreases |es|
  {
    if es != [] {
      ApplyEdgesKeepsCoherent(g, nt, et, es[..|es| - 1]);
      AddEdgeKeepsCoherent(ApplyEdges(g, es[..|es| - 1]), nt, WriteEdgeRows(et, es[..|es| - 1]), Last(es));
    }
  }

  /**
   * Any two coherent in-memory graphs over the same tables have the same
   * node and edge counts and answer every neighbour query alike: so a
   * restart, which rebuilds a coherent graph from the tables, changes no
   * neighbour answer.
   */
  lemma ReloadKeepsNeighbors(g: DiGraph, h: DiGraph, nt: map<NodeId, Blob>, et: map<EdgeKey, real>, id: NodeId, d: int)
    requires Coherent(g, nt, et) && Coherent(h, nt, et)
    ensures |g.nodes| == |h.nodes| && |g.edges| == |h.edges|
    ensures Neighbors(g, id, d) == Neighbors(h, id, d)
  {
    assert g.nodes.Keys == h.nodes.Keys;
    assert g.edges.Keys == h.edges.Keys;
    NeighborsDependOnKeys(g, h, id, d);
  }

  /** Nodes of `g0` keep their attributes in `g`; nodes new in `g` carry none. */
  ghost predicate OldNodesKept(g0: DiGraph, g: DiGraph) {
    && (forall id :: id in g0.nodes ==> id in g.nodes && g.nodes[id] == g0.nodes[id])
    && (forall id :: id in g.nodes && id !in g0.nodes ==> g.nodes[id] == map[])
  }

  /** Edges of `g0` outside the pairs `ps` are unchanged in `g`. */
  ghost predicate OldEdgesKept(g0: DiGraph, g: DiGraph, ps: set<(NodeId, NodeId)>) {
    forall p :: p in g0.edges && p !in ps ==> p in g.edges && g.edges[p] == g0.edges[p]
  }

  lemma AddEdgeKeepsOld(g0: DiGraph, g: DiGraph, ps: set<(NodeId, NodeId)>, s: NodeId, t: NodeId, r: string, w: real)
    requires OldNodesKept(g0, g) && OldEdgesKept(g0, g, ps)
    ensures OldNodesKept(g0, AddEdge(g, s, t, r, w))
    ensures OldEdgesKept(g0, AddEdge(g, s, t, r, w), ps + {(s, t)})
  {
  }

  /**
   * The shape of a graph that was `g0` before some edge rows `done` were
   * hydrated: their endpoints added without attributes, their pairs added,
   * everything else untouched.
   */
  ghost predicate EdgeRowsShape(g0: DiGraph, g: DiGraph, done: set<EdgeKey>) {
    && WellFormed(g)
    && g.nodes.Keys == g0.nodes.Keys + Endpoints(done)
    && g.edges.Keys == g0.edges.Keys + Pairs(done)
    && OldNodesKept(g0, g)
    && OldEdgesKept(g0, g, Pairs(done))
  }

  lemma EdgeRowsShapeStep(g0: DiGraph, g: DiGraph, done: set<EdgeKey>, k: EdgeKey, w: real)
    requires EdgeRowsShape(g0, g, done)
    ensures EdgeRowsShape(g0, AddEdge(g, k.0, k.1, k.2, w), done + {k})
  {
    EndpointsAdd(done, k);
    PairsAdd(done, k);
    UnionAssoc(g0.nodes.Keys, Endpoints(done), {k.0, k.1});
    UnionAssoc(g0.edges.Keys, Pairs(done), {(k.0, k.1)});
    AddEdgeKeepsOld(g0, g, Pairs(done), k.0, k.1, k.2, w);
  }

  /**
   * What hydrating the edge rows in `done`, in some order, has done to a
   * graph that was `g0` before: the shape above, and one edge per pair
   * equal to one of that pair's rows.
   */
  ghost predicate EdgesLoaded(g0: DiGraph, g: DiGraph, et: map<EdgeKey, real>, done: set<EdgeKey>) {
    && done <= et.Keys
    && EdgeRowsShape(g0, g, done)
    && EdgesMatchRows(g, et, Pairs(done))
  }

  lemma LoadEdgeStep(g0: DiGraph, g: DiGraph, et: map<EdgeKey, real>, done: set<EdgeKey>, k: EdgeKey)
    requires EdgesLoaded(g0, g, et, done)
    requires k in et
    ensures EdgesLoaded(g0, AddEdge(g, k.0, k.1, k.2, et[k]), et, done + {k})
  {
    EdgeRowsShapeStep(g0, g, done, k, et[k]);
    PairsAdd(done, k);
    SetEdgeMatchesRows(g, et, Pairs(done), k, et[k]);
    assert et[k := et[k]] == et;
  }

  /** Each id of `done` holds the attributes of `g0` merged with its row's decoded metadata. */
  ghost predicate RowsMerged(g0: DiGraph, g: DiGraph, nt: map<NodeId, Blob>, done: set<NodeId>)
    requires done <= nt.Keys
  {
    forall id :: id in done ==>
      id in g.nodes && g.nodes[id] == (if id in g0.nodes then g0.nodes[id] else map[]) + HydratedAttrs(nt[id])
  }

  /** What hydrating the node rows in `done` has done to a graph that was `g0` before. */
  ghost predicate NodesLoaded(g0: DiGraph, g: DiGraph, nt: map<NodeId, Blob>, done: set<NodeId>) {
    && done <= nt.Keys
    && WellFormed(g)
    && g.edges == g0.edges
    && g.nodes.Keys == g0.nodes.Keys + done
    && RowsMerged(g0, g, nt, done)
    && (forall id :: id in g0.nodes && id !in done ==> g.nodes[id] == g0.nodes[id])
  }

  lemma MergeRowStep(g0: DiGraph, g: DiGraph, nt: map<NodeId, Blob>, done: set<NodeId>, id: NodeId)
    requires done <= nt.Keys && id in nt && id !in done
    requires RowsMerged(g0, g, nt, done)
    requires id in g0.nodes ==> id in g.nodes && g.nodes[id] == g0.nodes[id]
    requires id !in g0.nodes ==> id !in g.nodes
    ensures RowsMerged(g0, AddNode(g, id, HydratedAttrs(nt[id])), nt, done + {id})
  {
    var h := AddNode(g, id, HydratedAttrs(nt[id]));
    forall x | x in done
      ensures h.nodes[x] == g.nodes[x]
    {
    }
  }

  lemma LoadNodeStep(g0: DiGraph, g: DiGraph, nt: map<NodeId, Blob>, done: set<NodeId>, id: NodeId)
    requires NodesLoaded(g0, g, nt, done)
    requires id in nt && id !in done
    ensures NodesLoaded(g0, AddNode(g, id, HydratedAttrs(nt[id])), nt, done + {id})
  {
    MergeRowStep(g0, g, nt, done, id);
  }

  lemma MergeIntoEmpty(m: Metadata)
    ensures map[] + m == m
  {
  }

  /** Hydrating both tables into the empty graph gives a graph coherent with them. */
  lemma HydratedIsCoherent(g1: DiGraph, g2: DiGraph, nt: map<NodeId, Blob>, et: map<EdgeKey, real>)
    requires NodesLoaded(Empty, g1, nt, nt.Keys)
    requires EdgesLoaded(g1, g2, et, et.Keys)
    ensures Coherent(g2, nt, et)
    ensures forall id :: id in nt ==> g2.nodes[id] == HydratedAttrs(nt[id])
    ensures forall id :: id in g2.nodes && id !in nt ==> g2.nodes[id] == map[]
  {
    forall id | id in nt
      ensures g2.nodes[id] == HydratedAttrs(nt[id])
    {
      MergeIntoEmpty(HydratedAttrs(nt[id]));
    }
  }

  // ---------------------------------------------------------------------
  // The store

  class GraphEngine {
    /** `self.graph`, the in-memory half. */
    var graph: DiGraph
    /** The durable `nodes` table. */
    var nodeTable: map<NodeId, Blob>
    /** The durable `edges` table. */
    var edgeTable: map<EdgeKey, real>

    ghost predicate Valid()
      reads this
    {
      Coherent(graph, nodeTable, edgeTable)
    }

    /**
     * Start-up over existing tables: an empty graph hydrated from the rows.
     * Every row's node carries `HydratedAttrs` of its blob (its decoded
     * object's fields, otherwise none); endpoints without a row carry none.
     */
    constructor (nodeRows: map<NodeId, Blob>, edgeRows: map<EdgeKey, real>)
      ensures nodeTable == nodeRows && edgeTable == edgeRows
      ensures Valid()
      ensures forall id :: id in nodeRows ==> graph.nodes[id] == HydratedAttrs(nodeRows[id])
      ensures forall id :: id in graph.nodes && id !in nodeRows ==> graph.nodes[id] == map[]
    {
      graph := Empty;
      nodeTable := nodeRows;
      edgeTable := edgeRows;
      new;
      ghost var g1 := LoadGraphFromDb();
      HydratedIsCoherent(g1, graph, nodeTable, edgeTable);
    }

    /**
     * `_load_graph_from_db`: every node row, then every edge row, in the
     * order the table yields them (no order is specified, so the loop picks
     * any remaining row).  When two rows share a pair, the in-memory edge is
     * one of them, not a specified one.  `mid` is the graph between the two
     * passes.
     */
    method LoadGraphFromDb() returns (ghost mid: DiGraph)
      requires WellFormed(graph)
      modifies this`graph
      ensures NodesLoaded(old(graph), mid, nodeTable, nodeTable.Keys)
      ensures EdgesLoaded(mid, graph, edgeTable, edgeTable.Keys)
    {
      LoadNodeRows();
      mid := graph;
      LoadEdgeRows();
    }

    /** The node half of the hydration: each row's decoded metadata is merged into its node. */
    method LoadNodeRows()
      requires WellFormed(graph)
      modifies this`graph
      ensures NodesLoaded(old(graph), graph, nodeTable, nodeTable.Keys)
    {
      ghost var g0 := graph;
      ghost var done: set<NodeId> := {};
      var todo := nodeTable.Keys;
      while todo != {}
        invariant todo <= nodeTable.Keys && done == nodeTable.Keys - todo
        invariant NodesLoaded(g0, graph, nodeTable, done)
        decreases todo
      {
        var id :| id in todo;
        LoadNodeStep(g0, graph, nodeTable, done, id);
        var meta := HydratedAttrs(nodeTable[id]);
        graph := AddNode(graph, id, meta);
        todo := todo - {id};
        done := done + {id};
      }
      assert done == nodeTable.Keys;
    }

    /** The edge half of the hydration: each row sets the in-memory edge of its pair. */
    method LoadEdgeRows()
      requires WellFormed(graph)
      modifies this`graph
      ensures EdgesLoaded(old(graph), graph, edgeTable, edgeTable.Keys)
    {
      ghost var g0 := graph;
      ghost var done: set<EdgeKey> := {};
      var rows := edgeTable.Keys;
      while rows != {}
        invariant rows <= edgeTable.Keys && done == edgeTable.Keys - rows
        invariant EdgesLoaded(g0, graph, edgeTable, done)
        decreases rows
      {
        var k :| k in rows;
        LoadEdgeStep(g0, graph, edgeTable, done, k);
        graph := AddEdge(graph, k.0, k.1, k.2, edgeTable[k]);
        rows := rows - {k};
        done := done + {k};
      }
      assert done == edgeTable.Keys;
    }

    /**
     * `add_nodes`: an empty batch changes nothing; otherwise each record is
     * merged into memory and then written as its own row.
     */
    method AddNodes(ns: seq<NodeCreate>)
      requires Valid()
      modifies this`graph, this`nodeTable
      ensures Valid()
      ensures graph == ApplyNodes(old(graph), ns)
      ensures nodeTable == WriteNodeRows(old(nodeTable), ns)
      ensures edgeTable == old(edgeTable)
    {
      if |ns| == 0 {
        return;
      }
      for i := 0 to |ns|
        invariant graph == ApplyNodes(old(graph), ns[..i])
        invariant nodeTable == WriteNodeRows(old(nodeTable), ns[..i])
      {
        var node := ns[i];
        ApplyNodesSnoc(old(graph), old(nodeTable), ns, i);
        graph := AddNode(graph, node.id, node.metadata);
        nodeTable := nodeTable[node.id := Dumps(node.metadata)];
      }
      assert ns[..|ns|] == ns;
      ApplyNodesKeepsCoherent(old(graph), old(nodeTable), edgeTable, ns);
    }

    /**
     * `add_edges`: an empty batch changes nothing; otherwise each record
     * sets the one in-memory edge of its pair, creating missing endpoints,
     * and then writes the row of its (source, target, type) key.  The
     * `nodes` table is not written.
     */
    method AddEdges(es: seq<EdgeCreate>)
      requires Valid()
      modifies this`graph, this`edgeTable
      ensures Valid()
      ensures graph == ApplyEdges(old(graph), es)
      ensures edgeTable == WriteEdgeRows(old(edgeTable), es)
      ensures nodeTable == old(nodeTable)
    {
      if |es| == 0 {
        return;
      }
      for i := 0 to |es|
        invariant graph == ApplyEdges(old(graph), es[..i])
        invariant edgeTable == WriteEdgeRows(old(edgeTable), es[..i])
      {
        var edge := es[i];
        ApplyEdgesSnoc(old(graph), old(edgeTable), es, i);
        graph := AddEdge(graph, edge.source, edge.target, edge.relType, edge.weight);
        edgeTable := edgeTable[KeyOf(edge) := edge.weight];
      }
      assert es[..|es|] == es;
      ApplyEdgesKeepsCoherent(old(graph), nodeTable, old(edgeTable), es);
    }

    /** `get_neighbors(id, depth)` on the in-memory graph. */
    function GetNeighbors(id: NodeId, depth: int := 1): (r: set<NodeId>)
      reads this
      requires Valid()
      ensures r == Neighbors(graph, id, depth)
      ensures r <= graph.nodes.Keys
    {
      assert id in graph.nodes ==> forall x :: x in Ball(graph, id, depth) ==> x in graph.nodes by {
        if id in graph.nodes {
          forall x | x in Ball(graph, id, depth) ensures x in graph.nodes {
            BallInNodes(graph, id, depth, x);
          }
        }
      }
      Neighbors(graph, id, depth)
    }

    /** `get_subgraph_json` on the in-memory graph. */
    function GetSubgraphJson(edgesKey: string): (data: map<string, Section>)
      reads this
      requires edgesKey == "edges" || edgesKey == "links"
      ensures data.Keys == {"directed", "multigraph", "graph", "nodes", "links"}
      ensures data["links"] == LinkRecords(LinkRecordsOf(graph))
      ensures data["nodes"] == NodeRecords(NodeRecordsOf(graph))
    {
      SubgraphJson(graph, edgesKey)
    }
  }

  /** The BFS ball of a node stays among the nodes of a well-formed graph. */
  lemma {:induction false} BallInNodes(g: DiGraph, id: NodeId, d: int, x: NodeId)
    requires WellFormed(g) && id in g.nodes
    requires x in Ball(g, id, d)
    ensures x in g.nodes
    decreases if d < 0 then 0 else d
  {
    if d > 0 && x !in Ball(g, id, d - 1) {
      var a :| a in Ball(g, id, d - 1) && Adjacent(g, a, x);
    } else if d > 0 {
      BallInNodes(g, id, d - 1, x);
    }
  }
}
