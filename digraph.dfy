/**
 * The in-memory half of the graph store: a directed graph with at most one
 * edge per ordered pair of node ids, each node carrying an attribute map
 * and each edge a relation type and a weight (the `nx.DiGraph` held by
 * `GraphEngine`, app/graph_engine.py).  The neighbour queries and the
 * node-link export are pure functions of this value.
 */
module DiGraphs {

  import opened Models

  type Attrs = map<string, Value>

  /** The attributes a stored edge carries. */
  datatype EdgeData = EdgeData(relType: string, weight: real)

  datatype DiGraph = DiGraph(nodes: map<NodeId, Attrs>, edges: map<(NodeId, NodeId), EdgeData>)

  const Empty: DiGraph := DiGraph(map[], map[])

  /** Every edge's endpoints are nodes of the graph. */
  ghost predicate WellFormed(g: DiGraph) {
    forall p :: p in g.edges ==> p.0 in g.nodes && p.1 in g.nodes
  }

  /**
   * `add_node(id, **attrs)`: a new node gets `attrs`; an existing node keeps
   * its attributes and has those named in `attrs` overwritten.
   */
  function AddNode(g: DiGraph, id: NodeId, attrs: Attrs): (r: DiGraph)
    ensures r.edges == g.edges
    ensures r.nodes.Keys == g.nodes.Keys + {id}
    ensures r.nodes[id].Keys == (if id in g.nodes then g.nodes[id].Keys else {}) + attrs.Keys
    ensures forall k :: k in attrs ==> r.nodes[id][k] == attrs[k]
    ensures id in g.nodes ==>
      forall k :: k in g.nodes[id] && k !in attrs ==> r.nodes[id][k] == g.nodes[id][k]
    ensures forall n :: n in g.nodes && n != id ==> r.nodes[n] == g.nodes[n]
    ensures WellFormed(g) ==> WellFormed(r)
  {
    DiGraph(g.nodes[id := if id in g.nodes then g.nodes[id] + attrs else attrs], g.edges)
  }

  /**
   * `add_edge(s, t, type=relType, weight=w)`: missing endpoints are created
   * with no attributes, and the one edge from `s` to `t` takes the new type
   * and weight, whatever it carried before.
   */
  function AddEdge(g: DiGraph, s: NodeId, t: NodeId, relType: string, w: real): (r: DiGraph)
    ensures r.nodes.Keys == g.nodes.Keys + {s, t}
    ensures forall n :: n in g.nodes ==> r.nodes[n] == g.nodes[n]
    ensures forall n :: n in r.nodes && n !in g.nodes ==> r.nodes[n] == map[]
    ensures r.edges.Keys == g.edges.Keys + {(s, t)}
    ensures r.edges[(s, t)] == EdgeData(relType, w)
    ensures forall p :: p in g.edges && p != (s, t) ==> r.edges[p] == g.edges[p]
    ensures WellFormed(g) ==> WellFormed(r)
  {
    var withS := if s in g.nodes then g.nodes else g.nodes[s := map[]];
    var withT := if t in withS then withS else withS[t := map[]];
    DiGraph(withT, g.edges[(s, t) := EdgeData(relType, w)])
  }

  // ---------------------------------------------------------------------
  // Neighbour queries

  function Successors(g: DiGraph, id: NodeId): set<NodeId> {
    set p | p in g.edges.Keys && p.0 == id :: p.1
  }

  function Predecessors(g: DiGraph, id: NodeId): set<NodeId> {
    set p | p in g.edges.Keys && p.1 == id :: p.0
  }

  /** Two ids are joined by an edge in either direction (the undirected view). */
  predicate Adjacent(g: DiGraph, a: NodeId, b: NodeId) {
    (a, b) in g.edges || (b, a) in g.edges
  }

  /** `s` together with everything one undirected hop away from it. */
  function Expand(g: DiGraph, s: set<NodeId>): (r: set<NodeId>)
    ensures s <= r
    ensures forall b :: b in r ==> b in s || exists a :: a in s && Adjacent(g, a, b)
  {
    s + (set p | p in g.edges.Keys && p.0 in s :: p.1) + (set p | p in g.edges.Keys && p.1 in s :: p.0)
  }

  /** The breadth-first ball: every id within `d` undirected hops of `start`. */
  function Ball(g: DiGraph, start: NodeId, d: int): (r: set<NodeId>)
    ensures start in r
    decreases if d < 0 then 0 else d
  {
    if d <= 0 then {start} else Expand(g, Ball(g, start, d - 1))
  }

  /**
   * `get_neighbors(id, depth)`: no answer for an unknown id; at depth 1 the
   * successors and predecessors; otherwise the BFS ball of radius `depth`
   * on the undirected view without the start.  The source's list has no
   * duplicates and no specified order, so the answer is a set.
   */
  function Neighbors(g: DiGraph, id: NodeId, depth: int): (r: set<NodeId>)
    ensures id !in g.nodes ==> r == {}
    ensures id in g.nodes && depth == 1 ==>
      forall x :: x in r <==> (id, x) in g.edges || (x, id) in g.edges
    ensures depth != 1 ==> id !in r
  {
    if id !in g.nodes then {}
    else if depth == 1 then Successors(g, id) + Predecessors(g, id)
    else Ball(g, id, depth) - {id}
  }

  /** A walk in the undirected view. */
  ghost predicate IsWalk(g: DiGraph, w: seq<NodeId>) {
    |w| >= 1 && forall i :: 0 <= i < |w| - 1 ==> Adjacent(g, w[i], w[i + 1])
  }

  /** `x` is reached from `start` by a walk of at most `d` hops. */
  ghost predicate WithinHops(g: DiGraph, start: NodeId, x: NodeId, d: int) {
    exists w :: IsWalk(g, w) && w[0] == start && w[|w| - 1] == x && |w| <= d + 1
  }

  lemma {:induction false} BallMonotone(g: DiGraph, start: NodeId, d: int, d': int)
    requires d <= d'
    ensures Ball(g, start, d) <= Ball(g, start, d')
    decreases d' - d
  {
    if d < d' {
      BallMonotone(g, start, d, d' - 1);
    }
  }

  lemma WalkExtend(g: DiGraph, w: seq<NodeId>, x: NodeId)
    requires IsWalk(g, w) && Adjacent(g, w[|w| - 1], x)
    ensures IsWalk(g, w + [x])
  {
    var w' := w + [x];
    forall i | 0 <= i < |w'| - 1
      ensures Adjacent(g, w'[i], w'[i + 1])
    {
      if i < |w| - 1 {
        assert w'[i] == w[i] && w'[i + 1] == w[i + 1];
      }
    }
  }

  lemma WalkPrefix(g: DiGraph, w: seq<NodeId>)
    requires IsWalk(g, w) && |w| >= 2
    ensures IsWalk(g, w[..|w| - 1])
    ensures Adjacent(g, w[|w| - 2], w[|w| - 1])
  {
  }

  /** Everything in the ball of radius `d` is reached by a walk of at most `d` hops. */
  lemma {:induction false} BallToWalk(g: DiGraph, start: NodeId, d: int, x: NodeId)
    requires d >= 0 && x in Ball(g, start, d)
    ensures WithinHops(g, start, x, d)
    decreases d
  {
    if d == 0 {
      assert IsWalk(g, [start]);
    } else {
      var prev := Ball(g, start, d - 1);
      if x in prev {
        BallToWalk(g, start, d - 1, x);
        var w :| IsWalk(g, w) && w[0] == start && w[|w| - 1] == x && |w| <= d;
        assert |w| <= d + 1;
      } else {
        var a :| a in prev && Adjacent(g, a, x);
        BallToWalk(g, start, d - 1, a);
        var w :| IsWalk(g, w) && w[0] == start && w[|w| - 1] == a && |w| <= d;
        WalkExtend(g, w, x);
        var w' := w + [x];
        assert w'[0] == start && w'[|w'| - 1] == x;
      }
    }
  }

  /** Everything reached by a walk of at most `d` hops is in the ball of radius `d`. */
  lemma {:induction false} WalkToBall(g: DiGraph, start: NodeId, d: int, w: seq<NodeId>)
    requires d >= 0 && IsWalk(g, w) && w[0] == start && |w| <= d + 1
    ensures w[|w| - 1] in Ball(g, start, d)
    decreases d
  {
    if |w| == 1 {
      BallMonotone(g, start, 0, d);
    } else {
      WalkPrefix(g, w);
      var w' := w[..|w| - 1];
      WalkToBall(g, start, d - 1, w');
      assert w'[|w'| - 1] == w[|w| - 2];
    }
  }

  /** The ball of radius `d` is exactly the set of ids within `d` hops of `start`. */
  lemma BallIsWithinHops(g: DiGraph, start: NodeId, d: int, x: NodeId)
    requires d >= 0
    ensures x in Ball(g, start, d) <==> WithinHops(g, start, x, d)
  {
    if x in Ball(g, start, d) {
      BallToWalk(g, start, d, x);
    }
    if WithinHops(g, start, x, d) {
      var w :| IsWalk(g, w) && w[0] == start && w[|w| - 1] == x && |w| <= d + 1;
      WalkToBall(g, start, d, w);
    }
  }

  /** An edge is seen from both of its ends at depth 1. */
  lemma NeighborSymmetry(g: DiGraph, a: NodeId, b: NodeId)
    requires WellFormed(g)
    requires (a, b) in g.edges
    ensures b in Neighbors(g, a, 1) && a in Neighbors(g, b, 1)
  {
  }

  /** At depth 1 a node is its own neighbour exactly when it has a self-loop. */
  lemma SelfLoopAtDepthOne(g: DiGraph, id: NodeId)
    ensures id in Neighbors(g, id, 1) <==> id in g.nodes && (id, id) in g.edges
  {
  }

  /** Beyond depth 1 the answer only grows with the depth. */
  lemma NeighborsMonotone(g: DiGraph, id: NodeId, d: int, d': int)
    requires 2 <= d <= d'
    ensures Neighbors(g, id, d) <= Neighbors(g, id, d')
  {
    BallMonotone(g, id, d, d');
  }

  /** The depth-1 answer without the start is contained in every deeper answer. */
  lemma DepthOneWithinDeeper(g: DiGraph, id: NodeId, d: int)
    requires d >= 2
    ensures Neighbors(g, id, 1) - {id} <= Neighbors(g, id, d)
  {
    BallMonotone(g, id, 1, d);
    assert Ball(g, id, 1) == Expand(g, {id});
  }

  /** A query with depth below 1 answers nothing. */
  lemma NoHopsNoNeighbors(g: DiGraph, id: NodeId, d: int)
    requires d <= 0
    ensures Neighbors(g, id, d) == {}
  {
  }

  /** Beyond depth 1 the answer is the set of other ids within `d` undirected hops. */
  lemma NeighborsAreWithinHops(g: DiGraph, id: NodeId, d: int, x: NodeId)
    requires d >= 2 && id in g.nodes
    ensures x in Neighbors(g, id, d) <==> x != id && WithinHops(g, id, x, d)
  {
    BallIsWithinHops(g, id, d, x);
  }

  lemma {:induction false} BallDependsOnEdgeKeys(g: DiGraph, h: DiGraph, start: NodeId, d: int)
    requires g.edges.Keys == h.edges.Keys
    ensures Ball(g, start, d) == Ball(h, start, d)
    decreases if d < 0 then 0 else d
  {
    if d > 0 {
      BallDependsOnEdgeKeys(g, h, start, d - 1);
    }
  }

  /** The neighbour queries look only at which ids are nodes and which pairs are edges. */
  lemma NeighborsDependOnKeys(g: DiGraph, h: DiGraph, id: NodeId, d: int)
    requires g.nodes.Keys == h.nodes.Keys && g.edges.Keys == h.edges.Keys
    ensures Neighbors(g, id, d) == Neighbors(h, id, d)
  {
    BallDependsOnEdgeKeys(g, h, id, d);
    assert Successors(g, id) == Successors(h, id);
    assert Predecessors(g, id) == Predecessors(h, id);
  }

  // ---------------------------------------------------------------------
  // Node-link export

  datatype NodeRecord = NodeRecord(id: NodeId, attrs: Attrs)
  datatype LinkRecord = LinkRecord(source: NodeId, target: NodeId, relType: string, weight: real)

  /** The value under one top-level key of the exported structure. */
  datatype Section =
    | Flag(b: bool)
    | GraphAttrs(attrs: Attrs)
    | NodeRecords(nodes: set<NodeRecord>)
    | LinkRecords(links: set<LinkRecord>)

  function NodeRecordsOf(g: DiGraph): set<NodeRecord> {
    set id | id in g.nodes.Keys :: NodeRecord(id, g.nodes[id])
  }

  function LinkRecordsOf(g: DiGraph): set<LinkRecord> {
    set p | p in g.edges.Keys :: LinkRecord(p.0, p.1, g.edges[p].relType, g.edges[p].weight)
  }

  /**
   * `nx.node_link_data(g)`: the graph's flags and attributes, its node
   * records, and its edge records under `edgesKey` (the key the installed
   * library version uses for the edge list).
   */
  function NodeLinkData(g: DiGraph, edgesKey: string): (data: map<string, Section>)
    requires edgesKey !in {"directed", "multigraph", "graph", "nodes"}
    ensures data.Keys == {"directed", "multigraph", "graph", "nodes", edgesKey}
  {
    map["directed" := Flag(true), "multigraph" := Flag(false), "graph" := GraphAttrs(map[]),
        "nodes" := NodeRecords(NodeRecordsOf(g)), edgesKey := LinkRecords(LinkRecordsOf(g))]
  }

  /**
   * `get_subgraph_json`: the node-link data with an `edges` entry renamed to
   * `links`.  Whichever key the library uses, the result has `links` and no
   * `edges`, with one record per node and one per edge.
   */
  function SubgraphJson(g: DiGraph, edgesKey: string): (data: map<string, Section>)
    requires edgesKey == "edges" || edgesKey == "links"
    ensures "links" in data && "edges" !in data
    ensures data.Keys == {"directed", "multigraph", "graph", "nodes", "links"}
    ensures data["links"] == LinkRecords(LinkRecordsOf(g))
    ensures data["nodes"] == NodeRecords(NodeRecordsOf(g))
  {
    var data := NodeLinkData(g, edgesKey);
    if "edges" in data then data["links" := data["edges"]] - {"edges"} else data
  }

  /** Each edge is exported as exactly one link record carrying its type and weight. */
  lemma ExportedLinks(g: DiGraph, edgesKey: string, l: LinkRecord)
    requires edgesKey == "edges" || edgesKey == "links"
    ensures l in SubgraphJson(g, edgesKey)["links"].links <==>
      (l.source, l.target) in g.edges && g.edges[(l.source, l.target)] == EdgeData(l.relType, l.weight)
  {
  }

  /** The empty graph exports empty node and link collections. */
  lemma EmptyExport(edgesKey: string)
    requires edgesKey == "edges" || edgesKey == "links"
    ensures SubgraphJson(Empty, edgesKey)["nodes"] == NodeRecords({})
    ensures SubgraphJson(Empty, edgesKey)["links"] == LinkRecords({})
  {
  }
}
