# Vector-Graph-Native-Database: graph store, hybrid fusion and ingestion in Dafny

This project models four parts of the hybrid retrieval store:

- the graph store `GraphEngine`;
- the fusion algorithm `HybridEngine.hybrid_search`;
- the text ingestion pipeline;
- the record types.

The graph store keeps a NetworkX directed graph in memory and writes the same records through to two SQLite tables. Hybrid search merges a similarity ranking with a boost from graph neighbours. The ingestion pipeline turns raw text into nodes and edges.

Modules, one per file:

- `Wrappers` (wrappers.dfy): `Option`.
- `Models` (models.dfy): `NodeCreate`, `EdgeCreate`, `SearchQuery` and `SearchResultItem`, with their defaults. Also a JSON `Value` type for metadata.
- `DiGraphs` (digraph.dfy): the directed graph as a value.
  - `add_node` merges attributes. `add_edge` sets the single edge of an ordered pair.
  - Neighbours and the breadth-first ball on the undirected view.
  - The `node_link_data` export.
- `GraphStore` (graph_engine.dfy): `class GraphEngine`.
  - Fields: the in-memory graph and the two durable tables as maps.
  - Methods: the hydration loops, `add_nodes`, `add_edges`, `get_neighbors` and `get_subgraph_json`.
  - It is proved against functions that replay a batch: `ApplyNodes` and `WriteNodeRows`, `ApplyEdges` and `WriteEdgeRows`.
  - `Coherent` states how far the two halves agree.
- `Hybrid` (hybrid_logic.dfy): the three dictionary loops, the sort and the cut, each a method proved against a specification function (`VectorScores`, `Boosts`, `CandidateFor`, `SortDesc`).
  - `IsRanking` says what the answer promises.
  - `BoostSum` is a reference definition of the accumulated boost.
- `PyText` (pytext.dfy): the Python string operations the ingestion rules use.
  - `str.isspace`, `strip`, `split()` and `" ".join`, `lower` on ASCII, and substring tests.
  - The non-greedy `re.sub` of a bracketed span, in which `.` does not match a newline.
- `Ingestion` (ingestion.dfy): the ingestion pipeline.
  - The three handlers, and the `HandlerRegistry` class with `register` and `find`.
  - `preprocess`, `clean_node_id`, `expand_noun_phrase`.
  - `extract_structured_data` as a class method with its loops, proved against `Extracted(doc)`: a fold that registers the entity nodes, then connects the kept relations' edges.

The language model, `fix_text`, the handlers' `process` methods and the vector search are foreign code. They enter as function-valued parameters.

Behaviour of the code that a reader might not expect, as the model has it:

- **Depth-1 neighbours.** The depth-1 neighbour set is successors plus predecessors. It contains the queried node itself when that node has a self-loop (`DiGraphs.SelfLoopAtDepthOne`). Deeper queries exclude the start node, so monotonicity from depth 1 to 2 holds only without the start node (`DiGraphs.DepthOneWithinDeeper`).
- **Merge versus replace.** Re-adding a node merges its attributes in memory, because NetworkX `add_node` updates the attribute dictionary. The durable row is replaced (`GraphStore.ReAddMergesButReplacesRow`).
- **One edge per ordered pair in memory.** Two edges between one pair with different types keep both rows, but memory keeps only the later edge (`GraphStore.TwoTypesOnePair`).
- **Boosts look both ways.** Anchors A 0.9 and B 0.4 over the edge A→B, both weights 0.5, top 2:
  - B is boosted by A (0.3 × 0.9 = 0.27), and A is boosted by B (0.3 × 0.4 = 0.12), because depth-1 neighbours are successors and predecessors.
  - A scores 0.45 + 0.06 = 0.51 and B scores 0.2 + 0.135 = 0.335 (`Hybrid.ExampleRanking`).
- **The boost factor is 0.3.** The comment at app/hybrid_logic.py:44 describes the neighbour boost as half the parent score. Line 45 multiplies by 0.3, and the model uses 0.3.
- **A graph weight of 0 keeps the graph candidates.** Neighbours of anchors are candidates whatever `graph_weight` is. With weight 0 such a neighbour scores 0, has an empty explanation and can still take a place in the top k (`Hybrid.NoGraphWeightKeepsNeighbours`). One anchor A 0.9 over the edge A→B, `vector_weight` 1, `graph_weight` 0, top 5 answers A 0.9 then B 0.0 (`Hybrid.ExampleNoGraphWeight`).
- **Ties.** There is no tie-break by id. `sorted` is stable over a set whose order is unspecified, so `IsRanking` leaves the order of equal scores open.
- **Bracketed spans after preprocess.** A bracketed span broken by a newline survives the `\[.*?\]` removal, because `.` does not match a newline. The whitespace collapse then joins it onto one line. So `preprocess` does not promise a text without `[...]` spans.
- **Node rows that are valid JSON but not an object.** Such a row makes `add_node(n_id, **meta_dict)` raise outside the `try`, and start-up fails (see Findings).

## Model

| member | source | states |
|---|---|---|
| Models.NodeCreateDefaults | app/models.py:6-13 | a node record's metadata defaults to the empty map |
| Models.EdgeCreateDefaults | app/models.py:15-23 | an edge's weight defaults to 1.0 |
| Models.SearchQueryDefaults | app/models.py:27-32 | a query defaults to top 5 with both weights 0.5 |
| Models.SearchResultItemDefaults | app/models.py:34-42 | a result item's metadata defaults to the empty map |
| DiGraphs.AddNode | app/graph_engine.py:94 | `add_node` adds the id, merges the new attributes over the old ones, leaves other nodes and all edges alone, and keeps endpoints among the nodes |
| DiGraphs.AddEdge | app/graph_engine.py:114 | `add_edge` adds both endpoints (new ones without attributes) and sets the one edge of the ordered pair to the given type and weight; other edges are unchanged |
| DiGraphs.Expand | app/graph_engine.py:138-139 | one breadth-first step keeps the frontier and adds only ids adjacent in the undirected view |
| DiGraphs.Neighbors | app/graph_engine.py:124-140 | unknown id gives nothing; depth 1 gives exactly successors and predecessors; any other depth never includes the start |
| DiGraphs.BallIsWithinHops | app/graph_engine.py:137-140 | the breadth-first ball of radius d is exactly the set of ids reached by an undirected walk of at most d hops |
| DiGraphs.BallToWalk | app/graph_engine.py:137-140 | every id in the ball is reached by a walk of at most d hops |
| DiGraphs.WalkToBall | app/graph_engine.py:137-140 | every walk of at most d hops ends inside the ball |
| DiGraphs.BallMonotone | app/graph_engine.py:139 | a larger cutoff gives a larger ball |
| DiGraphs.NeighborSymmetry | app/graph_engine.py:131-135 | an edge is seen at depth 1 from both of its ends |
| DiGraphs.SelfLoopAtDepthOne | app/graph_engine.py:131-135 | at depth 1 a node is its own neighbour exactly when it has a self-loop |
| DiGraphs.NeighborsMonotone | app/graph_engine.py:137-140 | from depth 2 on, a deeper query answers a superset |
| DiGraphs.DepthOneWithinDeeper | app/graph_engine.py:131-140 | the depth-1 answer without the start is contained in every deeper answer |
| DiGraphs.NoHopsNoNeighbors | app/graph_engine.py:137-140 | a depth of 0 or less answers nothing |
| DiGraphs.NeighborsAreWithinHops | app/graph_engine.py:137-140 | from depth 2 on, x is a neighbour iff x is not the start and is within d undirected hops |
| DiGraphs.NeighborsDependOnKeys | app/graph_engine.py:124-140 | neighbour answers depend only on which ids are nodes and which pairs are edges, not on attributes |
| DiGraphs.NodeLinkData | app/graph_engine.py:147 | the export has exactly the keys directed, multigraph, graph, nodes and the library's edge key |
| DiGraphs.SubgraphJson | app/graph_engine.py:142-153 | after the rename the export has `links` and no `edges`, the node records and one link record per edge |
| DiGraphs.ExportedLinks | app/graph_engine.py:147-153 | a link record is exported iff it is the type and weight of an edge of its pair |
| DiGraphs.EmptyExport | app/graph_engine.py:142-153 | the empty graph exports no nodes and no links |
| GraphStore.LoadsDumps | app/graph_engine.py:71-99 | decoding a dumped metadata map gives back the JSON object holding that map |
| GraphStore.HydrateRow | app/graph_engine.py:70-74 | one node row as written: a blob that does not decode gives no attributes, a decoded object gives its fields, and any other decoded value aborts hydration |
| GraphStore.NullRowAbortsHydration | app/graph_engine.py:70-74 | a row holding JSON `null` aborts hydration, while a row that does not decode gives no attributes |
| GraphStore.HydratedAttrs | app/graph_engine.py:70-74 | corrected hydration of a row: a decoded object gives its fields, every other blob gives no attributes, and it agrees with the code wherever the code succeeds |
| GraphStore.ApplyNodesRegisters | app/graph_engine.py:92-94 | after a batch every record's id is a node, edges are untouched, and other nodes keep their attributes |
| GraphStore.NodeRowIsLastWrite | app/graph_engine.py:97-100 | a node row holds the metadata of the last record with that id |
| GraphStore.NodeRowsUntouched | app/graph_engine.py:97-100 | rows of ids no record names are left as they were |
| GraphStore.ReAddMergesButReplacesRow | app/graph_engine.py:94-100 | re-adding a node merges attributes in memory but replaces the whole row |
| GraphStore.ApplyEdgesEndpoints | app/graph_engine.py:112-114 | after a batch the nodes are the old ones plus all endpoints, old attributes kept, and the pairs are the old ones plus the batch's pairs |
| GraphStore.MemoryEdgeIsLastForPair | app/graph_engine.py:114 | the in-memory edge of a pair carries the type and weight of the last record for that pair |
| GraphStore.EdgeRowIsLastWrite | app/graph_engine.py:117-120 | an edge row holds the weight of the last record with that (source, target, type) key |
| GraphStore.EdgeRowKeys | app/graph_engine.py:117-120 | the edge table gains exactly one row key per record key |
| GraphStore.TwoTypesOnePair | app/graph_engine.py:114-120 | two types between one pair: memory keeps the later edge, the table keeps both rows |
| GraphStore.ApplyNodesKeepsCoherent | app/graph_engine.py:84-102 | a batch of node writes keeps memory and tables coherent |
| GraphStore.ApplyEdgesKeepsCoherent | app/graph_engine.py:104-122 | a batch of edge writes keeps memory and tables coherent |
| GraphStore.ReloadKeepsNeighbors | app/graph_engine.py:58-82 | two graphs coherent with the same tables have equal node and edge counts and answer every neighbour query alike |
| GraphStore.HydratedIsCoherent | app/graph_engine.py:58-82 | hydrating both tables into the empty graph gives a graph coherent with them, each row's node carrying its decoded metadata |
| GraphStore.GraphEngine.constructor | app/graph_engine.py:20-30 | start-up over existing tables yields a valid engine in which every row's node carries `HydratedAttrs` of its blob |
| GraphStore.GraphEngine.LoadGraphFromDb | app/graph_engine.py:58-82 | hydration loads every node row, then every edge row, in any order |
| GraphStore.GraphEngine.LoadNodeRows | app/graph_engine.py:65-74 | each node row's `HydratedAttrs` are merged into its node |
| GraphStore.GraphEngine.LoadEdgeRows | app/graph_engine.py:76-80 | each edge row sets the in-memory edge of its pair |
| GraphStore.GraphEngine.AddNodes | app/graph_engine.py:84-102 | memory becomes the replayed batch, the node table gets the batch's rows, the edge table is unchanged, validity is kept |
| GraphStore.GraphEngine.AddEdges | app/graph_engine.py:104-122 | memory becomes the replayed batch, the edge table gets the batch's rows, the node table is unchanged, validity is kept |
| GraphStore.GraphEngine.GetNeighbors | app/graph_engine.py:124-140 | answers `Neighbors` of the in-memory graph, always a subset of its nodes |
| GraphStore.GraphEngine.GetSubgraphJson | app/graph_engine.py:142-153 | the export of the in-memory graph with the key `links` |
| GraphStore.BallInNodes | app/graph_engine.py:137-140 | the breadth-first ball of a node stays among the nodes of a well-formed graph |
| Hybrid.Min | app/hybrid_logic.py:64 | `min` is below both arguments and equal to one of them |
| Hybrid.VectorScoreLastWins | app/hybrid_logic.py:25-27 | an anchor id's vector part is `score * vector_weight` of its last occurrence |
| Hybrid.VectorScoresKeys | app/hybrid_logic.py:25-27 | exactly the anchor ids have a vector part |
| Hybrid.VectorPartBounds | app/hybrid_logic.py:25-27 | with similarities in [0, 1] and a non-negative weight, a vector part lies in [0, vw] |
| Hybrid.BoostsAreSums | app/hybrid_logic.py:33-50 | exactly the neighbours of anchors are boosted, each by the sum of 0.3 × score over the anchor occurrences it neighbours |
| Hybrid.AddBoostStep | app/hybrid_logic.py:45-50 | one more neighbour is one more `+=`, starting from 0 when absent |
| Hybrid.Reason | app/hybrid_logic.py:68-70 | the explanation names the vector part iff it is positive, the graph part iff it is positive, and the vector part first |
| Hybrid.GraphShareWithin | app/hybrid_logic.py:63-64 | a capped boost times the graph weight lies between 0 and the graph weight |
| Hybrid.CandidateIdsAreAnchorsAndNeighbours | app/hybrid_logic.py:56 | the candidates are exactly the anchors and the neighbours of anchors |
| Hybrid.CandidateScore | app/hybrid_logic.py:58-66 | a fused score is the last anchor's `score * vw` (0 for a pure neighbour) plus `min(boost sum, 1) * gw` |
| Hybrid.ScoreBounds | app/hybrid_logic.py:58-66 | with similarities in [0, 1] and non-negative weights, every fused score lies in [0, vw + gw] |
| Hybrid.NoGraphWeight | app/hybrid_logic.py:63-70 | with graph weight 0 a score is its vector part and the explanation names no graph part |
| Hybrid.Insert | app/hybrid_logic.py:79 | inserting into a descending list keeps it descending and adds exactly the one element |
| Hybrid.SortDesc | app/hybrid_logic.py:79 | `sorted(..., reverse=True)` gives a descending permutation of the candidates |
| Hybrid.PrefixOfSortedIsTop | app/hybrid_logic.py:79-81 | anything cut off scores no higher than every entry kept |
| Hybrid.CutKeepsBest | app/hybrid_logic.py:79-81 | the cut of a sorted, covering candidate list leaves out no higher-scoring candidate |
| Hybrid.CanonicalDistinctIds | app/hybrid_logic.py:72-79 | the ranked candidates never repeat an id |
| Hybrid.RankingOfCandidates | app/hybrid_logic.py:79-81 | sorting and cutting the built candidates satisfies `RankingOver` |
| Hybrid.VectorPass | app/hybrid_logic.py:25-27 | the first loop computes `VectorScores` |
| Hybrid.BoostNeighbours | app/hybrid_logic.py:40-50 | the inner loop adds the boost to each neighbour |
| Hybrid.BoostPass | app/hybrid_logic.py:33-50 | the second loop computes `Boosts` |
| Hybrid.BuildCandidate | app/hybrid_logic.py:59-76 | the third loop's body builds the candidate of its id |
| Hybrid.CandidatePass | app/hybrid_logic.py:55-76 | the third loop builds one candidate per id of either dictionary |
| Hybrid.Fuse | app/hybrid_logic.py:25-81 | the whole fusion over fetched anchors satisfies `IsRanking` |
| Hybrid.NoAnchorsNoResults | app/hybrid_logic.py:20-81 | no anchors give an empty answer |
| Hybrid.LargeTopKKeepsAll | app/hybrid_logic.py:79-81 | when `top_k` is at least the number of candidates, every candidate is in the answer |
| Hybrid.RankingLength | app/hybrid_logic.py:79-81 | with `top_k >= 0` the answer has `min(top_k, number of candidates)` entries |
| Hybrid.RankingLengthNegative | app/hybrid_logic.py:79-81 | with a negative `top_k` the answer drops the last `-top_k` candidates, or is empty when there are no more than that |
| Hybrid.NoGraphWeightKeepsNeighbours | app/hybrid_logic.py:55-66 | with graph weight 0 a neighbour of an anchor that is not itself an anchor is still a candidate, with score 0 and no explanation |
| Hybrid.ExampleNeighbours | app/graph_engine.py:131-135 | in the example graph with the one edge A→B, A and B are each other's only depth-1 neighbour |
| Hybrid.ExampleVectorScores | app/hybrid_logic.py:25-27 | with anchors A 0.9 and B 0.4 over A→B and both weights 0.5, the vector parts are A 0.45 and B 0.2 |
| Hybrid.HybridEngine.constructor | app/hybrid_logic.py:6-8 | the engine keeps the vector and graph collaborators it is given |
| Hybrid.HybridEngine.HybridSearch | app/hybrid_logic.py:10-81 | asks for `2 * top_k` anchors and returns a ranking of them under the store's depth-1 neighbours |
| Hybrid.ExampleBoosts | app/hybrid_logic.py:33-50 | with anchors A 0.9 and B 0.4 over A→B and both weights 0.5, B is boosted 0.27 and A 0.12 |
| Hybrid.ExampleCandidates | app/hybrid_logic.py:55-66 | with anchors A 0.9 and B 0.4 over A→B and both weights 0.5, the candidates are A (0.51) and B (0.335) |
| Hybrid.RankingOfTwo | app/hybrid_logic.py:79-81 | a ranking of two candidates with different scores lists the higher first |
| Hybrid.ExampleRanking | app/hybrid_logic.py:10-81 | anchors A 0.9 and B 0.4 over A→B, both weights 0.5, top 2: the answer is A (0.51) then B (0.335) |
| Hybrid.SoloAnchorDictionaries | app/hybrid_logic.py:25-56 | one anchor A 0.9 over A→B with vector weight 1: vector part A 0.9, boost B 0.27, candidates A and B |
| Hybrid.ExampleNoGraphWeight | app/hybrid_logic.py:10-81 | one anchor A 0.9 over A→B, vector weight 1, graph weight 0, top 5: the answer is A 0.9 then B 0.0 |
| PyText.LStrip | app/ingestion.py:74 | `lstrip` drops exactly the leading whitespace |
| PyText.RStrip | app/ingestion.py:74 | `rstrip` drops exactly the trailing whitespace |
| PyText.Strip | app/ingestion.py:74 | the stripped text neither starts nor ends with whitespace |
| PyText.StripInfix | app/ingestion.py:74 | `strip` gives the infix of the text that starts after its leading whitespace, with only whitespace before and after it |
| PyText.StripFrame | app/ingestion.py:74 | a text whose non-whitespace runs from i to j strips to exactly `s[i..j+1]` |
| PyText.Split | app/ingestion.py:123 | `split()` yields non-empty words without whitespace which, written one after the other, are exactly the non-whitespace characters of the text |
| PyText.SplitJoin | app/ingestion.py:123 | splitting the joined words gives the words back |
| PyText.CollapseWhitespaceShape | app/ingestion.py:123 | `" ".join(text.split())` has no whitespace at the ends and never two whitespace characters in a row |
| PyText.CollapseWhitespaceIdempotent | app/ingestion.py:123 | collapsing whitespace twice is collapsing it once |
| PyText.ContainsIff | app/ingestion.py:63 | `sub in s` iff `sub` occurs at some index |
| PyText.StripFramedIff | app/ingestion.py:74-75 | the stripped text starts with `open` and ends with `close` iff they are the first and last non-whitespace characters, at two positions |
| PyText.FindClose | app/ingestion.py:136-137 | the lazy `.*?` stops at the first closing character, and fails at a newline or the end |
| PyText.StripSpans | app/ingestion.py:136-137 | span removal only deletes characters: the result is a subsequence of the text |
| PyText.FindCloseAt | app/ingestion.py:136-137 | the lazy scan stops at the first closing character when no newline comes before it |
| PyText.StripSpansPlain | app/ingestion.py:136-137 | text before the first opening character is kept as it is |
| PyText.StripSpansDropsSpan | app/ingestion.py:136-137 | a leading span without a newline or an inner closing character is deleted whole |
| PyText.StripSpansNoSpan | app/ingestion.py:136-137 | after the removal no span of that kind is left |
| PyText.StripSpansKeepsNoSpan | app/ingestion.py:136-137 | removing `[...]` spans brings back no `(...)` span |
| PyText.NoSpanFixpoint | app/ingestion.py:136-137 | a text without spans is unchanged by the removal |
| PyText.StripSpansIdempotent | app/ingestion.py:136-137 | span removal is idempotent |
| PyText.StripKeepsNoSpan | app/ingestion.py:138 | stripping brings back no span |
| Ingestion.HtmlAppliesIff | app/ingestion.py:62-63 | the HTML test holds iff `<` and `>` occur and `<html` or `<div` occurs in the lower-cased text |
| Ingestion.HtmlAppliesIgnoresCase | app/ingestion.py:62-63 | the HTML test classifies a text and its lower-cased form alike |
| Ingestion.JsonAppliesIff | app/ingestion.py:73-75 | the JSON test holds iff the first and last non-whitespace characters are a brace pair or a square-bracket pair |
| Ingestion.FirstApplicable | app/ingestion.py:51-56 | `find` picks the first handler whose `applies` holds; earlier ones failed or raised; none iff no handler applies |
| Ingestion.FirstApplicableCons | app/ingestion.py:52-55 | the head handler is tried first, then the rest |
| Ingestion.RegisterLast | app/ingestion.py:49-56 | registering one more handler never changes a choice already made, and the newcomer is tried last |
| Ingestion.HandlerRegistry.constructor | app/ingestion.py:47-48 | a new registry has no handlers |
| Ingestion.HandlerRegistry.Register | app/ingestion.py:49-50 | `register` appends the handler |
| Ingestion.HandlerRegistry.Find | app/ingestion.py:51-56 | `find` returns the handler `FirstApplicable` picks, or none |
| Ingestion.PipelineDispatch | app/ingestion.py:104-114 | the pipeline tries HTML, then JSON, then Unstructured when available |
| Ingestion.CleanTextShape | app/ingestion.py:117-124 | the cleaned text has no whitespace at its ends and none adjacent, and collapsing it again changes nothing |
| Ingestion.CleanNodeId | app/ingestion.py:134-138 | a cleaned id has no whitespace at its ends and no `(...)` or `[...]` span left |
| Ingestion.CleanNodeIdIdempotent | app/ingestion.py:134-138 | cleaning an already clean id changes nothing |
| Ingestion.CleanNodeIdOfSpanFree | app/ingestion.py:134-138 | an id without `(...)` or `[...]` spans is only stripped |
| Ingestion.CleanNodeIdDropsRemark | app/ingestion.py:134-138 | an id followed by a parenthesised remark cleans to the stripped id |
| Ingestion.StripArticle | app/ingestion.py:197-198 | the result is a suffix; without a leading article the text is unchanged; whichever article opens the text, that article and the whitespace run after it are removed |
| Ingestion.ArticlesExclusive | app/ingestion.py:197-198 | no text opens with two of `the`, `a` and `an` followed by whitespace, so the order of the alternatives does not matter |
| Ingestion.KeepsArticleLikeWord | app/ingestion.py:197-198 | "Theory" is kept whole: an article must be followed by whitespace |
| Ingestion.Expand | app/ingestion.py:156-161 | the expansion starts with the token, and everything after it is a `conj` token |
| Ingestion.ExpandIsConjClosure | app/ingestion.py:156-161 | the expansion holds exactly the tokens reached from the token along `conj` links |
| Ingestion.ExpandNounPhrase | app/ingestion.py:156-161 | the recursive loop computes `Expand` |
| Ingestion.SubjectsFromIff | app/ingestion.py:169-171 | a token is a subject iff it is reached along `conj` links from a subject child |
| Ingestion.CollectSubjects | app/ingestion.py:165-175 | the subject loop and the clause fallback compute `Subjects` |
| Ingestion.PobjsFromIff | app/ingestion.py:181-188 | a token is a prepositional object iff it is reached along `conj` links from a `pobj` grandchild |
| Ingestion.CollectPobjs | app/ingestion.py:182-184 | the grandchild loop computes `PobjsFrom` |
| Ingestion.CollectObjects | app/ingestion.py:178-188 | the object loop computes `ObjectsFrom` |
| Ingestion.CrossIsProduct | app/ingestion.py:191-192 | the candidate relations are exactly the subject-object combinations |
| Ingestion.RowIsProduct | app/ingestion.py:192 | one subject's relations are exactly its pairs with every object |
| Ingestion.Register | app/ingestion.py:148-153 | registering keeps the first node under an id, adds only that id, changes no edge, and keeps the table well formed |
| Ingestion.EntityNodeOf | app/ingestion.py:141-153 | an entity yields a node iff its label is not numeric or temporal and its cleaned text has at least 2 characters; the node is keyed by the cleaned text and labelled with the entity label |
| Ingestion.EdgeOf | app/ingestion.py:193-220 | a relation yields an edge iff it is kept; the edge joins the cleaned, article-free subject to the cleaned, article-free object, with weight 1.0, the verb's lemma as type, ends of at least 2 characters and no stop concept |
| Ingestion.EdgesOfIff | app/ingestion.py:191-220 | an edge is added iff some relation yields it |
| Ingestion.ConnectKeeps | app/ingestion.py:209-220 | connecting an edge appends it, keeps existing nodes, registers both ends, new ends as concept nodes |
| Ingestion.ApplyEntitiesKeeps | app/ingestion.py:141-153 | the entity loop adds no edge, keeps earlier nodes and keeps the table well formed |
| Ingestion.ApplyEntitiesRegisters | app/ingestion.py:141-153 | the entity loop registers an id iff some kept entity cleans to it |
| Ingestion.ApplyEntitiesFirstWins | app/ingestion.py:148-153 | the node under an id is built from the first entity that cleans to it |
| Ingestion.RegisterEntities | app/ingestion.py:141-153 | the entity loop computes `ApplyEntities` |
| Ingestion.AddEdgesKeeps | app/ingestion.py:191-220 | the relation loop appends exactly the given edges, keeps earlier nodes, adds only concept nodes and keeps the table well formed |
| Ingestion.AddEdgesEndpoints | app/ingestion.py:209-220 | both ends of every added edge are registered nodes |
| Ingestion.AddEdgesAppend | app/ingestion.py:163-220 | connecting two runs of edges in turn is connecting their concatenation |
| Ingestion.LinkRow | app/ingestion.py:192-220 | the inner loop connects the edges of one subject's row |
| Ingestion.LinkPairs | app/ingestion.py:191-220 | the pair loops connect the edges of all subject-object pairs |
| Ingestion.LinkVerbs | app/ingestion.py:163-220 | the token loop connects the edges of every verb's relations |
| Ingestion.ExtractedFacts | app/ingestion.py:126-222 | the result is well formed, its edges are the kept relations' edges with registered ends, and each node is a concept node or named by an entity |
| Ingestion.NodeList | app/ingestion.py:222 | `list(nodes.values())` holds exactly the registered nodes, no id twice |
| Ingestion.IngestionPipeline.constructor | app/ingestion.py:95-108 | the registry holds HTML, JSON and, when available, Unstructured, in that order |
| Ingestion.IngestionPipeline.Preprocess | app/ingestion.py:110-124 | the first applicable handler's output, repaired, without `[...]` spans, whitespace collapsed; no whitespace at the ends or adjacent |
| Ingestion.IngestionPipeline.ExtractStructuredData | app/ingestion.py:126-222 | the nodes and edges of `Extracted` of the parsed, preprocessed text, from a well-formed table |

## Left out

- `app/vector_engine.py`, `app/main.py`, `app/core.py` and the frontend are not part of this model. The vector search enters `HybridEngine` as a function parameter.
- SQLite and NetworkX internals: tables are maps, the graph is a map of node attributes and a map of ordered pairs. `commit`, table creation and connection handling are left out, and a write is never modelled as failing.
- `json.dumps`/`json.loads`: metadata blobs are a datatype holding either the map or text that does not decode.
- spaCy, `fix_text`, trafilatura, `partition` and the JSON re-formatting in the handlers' `process` are parameters. The regex fallback `re.sub(r'<[^>]+>', '', text)` inside `HTMLHandler.process` is library-side processing and is not modelled.
- The model loads the spaCy model once, instead of the download retry.
- Hybrid.Reason: the explanation is a list of parts with their amounts. The `.2f` formatting and the `" + "` join into one string are not modelled.
- Floating point: scores and weights are exact reals, not IEEE doubles.
- `str.lower` and `re.IGNORECASE` are modelled on ASCII letters only. The probes they are compared with (`<html`, `<div`, the articles, the stop concepts) are all ASCII.
- GraphStore.GraphEngine.LoadGraphFromDb: the order in which the tables yield rows is unspecified. The contract therefore does not say which type wins when two rows share a pair.
- Logging, the print at start-up and concurrency are left out.
- GraphStore.HydratedAttrs: a node row that decodes to JSON other than an object hydrates with no attributes. The code raises there and start-up fails (see Findings). `GraphStore.HydrateRow` models that case as written.
- DiGraphs.NodeRecordsOf and DiGraphs.LinkRecordsOf: the exported node and link records are sets, so the list order of `node_link_data` is not modelled.
- DiGraphs.NodeRecordsOf: a node record keeps the id and the attribute map apart. `node_link_data` writes one flat dictionary `{**attrs, "id": n}`, in which an attribute named `id` is overridden by the node id; that override is not modelled.

## Findings

| source | as written | input that shows it | evidently intended | confidence | as-written member | corrected member |
|---|---|---|---|---|---|---|
| app/graph_engine.py:70-74 | `add_node(n_id, **meta_dict)` sits outside the `try`, which guards only `json.loads` | a node row whose metadata is the text `null` (or a list or a number): `**None` raises `TypeError` and start-up fails | a row whose metadata is not a JSON object hydrates with no attributes, like a row that does not decode | not executed | GraphStore.NullRowAbortsHydration | GraphStore.HydratedAttrs |
