/**
 * The record types shared by the graph store, the ranking algorithm and
 * the ingestion rules (app/models.py).  Defaults of the source's record
 * fields are written as default values of the constructor parameters.
 */
module Models {

  type NodeId = string

  /** A JSON value: what a metadata entry may hold once it went through JSON. */
  datatype Value =
    | Null
    | Bool(b: bool)
    | Num(n: real)
    | Str(s: string)
    | Arr(items: seq<Value>)
    | Obj(fields: map<string, Value>)

  /** Open-ended metadata mapping (Dict[str, Any]). */
  type Metadata = map<string, Value>

  /** A node to add: `metadata` defaults to the empty mapping. */
  datatype NodeCreate = NodeCreate(id: NodeId, text: string, metadata: Metadata := map[])

  /** An edge to add: source, target and relation type are mandatory, the weight defaults to 1.0. */
  datatype EdgeCreate = EdgeCreate(source: NodeId, target: NodeId, relType: string, weight: real := 1.0)

  /** A search request with its defaults. */
  datatype SearchQuery = SearchQuery(
    queryText: string,
    topK: int := 5,
    vectorWeight: real := 0.5,
    graphWeight: real := 0.5)

  /** One search answer; `metadata` defaults to the empty mapping. */
  datatype SearchResultItem = SearchResultItem(
    id: NodeId,
    text: string,
    score: real,
    reason: string,
    metadata: Metadata := map[])

  lemma NodeCreateDefaults(id: NodeId, text: string)
    ensures NodeCreate(id, text).metadata == map[]
    ensures NodeCreate(id, text).id == id && NodeCreate(id, text).text == text
  {
  }

  lemma EdgeCreateDefaults(source: NodeId, target: NodeId, relType: string)
    ensures EdgeCreate(source, target, relType).weight == 1.0
  {
  }

  lemma SearchQueryDefaults(q: string)
    ensures SearchQuery(q).topK == 5
    ensures SearchQuery(q).vectorWeight == 0.5 && SearchQuery(q).graphWeight == 0.5
  {
  }

  lemma SearchResultItemDefaults(id: NodeId, text: string, score: real, reason: string)
    ensures SearchResultItem(id, text, score, reason).metadata == map[]
  {
  }
}
