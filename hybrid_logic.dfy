/**
 * `HybridEngine.hybrid_search` (app/hybrid_logic.py): fuse a similarity
 * ranking with a graph-neighbourhood boost.  The anchors come from the
 * vector collaborator, the neighbours from the graph store; every id that
 * is an anchor or a neighbour of one becomes a candidate scored
 * `vector part + min(boost, 1) * graph_weight`, and the candidates are
 * ranked by score, highest first, and cut to `top_k`.
 */
module Hybrid {

  import opened Models
  import opened DiGraphs
  import opened GraphStore

  /** One vector search hit: an id and its similarity. */
  datatype Anchor = Anchor(id: NodeId, score: real)

  /** One part of a candidate's explanation, with the amount it contributed. */
  datatype ReasonPart = VectorPart(v: real) | GraphPart(g: real)

  /** A ranked candidate: its id, its fused score and which parts made it up. */
  datatype Candidate = Candidate(id: NodeId, score: real, reason: seq<ReasonPart>)

  /** The share of an anchor's similarity each of its neighbours receives. */
  const BoostFactor: real := 0.3

  /** The cap on a candidate's accumulated boost. */
  const BoostCap: real := 1.0

  /** Python's `min(a, b)`: `a` unless `b` is strictly smaller. */
  function Min(a: real, b: real): (r: real)
    ensures r <= a && r <= b && (r == a || r == b)
  {
    if b < a then b else a
  }

  /** `m.get(k, 0.0)`. */
  function Get(m: map<NodeId, real>, k: NodeId): real {
    if k in m then m[k] else 0.0
  }

  // ---------------------------------------------------------------------
  // Step 1: vector parts

  /** An anchor's vector part, `score * vector_weight`. */
  function Weighted(a: Anchor, vw: real): real {
    a.score * vw
  }

  /** The `scores` dictionary after the first loop: each anchor id maps to `score * vw`, later anchors overwriting earlier ones. */
  function VectorScores(rs: seq<Anchor>, vw: real): map<NodeId, real>
    decreases |rs|
  {
    if rs == [] then map[]
    else VectorScores(rs[..|rs| - 1], vw)[rs[|rs| - 1].id := Weighted(rs[|rs| - 1], vw)]
  }

  /** The vector part of an id is that of its last occurrence among the anchors. */
  lemma {:induction false} VectorScoreLastWins(rs: seq<Anchor>, vw: real, i: nat)
    requires i < |rs|
    requires forall j :: i < j < |rs| ==> rs[j].id != rs[i].id
    ensures rs[i].id in VectorScores(rs, vw)
    ensures VectorScores(rs, vw)[rs[i].id] == Weighted(rs[i], vw)
    decreases |rs|
  {
    if i < |rs| - 1 {
      VectorScoreLastWins(rs[..|rs| - 1], vw, i);
    }
  }

  lemma VectorScoresSnoc(rs: seq<Anchor>, vw: real, i: nat)
    requires i < |rs|
    ensures VectorScores(rs[..i + 1], vw) == VectorScores(rs[..i], vw)[rs[i].id := Weighted(rs[i], vw)]
  {
    assert rs[..i + 1][..i] == rs[..i];
  }

  /** Exactly the anchor ids have a vector part. */
  lemma {:induction false} VectorScoresKeys(rs: seq<Anchor>, vw: real, x: NodeId)
    ensures x in VectorScores(rs, vw) <==> exists i :: 0 <= i < |rs| && rs[i].id == x
    decreases |rs|
  {
    if rs != [] {
      var init := rs[..|rs| - 1];
      VectorScoresKeys(init, vw, x);
      if x in VectorScores(init, vw) {
        var i :| 0 <= i < |init| && init[i].id == x;
        assert rs[i].id == x;
      }
      if exists i :: 0 <= i < |rs| && rs[i].id == x {
        var i :| 0 <= i < |rs| && rs[i].id == x;
        if i < |init| {
          assert init[i].id == x;
        }
      }
    }
  }

  // ---------------------------------------------------------------------
  // Step 2: graph boosts

  /** `m` after `m[n] += b` (or `m[n] = b` when absent) for every `n` of `ns`. */
  function AddBoost(m: map<NodeId, real>, ns: set<NodeId>, b: real): map<NodeId, real> {
    map x | x in m.Keys + ns :: Get(m, x) + (if x in ns then b else 0.0)
  }

  /** The `graph_boosts` dictionary after the second loop. */
  function Boosts(rs: seq<Anchor>, nbrs: NodeId -> set<NodeId>): map<NodeId, real>
    decreases |rs|
  {
    if rs == [] then map[]
    else AddBoost(Boosts(rs[..|rs| - 1], nbrs), nbrs(rs[|rs| - 1].id), BoostFactor * rs[|rs| - 1].score)
  }

  /** Reference definition: the sum over anchor occurrences that list `x` as a neighbour of `0.3 * score`. */
  function BoostSum(rs: seq<Anchor>, nbrs: NodeId -> set<NodeId>, x: NodeId): real
    decreases |rs|
  {
    if rs == [] then 0.0
    else BoostSum(rs[..|rs| - 1], nbrs, x) + (if x in nbrs(rs[|rs| - 1].id) then BoostFactor * rs[|rs| - 1].score else 0.0)
  }

  /**
   * The accumulated boost of an id is the sum of the contributions of every
   * anchor occurrence it neighbours, and exactly the neighbours of anchors
   * are boosted.
   */
  lemma {:induction false} BoostsAreSums(rs: seq<Anchor>, nbrs: NodeId -> set<NodeId>, x: NodeId)
    ensures x in Boosts(rs, nbrs) <==> exists i :: 0 <= i < |rs| && x in nbrs(rs[i].id)
    ensures Get(Boosts(rs, nbrs), x) == BoostSum(rs, nbrs, x)
    decreases |rs|
  {
    if rs != [] {
      var init := rs[..|rs| - 1];
      BoostsAreSums(init, nbrs, x);
      if x in Boosts(init, nbrs) {
        var i :| 0 <= i < |init| && x in nbrs(init[i].id);
        assert rs[i] == init[i];
      }
      if exists i :: 0 <= i < |rs| && x in nbrs(rs[i].id) {
        var i :| 0 <= i < |rs| && x in nbrs(rs[i].id);
        if i < |init| {
          assert init[i] == rs[i];
        }
      }
    }
  }

  lemma BoostsSnoc(rs: seq<Anchor>, nbrs: NodeId -> set<NodeId>, i: nat)
    requires i < |rs|
    ensures Boosts(rs[..i + 1], nbrs) == AddBoost(Boosts(rs[..i], nbrs), nbrs(rs[i].id), BoostFactor * rs[i].score)
  {
    assert rs[..i + 1][..i] == rs[..i];
  }

  /** One more neighbour boosted is one more `+=` (or first assignment). */
  lemma AddBoostStep(m: map<NodeId, real>, done: set<NodeId>, n: NodeId, b: real)
    requires n !in done
    ensures AddBoost(m, done + {n}, b) == AddBoost(m, done, b)[n := Get(AddBoost(m, done, b), n) + b]
  {
    var l := AddBoost(m, done + {n}, b);
    var r := AddBoost(m, done, b)[n := Get(AddBoost(m, done, b), n) + b];
    assert l.Keys == r.Keys;
    forall x | x in l.Keys
      ensures l[x] == r[x]
    {
    }
  }

  lemma AddBoostNothing(m: map<NodeId, real>, b: real)
    ensures AddBoost(m, {}, b) == m
  {
  }

  // ---------------------------------------------------------------------
  // Step 3: candidates

  /** The explanation: the vector part iff positive, then the graph part iff positive. */
  function Reason(v: real, g: real): (parts: seq<ReasonPart>)
    ensures VectorPart(v) in parts <==> v > 0.0
    ensures GraphPart(g) in parts <==> g > 0.0
    ensures |parts| <= 2 && (forall i :: 0 <= i < |parts| ==> parts[i] == VectorPart(v) || parts[i] == GraphPart(g))
    ensures |parts| == 2 ==> parts == [VectorPart(v), GraphPart(g)]
  {
    (if v > 0.0 then [VectorPart(v)] else []) + (if g > 0.0 then [GraphPart(g)] else [])
  }

  /** A candidate's graph part: its boost capped at 1, times the graph weight. */
  function GraphShare(boost: real, gw: real): real {
    Min(boost, BoostCap) * gw
  }

  /** A non-negative boost gives a graph part between nothing and the whole graph weight. */
  lemma GraphShareWithin(boost: real, gw: real)
    requires boost >= 0.0 && gw >= 0.0
    ensures 0.0 <= GraphShare(boost, gw) <= gw
  {
    var x := Min(boost, BoostCap);
    ScaleWithin(x, gw);
    assert GraphShare(boost, gw) == x * gw;
  }

  /** The candidate an id becomes, given the two dictionaries. */
  function CandidateFor(scores: map<NodeId, real>, boosts: map<NodeId, real>, gw: real, id: NodeId): (c: Candidate)
    ensures c.id == id
  {
    var v := Get(scores, id);
    var g := GraphShare(Get(boosts, id), gw);
    Candidate(id, v + g, Reason(v, g))
  }

  /** The candidate ids: every anchor id and every boosted neighbour. */
  function CandidateIds(rs: seq<Anchor>, nbrs: NodeId -> set<NodeId>, vw: real): set<NodeId> {
    VectorScores(rs, vw).Keys + Boosts(rs, nbrs).Keys
  }

  /** The candidate an id becomes in a search over `rs`. */
  function CandidateOf(rs: seq<Anchor>, nbrs: NodeId -> set<NodeId>, vw: real, gw: real, id: NodeId): Candidate {
    CandidateFor(VectorScores(rs, vw), Boosts(rs, nbrs), gw, id)
  }

  /** Candidates are exactly the anchors and the neighbours of anchors. */
  lemma CandidateIdsAreAnchorsAndNeighbours(rs: seq<Anchor>, nbrs: NodeId -> set<NodeId>, vw: real, x: NodeId)
    ensures x in CandidateIds(rs, nbrs, vw) <==>
      exists i :: 0 <= i < |rs| && (rs[i].id == x || x in nbrs(rs[i].id))
  {
    VectorScoresKeys(rs, vw, x);
    BoostsAreSums(rs, nbrs, x);
  }

  /**
   * The fused score: the last anchor's `score * vw` (or 0 for a pure
   * neighbour) plus the boost sum, capped at 1, times `gw`.
   */
  lemma CandidateScore(rs: seq<Anchor>, nbrs: NodeId -> set<NodeId>, vw: real, gw: real, id: NodeId)
    ensures CandidateOf(rs, nbrs, vw, gw, id).score
      == Get(VectorScores(rs, vw), id) + GraphShare(BoostSum(rs, nbrs, id), gw)
  {
    BoostsAreSums(rs, nbrs, id);
  }

  /** With similarities in [0, 1] and non-negative weights, a fused score lies in [0, vw + gw]. */
  lemma {:induction false} ScoreBounds(rs: seq<Anchor>, nbrs: NodeId -> set<NodeId>, vw: real, gw: real, id: NodeId)
    requires forall i :: 0 <= i < |rs| ==> 0.0 <= rs[i].score <= 1.0
    requires vw >= 0.0 && gw >= 0.0
    ensures 0.0 <= CandidateOf(rs, nbrs, vw, gw, id).score <= vw + gw
  {
    VectorPartBounds(rs, vw, id);
    BoostSumNonNegative(rs, nbrs, id);
    BoostsAreSums(rs, nbrs, id);
    GraphShareWithin(Get(Boosts(rs, nbrs), id), gw);
  }

  /** A share of a non-negative amount is between nothing and all of it. */
  lemma ScaleWithin(a: real, c: real)
    requires 0.0 <= a <= 1.0 && c >= 0.0
    ensures 0.0 <= a * c <= c
  {
    assert c - a * c == (1.0 - a) * c;
  }

  lemma WeightedWithin(a: Anchor, vw: real)
    requires 0.0 <= a.score <= 1.0 && vw >= 0.0
    ensures 0.0 <= Weighted(a, vw) <= vw
  {
    var x := a.score;
    ScaleWithin(x, vw);
    assert Weighted(a, vw) == x * vw;
  }

  lemma {:induction false} VectorPartBounds(rs: seq<Anchor>, vw: real, id: NodeId)
    requires forall i :: 0 <= i < |rs| ==> 0.0 <= rs[i].score <= 1.0
    requires vw >= 0.0
    ensures 0.0 <= Get(VectorScores(rs, vw), id) <= vw
    decreases |rs|
  {
    if rs != [] {
      var last := rs[|rs| - 1];
      VectorPartBounds(rs[..|rs| - 1], vw, id);
      WeightedWithin(last, vw);
    }
  }

  lemma {:induction false} BoostSumNonNegative(rs: seq<Anchor>, nbrs: NodeId -> set<NodeId>, id: NodeId)
    requires forall i :: 0 <= i < |rs| ==> 0.0 <= rs[i].score
    ensures BoostSum(rs, nbrs, id) >= 0.0
    decreases |rs|
  {
    if rs != [] {
      BoostSumNonNegative(rs[..|rs| - 1], nbrs, id);
    }
  }

  /** With graph weight 0 a candidate's score is its vector part and it names no graph part. */
  lemma NoGraphWeight(rs: seq<Anchor>, nbrs: NodeId -> set<NodeId>, vw: real, id: NodeId)
    ensures CandidateOf(rs, nbrs, vw, 0.0, id).score == Get(VectorScores(rs, vw), id)
    ensures forall p :: p in CandidateOf(rs, nbrs, vw, 0.0, id).reason ==> p.VectorPart?
  {
  }

  // ---------------------------------------------------------------------
  // Step 4: ranking

  predicate SortedDesc(s: seq<Candidate>) {
    forall i, j :: 0 <= i < j < |s| ==> s[i].score >= s[j].score
  }

  /** A head no lower than anything after it extends a descending list. */
  lemma ConsSorted(h: Candidate, t: seq<Candidate>)
    requires SortedDesc(t)
    requires forall x :: x in t ==> x.score <= h.score
    ensures SortedDesc([h] + t)
  {
    var r := [h] + t;
    forall i, j | 0 <= i < j < |r|
      ensures r[i].score >= r[j].score
    {
      assert r[j] == t[j - 1];
      if i > 0 {
        assert r[i] == t[i - 1];
      }
    }
  }

  /** Insert `c` in front of the first strictly lower score. */
  function Insert(c: Candidate, s: seq<Candidate>): (r: seq<Candidate>)
    requires SortedDesc(s)
    ensures |r| == |s| + 1
    ensures forall x :: x in r <==> x in s || x == c
    ensures SortedDesc(r)
    ensures multiset(r) == multiset(s) + multiset{c}
    decreases |s|
  {
    if s == [] || c.score >= s[0].score then
      ConsSorted(c, s);
      [c] + s
    else
      assert s == [s[0]] + s[1..];
      var rest := Insert(c, s[1..]);
      ConsSorted(s[0], rest);
      [s[0]] + rest
  }

  /** `sorted(cs, key=score, reverse=True)`: the same candidates, highest score first. */
  function SortDesc(s: seq<Candidate>): (r: seq<Candidate>)
    ensures |r| == |s|
    ensures forall x :: x in r <==> x in s
    ensures SortedDesc(r)
    ensures multiset(r) == multiset(s)
    decreases |s|
  {
    if s == [] then []
    else
      assert s == [s[0]] + s[1..];
      Insert(s[0], SortDesc(s[1..]))
  }

  /** The length of Python's `s[:k]` for a list of length `n` (a negative `k` drops the last `-k`). */
  function SliceLen(n: nat, k: int): (r: nat)
    ensures r <= n
  {
    if k >= 0 then (if k < n then k else n)
    else if n + k > 0 then n + k else 0
  }

  /** Each entry is the candidate of its own id, and that id is among `ids`. */
  ghost predicate Canonical(cs: seq<Candidate>, ids: set<NodeId>, scores: map<NodeId, real>, boosts: map<NodeId, real>, gw: real) {
    forall i :: 0 <= i < |cs| ==> cs[i].id in ids && cs[i] == CandidateFor(scores, boosts, gw, cs[i].id)
  }

  /** Every id of `ids` has its candidate somewhere in `cs`. */
  ghost predicate Covers(cs: seq<Candidate>, ids: set<NodeId>, scores: map<NodeId, real>, boosts: map<NodeId, real>, gw: real) {
    forall id :: id in ids ==> CandidateFor(scores, boosts, gw, id) in cs
  }

  predicate Distinct(cs: seq<Candidate>) {
    forall i, j :: 0 <= i < j < |cs| ==> cs[i] != cs[j]
  }

  predicate DistinctIds(cs: seq<Candidate>) {
    forall i, j :: 0 <= i < j < |cs| ==> cs[i].id != cs[j].id
  }

  /** No id of `ids` left out of `r` has a candidate scoring higher than an entry of `r`. */
  ghost predicate KeepsBest(r: seq<Candidate>, ids: set<NodeId>, scores: map<NodeId, real>, boosts: map<NodeId, real>, gw: real) {
    forall id :: id in ids && (forall i :: 0 <= i < |r| ==> r[i].id != id) ==>
      forall i :: 0 <= i < |r| ==> CandidateFor(scores, boosts, gw, id).score <= r[i].score
  }

  /**
   * What sorting and cutting the candidates promises, over the two
   * dictionaries: as many entries as Python's `[:top_k]` leaves of the
   * candidate ids, highest score first, each the candidate of its own id,
   * no id twice, and no candidate left out that scores higher than an
   * entry kept.
   */
  ghost predicate RankingOver(r: seq<Candidate>, ids: set<NodeId>, scores: map<NodeId, real>, boosts: map<NodeId, real>, gw: real, topK: int) {
    && |r| == SliceLen(|ids|, topK)
    && SortedDesc(r)
    && Canonical(r, ids, scores, boosts, gw)
    && DistinctIds(r)
    && KeepsBest(r, ids, scores, boosts, gw)
  }

  /** What `hybrid_search` promises about its answer `r` for anchors `rs`. */
  ghost predicate IsRanking(r: seq<Candidate>, rs: seq<Anchor>, nbrs: NodeId -> set<NodeId>, vw: real, gw: real, topK: int) {
    RankingOver(r, CandidateIds(rs, nbrs, vw), VectorScores(rs, vw), Boosts(rs, nbrs), gw, topK)
  }

  /** A sequence without repeated elements has every element once in its multiset. */
  lemma {:induction false} DistinctCountsOne(s: seq<Candidate>, x: Candidate)
    requires Distinct(s)
    ensures multiset(s)[x] <= 1
    decreases |s|
  {
    if s != [] {
      assert s == [s[0]] + s[1..];
      DistinctCountsOne(s[1..], x);
      if x == s[0] {
        assert x !in s[1..];
      }
    }
  }

  /** An element at two positions occurs at least twice. */
  lemma TwiceCountsTwo(s: seq<Candidate>, i: nat, j: nat)
    requires i < j < |s| && s[i] == s[j]
    ensures multiset(s)[s[i]] >= 2
  {
    assert s == s[..j] + [s[j]] + s[j + 1..];
    assert s[i] in s[..j];
  }

  /** Reordering keeps a sequence free of repetitions. */
  lemma PermutationKeepsDistinct(a: seq<Candidate>, b: seq<Candidate>)
    requires multiset(a) == multiset(b)
    requires Distinct(a)
    ensures Distinct(b)
  {
    forall i, j | 0 <= i < j < |b|
      ensures b[i] != b[j]
    {
      if b[i] == b[j] {
        TwiceCountsTwo(b, i, j);
        DistinctCountsOne(a, b[i]);
        assert false;
      }
    }
  }

  lemma PrefixSorted(s: seq<Candidate>, k: nat)
    requires SortedDesc(s) && k <= |s|
    ensures SortedDesc(s[..k])
  {
  }

  lemma PrefixDistinct(s: seq<Candidate>, k: nat)
    requires Distinct(s) && k <= |s|
    ensures Distinct(s[..k])
  {
  }

  /** A cut of a reordering of canonical candidates is canonical. */
  lemma CutCanonical(cands: seq<Candidate>, sorted: seq<Candidate>, k: nat, ids: set<NodeId>, scores: map<NodeId, real>, boosts: map<NodeId, real>, gw: real)
    requires Canonical(cands, ids, scores, boosts, gw)
    requires forall x :: x in sorted ==> x in cands
    requires k <= |sorted|
    ensures Canonical(sorted[..k], ids, scores, boosts, gw)
  {
    forall i | 0 <= i < k
      ensures sorted[..k][i].id in ids && sorted[..k][i] == CandidateFor(scores, boosts, gw, sorted[..k][i].id)
    {
      assert sorted[..k][i] == sorted[i];
      assert sorted[i] in sorted;
    }
  }

  /** Canonical candidates that differ have different ids. */
  lemma CanonicalDistinctIds(r: seq<Candidate>, ids: set<NodeId>, scores: map<NodeId, real>, boosts: map<NodeId, real>, gw: real)
    requires Canonical(r, ids, scores, boosts, gw) && Distinct(r)
    ensures DistinctIds(r)
  {
    forall i, j | 0 <= i < j < |r|
      ensures r[i].id != r[j].id
    {
      assert r[i] == CandidateFor(scores, boosts, gw, r[i].id);
      assert r[j] == CandidateFor(scores, boosts, gw, r[j].id);
    }
  }

  /**
   * Cutting a descending list keeps the best: anything of the full list not
   * among the first `k` scores no higher than any of them.
   */
  lemma PrefixOfSortedIsTop(sorted: seq<Candidate>, k: nat, c: Candidate)
    requires SortedDesc(sorted) && k <= |sorted|
    requires c in sorted && c !in sorted[..k]
    ensures forall i :: 0 <= i < k ==> c.score <= sorted[i].score
  {
    var j :| 0 <= j < |sorted| && sorted[j] == c;
    assert forall m :: 0 <= m < k ==> sorted[..k][m] == sorted[m];
  }

  /** The cut of a descending reordering of covering candidates keeps the best. */
  lemma CutKeepsBest(cands: seq<Candidate>, sorted: seq<Candidate>, k: nat, ids: set<NodeId>, scores: map<NodeId, real>, boosts: map<NodeId, real>, gw: real)
    requires Covers(cands, ids, scores, boosts, gw)
    requires forall x :: x in cands ==> x in sorted
    requires SortedDesc(sorted) && k <= |sorted|
    ensures KeepsBest(sorted[..k], ids, scores, boosts, gw)
  {
    var r := sorted[..k];
    forall id | id in ids && (forall i :: 0 <= i < |r| ==> r[i].id != id)
      ensures forall i :: 0 <= i < |r| ==> CandidateFor(scores, boosts, gw, id).score <= r[i].score
    {
      var c := CandidateFor(scores, boosts, gw, id);
      assert c in sorted;
      assert c !in r;
      PrefixOfSortedIsTop(sorted, k, c);
    }
  }

  /** The candidates built by the third loop, for the ids in `done`. */
  ghost predicate CandidatesBuilt(cands: seq<Candidate>, done: set<NodeId>, scores: map<NodeId, real>, boosts: map<NodeId, real>, gw: real) {
    && |cands| == |done|
    && Canonical(cands, done, scores, boosts, gw)
    && Covers(cands, done, scores, boosts, gw)
    && Distinct(cands)
  }

  lemma CandidatesBuiltStep(cands: seq<Candidate>, done: set<NodeId>, scores: map<NodeId, real>, boosts: map<NodeId, real>, gw: real, id: NodeId)
    requires CandidatesBuilt(cands, done, scores, boosts, gw) && id !in done
    ensures CandidatesBuilt(cands + [CandidateFor(scores, boosts, gw, id)], done + {id}, scores, boosts, gw)
  {
    var c := CandidateFor(scores, boosts, gw, id);
    var cs := cands + [c];
    assert forall i :: 0 <= i < |cands| ==> cs[i] == cands[i];
    assert c !in cands;
  }

  /** Sorting and cutting the built candidates gives a ranking. */
  lemma RankingOfCandidates(cands: seq<Candidate>, ids: set<NodeId>, scores: map<NodeId, real>, boosts: map<NodeId, real>, gw: real, topK: int)
    requires CandidatesBuilt(cands, ids, scores, boosts, gw)
    ensures RankingOver(SortDesc(cands)[..SliceLen(|cands|, topK)], ids, scores, boosts, gw, topK)
  {
    var sorted := SortDesc(cands);
    var k := SliceLen(|cands|, topK);
    PermutationKeepsDistinct(cands, sorted);
    PrefixSorted(sorted, k);
    PrefixDistinct(sorted, k);
    CutCanonical(cands, sorted, k, ids, scores, boosts, gw);
    CanonicalDistinctIds(sorted[..k], ids, scores, boosts, gw);
    CutKeepsBest(cands, sorted, k, ids, scores, boosts, gw);
  }

  /** The first loop: every anchor's id gets `score * vector_weight`, a later occurrence overwriting an earlier one. */
  method VectorPass(anchors: seq<Anchor>, vw: real) returns (scores: map<NodeId, real>)
    ensures scores == VectorScores(anchors, vw)
  {
    scores := map[];
    for i := 0 to |anchors|
      invariant scores == VectorScores(anchors[..i], vw)
    {
      VectorScoresSnoc(anchors, vw, i);
      scores := scores[anchors[i].id := Weighted(anchors[i], vw)];
    }
    assert anchors[..|anchors|] == anchors;
  }

  /** The inner loop of the second: `graph_boosts[n] += boost` for each neighbour `n`, starting from 0 when absent. */
  method BoostNeighbours(boosts: map<NodeId, real>, neighbors: set<NodeId>, boost: real) returns (out: map<NodeId, real>)
    ensures out == AddBoost(boosts, neighbors, boost)
  {
    out := boosts;
    ghost var done: set<NodeId> := {};
    AddBoostNothing(boosts, boost);
    var todo := neighbors;
    while todo != {}
      invariant todo <= neighbors && done == neighbors - todo
      invariant out == AddBoost(boosts, done, boost)
      decreases todo
    {
      var n :| n in todo;
      AddBoostStep(boosts, done, n, boost);
      if n in out {
        out := out[n := out[n] + boost];
      } else {
        out := out[n := boost];
      }
      todo := todo - {n};
      done := done + {n};
    }
    assert done == neighbors;
  }

  /** The second loop: every anchor passes `0.3 * score` to each of its depth-1 neighbours. */
  method BoostPass(anchors: seq<Anchor>, nbrs: NodeId -> set<NodeId>) returns (boosts: map<NodeId, real>)
    ensures boosts == Boosts(anchors, nbrs)
  {
    boosts := map[];
    for i := 0 to |anchors|
      invariant boosts == Boosts(anchors[..i], nbrs)
    {
      BoostsSnoc(anchors, nbrs, i);
      var anchor := anchors[i];
      var neighbors := nbrs(anchor.id);
      var boost := BoostFactor * anchor.score;
      boosts := BoostNeighbours(boosts, neighbors, boost);
    }
    assert anchors[..|anchors|] == anchors;
  }

  /**
   * The body of the third loop: look both parts up (0 when absent), cap the
   * boost, and name each positive part in the explanation, vector first.
   */
  method BuildCandidate(scores: map<NodeId, real>, boosts: map<NodeId, real>, gw: real, nid: NodeId) returns (c: Candidate)
    ensures c == CandidateFor(scores, boosts, gw, nid)
  {
    var vScore := if nid in scores then scores[nid] else 0.0;
    var gRaw := if nid in boosts then boosts[nid] else 0.0;
    var gScore := GraphShare(gRaw, gw);
    var reason: seq<ReasonPart> := [];
    if vScore > 0.0 {
      reason := reason + [VectorPart(vScore)];
    }
    if gScore > 0.0 {
      reason := reason + [GraphPart(gScore)];
    }
    c := Candidate(nid, vScore + gScore, reason);
  }

  /** The third loop: one candidate per id of either dictionary, in the order the id set yields them. */
  method CandidatePass(scores: map<NodeId, real>, boosts: map<NodeId, real>, gw: real) returns (cands: seq<Candidate>)
    ensures CandidatesBuilt(cands, scores.Keys + boosts.Keys, scores, boosts, gw)
  {
    var allIds := scores.Keys + boosts.Keys;
    cands := [];
    ghost var done: set<NodeId> := {};
    var todo := allIds;
    while todo != {}
      invariant todo <= allIds && done == allIds - todo
      invariant CandidatesBuilt(cands, done, scores, boosts, gw)
      decreases todo
    {
      var nid :| nid in todo;
      var c := BuildCandidate(scores, boosts, gw, nid);
      CandidatesBuiltStep(cands, done, scores, boosts, gw, nid);
      cands := cands + [c];
      todo := todo - {nid};
      done := done + {nid};
    }
    assert done == allIds;
  }

  /**
   * The fusion itself, over anchors already fetched: the dictionaries of the
   * first two loops, the candidates of the third, then sort and cut.
   */
  method Fuse(anchors: seq<Anchor>, nbrs: NodeId -> set<NodeId>, vw: real, gw: real, topK: int)
    returns (r: seq<Candidate>)
    ensures IsRanking(r, anchors, nbrs, vw, gw, topK)
  {
    var scores := VectorPass(anchors, vw);
    var boosts := BoostPass(anchors, nbrs);
    var cands := CandidatePass(scores, boosts, gw);
    var sorted := SortDesc(cands);
    RankingOfCandidates(cands, scores.Keys + boosts.Keys, scores, boosts, gw, topK);
    r := sorted[..SliceLen(|sorted|, topK)];
  }

  /** No anchors, no answer. */
  lemma NoAnchorsNoResults(nbrs: NodeId -> set<NodeId>, vw: real, gw: real, topK: int, r: seq<Candidate>)
    requires IsRanking(r, [], nbrs, vw, gw, topK)
    ensures r == []
  {
  }

  /**
   * A ranking holds every candidate when `top_k` is at least their number:
   * nothing is cut.
   */
  lemma LargeTopKKeepsAll(r: seq<Candidate>, rs: seq<Anchor>, nbrs: NodeId -> set<NodeId>, vw: real, gw: real, topK: int, id: NodeId)
    requires IsRanking(r, rs, nbrs, vw, gw, topK)
    requires topK >= |CandidateIds(rs, nbrs, vw)|
    requires id in CandidateIds(rs, nbrs, vw)
    ensures exists i :: 0 <= i < |r| && r[i].id == id
  {
    var ids := CandidateIds(rs, nbrs, vw);
    var got := set i | 0 <= i < |r| :: r[i].id;
    IdsOfDistinct(r);
    assert got <= ids;
    SubsetFull(got, ids);
    assert id in got;
  }

  /** With `top_k >= 0` the answer has `top_k` entries, or every candidate when there are fewer. */
  lemma RankingLength(r: seq<Candidate>, rs: seq<Anchor>, nbrs: NodeId -> set<NodeId>, vw: real, gw: real, topK: int)
    requires IsRanking(r, rs, nbrs, vw, gw, topK)
    requires topK >= 0
    ensures |r| == Min(topK as real, |CandidateIds(rs, nbrs, vw)| as real) as int
  {
  }

  /** A negative `top_k` drops the `-top_k` lowest-ranked candidates, leaving at least none. */
  lemma RankingLengthNegative(r: seq<Candidate>, rs: seq<Anchor>, nbrs: NodeId -> set<NodeId>, vw: real, gw: real, topK: int)
    requires IsRanking(r, rs, nbrs, vw, gw, topK)
    requires topK < 0
    ensures |r| + (-topK) >= |CandidateIds(rs, nbrs, vw)|
    ensures |r| > 0 ==> |r| + (-topK) == |CandidateIds(rs, nbrs, vw)|
  {
  }

  /**
   * With graph weight 0 a neighbour that is not itself an anchor is still a
   * candidate, with score 0: the graph expansion is not switched off.
   */
  lemma NoGraphWeightKeepsNeighbours(rs: seq<Anchor>, nbrs: NodeId -> set<NodeId>, vw: real, id: NodeId, i: nat)
    requires i < |rs| && id in nbrs(rs[i].id)
    requires forall j :: 0 <= j < |rs| ==> rs[j].id != id
    ensures id in CandidateIds(rs, nbrs, vw)
    ensures CandidateOf(rs, nbrs, vw, 0.0, id).score == 0.0
    ensures CandidateOf(rs, nbrs, vw, 0.0, id).reason == []
  {
    CandidateIdsAreAnchorsAndNeighbours(rs, nbrs, vw, id);
    VectorScoresKeys(rs, vw, id);
  }

  /** Distinct ids: the set of ids is as large as the list. */
  lemma {:induction false} IdsOfDistinct(r: seq<Candidate>)
    requires forall i, j :: 0 <= i < j < |r| ==> r[i].id != r[j].id
    ensures |set i | 0 <= i < |r| :: r[i].id| == |r|
    decreases |r|
  {
    if r != [] {
      var init := r[..|r| - 1];
      IdsOfDistinct(init);
      var a := set i | 0 <= i < |init| :: init[i].id;
      var b := set i | 0 <= i < |r| :: r[i].id;
      assert b == a + {r[|r| - 1].id};
      assert r[|r| - 1].id !in a;
    }
  }

  /** A subset as large as its superset is the whole superset. */
  lemma SubsetFull(a: set<NodeId>, b: set<NodeId>)
    requires a <= b && |b| <= |a|
    ensures a == b
  {
    assert b == a + (b - a);
    assert |b - a| == 0;
  }

  // ---------------------------------------------------------------------
  // The engine

  /** `get_neighbors(id, depth=1)` on a store's in-memory graph, as an oracle. */
  function NeighborOracle(g: DiGraph): NodeId -> set<NodeId> {
    id => Neighbors(g, id, 1)
  }

  class HybridEngine {
    /** The vector collaborator's search: a query and a limit give the anchors. */
    const vec: (string, int) -> seq<Anchor>
    /** The graph store whose depth-1 neighbours give the boosts. */
    const graph: GraphEngine

    constructor (vectorEngine: (string, int) -> seq<Anchor>, graphEngine: GraphEngine)
      ensures vec == vectorEngine && graph == graphEngine
    {
      vec := vectorEngine;
      graph := graphEngine;
    }

    /**
     * `hybrid_search(query, vector_weight, graph_weight, top_k)`: asks the
     * vector collaborator for `2 * top_k` anchors and ranks them with the
     * store's depth-1 neighbours.
     */
    method HybridSearch(query: string, vw: real := 0.5, gw: real := 0.5, topK: int := 5) returns (r: seq<Candidate>)
      requires graph.Valid()
      ensures IsRanking(r, vec(query, topK * 2), NeighborOracle(graph.graph), vw, gw, topK)
    {
      var vectorResults := vec(query, topK * 2);
      r := Fuse(vectorResults, NeighborOracle(graph.graph), vw, gw, topK);
    }
  }

  // ---------------------------------------------------------------------
  // Examples

  /** The graph of one edge A -> B. */
  function ExampleGraph(): DiGraph {
    AddEdge(Empty, "A", "B", "creates", 1.0)
  }

  function ExampleAnchors(): seq<Anchor> {
    [Anchor("A", 0.9), Anchor("B", 0.4)]
  }

  lemma ExampleNeighbours()
    ensures NeighborOracle(ExampleGraph())("A") == {"B"}
    ensures NeighborOracle(ExampleGraph())("B") == {"A"}
  {
    var g := ExampleGraph();
    assert g.edges.Keys == {("A", "B")};
    assert g.nodes.Keys == {"A", "B"};
    assert "A" != "B";
  }

  lemma ExampleVectorScores()
    ensures VectorScores(ExampleAnchors(), 0.5) == map["A" := 0.45, "B" := 0.2]
  {
    var rs := ExampleAnchors();
    assert rs[..1] == [Anchor("A", 0.9)];
    assert rs[..1][..0] == [];
  }

  lemma ExampleBoosts()
    ensures Boosts(ExampleAnchors(), NeighborOracle(ExampleGraph())) == map["B" := 0.27, "A" := 0.12]
  {
    var rs := ExampleAnchors();
    var nbrs := NeighborOracle(ExampleGraph());
    ExampleNeighbours();
    assert rs[..1] == [Anchor("A", 0.9)];
    assert rs[..1][..0] == [];
    assert Boosts(rs[..1], nbrs) == AddBoost(map[], {"B"}, 0.27);
    assert AddBoost(map[], {"B"}, 0.27) == map["B" := 0.27];
    assert AddBoost(map["B" := 0.27], {"A"}, 0.12) == map["B" := 0.27, "A" := 0.12];
  }

  lemma ExampleCandidates()
    ensures CandidateIds(ExampleAnchors(), NeighborOracle(ExampleGraph()), 0.5) == {"A", "B"}
    ensures CandidateOf(ExampleAnchors(), NeighborOracle(ExampleGraph()), 0.5, 0.5, "A").score == 0.51
    ensures CandidateOf(ExampleAnchors(), NeighborOracle(ExampleGraph()), 0.5, 0.5, "B").score == 0.335
  {
    ExampleVectorScores();
    ExampleBoosts();
  }

  /** Two candidate ids with different scores: the ranking of both lists the higher first. */
  lemma RankingOfTwo(r: seq<Candidate>, a: NodeId, b: NodeId, scores: map<NodeId, real>, boosts: map<NodeId, real>, gw: real, topK: int)
    requires a != b
    requires topK >= 2
    requires RankingOver(r, {a, b}, scores, boosts, gw, topK)
    requires CandidateFor(scores, boosts, gw, a).score > CandidateFor(scores, boosts, gw, b).score
    ensures |r| == 2 && r[0] == CandidateFor(scores, boosts, gw, a) && r[1] == CandidateFor(scores, boosts, gw, b)
  {
    assert |{a, b}| == 2;
    assert r[0].id in {a, b} && r[1].id in {a, b} && r[0].id != r[1].id;
  }

  /**
   * Anchors [A: 0.9, B: 0.4] over the edge A -> B, both weights 0.5, top 2:
   * B is boosted by A (0.27) and, since depth-1 neighbours look both ways,
   * A is boosted by B (0.12).  The ranking is A (0.51) then B (0.335).
   */
  lemma ExampleRanking(r: seq<Candidate>)
    requires IsRanking(r, ExampleAnchors(), NeighborOracle(ExampleGraph()), 0.5, 0.5, 2)
    ensures |r| == 2
    ensures r[0].id == "A" && r[0].score == 0.51
    ensures r[1].id == "B" && r[1].score == 0.335
  {
    var rs := ExampleAnchors();
    var nbrs := NeighborOracle(ExampleGraph());
    ExampleCandidates();
    assert "A" != "B";
    RankingOfTwo(r, "A", "B", VectorScores(rs, 0.5), Boosts(rs, nbrs), 0.5, 2);
  }

  /**
   * One anchor [A: 0.9] over the edge A -> B with `vector_weight` 1,
   * `graph_weight` 0 and top 5: the answer is not the similarity ranking
   * alone, since the neighbour B is still ranked, with score 0.
   */
  lemma ExampleNoGraphWeight(r: seq<Candidate>)
    requires IsRanking(r, [Anchor("A", 0.9)], NeighborOracle(ExampleGraph()), 1.0, 0.0, 5)
    ensures |r| == 2
    ensures r[0].id == "A" && r[0].score == 0.9
    ensures r[1].id == "B" && r[1].score == 0.0
  {
    var rs := [Anchor("A", 0.9)];
    var nbrs := NeighborOracle(ExampleGraph());
    SoloAnchorDictionaries();
    NoGraphWeightScores();
    assert "A" != "B";
    RankingOfTwo(r, "A", "B", map["A" := 0.9], map["B" := 0.27], 0.0, 5);
  }

  /** With `graph_weight` 0 the anchor keeps its similarity and the boosted neighbour scores 0. */
  lemma NoGraphWeightScores()
    ensures CandidateFor(map["A" := 0.9], map["B" := 0.27], 0.0, "A").score == 0.9
    ensures CandidateFor(map["A" := 0.9], map["B" := 0.27], 0.0, "B").score == 0.0
  {
    assert "A" != "B";
  }

  /** The two dictionaries of the search with the single anchor [A: 0.9] and `vector_weight` 1. */
  lemma SoloAnchorDictionaries()
    ensures VectorScores([Anchor("A", 0.9)], 1.0) == map["A" := 0.9]
    ensures Boosts([Anchor("A", 0.9)], NeighborOracle(ExampleGraph())) == map["B" := 0.27]
    ensures CandidateIds([Anchor("A", 0.9)], NeighborOracle(ExampleGraph()), 1.0) == {"A", "B"}
  {
    var rs := [Anchor("A", 0.9)];
    var nbrs := NeighborOracle(ExampleGraph());
    ExampleNeighbours();
    assert rs[..0] == [];
    assert Boosts(rs, nbrs) == AddBoost(map[], {"B"}, 0.27);
    assert AddBoost(map[], {"B"}, 0.27) == map["B" := 0.27];
  }
}
