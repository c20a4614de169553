/**
 * Hybrid memory search: full-text hits and embedding similarity, fused with
 * Reciprocal Rank Fusion and hydrated with message details in fused order.
 *
 * The full-text engine, the embedding of the query, the stored embeddings and
 * the message lookup are inputs: the full-text rows as the engine ranks them
 * (`None` when the query throws), the query vector `embed` produced, the
 * user's decoded embeddings in storage order, and the details the lookup
 * returns for a list of ids.
 */
module Search {
  import opened Common
  import Sorting
  import Rank

  /** A full-text hit: message id and the highlighted snippet. */
  datatype FtsRow = FtsRow(id: string, chatId: string, role: string, createdAt: int, snippet: string)

  /** A stored message embedding. */
  datatype StoredEmbedding = StoredEmbedding(messageId: string, embedding: seq<real>, createdAt: int)

  /** A message as the detail lookup returns it. */
  datatype MessageDetail = MessageDetail(id: string, chatId: string, role: string, content: string, createdAt: int)

  datatype SearchResult = SearchResult(id: string, chatId: string, role: string, content: string,
                                       snippet: string, createdAt: int)

  /** A semantic candidate. */
  datatype Scored = Scored(id: string, score: real)

  const MsPerDay: real := 86400000.0
  /** Length of the content prefix used when a result has no full-text snippet. */
  const SnippetFallback: nat := 120

  function ScoreKey(s: Scored): real { s.score }
  function Self(id: string): string { id }

  /** The full-text rows kept: none when the query throws, else the first 2·limit (`LIMIT limit * 2`). */
  function FtsRows(ftsOutcome: Option<seq<FtsRow>>, limit: nat): (r: seq<FtsRow>)
    ensures |r| <= 2 * limit
    ensures ftsOutcome.None? ==> r == []
    ensures ftsOutcome.Some? ==> r <= ftsOutcome.value
    ensures ftsOutcome.Some? ==> |r| == if |ftsOutcome.value| < 2 * limit then |ftsOutcome.value| else 2 * limit
  {
    match ftsOutcome
    case None => []
    case Some(rows) => Take(rows, 2 * limit)
  }

  predicate Comparable(queryVec: seq<real>, embeddings: seq<StoredEmbedding>)
  {
    forall i :: 0 <= i < |embeddings| ==> |queryVec| <= |embeddings[i].embedding|
  }

  /** Every stored embedding scored against the query, boosted by its age in days. */
  function ScoreAll(queryVec: seq<real>, embeddings: seq<StoredEmbedding>, now: int, exp: real -> real)
    : (r: seq<Scored>)
    requires Comparable(queryVec, embeddings)
    ensures |r| == |embeddings|
    ensures forall i :: 0 <= i < |r| ==> r[i].id == embeddings[i].messageId
  {
    seq(|embeddings|, i requires 0 <= i < |embeddings| =>
      Scored(embeddings[i].messageId,
             Rank.Similarity(queryVec, embeddings[i].embedding,
                             Some(Rank.RecencyBoost((now - embeddings[i].createdAt) as real / MsPerDay, None)), exp)))
  }

  /** The semantic candidates: scored, sorted by descending score, the first 2·limit. */
  function VecCandidates(queryVec: seq<real>, embeddings: seq<StoredEmbedding>, now: int, limit: nat, exp: real -> real)
    : (r: seq<Scored>)
    requires Comparable(queryVec, embeddings)
    ensures |r| == if |embeddings| < 2 * limit then |embeddings| else 2 * limit
    ensures Sorting.SortedDesc(r, ScoreKey)
    ensures forall s :: s in r ==> s in ScoreAll(queryVec, embeddings, now, exp)
    ensures forall s, t :: s in ScoreAll(queryVec, embeddings, now, exp) && s !in r && t in r ==> t.score >= s.score
  {
    var scored := ScoreAll(queryVec, embeddings, now, exp);
    Sorting.TopOfSorted(scored, ScoreKey, 2 * limit);
    TopScored(scored, 2 * limit)
  }

  /** The n best-scored entries, by a stable descending sort. */
  function TopScored(scored: seq<Scored>, n: nat): seq<Scored>
  {
    Take(Sorting.SortDesc(scored, ScoreKey), n)
  }

  function FtsIds(rows: seq<FtsRow>): (r: seq<string>)
    ensures |r| == |rows|
    ensures forall i :: 0 <= i < |rows| ==> r[i] == rows[i].id
  {
    seq(|rows|, i requires 0 <= i < |rows| => rows[i].id)
  }

  function ScoredIds(rows: seq<Scored>): (r: seq<string>)
    ensures |r| == |rows|
    ensures forall i :: 0 <= i < |rows| ==> r[i] == rows[i].id
  {
    seq(|rows|, i requires 0 <= i < |rows| => rows[i].id)
  }

  /** `detailMap.get(id)`: the map is built in order, so the last detail with the id wins. */
  function DetailFor(details: seq<MessageDetail>, id: string): (r: Option<MessageDetail>)
    ensures r.Some? ==> r.value in details && r.value.id == id
    ensures r.None? <==> forall d :: d in details ==> d.id != id
  {
    if details == [] then None
    else if details[|details| - 1].id == id then Some(details[|details| - 1])
    else DetailFor(details[..|details| - 1], id)
  }

  /** The snippet of a result: the full-text snippet of the first hit with that id, else the start of the content. */
  function SnippetFor(ftsRows: seq<FtsRow>, id: string, content: string): string
  {
    match First(ftsRows, (f: FtsRow) => f.id == id)
    case Some(row) => row.snippet
    case None => Take(content, SnippetFallback)
  }

  /** Builds the results in merge order, dropping ids the lookup did not return. */
  function Hydrate(merged: seq<string>, ftsRows: seq<FtsRow>, details: seq<MessageDetail>): (r: seq<SearchResult>)
    ensures |r| <= |merged|
  {
    if merged == [] then []
    else
      var id := merged[0];
      var rest := Hydrate(merged[1..], ftsRows, details);
      match DetailFor(details, id)
      case None => rest
      case Some(d) => [SearchResult(id, d.chatId, d.role, d.content, SnippetFor(ftsRows, id, d.content), d.createdAt)] + rest
  }

  /** The ids searchMemoryHybrid fuses: full-text ids first, then semantic ids, RRF with k = 60. */
  function MergedIds(ftsRows: seq<FtsRow>, vec: seq<Scored>, limit: nat): seq<string>
  {
    Rank.FusedIds(FtsIds(ftsRows), ScoredIds(vec), Self, limit, Rank.DefaultK)
  }

  /** The id was returned by the full-text query or belongs to a stored embedding. */
  predicate HitOrStored(id: string, ftsOutcome: Option<seq<FtsRow>>, embeddings: seq<StoredEmbedding>)
  {
    || (ftsOutcome.Some? && exists f :: f in ftsOutcome.value && f.id == id)
    || exists e :: e in embeddings && e.messageId == id
  }

  /** No two results share an id. */
  predicate DistinctIds(r: seq<SearchResult>)
  {
    forall i, j :: 0 <= i < j < |r| ==> r[i].id != r[j].id
  }

  /** At most limit results with distinct ids, each a full-text hit or a message with a stored embedding. */
  predicate WellFormedResults(r: seq<SearchResult>, ftsOutcome: Option<seq<FtsRow>>,
                              embeddings: seq<StoredEmbedding>, limit: nat)
  {
    && |r| <= limit
    && DistinctIds(r)
    && forall x :: x in r ==> HitOrStored(x.id, ftsOutcome, embeddings)
  }

  /** searchMemoryHybrid. */
  function SearchMemoryHybrid(ftsOutcome: Option<seq<FtsRow>>, queryVec: seq<real>,
                              embeddings: seq<StoredEmbedding>, lookup: seq<string> -> seq<MessageDetail>,
                              now: int, limit: nat, exp: real -> real): (r: seq<SearchResult>)
    requires Comparable(queryVec, embeddings)
    ensures |r| <= limit
    ensures forall i, j :: 0 <= i < j < |r| ==> r[i].id != r[j].id
    ensures forall x :: x in r ==> HitOrStored(x.id, ftsOutcome, embeddings)
  {
    var ftsRows := FtsRows(ftsOutcome, limit);
    var vec := VecCandidates(queryVec, embeddings, now, limit, exp);
    var merged := MergedIds(ftsRows, vec, limit);
    HydratedWellFormed(ftsOutcome, ftsRows, vec, queryVec, embeddings, lookup(merged), now, limit, exp);
    Hydrate(merged, ftsRows, lookup(merged))
  }

  /** The hydrated fused ids form well-formed results. */
  lemma HydratedWellFormed(ftsOutcome: Option<seq<FtsRow>>, ftsRows: seq<FtsRow>, vec: seq<Scored>,
                           queryVec: seq<real>, embeddings: seq<StoredEmbedding>, details: seq<MessageDetail>,
                           now: int, limit: nat, exp: real -> real)
    requires Comparable(queryVec, embeddings)
    requires ftsRows == FtsRows(ftsOutcome, limit)
    requires vec == VecCandidates(queryVec, embeddings, now, limit, exp)
    ensures WellFormedResults(Hydrate(MergedIds(ftsRows, vec, limit), ftsRows, details), ftsOutcome, embeddings, limit)
  {
    var merged := MergedIds(ftsRows, vec, limit);
    Rank.FusedDistinct(FtsIds(ftsRows), ScoredIds(vec), Self, limit, Rank.DefaultK);
    HydrateIds(merged, ftsRows, details);
    HydrateDistinct(merged, ftsRows, details);
    assert forall f :: f in ftsRows ==> ftsOutcome.Some? && f in ftsOutcome.value by {
      if ftsOutcome.Some? {
        forall f | f in ftsRows ensures f in ftsOutcome.value {
          var i :| 0 <= i < |ftsRows| && ftsRows[i] == f;
          assert ftsOutcome.value[i] == f;
        }
      }
    }
    MergedFromInputs(ftsOutcome, ftsRows, vec, queryVec, embeddings, now, limit, exp);
  }

  /** Every hydrated result is a merged id. */
  lemma {:induction false} HydrateIds(merged: seq<string>, ftsRows: seq<FtsRow>, details: seq<MessageDetail>)
    ensures forall x :: x in Hydrate(merged, ftsRows, details) ==> x.id in merged
  {
    if merged != [] {
      HydrateIds(merged[1..], ftsRows, details);
    }
  }

  /** Distinct merged ids give results with distinct ids. */
  lemma {:induction false} HydrateDistinct(merged: seq<string>, ftsRows: seq<FtsRow>, details: seq<MessageDetail>)
    requires Distinct(merged)
    ensures DistinctIds(Hydrate(merged, ftsRows, details))
  {
    if merged != [] {
      var rest := Hydrate(merged[1..], ftsRows, details);
      assert Distinct(merged[1..]) by {
        forall i, j | 0 <= i < j < |merged[1..]| ensures merged[1..][i] != merged[1..][j] {
          assert merged[1..][i] == merged[i + 1] && merged[1..][j] == merged[j + 1];
        }
      }
      assert merged[0] !in merged[1..] by {
        forall i | 0 <= i < |merged[1..]| ensures merged[1..][i] != merged[0] {
          assert merged[1..][i] == merged[i + 1];
        }
      }
      HydrateDistinct(merged[1..], ftsRows, details);
      HydrateIds(merged[1..], ftsRows, details);
      var r := Hydrate(merged, ftsRows, details);
      if DetailFor(details, merged[0]).Some? {
        assert r[0].id == merged[0] && r[1..] == rest;
        forall i, j | 0 <= i < j < |r| ensures r[i].id != r[j].id {
          assert r[j] == rest[j - 1] && rest[j - 1] in rest;
          if i > 0 {
            assert r[i] == rest[i - 1];
          }
        }
      }
    }
  }

  /** Every fused id is a full-text hit or the id of a stored embedding. */
  lemma MergedFromInputs(ftsOutcome: Option<seq<FtsRow>>, ftsRows: seq<FtsRow>, vec: seq<Scored>,
                         queryVec: seq<real>, embeddings: seq<StoredEmbedding>, now: int, limit: nat, exp: real -> real)
    requires Comparable(queryVec, embeddings)
    requires forall f :: f in ftsRows ==> ftsOutcome.Some? && f in ftsOutcome.value
    requires forall s :: s in vec ==> s in ScoreAll(queryVec, embeddings, now, exp)
    ensures forall id :: id in MergedIds(ftsRows, vec, limit) ==> HitOrStored(id, ftsOutcome, embeddings)
  {
    Rank.FusedFromInputs(FtsIds(ftsRows), ScoredIds(vec), Self, limit, Rank.DefaultK);
    FtsIdsAreHits(ftsOutcome, ftsRows, embeddings);
    ScoredIdsAreStored(vec, queryVec, embeddings, now, exp, ftsOutcome);
  }

  /** The ids of the full-text rows are full-text hits. */
  lemma FtsIdsAreHits(ftsOutcome: Option<seq<FtsRow>>, ftsRows: seq<FtsRow>, embeddings: seq<StoredEmbedding>)
    requires forall f :: f in ftsRows ==> ftsOutcome.Some? && f in ftsOutcome.value
    ensures forall id :: id in Rank.Ids(FtsIds(ftsRows), Self) ==> HitOrStored(id, ftsOutcome, embeddings)
  {
    var ids := Rank.Ids(FtsIds(ftsRows), Self);
    forall id | id in ids ensures HitOrStored(id, ftsOutcome, embeddings) {
      var i :| 0 <= i < |ids| && ids[i] == id;
      assert ids[i] == Self(FtsIds(ftsRows)[i]) == ftsRows[i].id;
      assert ftsRows[i] in ftsRows;
    }
  }

  /** The ids of the semantic candidates belong to stored embeddings. */
  lemma ScoredIdsAreStored(vec: seq<Scored>, queryVec: seq<real>, embeddings: seq<StoredEmbedding>, now: int,
                           exp: real -> real, ftsOutcome: Option<seq<FtsRow>>)
    requires Comparable(queryVec, embeddings)
    requires forall s :: s in vec ==> s in ScoreAll(queryVec, embeddings, now, exp)
    ensures forall id :: id in Rank.Ids(ScoredIds(vec), Self) ==> HitOrStored(id, ftsOutcome, embeddings)
  {
    var ids := Rank.Ids(ScoredIds(vec), Self);
    forall id | id in ids ensures HitOrStored(id, ftsOutcome, embeddings) {
      var i :| 0 <= i < |ids| && ids[i] == id;
      assert ids[i] == Self(ScoredIds(vec)[i]) == vec[i].id;
      assert vec[i] in vec;
      ScoredFromEmbedding(queryVec, embeddings, now, exp, vec[i]);
    }
  }

  /** A scored candidate carries the id of a stored embedding. */
  lemma ScoredFromEmbedding(queryVec: seq<real>, embeddings: seq<StoredEmbedding>, now: int, exp: real -> real, s: Scored)
    requires Comparable(queryVec, embeddings)
    requires s in ScoreAll(queryVec, embeddings, now, exp)
    ensures exists e :: e in embeddings && e.messageId == s.id
  {
    var all := ScoreAll(queryVec, embeddings, now, exp);
    var j :| 0 <= j < |all| && all[j] == s;
    assert embeddings[j] in embeddings;
  }

  // ---------------------------------------------------------------------------
  // Properties

  /** Hydration keeps exactly the merged ids that have a detail, in merged order, with the detail's fields. */
  lemma {:induction false} HydrateKeepsOrder(merged: seq<string>, ftsRows: seq<FtsRow>, details: seq<MessageDetail>)
    ensures var r := Hydrate(merged, ftsRows, details);
            && |r| == |Filter(merged, (id: string) => DetailFor(details, id).Some?)|
            && forall i :: 0 <= i < |r| ==>
                 && r[i].id == Filter(merged, (id: string) => DetailFor(details, id).Some?)[i]
                 && DetailFor(details, r[i].id).Some?
                 && var d := DetailFor(details, r[i].id).value;
                    r[i] == SearchResult(d.id, d.chatId, d.role, d.content, SnippetFor(ftsRows, d.id, d.content), d.createdAt)
  {
    if merged != [] {
      HydrateKeepsOrder(merged[1..], ftsRows, details);
    }
  }

  /** The snippet is the first full-text hit's snippet when the id was a hit, otherwise the first 120 characters of content. */
  lemma SnippetChoice(ftsRows: seq<FtsRow>, id: string, content: string)
    ensures (exists f :: f in ftsRows && f.id == id) ==>
              exists f :: f in ftsRows && f.id == id && SnippetFor(ftsRows, id, content) == f.snippet
    ensures (forall f :: f in ftsRows ==> f.id != id) ==>
              SnippetFor(ftsRows, id, content) == Take(content, SnippetFallback)
    ensures |SnippetFor(ftsRows, id, content)| <= SnippetFallback || exists f :: f in ftsRows && f.id == id
  {
  }

  /**
   * At most limit results, each a distinct merged id in fused order; ids
   * without a detail row are dropped.
   */
  lemma SearchShape(ftsOutcome: Option<seq<FtsRow>>, queryVec: seq<real>,
                    embeddings: seq<StoredEmbedding>, lookup: seq<string> -> seq<MessageDetail>,
                    now: int, limit: nat, exp: real -> real)
    requires Comparable(queryVec, embeddings)
    ensures var r := SearchMemoryHybrid(ftsOutcome, queryVec, embeddings, lookup, now, limit, exp);
            var ftsRows := FtsRows(ftsOutcome, limit);
            var merged := MergedIds(ftsRows, VecCandidates(queryVec, embeddings, now, limit, exp), limit);
            && |r| <= limit
            && |r| == |Filter(merged, (id: string) => DetailFor(lookup(merged), id).Some?)|
            && (forall i :: 0 <= i < |r| ==> r[i].id == Filter(merged, (id: string) => DetailFor(lookup(merged), id).Some?)[i])
            && Distinct(merged)
  {
    var ftsRows := FtsRows(ftsOutcome, limit);
    var vec := VecCandidates(queryVec, embeddings, now, limit, exp);
    var merged := MergedIds(ftsRows, vec, limit);
    HydrateKeepsOrder(merged, ftsRows, lookup(merged));
    Rank.FusedDistinct(FtsIds(ftsRows), ScoredIds(vec), Self, limit, Rank.DefaultK);
  }

  /** A full-text query that throws is treated as one that matched nothing. */
  lemma FtsFailureIsNoHits(queryVec: seq<real>, embeddings: seq<StoredEmbedding>,
                           lookup: seq<string> -> seq<MessageDetail>, now: int, limit: nat, exp: real -> real)
    requires Comparable(queryVec, embeddings)
    ensures SearchMemoryHybrid(None, queryVec, embeddings, lookup, now, limit, exp)
         == SearchMemoryHybrid(Some([]), queryVec, embeddings, lookup, now, limit, exp)
  {
  }

  /**
   * Without a query vector (the embedder unavailable) every stored embedding
   * scores 0, so the stable sort keeps storage order and the semantic list is
   * the first 2·limit stored ids rather than empty.
   */
  lemma EmptyQueryVectorKeepsStorageOrder(embeddings: seq<StoredEmbedding>, now: int, limit: nat, exp: real -> real)
    ensures Comparable([], embeddings)
    ensures ScoredIds(VecCandidates([], embeddings, now, limit, exp))
         == Take(seq(|embeddings|, i requires 0 <= i < |embeddings| => embeddings[i].messageId), 2 * limit)
  {
    var scored := ScoreAll([], embeddings, now, exp);
    assert VecCandidates([], embeddings, now, limit, exp) == TopScored(scored, 2 * limit);
    EqualScoresKeepOrder(scored, embeddings, now, limit, exp);
  }

  /** With every score 0, the best 2·limit are the first 2·limit in storage order. */
  lemma EqualScoresKeepOrder(scored: seq<Scored>, embeddings: seq<StoredEmbedding>, now: int, limit: nat, exp: real -> real)
    requires Comparable([], embeddings)
    requires scored == ScoreAll([], embeddings, now, exp)
    ensures ScoredIds(TopScored(scored, 2 * limit))
         == Take(seq(|embeddings|, i requires 0 <= i < |embeddings| => embeddings[i].messageId), 2 * limit)
  {
    EmptyQueryScoresZero(embeddings, now, exp);
    Sorting.AllEqualKeysUnchanged(scored, ScoreKey, 0.0);
    var vec := TopScored(scored, 2 * limit);
    assert vec == Take(scored, 2 * limit);
    var ids := seq(|embeddings|, i requires 0 <= i < |embeddings| => embeddings[i].messageId);
    assert ScoredIds(scored) == ids;
    assert forall i :: 0 <= i < |vec| ==> vec[i] == scored[i];
  }

  lemma EmptyQueryScoresZero(embeddings: seq<StoredEmbedding>, now: int, exp: real -> real)
    ensures Comparable([], embeddings)
    ensures forall i :: 0 <= i < |embeddings| ==> ScoreKey(ScoreAll([], embeddings, now, exp)[i]) == 0.0
  {
    forall i | 0 <= i < |embeddings| ensures ScoreKey(ScoreAll([], embeddings, now, exp)[i]) == 0.0 {
      Rank.EmptyVectorScoresZero(embeddings[i].embedding,
        Some(Rank.RecencyBoost((now - embeddings[i].createdAt) as real / MsPerDay, None)), exp);
    }
  }
}
