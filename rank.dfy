/**
 * Similarity and fusion (lib/memory/rank.ts).
 *
 * `CosineSimilarity` accumulates a dot product in a loop and optionally scales
 * it by a recency factor `e^(-decay * ageDays)`; the exponential is supplied by
 * the caller as a function that is positive and maps 0 to 1.
 *
 * `RrfMerge` is Reciprocal Rank Fusion over two ranked lists: two loops fill a
 * score map (whose insertion order is kept explicitly, as a JavaScript Map
 * keeps it) and an item map; the entries are then stably sorted by descending
 * score, cut to `limit`, and mapped back to items. Arithmetic is exact (`real`).
 */
module Rank {
  import opened Common
  import Sorting

  /** The standard RRF constant. */
  const DefaultK: nat := 60
  /** Decay rate used when a recency boost does not name one. */
  const DefaultDecay: real := 0.05

  // ---------------------------------------------------------------------------
  // cosineSimilarity

  /** Σ a[i]·b[i] over the indices of a. */
  function Dot(a: seq<real>, b: seq<real>): real
    requires |a| <= |b|
  {
    if a == [] then 0.0 else Dot(a[..|a| - 1], b) + a[|a| - 1] * b[|a| - 1]
  }

  datatype RecencyBoost = RecencyBoost(ageDays: real, decay: Option<real>)

  /** An admissible stand-in for `Math.exp`: positive everywhere, 1 at 0. */
  ghost predicate IsExp(exp: real -> real)
  {
    exp(0.0) == 1.0 && forall x :: exp(x) > 0.0
  }

  /** `e^(-decay * ageDays)`, decay defaulting to 0.05. */
  function DecayFactor(boost: RecencyBoost, exp: real -> real): real
  {
    var decay := match boost.decay case Some(d) => d case None => DefaultDecay;
    exp(-decay * boost.ageDays)
  }

  /** The value cosineSimilarity returns. */
  function Similarity(a: seq<real>, b: seq<real>, boost: Option<RecencyBoost>, exp: real -> real): real
    requires |a| <= |b|
  {
    match boost
    case None => Dot(a, b)
    case Some(bst) => Dot(a, b) * DecayFactor(bst, exp)
  }

  method CosineSimilarity(a: seq<real>, b: seq<real>, boost: Option<RecencyBoost>, exp: real -> real)
    returns (dot: real)
    requires |a| <= |b|
    ensures boost.None? ==> dot == Dot(a, b)
    ensures boost.Some? ==> dot == Dot(a, b) * DecayFactor(boost.value, exp)
  {
    dot := 0.0;
    for i := 0 to |a|
      invariant dot == Dot(a[..i], b)
    {
      assert a[..i + 1][..i] == a[..i];
      dot := dot + a[i] * b[i];
    }
    assert a[..|a|] == a;
    if boost.Some? {
      dot := dot * DecayFactor(boost.value, exp);
    }
  }

  /** The dot product is symmetric on vectors of equal length. */
  lemma {:induction false} DotSymmetric(a: seq<real>, b: seq<real>)
    requires |a| == |b|
    ensures Dot(a, b) == Dot(b, a)
  {
    if a != [] {
      var n := |a| - 1;
      DotPrefix(a[..n], b);
      DotPrefix(b[..n], a);
      DotSymmetric(a[..n], b[..n]);
    }
  }

  /** Only the first |a| entries of b matter. */
  lemma {:induction false} DotPrefix(a: seq<real>, b: seq<real>)
    requires |a| <= |b|
    ensures Dot(a, b) == Dot(a, b[..|a|])
  {
    if a != [] {
      var n := |a| - 1;
      DotPrefix(a[..n], b);
      DotPrefix(a[..n], b[..|a|]);
      assert b[..|a|][..n] == b[..n];
    }
  }

  /** An empty query vector scores 0 against anything, boosted or not. */
  lemma EmptyVectorScoresZero(b: seq<real>, boost: Option<RecencyBoost>, exp: real -> real)
    ensures Similarity([], b, boost, exp) == 0.0
  {
  }

  /** With age 0 the recency factor is 1 and the plain dot product is returned. */
  lemma FreshItemUnboosted(a: seq<real>, b: seq<real>, decay: Option<real>, exp: real -> real)
    requires |a| <= |b|
    requires IsExp(exp)
    ensures Similarity(a, b, Some(RecencyBoost(0.0, decay)), exp) == Dot(a, b)
  {
  }

  /**
   * With a positive decay and a strictly increasing exponential, of two items
   * with the same positive dot product the younger one scores strictly higher.
   */
  lemma YoungerScoresHigher(a: seq<real>, b: seq<real>, young: real, older: real, decay: real, exp: real -> real)
    requires |a| <= |b|
    requires forall x, y :: x < y ==> exp(x) < exp(y)
    requires decay > 0.0 && young < older && Dot(a, b) > 0.0
    ensures Similarity(a, b, Some(RecencyBoost(young, Some(decay))), exp)
          > Similarity(a, b, Some(RecencyBoost(older, Some(decay))), exp)
  {
    OlderDecaysMore(young, older, decay, exp);
    BoostedScaleIsMonotone(a, b, RecencyBoost(young, Some(decay)), RecencyBoost(older, Some(decay)), exp);
  }

  /** Of two boosts, the one with the larger factor gives the larger similarity. */
  lemma BoostedScaleIsMonotone(a: seq<real>, b: seq<real>, hi: RecencyBoost, lo: RecencyBoost, exp: real -> real)
    requires |a| <= |b|
    requires Dot(a, b) > 0.0 && DecayFactor(hi, exp) > DecayFactor(lo, exp)
    ensures Similarity(a, b, Some(hi), exp) > Similarity(a, b, Some(lo), exp)
  {
    ScaleIsMonotone(Dot(a, b), DecayFactor(hi, exp), DecayFactor(lo, exp));
  }

  /** The decay factor strictly shrinks with age. */
  lemma OlderDecaysMore(young: real, older: real, decay: real, exp: real -> real)
    requires forall x, y :: x < y ==> exp(x) < exp(y)
    requires decay > 0.0 && young < older
    ensures DecayFactor(RecencyBoost(young, Some(decay)), exp) > DecayFactor(RecencyBoost(older, Some(decay)), exp)
  {
    var xo, xy := -decay * older, -decay * young;
    ScaleIsMonotone(decay, older, young);
    assert xo == -(decay * older) && xy == -(decay * young);
    assert exp(xo) < exp(xy);
  }

  lemma ScaleIsMonotone(c: real, x: real, y: real)
    requires c > 0.0 && x > y
    ensures c * x > c * y
  {
    assert c * x - c * y == c * (x - y);
  }

  // ---------------------------------------------------------------------------
  // rrfMerge

  /** `1 / (k + rank + 1)`: what an entry at zero-based `rank` adds to its id's score. */
  function Contribution(k: nat, rank: nat): real
  {
    1.0 / ((k + rank + 1) as real)
  }

  /** The ids of a ranked list, in rank order. */
  function Ids<T>(list: seq<T>, idOf: T -> string): (r: seq<string>)
    ensures |r| == |list|
  {
    seq(|list|, i requires 0 <= i < |list| => idOf(list[i]))
  }

  /** Σ 1/(k+rank+1) over the ranks at which `id` occurs in the list. */
  function RankSum<T>(list: seq<T>, idOf: T -> string, id: string, k: nat): real
    decreases |list|
  {
    if list == [] then 0.0
    else
      var n := |list| - 1;
      RankSum(list[..n], idOf, id, k) + (if idOf(list[n]) == id then Contribution(k, n) else 0.0)
  }

  /** The fused score of an id: its reciprocal-rank shares in both lists. */
  function Score<T>(fts: seq<T>, vec: seq<T>, idOf: T -> string, k: nat): string -> real
  {
    id => RankSum(fts, idOf, id, k) + RankSum(vec, idOf, id, k)
  }

  /** The last entry of the list with this id (a later `items.set` overwrites an earlier one). */
  function LastWith<T>(list: seq<T>, idOf: T -> string, id: string): Option<T>
    decreases |list|
  {
    if list == [] then None
    else if idOf(list[|list| - 1]) == id then Some(list[|list| - 1])
    else LastWith(list[..|list| - 1], idOf, id)
  }

  /** acc extended by the elements of xs not yet seen, in first-occurrence order. */
  function FirstSeen(acc: seq<string>, xs: seq<string>): seq<string>
    decreases |xs|
  {
    if xs == [] then acc
    else
      var a := FirstSeen(acc, xs[..|xs| - 1]);
      if xs[|xs| - 1] in a then a else a + [xs[|xs| - 1]]
  }

  /**
   * The state of rrfMerge's two Maps: `scores` with its key insertion order
   * kept in `order`, and `items`.
   */
  datatype Fusion<T> = Fusion(order: seq<string>, scores: map<string, real>, items: map<string, T>)

  function EmptyFusion<T>(): Fusion<T>
  {
    Fusion([], map[], map[])
  }

  ghost predicate WellFormed<T>(f: Fusion<T>, idOf: T -> string)
  {
    && Distinct(f.order)
    && (forall id :: id in f.scores <==> id in f.order)
    && (forall id :: id in f.items <==> id in f.order)
    && (forall id :: id in f.items ==> idOf(f.items[id]) == id)
  }

  /** One forEach step: add the entry's share to its id's score; the entry becomes the id's item. */
  function Enter<T>(f: Fusion<T>, item: T, idOf: T -> string, rank: nat, k: nat): Fusion<T>
  {
    var id := idOf(item);
    var prior := if id in f.scores then f.scores[id] else 0.0;
    Fusion(if id in f.scores then f.order else f.order + [id],
           f.scores[id := prior + Contribution(k, rank)],
           f.items[id := item])
  }

  /** `list.forEach((item, rank) => ...)` applied to the maps f. */
  function EnterAll<T>(f: Fusion<T>, list: seq<T>, idOf: T -> string, k: nat): Fusion<T>
    decreases |list|
  {
    if list == [] then f
    else Enter(EnterAll(f, list[..|list| - 1], idOf, k), list[|list| - 1], idOf, |list| - 1, k)
  }

  /** The maps after both loops: full-text results first, then vector results. */
  function Accumulate<T>(fts: seq<T>, vec: seq<T>, idOf: T -> string, k: nat): Fusion<T>
  {
    EnterAll(EnterAll(EmptyFusion(), fts, idOf, k), vec, idOf, k)
  }

  /** `scores.get(id) ?? 0`. */
  function ScoreOf<T>(f: Fusion<T>): string -> real
  {
    id => if id in f.scores then f.scores[id] else 0.0
  }

  /** `[...scores.entries()].sort(byScoreDesc).slice(0, limit)`, as ids. */
  function RankedIds<T>(f: Fusion<T>, limit: nat): seq<string>
  {
    Take(Sorting.SortDesc(f.order, ScoreOf(f)), limit)
  }

  lemma RankedIdsFromOrder<T>(f: Fusion<T>, limit: nat)
    ensures forall id :: id in RankedIds(f, limit) ==> id in f.order
  {
    var sorted := Sorting.SortDesc(f.order, ScoreOf(f));
    forall id | id in RankedIds(f, limit) ensures id in f.order {
      assert id in sorted;
      assert id in multiset(sorted);
    }
  }

  /** The ranked ids mapped back to their items. */
  function Ranked<T>(f: Fusion<T>, idOf: T -> string, limit: nat): (r: seq<T>)
    requires WellFormed(f, idOf)
    ensures |r| == |RankedIds(f, limit)|
  {
    var ids := RankedIds(f, limit);
    RankedIdsFromOrder(f, limit);
    seq(|ids|, i requires 0 <= i < |ids| => f.items[ids[i]])
  }

  /** The ids rrfMerge returns. */
  function FusedIds<T>(fts: seq<T>, vec: seq<T>, idOf: T -> string, limit: nat, k: nat): seq<string>
  {
    RankedIds(Accumulate(fts, vec, idOf, k), limit)
  }

  /** The items rrfMerge returns. */
  function Fused<T>(fts: seq<T>, vec: seq<T>, idOf: T -> string, limit: nat, k: nat): seq<T>
  {
    AccumulateWellFormed(fts, vec, idOf, k);
    Ranked(Accumulate(fts, vec, idOf, k), idOf, limit)
  }

  method RrfMerge<T>(fts: seq<T>, vec: seq<T>, idOf: T -> string, limit: nat, k: nat)
    returns (r: seq<T>)
    ensures r == Fused(fts, vec, idOf, limit, k)
  {
    var order: seq<string> := [];
    var scores: map<string, real> := map[];
    var items: map<string, T> := map[];
    for rank := 0 to |fts|
      invariant Fusion(order, scores, items) == EnterAll(EmptyFusion(), fts[..rank], idOf, k)
    {
      assert fts[..rank + 1][..rank] == fts[..rank];
      var id := idOf(fts[rank]);
      var prior := if id in scores then scores[id] else 0.0;
      if id !in scores {
        order := order + [id];
      }
      scores := scores[id := prior + Contribution(k, rank)];
      items := items[id := fts[rank]];
    }
    assert fts[..|fts|] == fts;
    ghost var afterFts := Fusion(order, scores, items);
    for rank := 0 to |vec|
      invariant Fusion(order, scores, items) == EnterAll(afterFts, vec[..rank], idOf, k)
    {
      assert vec[..rank + 1][..rank] == vec[..rank];
      var id := idOf(vec[rank]);
      var prior := if id in scores then scores[id] else 0.0;
      if id !in scores {
        order := order + [id];
      }
      scores := scores[id := prior + Contribution(k, rank)];
      items := items[id := vec[rank]];
    }
    assert vec[..|vec|] == vec;
    AccumulateWellFormed(fts, vec, idOf, k);
    r := Ranked(Fusion(order, scores, items), idOf, limit);
  }

  // ---------------------------------------------------------------------------
  // Lemmas about the accumulated maps

  lemma {:induction false} EnterAllWellFormed<T>(f: Fusion<T>, list: seq<T>, idOf: T -> string, k: nat)
    requires WellFormed(f, idOf)
    ensures WellFormed(EnterAll(f, list, idOf, k), idOf)
    decreases |list|
  {
    if list != [] {
      var g := EnterAll(f, list[..|list| - 1], idOf, k);
      EnterAllWellFormed(f, list[..|list| - 1], idOf, k);
      var id := idOf(list[|list| - 1]);
      if id !in g.scores {
        assert id !in g.order;
        var o := g.order + [id];
        forall i, j | 0 <= i < j < |o| ensures o[i] != o[j] {
          if j == |o| - 1 {
            assert o[i] in g.order;
          }
        }
      }
    }
  }

  lemma AccumulateWellFormed<T>(fts: seq<T>, vec: seq<T>, idOf: T -> string, k: nat)
    ensures WellFormed(Accumulate(fts, vec, idOf, k), idOf)
  {
    EnterAllWellFormed(EmptyFusion(), fts, idOf, k);
    EnterAllWellFormed(EnterAll(EmptyFusion(), fts, idOf, k), vec, idOf, k);
  }

  /** After a loop, an id's score is its prior score plus its reciprocal-rank shares in the list. */
  lemma {:induction false} EnterAllScore<T>(f: Fusion<T>, list: seq<T>, idOf: T -> string, k: nat, id: string)
    ensures ScoreOf(EnterAll(f, list, idOf, k))(id) == ScoreOf(f)(id) + RankSum(list, idOf, id, k)
    ensures id in EnterAll(f, list, idOf, k).scores <==> id in f.scores || id in Ids(list, idOf)
    decreases |list|
  {
    if list != [] {
      var n := |list| - 1;
      EnterAllScore(f, list[..n], idOf, k, id);
      assert Ids(list, idOf) == Ids(list[..n], idOf) + [idOf(list[n])];
    }
  }

  /** After a loop, an id's item is the last entry of the list with that id, if any. */
  lemma {:induction false} EnterAllItem<T>(f: Fusion<T>, list: seq<T>, idOf: T -> string, k: nat, id: string)
    requires id in EnterAll(f, list, idOf, k).items
    ensures LastWith(list, idOf, id).None? ==> id in f.items
    ensures EnterAll(f, list, idOf, k).items[id]
         == match LastWith(list, idOf, id) case Some(x) => x case None => f.items[id]
    decreases |list|
  {
    if list != [] {
      var n := |list| - 1;
      if idOf(list[n]) != id {
        EnterAllItem(f, list[..n], idOf, k, id);
      }
    }
  }

  /** The score map's insertion order is the first-occurrence order of the ids entered. */
  lemma {:induction false} EnterAllOrder<T>(f: Fusion<T>, list: seq<T>, idOf: T -> string, k: nat)
    requires WellFormed(f, idOf)
    ensures EnterAll(f, list, idOf, k).order == FirstSeen(f.order, Ids(list, idOf))
    decreases |list|
  {
    if list != [] {
      var n := |list| - 1;
      EnterAllOrder(f, list[..n], idOf, k);
      EnterAllWellFormed(f, list[..n], idOf, k);
      assert Ids(list, idOf)[..n] == Ids(list[..n], idOf);
    }
  }

  lemma {:induction false} RankSumAbsent<T>(list: seq<T>, idOf: T -> string, id: string, k: nat)
    requires id !in Ids(list, idOf)
    ensures RankSum(list, idOf, id, k) == 0.0
    decreases |list|
  {
    if list != [] {
      var n := |list| - 1;
      assert Ids(list, idOf)[..n] == Ids(list[..n], idOf);
      assert Ids(list, idOf)[n] == idOf(list[n]);
      RankSumAbsent(list[..n], idOf, id, k);
    }
  }

  /** The score the maps hold for every id is its closed-form fused score. */
  lemma AccumulateScore<T>(fts: seq<T>, vec: seq<T>, idOf: T -> string, k: nat, id: string)
    ensures ScoreOf(Accumulate(fts, vec, idOf, k))(id) == Score(fts, vec, idOf, k)(id)
    ensures id in Accumulate(fts, vec, idOf, k).order <==> id in Ids(fts, idOf) || id in Ids(vec, idOf)
  {
    var f0: Fusion<T> := EmptyFusion();
    EnterAllScore(f0, fts, idOf, k, id);
    EnterAllScore(EnterAll(f0, fts, idOf, k), vec, idOf, k, id);
    AccumulateWellFormed(fts, vec, idOf, k);
  }

  // ---------------------------------------------------------------------------
  // What rrfMerge promises

  lemma {:induction false} PermutationKeepsDistinct<T>(s: seq<T>, r: seq<T>)
    requires Distinct(s) && multiset(r) == multiset(s)
    ensures Distinct(r)
  {
    forall i, j | 0 <= i < j < |r| ensures r[i] != r[j] {
      if r[i] == r[j] {
        assert r == r[..i] + [r[i]] + r[i + 1..j] + [r[j]] + r[j + 1..];
        assert multiset(r)[r[i]] >= 2;
        DistinctMultiplicity(s, r[i]);
      }
    }
  }

  lemma {:induction false} DistinctMultiplicity<T>(s: seq<T>, x: T)
    requires Distinct(s)
    ensures multiset(s)[x] <= 1
  {
    if s != [] {
      DistinctMultiplicity(s[1..], x);
      assert s == [s[0]] + s[1..];
      if s[0] == x {
        assert x !in s[1..] by {
          forall j | 0 <= j < |s| - 1 ensures s[1..][j] != x {
            assert s[1..][j] == s[j + 1];
          }
        }
      }
    }
  }

  /** No id is returned twice. */
  lemma FusedDistinct<T>(fts: seq<T>, vec: seq<T>, idOf: T -> string, limit: nat, k: nat)
    ensures Distinct(FusedIds(fts, vec, idOf, limit, k))
    ensures forall i :: 0 <= i < |Fused(fts, vec, idOf, limit, k)| ==>
              idOf(Fused(fts, vec, idOf, limit, k)[i]) == FusedIds(fts, vec, idOf, limit, k)[i]
  {
    var f := Accumulate(fts, vec, idOf, k);
    AccumulateWellFormed(fts, vec, idOf, k);
    var sorted := Sorting.SortDesc(f.order, ScoreOf(f));
    PermutationKeepsDistinct(f.order, sorted);
    var ids := FusedIds(fts, vec, idOf, limit, k);
    assert ids == sorted[..|ids|];
    RankedIdsFromOrder(f, limit);
  }

  /** Every returned id comes from one of the two lists, and every id of the lists is a candidate. */
  lemma FusedFromInputs<T>(fts: seq<T>, vec: seq<T>, idOf: T -> string, limit: nat, k: nat)
    ensures forall id :: id in FusedIds(fts, vec, idOf, limit, k) ==> id in Ids(fts, idOf) || id in Ids(vec, idOf)
  {
    var f := Accumulate(fts, vec, idOf, k);
    RankedIdsFromOrder(f, limit);
    forall id | id in FusedIds(fts, vec, idOf, limit, k)
      ensures id in Ids(fts, idOf) || id in Ids(vec, idOf)
    {
      AccumulateScore(fts, vec, idOf, k, id);
    }
  }

  /** The result has min(limit, number of distinct ids across both lists) entries. */
  lemma FusedLength<T>(fts: seq<T>, vec: seq<T>, idOf: T -> string, limit: nat, k: nat)
    ensures var distinct := |set id | id in Ids(fts, idOf) + Ids(vec, idOf)|;
            |Fused(fts, vec, idOf, limit, k)| == if limit < distinct then limit else distinct
  {
    var f := Accumulate(fts, vec, idOf, k);
    AccumulateWellFormed(fts, vec, idOf, k);
    DistinctCardinality(f.order);
    forall id ensures id in f.order <==> id in Ids(fts, idOf) + Ids(vec, idOf) {
      AccumulateScore(fts, vec, idOf, k, id);
    }
    assert (set id | id in f.order) == (set id | id in Ids(fts, idOf) + Ids(vec, idOf));
  }

  lemma SortedDescCongruent<T>(s: seq<T>, key1: T -> real, key2: T -> real)
    requires forall i :: 0 <= i < |s| ==> key1(s[i]) == key2(s[i])
    requires Sorting.SortedDesc(s, key1)
    ensures Sorting.SortedDesc(s, key2)
  {
  }

  lemma {:induction false} WithKeyCongruent<T>(s: seq<T>, key1: T -> real, key2: T -> real, v: real)
    requires forall i :: 0 <= i < |s| ==> key1(s[i]) == key2(s[i])
    ensures Sorting.WithKey(s, key1, v) == Sorting.WithKey(s, key2, v)
  {
    if s != [] {
      WithKeyCongruent(s[1..], key1, key2, v);
    }
  }

  /** The result is in non-increasing order of fused score. */
  lemma FusedSorted<T>(fts: seq<T>, vec: seq<T>, idOf: T -> string, limit: nat, k: nat)
    ensures Sorting.SortedDesc(FusedIds(fts, vec, idOf, limit, k), Score(fts, vec, idOf, k))
  {
    var f := Accumulate(fts, vec, idOf, k);
    var sorted := Sorting.SortDesc(f.order, ScoreOf(f));
    Sorting.SortDescSorted(f.order, ScoreOf(f));
    var ids := FusedIds(fts, vec, idOf, limit, k);
    assert ids == sorted[..|ids|];
    forall i | 0 <= i < |ids| ensures ScoreOf(f)(ids[i]) == Score(fts, vec, idOf, k)(ids[i]) {
      AccumulateScore(fts, vec, idOf, k, ids[i]);
    }
    SortedDescCongruent(ids, ScoreOf(f), Score(fts, vec, idOf, k));
  }

  /** Cutting a sequence keeps, for each key, a prefix of the elements with that key. */
  lemma TakeWithKeyPrefix<T>(s: seq<T>, n: nat, key: T -> real, v: real)
    ensures Sorting.WithKey(Take(s, n), key, v) <= Sorting.WithKey(s, key, v)
  {
    var t := Take(s, n);
    assert s == t + s[|t|..];
    Sorting.WithKeyAppend(t, s[|t|..], key, v);
  }

  /** The insertion order of the score map, and the score it holds, in closed form. */
  lemma AccumulateOrder<T>(fts: seq<T>, vec: seq<T>, idOf: T -> string, k: nat)
    ensures Accumulate(fts, vec, idOf, k).order == FirstSeen(FirstSeen([], Ids(fts, idOf)), Ids(vec, idOf))
    ensures forall id :: ScoreOf(Accumulate(fts, vec, idOf, k))(id) == Score(fts, vec, idOf, k)(id)
  {
    var f0: Fusion<T> := EmptyFusion();
    EnterAllOrder(f0, fts, idOf, k);
    EnterAllWellFormed(f0, fts, idOf, k);
    EnterAllOrder(EnterAll(f0, fts, idOf, k), vec, idOf, k);
    forall id ensures ScoreOf(Accumulate(fts, vec, idOf, k))(id) == Score(fts, vec, idOf, k)(id) {
      AccumulateScore(fts, vec, idOf, k, id);
    }
  }

  /** The order in which ids first enter the score map: full-text ids, then vector-only ids. */
  function InsertionOrder<T>(fts: seq<T>, vec: seq<T>, idOf: T -> string): seq<string>
  {
    FirstSeen(FirstSeen([], Ids(fts, idOf)), Ids(vec, idOf))
  }

  /**
   * Ties keep first-insertion order: for every score value, the returned ids
   * with that score are a prefix of the ids with that score in insertion order
   * (full-text ids in full-text order, then ids seen only in the vector list,
   * in vector order).
   */
  lemma FusedTiesInInsertionOrder<T>(fts: seq<T>, vec: seq<T>, idOf: T -> string, limit: nat, k: nat, v: real)
    ensures Sorting.WithKey(FusedIds(fts, vec, idOf, limit, k), Score(fts, vec, idOf, k), v)
         <= Sorting.WithKey(InsertionOrder(fts, vec, idOf), Score(fts, vec, idOf, k), v)
  {
    var f := Accumulate(fts, vec, idOf, k);
    AccumulateOrder(fts, vec, idOf, k);
    var score := Score(fts, vec, idOf, k);
    var key := ScoreOf(f);
    var sorted := Sorting.SortDesc(f.order, key);
    var ids := FusedIds(fts, vec, idOf, limit, k);
    assert ids == Take(sorted, limit);
    WithKeyCongruent(ids, key, score, v);
    TakeWithKeyPrefix(sorted, limit, key, v);
    Sorting.SortDescStable(f.order, key, v);
    WithKeyCongruent(f.order, key, score, v);
  }

  /** An id found in both lists is returned as the vector-list entry (the later `set` wins). */
  lemma FusedItemChoice<T>(fts: seq<T>, vec: seq<T>, idOf: T -> string, limit: nat, k: nat, i: nat)
    requires i < |Fused(fts, vec, idOf, limit, k)|
    ensures LastWith(vec, idOf, FusedIds(fts, vec, idOf, limit, k)[i]).None? ==>
              LastWith(fts, idOf, FusedIds(fts, vec, idOf, limit, k)[i]).Some?
    ensures var id := FusedIds(fts, vec, idOf, limit, k)[i];
            Fused(fts, vec, idOf, limit, k)[i]
              == match LastWith(vec, idOf, id)
                 case Some(x) => x
                 case None => LastWith(fts, idOf, id).value
  {
    var f0: Fusion<T> := EmptyFusion();
    var f := Accumulate(fts, vec, idOf, k);
    AccumulateWellFormed(fts, vec, idOf, k);
    var id := FusedIds(fts, vec, idOf, limit, k)[i];
    RankedIdsFromOrder(f, limit);
    EnterAllItem(EnterAll(f0, fts, idOf, k), vec, idOf, k, id);
    if LastWith(vec, idOf, id).None? {
      EnterAllItem(f0, fts, idOf, k, id);
    }
  }

  /** Ids that are their own keys. */
  function SelfId(x: string): string
  {
    x
  }

  /** The scores of the worked example, as a key for the sort. */
  ghost predicate ExampleKey(key: string -> real, a: string, b: string, c: string, d: string)
  {
    && key(a) == 1.0 / 61.0 && key(b) == 1.0 / 61.0 + 1.0 / 62.0
    && key(c) == 1.0 / 63.0 && key(d) == 1.0 / 62.0
  }

  /** The maps after the first two full-text entries a, b. */
  lemma ExampleFirstTwo(a: string, b: string, c: string, d: string)
    requires a != b && a != c && a != d && b != c && b != d && c != d
    ensures var e := EnterAll(EmptyFusion<string>(), [a, b], SelfId, DefaultK);
            && e.order == [a, b] && c !in e.scores && d !in e.scores
            && a in e.scores && e.scores[a] == 1.0 / 61.0
            && b in e.scores && e.scores[b] == 1.0 / 62.0
  {
    var e0: Fusion<string> := EmptyFusion();
    var fts := [a, b];
    assert fts[..1] == [a] && fts[..1][..0] == [];
    assert EnterAll(e0, fts[..1][..0], SelfId, DefaultK) == e0;
    var e1 := EnterAll(e0, fts[..1], SelfId, DefaultK);
    assert e1 == Enter(e0, a, SelfId, 0, DefaultK);
    assert [a] + [b] == [a, b];
  }

  /** The maps after the full-text list [a,b,c]. */
  lemma ExampleFullText(a: string, b: string, c: string, d: string)
    requires a != b && a != c && a != d && b != c && b != d && c != d
    ensures var e := EnterAll(EmptyFusion<string>(), [a, b, c], SelfId, DefaultK);
            && e.order == [a, b, c] && d !in e.scores
            && a in e.scores && e.scores[a] == 1.0 / 61.0
            && b in e.scores && e.scores[b] == 1.0 / 62.0
            && c in e.scores && e.scores[c] == 1.0 / 63.0
  {
    ExampleFirstTwo(a, b, c, d);
    var fts := [a, b, c];
    assert fts[..2] == [a, b];
    assert [a, b] + [c] == [a, b, c];
  }

  /** The maps after entering [a,b,c] then [b,d], for any four distinct ids. */
  lemma ExampleMaps(a: string, b: string, c: string, d: string)
    requires a != b && a != c && a != d && b != c && b != d && c != d
    ensures var f := Accumulate([a, b, c], [b, d], SelfId, DefaultK);
            f.order == [a, b, c, d] && ExampleKey(ScoreOf(f), a, b, c, d)
  {
    ExampleFullText(a, b, c, d);
    var e3 := EnterAll(EmptyFusion<string>(), [a, b, c], SelfId, DefaultK);
    var vec := [b, d];
    assert vec[..1] == [b] && vec[..1][..0] == [];
    assert EnterAll(e3, vec[..1][..0], SelfId, DefaultK) == e3;
    var e4 := EnterAll(e3, vec[..1], SelfId, DefaultK);
    assert e4 == Enter(e3, b, SelfId, 0, DefaultK);
    var f := EnterAll(e3, vec, SelfId, DefaultK);
    assert f == Enter(e4, d, SelfId, 1, DefaultK);
    assert [a, b, c] + [d] == [a, b, c, d];
  }

  lemma ExampleSortTwo(key: string -> real, a: string, b: string, c: string, d: string)
    requires ExampleKey(key, a, b, c, d)
    ensures Sorting.SortDesc([a, b], key) == [b, a]
  {
    Sorting.SortDescSnoc([], a, key);
    Sorting.SortDescSnoc([a], b, key);
    assert [] + [a] == [a] && [a] + [b] == [a, b];
    Sorting.InsertHere(b, a, [], key);
  }

  lemma ExampleSortThree(key: string -> real, a: string, b: string, c: string, d: string)
    requires ExampleKey(key, a, b, c, d)
    ensures Sorting.SortDesc([a, b, c], key) == [b, a, c]
  {
    Sorting.SortDescSnoc([a, b], c, key);
    assert [a, b] + [c] == [a, b, c];
    ExampleSortTwo(key, a, b, c, d);
    Sorting.InsertAfterTwo(c, b, a, key);
  }

  /** The stable sort of a, b, c, d under those scores. */
  lemma ExampleSort(key: string -> real, a: string, b: string, c: string, d: string)
    requires ExampleKey(key, a, b, c, d)
    ensures Sorting.SortDesc([a, b, c, d], key) == [b, a, d, c]
  {
    Sorting.SortDescSnoc([a, b, c], d, key);
    assert [a, b, c] + [d] == [a, b, c, d];
    ExampleSortThree(key, a, b, c, d);
    Sorting.InsertBeforeThird(d, b, a, c, key);
  }

  /**
   * rrfMerge([a,b,c], [b,d], 3) = [b, a, d] for any four distinct ids:
   * 1/61+1/62 > 1/61 > 1/62 > 1/63.
   */
  lemma WorkedExample(a: string, b: string, c: string, d: string)
    requires a != b && a != c && a != d && b != c && b != d && c != d
    ensures FusedIds([a, b, c], [b, d], SelfId, 3, DefaultK) == [b, a, d]
  {
    var f := Accumulate([a, b, c], [b, d], SelfId, DefaultK);
    ExampleMaps(a, b, c, d);
    ExampleSort(ScoreOf(f), a, b, c, d);
    TakeThree(b, a, d, c);
  }

  lemma TakeThree<T>(p: T, q: T, r: T, s: T)
    ensures Take([p, q, r, s], 3) == [p, q, r]
  {
    assert [p, q, r, s][..3] == [p, q, r];
  }
}
