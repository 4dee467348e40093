/** Reciprocal Rank Fusion of a text list and a vector list, and the hybrid search built on it, over exact reals. */
module RankFusion {
  import opened Wrappers
  import opened StableSort

  type MemoryId = string

  const SMOOTHING := 60
  const WEIGHT_FTS := 1.0
  const WEIGHT_VEC := 1.5

  datatype Ranked = Ranked(id: MemoryId, rank: nat)

  datatype Fused = Fused(id: MemoryId, score: real, ftsRank: Option<nat>, vecRank: Option<nat>)

  function Reciprocal(weight: real, rank: nat): real {
    weight / ((SMOOTHING + rank) as real)
  }

  // ---------------------------------------------------------------------------
  // What each list contributes to a document
  // ---------------------------------------------------------------------------

  /** The rank of the last entry for the id: in the text list a later entry replaces an earlier one. */
  function LastRank(list: seq<Ranked>, id: MemoryId): Option<nat> {
    if list == [] then None
    else
      var n := |list| - 1;
      if list[n].id == id then Some(list[n].rank) else LastRank(list[..n], id)
  }

  /** In the vector list every entry for the id adds its share. */
  function VectorShare(list: seq<Ranked>, weight: real, id: MemoryId): real {
    if list == [] then 0.0
    else
      var n := |list| - 1;
      VectorShare(list[..n], weight, id) + if list[n].id == id then Reciprocal(weight, list[n].rank) else 0.0
  }

  function TextShare(list: seq<Ranked>, weight: real, id: MemoryId): real {
    var rank := LastRank(list, id);
    if rank.Some? then Reciprocal(weight, rank.value) else 0.0
  }

  function Score(fts: seq<Ranked>, vec: seq<Ranked>, weightFts: real, weightVec: real, id: MemoryId): real {
    TextShare(fts, weightFts, id) + VectorShare(vec, weightVec, id)
  }

  predicate Lists(list: seq<Ranked>, id: MemoryId) {
    LastRank(list, id).Some?
  }

  /** The exact fused entry of a document. */
  function Entry(fts: seq<Ranked>, vec: seq<Ranked>, weightFts: real, weightVec: real, id: MemoryId): Fused {
    Fused(id, Score(fts, vec, weightFts, weightVec, id), LastRank(fts, id), LastRank(vec, id))
  }

  lemma {:induction false} AbsentAddsNothing(list: seq<Ranked>, weight: real, id: MemoryId)
    requires !Lists(list, id)
    ensures VectorShare(list, weight, id) == 0.0
  {
    if list != [] {
      AbsentAddsNothing(list[..|list| - 1], weight, id);
    }
  }

  // ---------------------------------------------------------------------------
  // The fusion
  // ---------------------------------------------------------------------------

  function NegatedScore(f: Fused): real { -f.score }

  ghost predicate NoDuplicates(ids: seq<MemoryId>) {
    forall i, j :: 0 <= i < j < |ids| ==> ids[i] != ids[j]
  }

  /** The ids of a list in the order an insertion-ordered map first meets them. */
  function FirstSeen(list: seq<Ranked>): (ids: seq<MemoryId>)
    ensures NoDuplicates(ids) && forall id :: id in ids <==> Lists(list, id)
  {
    if list == [] then []
    else
      var n := |list| - 1;
      var seen := FirstSeen(list[..n]);
      if list[n].id in seen then seen else seen + [list[n].id]
  }

  function Entries(fts: seq<Ranked>, vec: seq<Ranked>, wf: real, wv: real, ids: seq<MemoryId>): (entries: seq<Fused>)
    ensures |entries| == |ids| && forall i :: 0 <= i < |ids| ==> entries[i] == Entry(fts, vec, wf, wv, ids[i])
  {
    seq(|ids|, i requires 0 <= i < |ids| => Entry(fts, vec, wf, wv, ids[i]))
  }

  /** Every document once, with its exact entry, by descending score; ties stay in order of first appearance. */
  function Fusion(fts: seq<Ranked>, vec: seq<Ranked>, wf: real, wv: real): seq<Fused> {
    Sort(NegatedScore, Entries(fts, vec, wf, wv, FirstSeen(fts + vec)))
  }

  lemma {:induction false} ListsAppend(a: seq<Ranked>, b: seq<Ranked>, id: MemoryId)
    ensures Lists(a + b, id) <==> Lists(a, id) || Lists(b, id)
  {
    if b == [] {
      assert a + b == a;
    } else {
      assert (a + b)[..|a + b| - 1] == a + b[..|b| - 1];
      ListsAppend(a, b[..|b| - 1], id);
    }
  }

  ghost predicate HoldsEntries(fts: seq<Ranked>, vec: seq<Ranked>, wf: real, wv: real, ids: seq<MemoryId>,
      merged: map<MemoryId, Fused>) {
    && (forall id :: id in ids <==> id in merged)
    && (forall id :: id in merged ==> merged[id] == Entry(fts, vec, wf, wv, id))
  }

  /** The text loop: each entry is set, a later one replacing an earlier one. */
  method MergeText(fts: seq<Ranked>, weightFts: real, ghost weightVec: real)
    returns (merged: map<MemoryId, Fused>, order: seq<MemoryId>)
    ensures order == FirstSeen(fts) && HoldsEntries(fts, [], weightFts, weightVec, order, merged)
  {
    merged, order := map[], [];
    for i := 0 to |fts|
      invariant order == FirstSeen(fts[..i]) && HoldsEntries(fts[..i], [], weightFts, weightVec, order, merged)
    {
      var item := fts[i];
      assert fts[..i + 1][..i] == fts[..i];
      if item.id !in merged {
        order := order + [item.id];
      }
      merged := merged[item.id := Fused(item.id, Reciprocal(weightFts, item.rank), Some(item.rank), None)];
    }
    assert fts[..|fts|] == fts;
  }

  /** One more vector entry moves its own document's entry and no other. */
  lemma EntryGrows(fts: seq<Ranked>, vec: seq<Ranked>, j: nat, wf: real, wv: real, id: MemoryId)
    requires j < |vec|
    ensures var before, after := Entry(fts, vec[..j], wf, wv, id), Entry(fts, vec[..j + 1], wf, wv, id);
            if vec[j].id != id then after == before
            else && after == before.(score := before.score + Reciprocal(wv, vec[j].rank), vecRank := Some(vec[j].rank))
                 && (!Lists(fts, id) && !Lists(vec[..j], id) ==>
                       after == Fused(id, Reciprocal(wv, vec[j].rank), None, Some(vec[j].rank)))
  {
    assert vec[..j + 1][..j] == vec[..j];
    if !Lists(vec[..j], id) {
      AbsentAddsNothing(vec[..j], wv, id);
    }
  }

  lemma OrderGrows(fts: seq<Ranked>, vec: seq<Ranked>, j: nat)
    requires j < |vec|
    ensures var before := FirstSeen(fts + vec[..j]);
            FirstSeen(fts + vec[..j + 1]) == if vec[j].id in before then before else before + [vec[j].id]
  {
    assert (fts + vec[..j + 1])[..|fts| + j] == fts + vec[..j];
  }

  lemma SeenBefore(fts: seq<Ranked>, vec: seq<Ranked>, j: nat)
    requires j < |vec|
    ensures vec[j].id in FirstSeen(fts + vec[..j]) <==> Lists(fts, vec[j].id) || Lists(vec[..j], vec[j].id)
  {
    ListsAppend(fts, vec[..j], vec[j].id);
  }

  lemma HoldsGrows(fts: seq<Ranked>, vec: seq<Ranked>, j: nat, wf: real, wv: real, ids: seq<MemoryId>,
      merged: map<MemoryId, Fused>)
    requires j < |vec| && HoldsEntries(fts, vec[..j], wf, wv, ids, merged)
    ensures var id := vec[j].id;
            HoldsEntries(fts, vec[..j + 1], wf, wv, if id in ids then ids else ids + [id],
                         merged[id := Entry(fts, vec[..j + 1], wf, wv, id)])
  {
    forall id | id in merged && id != vec[j].id
      ensures merged[id] == Entry(fts, vec[..j + 1], wf, wv, id)
    {
      EntryGrows(fts, vec, j, wf, wv, id);
    }
  }

  lemma VectorStep(fts: seq<Ranked>, vec: seq<Ranked>, j: nat, wf: real, wv: real, ids: seq<MemoryId>,
      merged: map<MemoryId, Fused>)
    requires j < |vec| && ids == FirstSeen(fts + vec[..j]) && HoldsEntries(fts, vec[..j], wf, wv, ids, merged)
    ensures var id, rank, share := vec[j].id, vec[j].rank, Reciprocal(wv, vec[j].rank);
            if id in merged
            then && FirstSeen(fts + vec[..j + 1]) == ids
                 && HoldsEntries(fts, vec[..j + 1], wf, wv, ids,
                                 merged[id := merged[id].(score := merged[id].score + share, vecRank := Some(rank))])
            else && FirstSeen(fts + vec[..j + 1]) == ids + [id]
                 && HoldsEntries(fts, vec[..j + 1], wf, wv, ids + [id],
                                 merged[id := Fused(id, share, None, Some(rank))])
  {
    OrderGrows(fts, vec, j);
    SeenBefore(fts, vec, j);
    EntryGrows(fts, vec, j, wf, wv, vec[j].id);
    HoldsGrows(fts, vec, j, wf, wv, ids, merged);
  }

  /** The vector loop: each entry adds to what is there, or is set. */
  method MergeVectors(fts: seq<Ranked>, vec: seq<Ranked>, weightFts: real,
      weightVec: real, merged0: map<MemoryId, Fused>, order0: seq<MemoryId>)
    returns (merged: map<MemoryId, Fused>, order: seq<MemoryId>)
    requires order0 == FirstSeen(fts) && HoldsEntries(fts, [], weightFts, weightVec, order0, merged0)
    ensures order == FirstSeen(fts + vec) && HoldsEntries(fts, vec, weightFts, weightVec, order, merged)
  {
    merged, order := merged0, order0;
    assert fts + vec[..0] == fts;
    for j := 0 to |vec|
      invariant order == FirstSeen(fts + vec[..j]) && HoldsEntries(fts, vec[..j], weightFts, weightVec, order, merged)
    {
      var item := vec[j];
      VectorStep(fts, vec, j, weightFts, weightVec, order, merged);
      var share := Reciprocal(weightVec, item.rank);
      if item.id in merged {
        var existing := merged[item.id];
        merged := merged[item.id := existing.(score := existing.score + share, vecRank := Some(item.rank))];
      } else {
        order := order + [item.id];
        merged := merged[item.id := Fused(item.id, share, None, Some(item.rank))];
      }
    }
    assert vec[..|vec|] == vec;
  }

  method ComputeRRF(fts: seq<Ranked>, vec: seq<Ranked>, weightFts: real, weightVec: real) returns (fused: seq<Fused>)
    ensures fused == Fusion(fts, vec, weightFts, weightVec)
  {
    var merged, order := MergeText(fts, weightFts, weightVec);
    merged, order := MergeVectors(fts, vec, weightFts, weightVec, merged, order);
    var values := seq(|order|, i requires 0 <= i < |order| && order[i] in merged => merged[order[i]]);
    assert values == Entries(fts, vec, weightFts, weightVec, order);
    fused := Sort(NegatedScore, values);
  }

  // ---------------------------------------------------------------------------
  // What fusion means
  // ---------------------------------------------------------------------------

  ghost predicate DistinctIds(fused: seq<Fused>) {
    forall i, j :: 0 <= i < j < |fused| ==> fused[i].id != fused[j].id
  }

  lemma DistinctIsPermutable(a: seq<Fused>, b: seq<Fused>)
    requires DistinctIds(a) && multiset(a) == multiset(b)
    ensures DistinctIds(b)
  {
    forall i, j | 0 <= i < j < |b| ensures b[i].id != b[j].id {
      if b[i] == b[j] {
        assert b == b[..j] + [b[j]] + b[j + 1..] && b[i] in b[..j];
        assert multiset(b)[b[j]] >= 2;
        Twice(a, b[j]);
      } else {
        assert b[i] in multiset(a) && b[j] in multiset(a);
      }
    }
  }

  lemma {:induction false} Twice<T>(s: seq<T>, x: T)
    requires multiset(s)[x] >= 2
    ensures exists i, j :: 0 <= i < j < |s| && s[i] == s[j] == x
  {
    var n := |s| - 1;
    assert s == s[..n] + [s[n]];
    if s[n] == x {
      assert x in multiset(s[..n]);
      var i :| 0 <= i < n && s[..n][i] == x;
      assert s[i] == s[n] == x;
    } else {
      Twice(s[..n], x);
      var i, j :| 0 <= i < j < n && s[..n][i] == s[..n][j] == x;
      assert s[i] == s[j] == x;
    }
  }

  /** Fusion lists each document of either list exactly once, with its exact score and ranks, best first. */
  lemma FusionIsExact(fts: seq<Ranked>, vec: seq<Ranked>, wf: real, wv: real)
    ensures var fused := Fusion(fts, vec, wf, wv);
            && DistinctIds(fused)
            && (forall i, j :: 0 <= i < j < |fused| ==> fused[i].score >= fused[j].score)
            && (forall i :: 0 <= i < |fused| ==>
                  && (Lists(fts, fused[i].id) || Lists(vec, fused[i].id))
                  && fused[i] == Entry(fts, vec, wf, wv, fused[i].id))
            && (forall id :: Lists(fts, id) || Lists(vec, id) ==> Entry(fts, vec, wf, wv, id) in fused)
  {
    var ids := FirstSeen(fts + vec);
    var entries, fused := Entries(fts, vec, wf, wv, ids), Fusion(fts, vec, wf, wv);
    DistinctIsPermutable(entries, fused);
    forall i | 0 <= i < |fused|
      ensures (Lists(fts, fused[i].id) || Lists(vec, fused[i].id)) && fused[i] == Entry(fts, vec, wf, wv, fused[i].id)
    {
      assert fused[i] in multiset(entries);
      ListsAppend(fts, vec, fused[i].id);
    }
    forall id | Lists(fts, id) || Lists(vec, id) ensures Entry(fts, vec, wf, wv, id) in fused {
      ListsAppend(fts, vec, id);
      var i :| 0 <= i < |ids| && ids[i] == id;
      assert entries[i] in multiset(fused);
    }
    forall i, j | 0 <= i < j < |fused| ensures fused[i].score >= fused[j].score {
      assert NegatedScore(fused[i]) <= NegatedScore(fused[j]);
    }
  }

  // ---------------------------------------------------------------------------
  // Scores of distinct, one-based lists
  // ---------------------------------------------------------------------------

  ghost predicate Distinct(list: seq<Ranked>) {
    forall i, j :: 0 <= i < j < |list| ==> list[i].id != list[j].id
  }

  ghost predicate OneBased(list: seq<Ranked>) {
    forall i :: 0 <= i < |list| ==> list[i].rank == i + 1
  }

  lemma ReciprocalFalls(weight: real, better: nat, worse: nat)
    requires weight >= 0.0 && better <= worse
    ensures Reciprocal(weight, better) >= Reciprocal(weight, worse) >= 0.0
    ensures weight > 0.0 ==> Reciprocal(weight, worse) > 0.0
    ensures weight > 0.0 && better < worse ==> Reciprocal(weight, better) > Reciprocal(weight, worse)
  {
    var p, q := (SMOOTHING + better) as real, (SMOOTHING + worse) as real;
    assert weight / p - weight / q == weight * (q - p) / (p * q);
  }

  /** In a list with distinct ids the vector share is the weighted reciprocal of the document's one rank. */
  lemma {:induction false} DistinctShare(list: seq<Ranked>, weight: real, id: MemoryId)
    requires Distinct(list)
    ensures VectorShare(list, weight, id) == TextShare(list, weight, id)
  {
    if list != [] {
      var n := |list| - 1;
      if list[n].id == id {
        NotBefore(list, n);
        AbsentAddsNothing(list[..n], weight, id);
      } else {
        DistinctShare(list[..n], weight, id);
      }
    }
  }

  lemma {:induction false} NotBefore(list: seq<Ranked>, n: nat)
    requires Distinct(list) && n < |list|
    ensures !Lists(list[..n], list[n].id)
  {
    ListedSomewhere(list[..n], list[n].id);
  }

  lemma {:induction false} ListedSomewhere(list: seq<Ranked>, id: MemoryId)
    ensures Lists(list, id) ==> exists i :: 0 <= i < |list| && list[i] == Ranked(id, LastRank(list, id).value)
    ensures !Lists(list, id) ==> forall i :: 0 <= i < |list| ==> list[i].id != id
  {
    if list != [] {
      ListedSomewhere(list[..|list| - 1], id);
    }
  }

  /** `a` is in the list whenever `b` is, and ranks no worse. */
  ghost predicate AtLeastAsGood(list: seq<Ranked>, a: MemoryId, b: MemoryId) {
    Lists(list, b) ==> Lists(list, a) && LastRank(list, a).value <= LastRank(list, b).value
  }

  lemma ShareIsMonotone(list: seq<Ranked>, weight: real, a: MemoryId, b: MemoryId)
    requires weight >= 0.0 && AtLeastAsGood(list, a, b)
    ensures TextShare(list, weight, a) >= TextShare(list, weight, b) >= 0.0
  {
    if Lists(list, b) {
      ReciprocalFalls(weight, LastRank(list, a).value, LastRank(list, b).value);
    } else if Lists(list, a) {
      ReciprocalFalls(weight, LastRank(list, a).value, LastRank(list, a).value);
    }
  }

  /** A document at least as good in both lists scores at least as high. */
  lemma BetterScoresHigher(fts: seq<Ranked>, vec: seq<Ranked>, wf: real, wv: real, a: MemoryId, b: MemoryId)
    requires Distinct(vec) && wf >= 0.0 && wv >= 0.0
    requires AtLeastAsGood(fts, a, b) && AtLeastAsGood(vec, a, b)
    ensures Score(fts, vec, wf, wv, a) >= Score(fts, vec, wf, wv, b)
  {
    DistinctShare(vec, wv, a);
    DistinctShare(vec, wv, b);
    ShareIsMonotone(fts, wf, a, b);
    ShareIsMonotone(vec, wv, a, b);
  }

  lemma ShareIsBounded(list: seq<Ranked>, weight: real, id: MemoryId)
    requires OneBased(list) && weight > 0.0
    ensures 0.0 <= TextShare(list, weight, id) <= Reciprocal(weight, 1)
    ensures Lists(list, id) ==> TextShare(list, weight, id) > 0.0
  {
    if Lists(list, id) {
      ListedSomewhere(list, id);
      ReciprocalFalls(weight, 1, LastRank(list, id).value);
    } else {
      ReciprocalFalls(weight, 1, 1);
    }
  }

  // ---------------------------------------------------------------------------
  // Hybrid search
  // ---------------------------------------------------------------------------

  datatype SearchResult = SearchResult(id: MemoryId, score: real)

  function MaxScore(): real {
    (WEIGHT_FTS + WEIGHT_VEC) / ((SMOOTHING + 1) as real)
  }

  /** One-based ranks by position. */
  function Rank(ids: seq<MemoryId>): (list: seq<Ranked>)
    ensures |list| == |ids| && OneBased(list) && forall i :: 0 <= i < |ids| ==> list[i].id == ids[i]
  {
    seq(|ids|, i requires 0 <= i < |ids| => Ranked(ids[i], i + 1))
  }

  function Normalise(score: real): real {
    score / MaxScore()
  }

  function Clamp(score: real): real {
    if score < 1.0 then score else 1.0
  }

  /** The normalised score of a document, before the clamp. */
  function Normalised(fts: seq<MemoryId>, vec: seq<MemoryId>, id: MemoryId): real {
    Normalise(Score(Rank(fts), Rank(vec), WEIGHT_FTS, WEIGHT_VEC, id))
  }

  /** In exact arithmetic every fused document's normalised score lies in (0, 1], so the clamp never fires. */
  lemma NormalisedInRange(fts: seq<MemoryId>, vec: seq<MemoryId>, id: MemoryId)
    requires NoDuplicates(vec) && (Lists(Rank(fts), id) || Lists(Rank(vec), id))
    ensures 0.0 < Normalised(fts, vec, id) <= 1.0
  {
    DistinctShare(Rank(vec), WEIGHT_VEC, id);
    ShareIsBounded(Rank(fts), WEIGHT_FTS, id);
    ShareIsBounded(Rank(vec), WEIGHT_VEC, id);
    var score := Score(Rank(fts), Rank(vec), WEIGHT_FTS, WEIGHT_VEC, id);
    assert 0.0 < score <= MaxScore();
  }

  function Filter(fused: seq<Fused>, allowed: set<MemoryId>): seq<Fused> {
    if fused == [] then []
    else
      var n := |fused| - 1;
      Filter(fused[..n], allowed) + if fused[n].id in allowed then [fused[n]] else []
  }

  /** Filtering keeps order and exactly the allowed entries. */
  lemma {:induction false} FilterKeeps(fused: seq<Fused>, allowed: set<MemoryId>)
    requires DistinctIds(fused) && SortedBy(NegatedScore, fused)
    ensures var kept := Filter(fused, allowed);
            && DistinctIds(kept) && SortedBy(NegatedScore, kept)
            && (forall f :: f in kept <==> f in fused && f.id in allowed)
  {
    if fused != [] {
      var n := |fused| - 1;
      FilterKeeps(fused[..n], allowed);
      var kept := Filter(fused[..n], allowed);
      assert fused == fused[..n] + [fused[n]];
      forall i | 0 <= i < |kept| ensures kept[i].id != fused[n].id && NegatedScore(kept[i]) <= NegatedScore(fused[n]) {
        assert kept[i] in fused[..n];
      }
    }
  }

  /** Distinct allowed entries, best first, such that no allowed entry left out beats one that is kept. */
  ghost predicate BestOf(fused: seq<Fused>, allowed: set<MemoryId>, limit: nat, kept: seq<Fused>) {
    && |kept| <= limit && DistinctIds(kept)
    && (forall i :: 0 <= i < |kept| ==> kept[i] in fused && kept[i].id in allowed)
    && (forall i, j :: 0 <= i < j < |kept| ==> kept[i].score >= kept[j].score)
    && (forall f :: f in fused && f.id in allowed && f !in kept ==>
          |kept| == limit && forall i :: 0 <= i < |kept| ==> kept[i].score >= f.score)
  }

  lemma LeftOutIsNoBetter(all: seq<Fused>, limit: nat, f: Fused)
    requires SortedBy(NegatedScore, all) && f in all && f !in Take(all, limit)
    ensures |Take(all, limit)| == limit
    ensures forall i :: 0 <= i < limit ==> Take(all, limit)[i].score >= f.score
  {
    var kept := Take(all, limit);
    var rest := all[|kept|..];
    assert all == kept + rest;
    var j :| 0 <= j < |rest| && rest[j] == f;
    forall i | 0 <= i < |kept| ensures kept[i].score >= f.score {
      assert NegatedScore(all[i]) <= NegatedScore(all[|kept| + j]);
    }
  }

  lemma CutIsBest(fused: seq<Fused>, allowed: set<MemoryId>, limit: nat)
    requires DistinctIds(fused) && SortedBy(NegatedScore, fused)
    ensures BestOf(fused, allowed, limit, Take(Filter(fused, allowed), limit))
  {
    FilterKeeps(fused, allowed);
    var all := Filter(fused, allowed);
    var kept := Take(all, limit);
    forall i, j | 0 <= i < j < |kept| ensures kept[i].score >= kept[j].score {
      assert NegatedScore(all[i]) <= NegatedScore(all[j]);
    }
    forall i | 0 <= i < |kept| ensures kept[i] in fused && kept[i].id in allowed {
      assert kept[i] == all[i];
    }
    forall f | f in all && f !in kept
      ensures |kept| == limit && forall i :: 0 <= i < |kept| ==> kept[i].score >= f.score
    {
      LeftOutIsNoBetter(all, limit, f);
    }
  }

  /** The entries kept, as the caller sees them. */
  function Present(kept: seq<Fused>): (results: seq<SearchResult>)
    ensures |results| == |kept|
    ensures forall i :: 0 <= i < |kept| ==> results[i] == SearchResult(kept[i].id, Clamp(Normalise(kept[i].score)))
  {
    seq(|kept|, i requires 0 <= i < |kept| => SearchResult(kept[i].id, Clamp(Normalise(kept[i].score))))
  }

  /**
   What a search returns: distinct allowed documents of either list, best first, each with its exact
   normalised score in (0, 1]; no allowed document left out beats one that is returned.
   */
  ghost predicate SearchOf(fts: seq<MemoryId>, vec: seq<MemoryId>, allowed: set<MemoryId>, limit: nat,
      results: seq<SearchResult>) {
    && |results| <= limit
    && (forall i, j :: 0 <= i < j < |results| ==>
          results[i].id != results[j].id && results[i].score >= results[j].score)
    && (forall i :: 0 <= i < |results| ==>
          && results[i].id in allowed && (results[i].id in fts || results[i].id in vec)
          && results[i].score == Normalised(fts, vec, results[i].id) && 0.0 < results[i].score <= 1.0)
    && (forall id :: id in allowed && (id in fts || id in vec) && !Returned(results, id) ==>
          |results| == limit && forall i :: 0 <= i < |results| ==> results[i].score >= Normalised(fts, vec, id))
  }

  ghost predicate Returned(results: seq<SearchResult>, id: MemoryId) {
    exists i :: 0 <= i < |results| && results[i].id == id
  }

  lemma RankedLists(ids: seq<MemoryId>, id: MemoryId)
    ensures Lists(Rank(ids), id) <==> id in ids
  {
    ListedSomewhere(Rank(ids), id);
  }

  lemma NormaliseIsMonotone(a: real, b: real)
    requires a >= b
    ensures Normalise(a) >= Normalise(b)
  {
  }

  lemma PresentedIsSearch(fts: seq<MemoryId>, vec: seq<MemoryId>, allowed: set<MemoryId>, limit: nat,
      fused: seq<Fused>, kept: seq<Fused>)
    requires NoDuplicates(vec) && fused == Fusion(Rank(fts), Rank(vec), WEIGHT_FTS, WEIGHT_VEC)
    requires BestOf(fused, allowed, limit, kept)
    ensures SearchOf(fts, vec, allowed, limit, Present(kept))
  {
    FusionIsExact(Rank(fts), Rank(vec), WEIGHT_FTS, WEIGHT_VEC);
    var results := Present(kept);
    forall i | 0 <= i < |kept|
      ensures results[i].score == Normalise(kept[i].score) == Normalised(fts, vec, kept[i].id)
      ensures 0.0 < results[i].score <= 1.0 && (kept[i].id in fts || kept[i].id in vec)
    {
      RankedLists(fts, kept[i].id);
      RankedLists(vec, kept[i].id);
      NormalisedInRange(fts, vec, kept[i].id);
    }
    forall i, j | 0 <= i < j < |kept| ensures results[i].score >= results[j].score {
      NormaliseIsMonotone(kept[i].score, kept[j].score);
    }
    forall id | id in allowed && (id in fts || id in vec) && !Returned(results, id)
      ensures |results| == limit && forall i :: 0 <= i < |results| ==> results[i].score >= Normalised(fts, vec, id)
    {
      RankedLists(fts, id);
      RankedLists(vec, id);
      var f := Entry(Rank(fts), Rank(vec), WEIGHT_FTS, WEIGHT_VEC, id);
      forall i | 0 <= i < |kept| ensures kept[i] != f {
        assert results[i].id == kept[i].id;
      }
      forall i | 0 <= i < |results| ensures results[i].score >= Normalised(fts, vec, id) {
        NormaliseIsMonotone(kept[i].score, f.score);
      }
    }
  }

  // ---------------------------------------------------------------------------
  // Text-only search
  // ---------------------------------------------------------------------------

  function FilterIds(ids: seq<MemoryId>, allowed: set<MemoryId>): seq<MemoryId> {
    if ids == [] then []
    else
      var n := |ids| - 1;
      FilterIds(ids[..n], allowed) + if ids[n] in allowed then [ids[n]] else []
  }

  function IdsOf(fused: seq<Fused>): (ids: seq<MemoryId>)
    ensures |ids| == |fused| && forall i :: 0 <= i < |ids| ==> ids[i] == fused[i].id
  {
    seq(|fused|, i requires 0 <= i < |fused| => fused[i].id)
  }

  lemma {:induction false} FilterCommutes(fused: seq<Fused>, allowed: set<MemoryId>)
    ensures IdsOf(Filter(fused, allowed)) == FilterIds(IdsOf(fused), allowed)
  {
    if fused != [] {
      var n := |fused| - 1;
      FilterCommutes(fused[..n], allowed);
      assert IdsOf(fused)[..n] == IdsOf(fused[..n]);
    }
  }

  lemma {:induction false} DistinctFirstSeen(ids: seq<MemoryId>, list: seq<Ranked>)
    requires NoDuplicates(ids) && |list| == |ids| && forall i :: 0 <= i < |ids| ==> list[i].id == ids[i]
    ensures FirstSeen(list) == ids
  {
    if ids != [] {
      var n := |ids| - 1;
      DistinctFirstSeen(ids[..n], list[..n]);
      assert ids == ids[..n] + [ids[n]];
    }
  }

  lemma {:induction false} DistinctRank(ids: seq<MemoryId>, list: seq<Ranked>, i: nat)
    requires NoDuplicates(ids) && |list| == |ids| && (forall k :: 0 <= k < |ids| ==> list[k].id == ids[k]) && i < |ids|
    ensures LastRank(list, ids[i]) == Some(list[i].rank)
  {
    var n := |ids| - 1;
    if i < n {
      assert ids[i] != ids[n];
      DistinctRank(ids[..n], list[..n], i);
    }
  }

  /** With no vector list, fusion leaves the text list in its own order. */
  lemma TextOrderIsKept(fts: seq<MemoryId>, allowed: set<MemoryId>)
    requires NoDuplicates(fts)
    ensures IdsOf(Filter(Fusion(Rank(fts), Rank([]), WEIGHT_FTS, WEIGHT_VEC), allowed)) == FilterIds(fts, allowed)
  {
    var list := Rank(fts);
    assert list + Rank([]) == list;
    DistinctFirstSeen(fts, list);
    var entries := Entries(list, Rank([]), WEIGHT_FTS, WEIGHT_VEC, fts);
    forall i, j | 0 <= i < j < |entries| ensures NegatedScore(entries[i]) <= NegatedScore(entries[j]) {
      DistinctRank(fts, list, i);
      DistinctRank(fts, list, j);
      ReciprocalFalls(WEIGHT_FTS, i + 1, j + 1);
    }
    assert IdsOf(entries) == fts;
    FilterCommutes(entries, allowed);
  }

  /** Where the id stands in the list, if anywhere. */
  ghost predicate StandsAt(ids: seq<MemoryId>, id: MemoryId, at: Option<nat>) {
    if at.Some? then at.value < |ids| && ids[at.value] == id else id !in ids
  }

  lemma ShareAt(ids: seq<MemoryId>, weight: real, id: MemoryId, at: Option<nat>)
    requires NoDuplicates(ids) && StandsAt(ids, id, at)
    ensures TextShare(Rank(ids), weight, id) == if at.Some? then weight / (61 + at.value) as real else 0.0
  {
    RankedLists(ids, id);
    if at.Some? {
      DistinctRank(ids, Rank(ids), at.value);
    }
  }

  /** In numbers: 1 over 60 plus the text rank and 1.5 over 60 plus the vector rank, as a share of 2.5 over 61. */
  lemma NormalisedInNumbers(fts: seq<MemoryId>, vec: seq<MemoryId>, id: MemoryId, i: Option<nat>, j: Option<nat>)
    requires NoDuplicates(fts) && NoDuplicates(vec) && StandsAt(fts, id, i) && StandsAt(vec, id, j)
    ensures Normalised(fts, vec, id) ==
              ((if i.Some? then 1.0 / (61 + i.value) as real else 0.0)
               + (if j.Some? then 1.5 / (61 + j.value) as real else 0.0)) / (2.5 / 61.0)
  {
    DistinctShare(Rank(vec), WEIGHT_VEC, id);
    ShareAt(fts, WEIGHT_FTS, id, i);
    ShareAt(vec, WEIGHT_VEC, id, j);
  }

  /** The ranks a fused document carries are its positions in the two lists, counted from one. */
  lemma RanksArePositions(fts: seq<MemoryId>, vec: seq<MemoryId>, wf: real, wv: real, id: MemoryId,
      i: Option<nat>, j: Option<nat>)
    requires NoDuplicates(fts) && NoDuplicates(vec) && StandsAt(fts, id, i) && StandsAt(vec, id, j)
    ensures var f := Entry(Rank(fts), Rank(vec), wf, wv, id);
            && f.id == id
            && f.ftsRank == (if i.Some? then Some(i.value + 1) else None)
            && f.vecRank == (if j.Some? then Some(j.value + 1) else None)
  {
    RankedLists(fts, id);
    RankedLists(vec, id);
    if i.Some? { DistinctRank(fts, Rank(fts), i.value); }
    if j.Some? { DistinctRank(vec, Rank(vec), j.value); }
  }

  /** Documents with equal scores stay in order of first appearance, the text list before the vector list. */
  lemma TiesKeepOrder(fts: seq<Ranked>, vec: seq<Ranked>, wf: real, wv: real, score: real)
    ensures WithKey(NegatedScore, Fusion(fts, vec, wf, wv), score) ==
              WithKey(NegatedScore, Entries(fts, vec, wf, wv, FirstSeen(fts + vec)), score)
  {
    SortIsStable(NegatedScore, Entries(fts, vec, wf, wv, FirstSeen(fts + vec)), score);
  }

  /** What the search presents. */
  function Found(fts: seq<MemoryId>, vec: seq<MemoryId>, allowed: set<MemoryId>, limit: nat): seq<SearchResult> {
    Present(Take(Filter(Fusion(Rank(fts), Rank(vec), WEIGHT_FTS, WEIGHT_VEC), allowed), limit))
  }

  lemma FoundIsSearch(fts: seq<MemoryId>, vec: seq<MemoryId>, allowed: set<MemoryId>, limit: nat)
    requires NoDuplicates(vec)
    ensures SearchOf(fts, vec, allowed, limit, Found(fts, vec, allowed, limit))
  {
    var fused := Fusion(Rank(fts), Rank(vec), WEIGHT_FTS, WEIGHT_VEC);
    FusionIsExact(Rank(fts), Rank(vec), WEIGHT_FTS, WEIGHT_VEC);
    CutIsBest(fused, allowed, limit);
    PresentedIsSearch(fts, vec, allowed, limit, fused, Take(Filter(fused, allowed), limit));
  }

  lemma PresentedIds(kept: seq<Fused>, limit: nat)
    ensures var results := Present(Take(kept, limit));
            && |results| == |Take(IdsOf(kept), limit)|
            && forall i :: 0 <= i < |results| ==> results[i].id == IdsOf(kept)[i]
  {
  }

  lemma FoundInTextOrder(fts: seq<MemoryId>, allowed: set<MemoryId>, limit: nat)
    requires NoDuplicates(fts)
    ensures var results := Found(fts, [], allowed, limit);
            && |results| == |Take(FilterIds(fts, allowed), limit)|
            && forall i :: 0 <= i < |results| ==> results[i].id == FilterIds(fts, allowed)[i]
  {
    TextOrderIsKept(fts, allowed);
    PresentedIds(Filter(Fusion(Rank(fts), Rank([]), WEIGHT_FTS, WEIGHT_VEC), allowed), limit);
  }

  /** The search after both retrievals: fuse, keep what the post-fusion query allows, cut, normalise and clamp. */
  method HybridSearch(fts: seq<MemoryId>, vec: seq<MemoryId>, allowed: set<MemoryId>, limit: nat)
    returns (results: seq<SearchResult>)
    ensures results == Found(fts, vec, allowed, limit)
    ensures NoDuplicates(vec) ==> SearchOf(fts, vec, allowed, limit, results)
    ensures vec == [] && NoDuplicates(fts) ==>
              && |results| == |Take(FilterIds(fts, allowed), limit)|
              && forall i :: 0 <= i < |results| ==> results[i].id == FilterIds(fts, allowed)[i]
  {
    var fused := ComputeRRF(Rank(fts), Rank(vec), WEIGHT_FTS, WEIGHT_VEC);
    results := Present(Take(Filter(fused, allowed), limit));
    if NoDuplicates(vec) {
      FoundIsSearch(fts, vec, allowed, limit);
    }
    if vec == [] && NoDuplicates(fts) {
      FoundInTextOrder(fts, allowed, limit);
    }
  }
}
