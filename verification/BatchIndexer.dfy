/** The batch indexer: embeds every memory that has no embedding yet, a batch at a time, until none is left. */
module BatchIndexer {
  import opened Wrappers

  type MemoryId = string
  type Vector = seq<real>

  const MAX_TOKENS := 1536
  const CHARS_PER_TOKEN := 3

  /** `has_embedding`: 0, 1 or -1. */
  datatype Flag = Unembedded | Embedded | Failed

  datatype Memory = Memory(content: string, flag: Flag)

  type Memories = map<MemoryId, Memory>

  /** The provider's answer to a batch: nothing if it failed as a whole, else a vector or nothing per text. */
  type Answer = Option<seq<Option<Vector>>>

  function TruncateForEmbedding(text: string): (t: string)
    ensures t <= text && |t| == if |text| < 4608 then |text| else 4608
  {
    if |text| <= MAX_TOKENS * CHARS_PER_TOKEN then text else text[..MAX_TOKENS * CHARS_PER_TOKEN]
  }

  function Backlog(memories: Memories): set<MemoryId> {
    set id | id in memories && memories[id].flag == Unembedded
  }

  /** The rows that were unembedded before and carry the flag now. */
  function Newly(before: Memories, now: Memories, flag: Flag): set<MemoryId> {
    set id | id in before && before[id].flag == Unembedded && id in now && now[id].flag == flag
  }

  /** Only flags of unembedded rows move. */
  ghost predicate OnlyFlags(before: Memories, now: Memories) {
    && before.Keys == now.Keys
    && (forall id :: id in before ==> now[id].content == before[id].content)
    && (forall id :: id in before && before[id].flag != Unembedded ==> now[id] == before[id])
  }

  /** What an answer holds for a position; a short answer holds nothing for the rest. */
  function At(values: seq<Option<Vector>>, i: nat): Option<Vector> {
    if i < |values| then values[i] else None
  }

  // ---------------------------------------------------------------------------
  // Writing one batch
  // ---------------------------------------------------------------------------

  ghost predicate SelectedFrom(memories: Memories, ids: seq<MemoryId>) {
    && (forall i, j :: 0 <= i < j < |ids| ==> ids[i] != ids[j])
    && (forall i :: 0 <= i < |ids| ==> ids[i] in memories && memories[ids[i]].flag == Unembedded)
  }

  function WithFlag(memories: Memories, id: MemoryId, flag: Flag): Memories {
    if id in memories then memories[id := memories[id].(flag := flag)] else memories
  }

  /** The flags after a batch: embedded where the answer has a vector, failed elsewhere. */
  function Written(memories: Memories, ids: seq<MemoryId>, values: seq<Option<Vector>>): Memories {
    if ids == [] then memories
    else
      var n := |ids| - 1;
      WithFlag(Written(memories, ids[..n], values), ids[n], if At(values, n).Some? then Embedded else Failed)
  }

  function Indexed(vectors: map<MemoryId, Vector>, ids: seq<MemoryId>,
      values: seq<Option<Vector>>): map<MemoryId, Vector> {
    if ids == [] then vectors
    else
      var n := |ids| - 1;
      var before := Indexed(vectors, ids[..n], values);
      if At(values, n).Some? then before[ids[n] := At(values, n).value] else before
  }

  function Hits(values: seq<Option<Vector>>, n: nat): nat {
    if n == 0 then 0 else Hits(values, n - 1) + if At(values, n - 1).Some? then 1 else 0
  }

  /**
   What a rewrite of the tables amounts to: flags of backlog rows only, counted, and vectors for the
   embedded ones.
   */
  ghost predicate Progress(vec: bool, before: Memories, had: map<MemoryId, Vector>, now: Memories,
      vectors: map<MemoryId, Vector>, indexed: nat, failed: nat) {
    && OnlyFlags(before, now)
    && indexed == |Newly(before, now, Embedded)| && failed == |Newly(before, now, Failed)|
    && vectors.Keys == had.Keys + if vec then Newly(before, now, Embedded) else {}
  }

  lemma {:induction false} WrittenKeeps(memories: Memories, ids: seq<MemoryId>, values: seq<Option<Vector>>)
    ensures Written(memories, ids, values).Keys == memories.Keys
    ensures forall id :: id in memories && id !in ids ==> Written(memories, ids, values)[id] == memories[id]
  {
    if ids != [] {
      WrittenKeeps(memories, ids[..|ids| - 1], values);
    }
  }

  /** Position by position: the row of each text is embedded with exactly the vector answered for it, or failed. */
  lemma {:induction false} BatchIsPositional(memories: Memories, vectors: map<MemoryId, Vector>, ids: seq<MemoryId>,
      values: seq<Option<Vector>>, i: nat)
    requires SelectedFrom(memories, ids) && i < |ids|
    ensures var now, indexed := Written(memories, ids, values), Indexed(vectors, ids, values);
            && ids[i] in now && now[ids[i]].content == memories[ids[i]].content
            && match At(values, i)
               case Some(v) => now[ids[i]].flag == Embedded && ids[i] in indexed && indexed[ids[i]] == v
               case None => now[ids[i]].flag == Failed
  {
    var n := |ids| - 1;
    WrittenKeeps(memories, ids[..n], values);
    if i < n {
      assert ids[i] != ids[n];
      BatchIsPositional(memories, vectors, ids[..n], values, i);
    } else {
      assert ids[n] !in ids[..n];
    }
  }

  /** The ids whose position has a vector, or has none. */
  function Chosen(ids: seq<MemoryId>, values: seq<Option<Vector>>, hit: bool): set<MemoryId> {
    if ids == [] then {}
    else
      var n := |ids| - 1;
      Chosen(ids[..n], values, hit) + if At(values, n).Some? == hit then {ids[n]} else {}
  }

  lemma {:induction false} ChosenIff(ids: seq<MemoryId>, values: seq<Option<Vector>>, hit: bool, id: MemoryId)
    ensures id in Chosen(ids, values, hit) <==> exists i :: 0 <= i < |ids| && ids[i] == id && At(values, i).Some? == hit
  {
    if ids != [] {
      var n := |ids| - 1;
      ChosenIff(ids[..n], values, hit, id);
      if id in Chosen(ids[..n], values, hit) {
        var i :| 0 <= i < n && ids[..n][i] == id && At(values, i).Some? == hit;
        assert ids[i] == id;
      } else {
        forall i | 0 <= i < n && ids[i] == id ensures At(values, i).Some? != hit {
          assert ids[..n][i] == id;
        }
      }
    }
  }

  lemma LastIsNotChosen(ids: seq<MemoryId>, values: seq<Option<Vector>>, hit: bool)
    requires ids != [] && forall i, j :: 0 <= i < j < |ids| ==> ids[i] != ids[j]
    ensures ids[|ids| - 1] !in Chosen(ids[..|ids| - 1], values, hit)
  {
    ChosenIff(ids[..|ids| - 1], values, hit, ids[|ids| - 1]);
  }

  lemma AddOne<T>(s: set<T>, x: T)
    requires x !in s
    ensures |s + {x}| == |s| + 1
  {
  }

  lemma {:induction false} ChosenSize(ids: seq<MemoryId>, values: seq<Option<Vector>>, hit: bool)
    requires forall i, j :: 0 <= i < j < |ids| ==> ids[i] != ids[j]
    ensures |Chosen(ids, values, hit)| == if hit then Hits(values, |ids|) else |ids| - Hits(values, |ids|)
  {
    if ids != [] {
      var n := |ids| - 1;
      ChosenSize(ids[..n], values, hit);
      if At(values, n).Some? == hit {
        LastIsNotChosen(ids, values, hit);
        AddOne(Chosen(ids[..n], values, hit), ids[n]);
      } else {
        assert Chosen(ids, values, hit) == Chosen(ids[..n], values, hit);
      }
    }
  }

  lemma {:induction false} IndexedKeys(vectors: map<MemoryId, Vector>, ids: seq<MemoryId>, values: seq<Option<Vector>>)
    ensures Indexed(vectors, ids, values).Keys == vectors.Keys + Chosen(ids, values, true)
  {
    if ids != [] {
      IndexedKeys(vectors, ids[..|ids| - 1], values);
    }
  }

  lemma BatchFlags(memories: Memories, ids: seq<MemoryId>, values: seq<Option<Vector>>)
    requires SelectedFrom(memories, ids)
    ensures OnlyFlags(memories, Written(memories, ids, values))
    ensures Newly(memories, Written(memories, ids, values), Embedded) == Chosen(ids, values, true)
    ensures Newly(memories, Written(memories, ids, values), Failed) == Chosen(ids, values, false)
  {
    var now := Written(memories, ids, values);
    WrittenKeeps(memories, ids, values);
    forall i | 0 <= i < |ids|
      ensures now[ids[i]] == memories[ids[i]].(flag := if At(values, i).Some? then Embedded else Failed)
    {
      BatchIsPositional(memories, map[], ids, values, i);
    }
    forall id: MemoryId, hit: bool ensures
        id in Chosen(ids, values, hit) <==> exists i :: 0 <= i < |ids| && ids[i] == id && At(values, i).Some? == hit
    {
      ChosenIff(ids, values, hit, id);
    }
  }

  lemma BatchProgress(vec: bool, memories: Memories, vectors: map<MemoryId, Vector>, ids: seq<MemoryId>,
      values: seq<Option<Vector>>)
    requires SelectedFrom(memories, ids)
    ensures Hits(values, |ids|) <= |ids|
    ensures Progress(vec, memories, vectors, Written(memories, ids, values),
                     if vec then Indexed(vectors, ids, values) else vectors,
                     Hits(values, |ids|), |ids| - Hits(values, |ids|))
  {
    BatchFlags(memories, ids, values);
    ChosenSize(ids, values, true);
    ChosenSize(ids, values, false);
    IndexedKeys(vectors, ids, values);
  }

  lemma NewlyAdds(a: Memories, b: Memories, c: Memories, flag: Flag)
    requires OnlyFlags(a, b) && OnlyFlags(b, c) && flag != Unembedded
    ensures Newly(a, c, flag) == Newly(a, b, flag) + Newly(b, c, flag)
    ensures |Newly(a, c, flag)| == |Newly(a, b, flag)| + |Newly(b, c, flag)|
  {
    assert Newly(a, b, flag) !! Newly(b, c, flag);
  }

  /** Two rewrites in a row amount to one with the sums. */
  lemma ProgressAdds(vec: bool, a: Memories, va: map<MemoryId, Vector>, b: Memories, vb: map<MemoryId, Vector>,
      c: Memories, vc: map<MemoryId, Vector>, i: nat, f: nat, i': nat, f': nat)
    requires Progress(vec, a, va, b, vb, i, f) && Progress(vec, b, vb, c, vc, i', f')
    ensures Progress(vec, a, va, c, vc, i + i', f + f')
  {
    NewlyAdds(a, b, c, Embedded);
    NewlyAdds(a, b, c, Failed);
  }

  /** Every backlog row is still open, newly embedded or newly failed. */
  lemma Partition(before: Memories, now: Memories)
    requires OnlyFlags(before, now)
    ensures |Backlog(before)| == |Backlog(now)| + |Newly(before, now, Embedded)| + |Newly(before, now, Failed)|
    ensures Backlog(now) <= Backlog(before)
  {
    var e, f := Newly(before, now, Embedded), Newly(before, now, Failed);
    assert Backlog(before) == Backlog(now) + (e + f);
    assert Backlog(now) !! (e + f) && e !! f;
  }

  class Indexer {
    const vecAvailable: bool
    var memories: Memories
    var vectors: map<MemoryId, Vector>

    constructor (vecAvailable: bool, memories: Memories, vectors: map<MemoryId, Vector>)
      ensures this.vecAvailable == vecAvailable && this.memories == memories && this.vectors == vectors
    {
      this.vecAvailable, this.memories, this.vectors := vecAvailable, memories, vectors;
    }

    /** `WHERE has_embedding = 0 LIMIT limit`, in no particular order; a negative limit is no limit. */
    method SelectBacklog(limit: int) returns (ids: seq<MemoryId>)
      ensures SelectedFrom(memories, ids)
      ensures ids == [] <==> limit == 0 || Backlog(memories) == {}
      ensures limit >= 0 ==> |ids| <= limit
    {
      ids := [];
      var left := Backlog(memories);
      while left != {} && |ids| != limit
        invariant left <= Backlog(memories) && (ids == [] <==> left == Backlog(memories))
        invariant SelectedFrom(memories, ids)
        invariant forall i :: 0 <= i < |ids| ==> ids[i] !in left
        invariant limit >= 0 ==> |ids| <= limit
        decreases left
      {
        var id :| id in left;
        ids := ids + [id];
        left := left - {id};
      }
    }

    /** One transaction: flag and index each row that got a vector, mark the others as failed. */
    method WriteBatch(ids: seq<MemoryId>, values: seq<Option<Vector>>) returns (indexed: nat, failed: nat)
      requires SelectedFrom(memories, ids)
      modifies this`memories, this`vectors
      ensures memories == Written(old(memories), ids, values)
      ensures vectors == if vecAvailable then Indexed(old(vectors), ids, values) else old(vectors)
      ensures indexed == Hits(values, |ids|) && indexed + failed == |ids|
    {
      indexed, failed := 0, 0;
      for k := 0 to |ids|
        invariant memories == Written(old(memories), ids[..k], values)
        invariant vectors == if vecAvailable then Indexed(old(vectors), ids[..k], values) else old(vectors)
        invariant indexed == Hits(values, k) && indexed + failed == k
      {
        var id := ids[k];
        assert ids[..k + 1][..k] == ids[..k];
        if At(values, k).None? {
          failed := failed + 1;
          memories := WithFlag(memories, id, Failed);
        } else {
          if vecAvailable {
            vectors := vectors[id := At(values, k).value];
          }
          memories := WithFlag(memories, id, Embedded);
          indexed := indexed + 1;
        }
      }
      assert ids[..|ids|] == ids;
    }

    /**
     Terminates for every batch size, because each written batch shrinks the backlog. What is counted
     is what was flagged, except for the rows of a batch the provider did not answer as a whole:
     those end the loop, count as failed, and stay in the backlog. Without such a batch the backlog
     is worked off completely if and only if the batch size is not zero or there was no backlog.
     */
    method IndexUnembedded(batchSize: int, embed: (nat, seq<string>) -> Answer, ghost model: string -> Option<Vector>)
      returns (indexed: nat, failed: nat, error: bool, ghost unanswered: seq<MemoryId>)
      modifies this`memories, this`vectors
      ensures |unanswered| <= failed
      ensures Progress(vecAvailable, old(memories), old(vectors), memories, vectors, indexed, failed - |unanswered|)
      ensures indexed + failed - |unanswered| + |Backlog(memories)| == |Backlog(old(memories))|
      ensures SelectedFrom(memories, unanswered) && (batchSize >= 0 ==> |unanswered| <= batchSize)
      ensures error <==> unanswered != []
      ensures error ==> exists call :: embed(call, Texts(memories, unanswered)).None?
      ensures !error ==> (Backlog(memories) == {} <==> batchSize != 0 || Backlog(old(memories)) == {})
      ensures Answering(embed, model) ==> FromModel(vecAvailable, model, old(memories), memories, vectors)
    {
      indexed, failed, error, unanswered := 0, 0, false, [];
      var call := 0;
      while true
        invariant Progress(vecAvailable, old(memories), old(vectors), memories, vectors, indexed, failed)
        invariant batchSize == 0 ==> memories == old(memories)
        invariant Answering(embed, model) ==> FromModel(vecAvailable, model, old(memories), memories, vectors)
        decreases Backlog(memories)
      {
        var ids := SelectBacklog(batchSize);
        if ids == [] {
          break;
        }
        var answer := embed(call, Texts(memories, ids));
        if answer.None? {
          failed, error, unanswered := failed + |ids|, true, ids;
          break;
        }
        ghost var mid, vmid := memories, vectors;
        var more, lost := WriteBatch(ids, answer.value);
        BatchAdvances(vecAvailable, old(memories), old(vectors), mid, vmid, ids, answer.value, indexed, failed);
        if Answering(embed, model) {
          AnswerFromModel(vecAvailable, embed, model, old(memories), mid, vmid, ids, call);
        }
        indexed, failed, call := indexed + more, failed + lost, call + 1;
      }
      Partition(old(memories), memories);
    }

    /** Forget every embedding and index everything again: afterwards exactly the embedded rows have a vector. */
    method ReindexAll(batchSize: int, embed: (nat, seq<string>) -> Answer, ghost model: string -> Option<Vector>)
      returns (indexed: nat, failed: nat, error: bool)
      modifies this`memories, this`vectors
      ensures memories.Keys == old(memories).Keys
      ensures !error && batchSize != 0 ==> Backlog(memories) == {} && indexed + failed == |memories|
      ensures vectors.Keys ==
                if vecAvailable then (set id | id in memories && memories[id].flag == Embedded) else old(vectors).Keys
      ensures Answering(embed, model) ==> FromModel(vecAvailable, model, Cleared(old(memories)), memories, vectors)
    {
      if vecAvailable {
        vectors := map[];
      }
      memories := Cleared(memories);
      ghost var unanswered;
      indexed, failed, error, unanswered := IndexUnembedded(batchSize, embed, model);
      FromScratch(Cleared(old(memories)), memories);
    }
  }

  function Cleared(memories: Memories): Memories {
    map id | id in memories :: memories[id].(flag := Unembedded)
  }

  /** The provider answers every text as the model does, whenever it answers at all. */
  ghost predicate Answering(embed: (nat, seq<string>) -> Answer, model: string -> Option<Vector>) {
    forall n, texts, i :: 0 <= i < |texts| && embed(n, texts).Some? ==> At(embed(n, texts).value, i) == model(texts[i])
  }

  /** Every row that was worked off has the model's vector for its truncated content, or failed for want of one. */
  ghost predicate FromModel(vec: bool, model: string -> Option<Vector>, before: Memories, now: Memories,
      vectors: map<MemoryId, Vector>)
  {
    forall id :: id in before && before[id].flag == Unembedded && id in now ==>
      FromModelAt(vec, model, now[id], if id in vectors then Some(vectors[id]) else None)
  }

  ghost predicate FromModelAt(vec: bool, model: string -> Option<Vector>, now: Memory, vector: Option<Vector>) {
    var v := model(TruncateForEmbedding(now.content));
    && (now.flag == Embedded ==> v.Some? && (vec ==> vector == v))
    && (now.flag == Failed ==> v.None?)
  }

  lemma {:induction false} IndexedKeeps(vectors: map<MemoryId, Vector>, ids: seq<MemoryId>,
      values: seq<Option<Vector>>, id: MemoryId)
    requires id !in ids
    ensures id in Indexed(vectors, ids, values) <==> id in vectors
    ensures id in vectors ==> Indexed(vectors, ids, values)[id] == vectors[id]
  {
    if ids != [] {
      IndexedKeeps(vectors, ids[..|ids| - 1], values, id);
    }
  }

  lemma BatchFromModel(vec: bool, model: string -> Option<Vector>, before: Memories, mid: Memories,
      vmid: map<MemoryId, Vector>, ids: seq<MemoryId>, values: seq<Option<Vector>>)
    requires SelectedFrom(mid, ids) && FromModel(vec, model, before, mid, vmid)
    requires forall i :: 0 <= i < |ids| ==> At(values, i) == model(Texts(mid, ids)[i])
    ensures FromModel(vec, model, before, Written(mid, ids, values), if vec then Indexed(vmid, ids, values) else vmid)
  {
    var now, vectors := Written(mid, ids, values), if vec then Indexed(vmid, ids, values) else vmid;
    WrittenKeeps(mid, ids, values);
    forall id | id in before && before[id].flag == Unembedded && id in now
      ensures FromModelAt(vec, model, now[id], if id in vectors then Some(vectors[id]) else None)
    {
      if id in ids {
        var i :| 0 <= i < |ids| && ids[i] == id;
        BatchIsPositional(mid, vmid, ids, values, i);
        assert At(values, i) == model(Texts(mid, ids)[i]);
      } else {
        IndexedKeeps(vmid, ids, values, id);
      }
    }
  }

  lemma AnswerFromModel(vec: bool, embed: (nat, seq<string>) -> Answer, model: string -> Option<Vector>,
      before: Memories,
      mid: Memories, vmid: map<MemoryId, Vector>, ids: seq<MemoryId>, call: nat)
    requires Answering(embed, model) && SelectedFrom(mid, ids) && FromModel(vec, model, before, mid, vmid)
    requires embed(call, Texts(mid, ids)).Some?
    ensures var values := embed(call, Texts(mid, ids)).value;
            FromModel(vec, model, before, Written(mid, ids, values), if vec then Indexed(vmid, ids, values) else vmid)
  {
    BatchFromModel(vec, model, before, mid, vmid, ids, embed(call, Texts(mid, ids)).value);
  }

  /** Writing a non-empty batch adds its counts and takes rows off the backlog. */
  lemma BatchAdvances(vec: bool, before: Memories, had: map<MemoryId, Vector>, mid: Memories,
      vmid: map<MemoryId, Vector>,
      ids: seq<MemoryId>, values: seq<Option<Vector>>, indexed: nat, failed: nat)
    requires Progress(vec, before, had, mid, vmid, indexed, failed) && SelectedFrom(mid, ids) && ids != []
    ensures Hits(values, |ids|) <= |ids|
    ensures Progress(vec, before, had, Written(mid, ids, values), if vec then Indexed(vmid, ids, values) else vmid,
                     indexed + Hits(values, |ids|), failed + |ids| - Hits(values, |ids|))
    ensures Backlog(Written(mid, ids, values)) < Backlog(mid)
  {
    var now := Written(mid, ids, values);
    BatchProgress(vec, mid, vmid, ids, values);
    BatchIsPositional(mid, vmid, ids, values, 0);
    ProgressAdds(vec, before, had, mid, vmid, now, if vec then Indexed(vmid, ids, values) else vmid,
                 indexed, failed, Hits(values, |ids|), |ids| - Hits(values, |ids|));
    Partition(mid, now);
    assert ids[0] in Backlog(mid) && ids[0] !in Backlog(now);
  }

  lemma FromScratch(cleared: Memories, now: Memories)
    requires OnlyFlags(cleared, now) && forall id :: id in cleared ==> cleared[id].flag == Unembedded
    ensures Newly(cleared, now, Embedded) == set id | id in now && now[id].flag == Embedded
    ensures |Backlog(cleared)| == |now|
  {
    assert Backlog(cleared) == cleared.Keys && |cleared.Keys| == |now.Keys| == |now|;
  }

  function Texts(memories: Memories, ids: seq<MemoryId>): seq<string>
    requires SelectedFrom(memories, ids)
  {
    seq(|ids|, i requires 0 <= i < |ids| && ids[i] in memories => TruncateForEmbedding(memories[ids[i]].content))
  }
}
