/** The in-memory cache in front of a provider. What the LRU library evicts or expires, and when, is left open. */
module LruEmbeddingCache {
  import opened Wrappers

  type Text = string
  type TextHash = string
  type Vector = seq<real>

  ghost predicate Injective(hash: Text -> TextHash) {
    forall a, b :: hash(a) == hash(b) ==> a == b
  }

  /** Every cached vector is the provider's own vector for its text. */
  ghost predicate Coherent(hash: Text -> TextHash, model: Text -> Vector, cache: map<TextHash, Vector>) {
    forall text :: hash(text) in cache ==> cache[hash(text)] == model(text)
  }

  function Map(model: Text -> Vector, texts: seq<Text>): (vectors: seq<Vector>)
    ensures |vectors| == |texts| && forall i :: 0 <= i < |texts| ==> vectors[i] == model(texts[i])
  {
    seq(|texts|, i requires 0 <= i < |texts| => model(texts[i]))
  }

  class CachedEmbeddingPort {
    const hash: Text -> TextHash
    const model: Text -> Vector
    var cache: map<TextHash, Vector>
    var hits: nat
    var misses: nat

    ghost predicate Valid()
      reads this
    {
      Injective(hash) && Coherent(hash, model, cache)
    }

    constructor (hash: Text -> TextHash, model: Text -> Vector)
      requires Injective(hash)
      ensures Valid() && this.hash == hash && this.model == model && cache == map[] && hits == misses == 0
    {
      this.hash, this.model, this.cache, this.hits, this.misses := hash, model, map[], 0, 0;
    }

    /** The library may drop any of the entries it may evict during a call. */
    method Drop(evictable: set<TextHash>)
      requires Valid()
      modifies this`cache
      ensures Valid() && old(cache).Keys - evictable <= cache.Keys <= old(cache).Keys
      ensures forall h :: h in cache ==> cache[h] == old(cache)[h]
    {
      var dropped: set<TextHash> :| dropped <= evictable;
      cache := cache - dropped;
    }

    method Get(h: TextHash, evictable: set<TextHash>) returns (found: Option<Vector>)
      requires Valid()
      modifies this`cache
      ensures Valid() && old(cache).Keys - evictable <= cache.Keys <= old(cache).Keys
      ensures found.Some? <==> h in cache
      ensures forall text :: hash(text) == h && found.Some? ==> found.value == model(text)
    {
      Drop(evictable);
      found := if h in cache then Some(cache[h]) else None;
    }

    method Set(text: Text, evictable: set<TextHash>)
      requires Valid()
      modifies this`cache
      ensures Valid() && old(cache).Keys + {hash(text)} - evictable <= cache.Keys <= old(cache).Keys + {hash(text)}
    {
      cache := cache[hash(text) := model(text)];
      Drop(evictable);
    }

    /** A text that is cached and not evicted is a hit; an answered text is cached unless it is evicted at once. */
    method Embed(text: Text, available: bool, evictable: set<TextHash>) returns (res: Option<Vector>)
      requires Valid()
      modifies this
      ensures Valid() && old(cache).Keys - evictable <= cache.Keys <= old(cache).Keys + {hash(text)}
      ensures res.Some? ==> res.value == model(text) && (hash(text) in cache || hash(text) in evictable)
      ensures available || misses == old(misses) <==> res.Some?
      ensures hits + misses == old(hits) + old(misses) + 1
      ensures hash(text) in old(cache).Keys - evictable ==> hits == old(hits) + 1
      ensures hash(text) !in old(cache) ==> misses == old(misses) + 1
    {
      var cached := Get(hash(text), evictable);
      if cached.Some? {
        hits := hits + 1;
        return cached;
      }
      misses := misses + 1;
      if !available {
        return None;
      }
      Set(text, evictable);
      return Some(model(text));
    }

    /** Puts the provider's answers into the missed positions and into the cache. */
    method FillMisses(texts: seq<Text>, partial: seq<Option<Vector>>, missIndices: seq<nat>, missTexts: seq<Text>,
        evictable: set<TextHash>)
      returns (results: seq<Option<Vector>>)
      requires Valid() && |partial| == |texts| && MissesOf(texts, missIndices, missTexts)
      requires Resolved(model, texts, partial, missIndices)
      modifies this`cache
      ensures Valid() && |results| == |texts| && Resolved(model, texts, results, [])
      ensures old(cache).Keys - evictable <= cache.Keys
      ensures forall text :: text in missTexts ==> hash(text) in cache.Keys + evictable
    {
      results := partial;
      var answers := Map(model, missTexts);
      for j := 0 to |missIndices|
        invariant Valid() && |results| == |texts| && Resolved(model, texts, results, missIndices[j..])
        invariant old(cache).Keys - evictable <= cache.Keys
        invariant forall k :: 0 <= k < j ==> hash(missTexts[k]) in cache.Keys + evictable
      {
        var idx := missIndices[j];
        assert missIndices[j..] == [idx] + missIndices[j + 1..];
        results := results[idx := Some(answers[j])];
        Set(missTexts[j], evictable);
      }
    }

    /** Splits a batch into hits and misses, counting each position. */
    method SplitBatch(texts: seq<Text>, evictable: set<TextHash>)
      returns (results: seq<Option<Vector>>, missIndices: seq<nat>, missTexts: seq<Text>)
      requires Valid()
      modifies this
      ensures Valid() && old(cache).Keys - evictable <= cache.Keys
      ensures Split(hash, model, texts, old(cache).Keys, results, missIndices, missTexts)
      ensures hits + misses == old(hits) + old(misses) + |texts| && misses == old(misses) + |missIndices|
      ensures hits - old(hits) >= Positions(hash, texts, old(cache).Keys - evictable, true)
      ensures misses - old(misses) >= Positions(hash, texts, old(cache).Keys, false)
    {
      results, missIndices, missTexts := [], [], [];
      ghost var sure, start := old(cache).Keys - evictable, old(cache).Keys;
      for i := 0 to |texts|
        invariant Valid() && sure <= cache.Keys <= start
        invariant Split(hash, model, texts[..i], start, results, missIndices, missTexts)
        invariant hits + misses == old(hits) + old(misses) + i && misses == old(misses) + |missIndices|
        invariant hits - old(hits) >= Positions(hash, texts[..i], sure, true)
        invariant misses - old(misses) >= Positions(hash, texts[..i], start, false)
      {
        assert texts[..i + 1][..i] == texts[..i];
        var cached := Get(hash(texts[i]), evictable);
        SplitGrows(hash, model, texts, i, start, results, missIndices, missTexts);
        if cached.Some? {
          hits := hits + 1;
          results := results + [cached];
        } else {
          misses := misses + 1;
          results := results + [None];
          missIndices := missIndices + [i];
          missTexts := missTexts + [texts[i]];
        }
      }
      assert texts[..|texts|] == texts;
    }

    /**
     Whatever is cached and whatever is evicted meanwhile, an answered batch is the provider's own
     answer for every position, duplicates included. It fails only when the provider had to be asked
     and did not answer. Every position counts once as a hit or as a miss: as a hit if it was cached
     and not evicted, as a miss if it was not cached. Afterwards the batch is cached but for evictions.
     */
    method EmbedBatch(texts: seq<Text>, available: bool, evictable: set<TextHash>) returns (res: Option<seq<Vector>>)
      requires Valid()
      modifies this
      ensures Valid() && old(cache).Keys - evictable <= cache.Keys
      ensures res.Some? ==> res.value == Map(model, texts)
      ensures res.Some? ==> forall i :: 0 <= i < |texts| ==> hash(texts[i]) in cache.Keys + evictable
      ensures available || misses == old(misses) <==> res.Some?
      ensures hits + misses == old(hits) + old(misses) + |texts|
      ensures hits - old(hits) >= Positions(hash, texts, old(cache).Keys - evictable, true)
      ensures misses - old(misses) >= Positions(hash, texts, old(cache).Keys, false)
    {
      var results, missIndices, missTexts := SplitBatch(texts, evictable);
      if missTexts != [] {
        if !available {
          return None;
        }
        results := FillMisses(texts, results, missIndices, missTexts, evictable);
      }
      var vectors := seq(|texts|, k requires 0 <= k < |texts| && results[k].Some? => results[k].value);
      assert vectors == Map(model, texts);
      return Some(vectors);
    }
  }

  /** How many positions hold a text that is, or is not, among the given digests. */
  ghost function Positions(hash: Text -> TextHash, texts: seq<Text>, among: set<TextHash>, present: bool): nat {
    if texts == [] then 0
    else
      var n := |texts| - 1;
      Positions(hash, texts[..n], among, present) + if (hash(texts[n]) in among) == present then 1 else 0
  }

  ghost predicate MissesOf(texts: seq<Text>, missIndices: seq<nat>, missTexts: seq<Text>) {
    && |missIndices| == |missTexts|
    && forall j :: 0 <= j < |missIndices| ==> missIndices[j] < |texts| && missTexts[j] == texts[missIndices[j]]
  }

  /** What splitting a batch found: answers for the hits, the misses listed, every text either cached or missed. */
  ghost predicate Split(hash: Text -> TextHash, model: Text -> Vector, texts: seq<Text>, start: set<TextHash>,
      results: seq<Option<Vector>>, missIndices: seq<nat>, missTexts: seq<Text>)
  {
    && |results| == |texts| && MissesOf(texts, missIndices, missTexts) && Resolved(model, texts, results, missIndices)
    && forall k :: 0 <= k < |texts| ==> hash(texts[k]) in start || texts[k] in missTexts
  }

  lemma SplitGrows(hash: Text -> TextHash, model: Text -> Vector, texts: seq<Text>, i: nat, start: set<TextHash>,
      results: seq<Option<Vector>>, missIndices: seq<nat>, missTexts: seq<Text>)
    requires i < |texts| && Split(hash, model, texts[..i], start, results, missIndices, missTexts)
    ensures hash(texts[i]) in start ==>
              Split(hash, model, texts[..i + 1], start, results + [Some(model(texts[i]))], missIndices, missTexts)
    ensures Split(hash, model, texts[..i + 1], start, results + [None], missIndices + [i], missTexts + [texts[i]])
  {
    assert texts[..i + 1] == texts[..i] + [texts[i]];
  }

  /** Every position holds its answer, or is still listed as missing. */
  ghost predicate Resolved(model: Text -> Vector, texts: seq<Text>, results: seq<Option<Vector>>, missing: seq<nat>)
    requires |results| == |texts|
  {
    forall k :: 0 <= k < |texts| ==> results[k] == Some(model(texts[k])) || (results[k].None? && k in missing)
  }
}
