/** The persistent cache as an object, and its agreement with the provider it wraps. */
module EmbeddingCache {
  import opened Wrappers
  import opened EmbeddingModel
  import opened EmbeddingRefinement
  import opened EmbeddingRetention

  const MAX_SQL_VARIABLES := 999
  const FIXED_PARAMS := 3
  const MAX_HASHES_PER_QUERY := MAX_SQL_VARIABLES - FIXED_PARAMS

  // ---------------------------------------------------------------------------
  // What a batch answers
  // ---------------------------------------------------------------------------

  /** The cached vector of a text, else the provider's. */
  function Resolve(c: Config, table: Table, text: Text, provider: Text -> Vector): Vector {
    if Key(c.owner, c.hash(text)) in table then table[Key(c.owner, c.hash(text))].embedding else provider(text)
  }

  predicate AllCached(c: Config, table: Table, texts: seq<Text>) {
    forall i :: 0 <= i < |texts| ==> Key(c.owner, c.hash(texts[i])) in table
  }

  /** `answer` lists, position by position, what each text resolves to. */
  ghost predicate Answers(c: Config, table: Table, texts: seq<Text>, provider: Text -> Vector, answer: seq<Vector>) {
    |answer| == |texts| && forall i :: 0 <= i < |texts| ==> answer[i] == Resolve(c, table, texts[i], provider)
  }

  /** The unchunked lookup. */
  function Lookup(c: Config, table: Table, hashes: seq<TextHash>): map<TextHash, Vector> {
    map h | h in hashes && Key(c.owner, h) in table :: table[Key(c.owner, h)].embedding
  }

  /** The positions of the texts that are not cached, in order. */
  function Misses(c: Config, present: set<TextHash>, texts: seq<Text>): seq<nat> {
    if texts == [] then []
    else
      var n := |texts| - 1;
      Misses(c, present, texts[..n]) + if c.hash(texts[n]) in present then [] else [n]
  }

  lemma {:induction false} MissedPositions(c: Config, present: set<TextHash>, texts: seq<Text>)
    ensures var misses := Misses(c, present, texts);
            && (forall j :: 0 <= j < |misses| ==> misses[j] < |texts| && c.hash(texts[misses[j]]) !in present)
            && (forall i :: 0 <= i < |texts| && c.hash(texts[i]) !in present ==> i in misses)
  {
    if texts != [] {
      var n := |texts| - 1;
      MissedPositions(c, present, texts[..n]);
      forall i | 0 <= i < n ensures texts[..n][i] == texts[i] {
      }
    }
  }

  /** The stores of a batch are those of its missed positions, in order. */
  lemma {:induction false} StoresFollowMisses(c: Config, present: set<TextHash>, texts: seq<Text>,
      provider: Text -> Vector, now: Millis)
    ensures var misses, stores := Misses(c, present, texts), StoreEvents(c, present, texts, provider, now);
            && |misses| == |stores|
            && (forall j :: 0 <= j < |misses| ==>
                  misses[j] < |texts| && stores[j] == Store(c.hash(texts[misses[j]]), provider(texts[misses[j]]), now))
  {
    if texts != [] {
      StoresFollowMisses(c, present, texts[..|texts| - 1], provider, now);
    }
  }

  lemma RunExtends(c: Config, l: Lazy, events: seq<Event>, j: nat)
    requires j < |events|
    ensures LazyRun(c, l, events[..j + 1]) == LazyStep(c, LazyRun(c, l, events[..j]), events[j])
  {
    assert events[..j + 1][..j] == events[..j];
  }

  /** A batch first hits what is cached, then stores what the provider answered. */
  lemma BatchCall(c: Config, l: Lazy, texts: seq<Text>, provider: Option<Text -> Vector>, clock: nat -> Millis)
    ensures var present := Present(c, l.table);
            var hit := LazyRun(c, l, HitEvents(c, present, texts, clock));
            LazyCall(c, l, EmbeddingModel.EmbedBatch(texts, provider, clock)) ==
              if provider.Some?
              then LazyRun(c, hit, StoreEvents(c, present, texts, provider.value, clock(|texts|))) else hit
  {
    var hits := HitEvents(c, Present(c, l.table), texts, clock);
    assert hits + [] == hits;
    if provider.Some? {
      RunAppends(c, l, hits, StoreEvents(c, Present(c, l.table), texts, provider.value, clock(|texts|)));
    }
  }

  class SqliteEmbeddingCache {
    const c: Config
    var table: Table
    var buffer: map<TextHash, Millis>
    var disposed: bool

    ghost function Contents(): (l: Lazy)
      reads this
    {
      Lazy(table, buffer)
    }

    constructor (c: Config, table: Table)
      ensures this.c == c && Contents() == Lazy(table, map[]) && !disposed
    {
      this.c, this.table, this.buffer, this.disposed := c, table, map[], false;
    }

    // -------------------------------------------------------------------------
    // The access buffer
    // -------------------------------------------------------------------------

    method FlushAccessBuffer()
      modifies this`table, this`buffer
      ensures Contents() == Lazy(Flushed(c, old(Contents())), map[])
    {
      var pending := buffer.Keys;
      while pending != {}
        invariant pending <= buffer.Keys && buffer == old(buffer)
        invariant table == map key | key in old(table) ::
                    if key.owner == c.owner && key.textHash in buffer && key.textHash !in pending
                    then Touched(old(table)[key], buffer[key.textHash]) else old(table)[key]
        decreases pending
      {
        var h :| h in pending;
        pending := pending - {h};
        var key := Key(c.owner, h);
        if key in table {
          table := table[key := Touched(table[key], buffer[h])];
        }
      }
      buffer := map[];
    }

    method RecordAccess(h: TextHash, now: Millis)
      modifies this`table, this`buffer
      ensures Contents() == LazyStep(c, old(Contents()), Hit(h, now))
      ensures if |old(buffer)[h := now]| < 100 then table == old(table) && buffer == old(buffer)[h := now]
                else buffer == map[]
    {
      buffer := buffer[h := now];
      if |buffer| >= FLUSH_THRESHOLD {
        FlushAccessBuffer();
      }
    }

    // -------------------------------------------------------------------------
    // Lookup
    // -------------------------------------------------------------------------

    /** One `IN (...)` query; the statement admits a bounded number of parameters. */
    method SelectIn(hashes: seq<TextHash>) returns (hits: map<TextHash, Vector>)
      requires FIXED_PARAMS + |hashes| <= MAX_SQL_VARIABLES
      ensures hits == Lookup(c, table, hashes)
    {
      hits := map h | h in hashes && Key(c.owner, h) in table :: table[Key(c.owner, h)].embedding;
    }

    /** Chunked lookups add up to the unchunked one. */
    method BatchSelect(hashes: seq<TextHash>) returns (hits: map<TextHash, Vector>)
      ensures hits == Lookup(c, table, hashes)
    {
      hits := map[];
      var i := 0;
      while i < |hashes|
        invariant 0 <= i
        invariant hits == Lookup(c, table, hashes[..if i < |hashes| then i else |hashes|])
        decreases |hashes| - i
      {
        var end := if i + MAX_HASHES_PER_QUERY < |hashes| then i + MAX_HASHES_PER_QUERY else |hashes|;
        var rows := SelectIn(hashes[i..end]);
        assert hashes[..end] == hashes[..i] + hashes[i..end];
        hits := hits + rows;
        i := i + MAX_HASHES_PER_QUERY;
      }
      assert hashes[..|hashes|] == hashes;
    }

    // -------------------------------------------------------------------------
    // Embedding
    // -------------------------------------------------------------------------

    /** Over a cache that agrees with the provider, the answer does too, and the cache still does afterwards. */
    method Embed(text: Text, provider: Option<Text -> Vector>, now: Millis, ghost model: Text -> Vector)
      returns (res: Option<Vector>)
      modifies this`table, this`buffer
      ensures Contents() == LazyCall(c, old(Contents()), EmbeddingModel.Embed(text, provider, now))
      ensures res == if Key(c.owner, c.hash(text)) in old(table)
                     then Some(old(table)[Key(c.owner, c.hash(text))].embedding)
                     else if provider.Some? then Some(provider.value(text)) else None
      ensures Retains(old(table), table)
      ensures Key(c.owner, c.hash(text)) in old(table) ==>
                LastAccess(c, Contents(), Key(c.owner, c.hash(text))) == now
      ensures var key := Key(c.owner, c.hash(text));
              if key !in old(table) && provider.Some?
              then && table.Keys == old(table).Keys + {key} && FreshRow(c, table[key], provider.value(text), now)
                   && forall other :: other in old(table) ==> table[other] == old(table)[other]
              else table.Keys == old(table).Keys
      ensures Agreeing(c, model, old(table), provider) ==>
                Coherent(c, model, table) && (res.Some? ==> c.round(res.value) == c.round(model(text)))
    {
      EmbedColumns(c, Contents(), text, provider, now);
      if Key(c.owner, c.hash(text)) in table {
        EmbedTouches(c, Contents(), text, provider, now);
      }
      if Agreeing(c, model, table, provider) {
        CallStaysCoherent(c, model, Contents(), EmbeddingModel.Embed(text, provider, now));
      }
      var h := c.hash(text);
      ghost var events := Events(c, Present(c, table), EmbeddingModel.Embed(text, provider, now));
      assert Key(c.owner, h) in table ==> h in Present(c, table);
      if events != [] {
        OneEvent(c, Contents(), table, events[0]);
      }
      if Key(c.owner, h) in table {
        res := Some(table[Key(c.owner, h)].embedding);
        RecordAccess(h, now);
        return;
      }
      if provider.None? {
        return None;
      }
      var v := provider.value(text);
      table := Stored(c, table, h, v, now);
      return Some(v);
    }

    /** Records each cached text of the batch as a hit and collects the positions of the others. */
    method ScanBatch(texts: seq<Text>, hits: map<TextHash, Vector>, clock: nat -> Millis)
      returns (results: seq<Option<Vector>>, misses: seq<nat>)
      modifies this`table, this`buffer
      ensures Contents() == LazyRun(c, old(Contents()), HitEvents(c, hits.Keys, texts, clock))
      ensures misses == Misses(c, hits.Keys, texts)
      ensures ScannedAs(c, texts, hits, results)
    {
      results, misses := [], [];
      for i := 0 to |texts|
        invariant Contents() == LazyRun(c, old(Contents()), HitEvents(c, hits.Keys, texts[..i], clock))
        invariant misses == Misses(c, hits.Keys, texts[..i])
        invariant ScannedAs(c, texts[..i], hits, results)
      {
        var h := c.hash(texts[i]);
        assert texts[..i + 1][..i] == texts[..i];
        HitsExtend(c, old(Contents()), hits.Keys, texts, i, clock);
        if h in hits {
          results := results + [Some(hits[h])];
          RecordAccess(h, clock(i));
        } else {
          results := results + [None];
          misses := misses + [i];
        }
      }
      assert texts[..|texts|] == texts;
    }

    /** The upsert: a row that exists keeps only its creation time. */
    method StoreOne(h: TextHash, v: Vector, now: Millis)
      modifies this`table
      ensures Contents() == LazyStep(c, old(Contents()), Store(h, v, now))
      ensures StoreLeaves(c, old(table), h, v, now, table)
    {
      table := Stored(c, table, h, v, now);
    }

    /** Stores the provider's answer for each missed position and fills it into the results. */
    method StoreMisses(texts: seq<Text>, results: seq<Option<Vector>>, misses: seq<nat>, provider: Text -> Vector,
        now: Millis, ghost present: set<TextHash>)
      returns (filled: seq<Option<Vector>>)
      requires misses == Misses(c, present, texts) && |results| == |texts|
      requires forall j :: 0 <= j < |misses| ==> misses[j] < |texts|
      modifies this`table
      ensures Contents() == LazyRun(c, old(Contents()), StoreEvents(c, present, texts, provider, now))
      ensures filled == Fill(texts, results, misses, provider)
    {
      ghost var events := StoreEvents(c, present, texts, provider, now);
      StoresFollowMisses(c, present, texts, provider, now);
      filled := results;
      for j := 0 to |misses|
        invariant Contents() == LazyRun(c, old(Contents()), events[..j])
        invariant filled == Fill(texts, results, misses[..j], provider)
      {
        var idx := misses[j];
        RunExtends(c, old(Contents()), events, j);
        FillGrows(texts, results, misses, j, provider);
        var v := provider(texts[idx]);
        filled := filled[idx := Some(v)];
        StoreOne(c.hash(texts[idx]), v, now);
      }
      assert events[..|misses|] == events && misses[..|misses|] == misses;
    }

    /** The batch itself: look up, record the hits, ask for the misses, store and fill in what was answered. */
    method RunBatch(texts: seq<Text>, provider: Option<Text -> Vector>, clock: nat -> Millis)
      returns (res: Option<seq<Vector>>)
      modifies this`table, this`buffer
      ensures Contents() == LazyCall(c, old(Contents()), EmbeddingModel.EmbedBatch(texts, provider, clock))
      ensures res.Some? <==> provider.Some? || AllCached(c, old(table), texts)
      ensures res.Some? ==> Answers(c, old(table), texts, Else(provider), res.value)
    {
      var hashes := seq(|texts|, i requires 0 <= i < |texts| => c.hash(texts[i]));
      var hits := BatchSelect(hashes);
      LookupHits(c, table, texts, hashes);
      HitsStandForPresent(c, Contents(), texts, hits, clock, provider);
      var results, misses := ScanBatch(texts, hits, clock);
      FilledAnswers(c, old(table), texts, hits, Else(provider), results);
      if misses != [] {
        if provider.None? {
          return None;
        }
        results := StoreMisses(texts, results, misses, provider.value, clock(|texts|), hits.Keys);
      } else {
        StoresFollowMisses(c, hits.Keys, texts, Else(provider), clock(|texts|));
      }
      CompleteAnswers(c, old(table), texts, Else(provider), results);
      return Some(Values(results));
    }

    /**
     Answers every position, duplicates included, from the table or else from the provider, and
     leaves every text of an answered batch cached. Over a cache that agrees with the provider, each
     answer does too up to rounding, also when everything was cached and the provider never asked,
     and the cache still agrees afterwards.
     */
    method EmbedBatch(texts: seq<Text>, provider: Option<Text -> Vector>, clock: nat -> Millis,
        ghost model: Text -> Vector)
      returns (res: Option<seq<Vector>>)
      modifies this`table, this`buffer
      ensures Contents() == LazyCall(c, old(Contents()), EmbeddingModel.EmbedBatch(texts, provider, clock))
      ensures res.Some? <==> provider.Some? || AllCached(c, old(table), texts)
      ensures res.Some? ==> Answers(c, old(table), texts, Else(provider), res.value)
      ensures BatchLeaves(c, old(table), texts, provider, clock(|texts|), table)
      ensures forall key :: key in old(table) ==> Touches(c, old(Contents()), texts, clock, Contents(), key)
      ensures res.Some? ==> AllCached(c, table, texts)
      ensures Agreeing(c, model, old(table), provider) ==>
                Coherent(c, model, table) && (res.Some? ==> Agrees(c, model, texts, res.value))
    {
      res := RunBatch(texts, provider, clock);
      BatchColumns(c, old(Contents()), texts, provider, clock);
      forall key | key in old(table) ensures Touches(c, old(Contents()), texts, clock, Contents(), key) {
        BatchTouches(c, old(Contents()), texts, provider, clock, key);
      }
      BatchIsAllCached(c, old(table), texts, provider, clock(|texts|), table);
      if Agreeing(c, model, old(table), provider) {
        CallStaysCoherent(c, model, old(Contents()), EmbeddingModel.EmbedBatch(texts, provider, clock));
        if res.Some? {
          AnswersAgree(c, model, old(table), texts, provider, res.value);
        }
      }
    }

    // -------------------------------------------------------------------------
    // Pruning
    // -------------------------------------------------------------------------

    method LeastRecentlyUsed(among: set<Key>) returns (least: Key)
      requires among != {} && among <= table.Keys
      ensures least in among && forall key :: key in among ==> table[least].accessedAt <= table[key].accessedAt
    {
      least :| least in among;
      var rest := among - {least};
      while rest != {}
        invariant least in among && rest <= among
        invariant forall key :: key in among - rest ==> table[least].accessedAt <= table[key].accessedAt
        decreases rest
      {
        var key :| key in rest;
        rest := rest - {key};
        if table[key].accessedAt < table[least].accessedAt {
          least := key;
        }
      }
    }

    /** `ORDER BY accessed_at ASC LIMIT max(0, count - maxEntries)`. */
    method SelectVictims(maxEntries: nat) returns (victims: set<Key>)
      ensures LegalVictims(table, maxEntries, victims)
    {
      victims := {};
      assert |table| == |table.Keys|;
      while |table| - |victims| > maxEntries
        invariant victims <= table.Keys
        invariant |table| - |victims| >= (if |table| > maxEntries then maxEntries else |table|)
        invariant forall v, s :: v in victims && s in table.Keys - victims ==>
                    table[v].accessedAt <= table[s].accessedAt
        decreases |table| - |victims|
      {
        assert |table.Keys - victims| == |table.Keys| - |victims|;
        var least := LeastRecentlyUsed(table.Keys - victims);
        victims := victims + {least};
      }
    }

    method DeleteRows(victims: set<Key>, createdBefore: Option<Millis>)
      modifies this`table
      ensures table == Pruned(old(table), victims, createdBefore)
    {
      table := map key | key in table && key !in victims :: table[key];
      if createdBefore.Some? {
        table := map key | key in table && createdBefore.value <= table[key].createdAt :: table[key];
      }
    }

    /** Writes the pending access times back first, so that a recently hit row is not taken for a stale one. */
    method PruneEntries(maxEntries: nat, ttlMs: Option<Millis>, now: Millis) returns (ghost victims: set<Key>)
      modifies this`table, this`buffer
      ensures LegalVictims(Flushed(c, old(Contents())), maxEntries, victims)
      ensures Contents() ==
                LazyCall(c, old(Contents()), Prune(victims, if ttlMs.Some? then Some(now - ttlMs.value) else None))
      ensures buffer == map[] && |table| <= maxEntries
      ensures PruneLeaves(old(table), victims, if ttlMs.Some? then Some(now - ttlMs.value) else None, table)
    {
      ghost var start := Contents();
      FlushAccessBuffer();
      var chosen := SelectVictims(maxEntries);
      victims := chosen;
      var before := if ttlMs.Some? then Some(now - ttlMs.value) else None;
      OneEvent(c, start, map[], Evict(victims, before));
      PruneColumns(c, start, victims, before);
      PruneBounds(table, maxEntries, victims, before);
      DeleteRows(chosen, before);
    }

    method Dispose()
      modifies this
      ensures disposed
      ensures Contents() ==
                if old(disposed) then old(Contents()) else LazyCall(c, old(Contents()), EmbeddingModel.Dispose)
    {
      if disposed {
        return;
      }
      disposed := true;
      OneEvent(c, Contents(), map[], WriteBack);
      FlushAccessBuffer();
    }
  }

  /** Each missed position takes the provider's vector. */
  function Fill(texts: seq<Text>, results: seq<Option<Vector>>, misses: seq<nat>,
      provider: Text -> Vector): (filled: seq<Option<Vector>>)
    requires |results| == |texts| && forall j :: 0 <= j < |misses| ==> misses[j] < |texts|
    ensures |filled| == |texts|
    ensures forall i :: 0 <= i < |texts| ==> filled[i] == if i in misses then Some(provider(texts[i])) else results[i]
  {
    if misses == [] then results
    else
      var n := |misses| - 1;
      assert misses == misses[..n] + [misses[n]];
      Fill(texts, results, misses[..n], provider)[misses[n] := Some(provider(texts[misses[n]]))]
  }

  lemma FillGrows(texts: seq<Text>, results: seq<Option<Vector>>, misses: seq<nat>, j: nat, provider: Text -> Vector)
    requires |results| == |texts| && (forall k :: 0 <= k < |misses| ==> misses[k] < |texts|) && j < |misses|
    ensures Fill(texts, results, misses[..j + 1], provider) ==
              Fill(texts, results, misses[..j], provider)[misses[j] := Some(provider(texts[misses[j]]))]
  {
    assert misses[..j + 1] == misses[..j] + [misses[j]];
  }

  function Values(results: seq<Option<Vector>>): (values: seq<Vector>)
    requires forall i :: 0 <= i < |results| ==> results[i].Some?
    ensures |values| == |results| && forall i :: 0 <= i < |results| ==> results[i] == Some(values[i])
  {
    seq(|results|, i requires 0 <= i < |results| && results[i].Some? => results[i].value)
  }

  /** For the texts of the batch, `hits` says exactly what the table holds. */
  ghost predicate HitsOf(c: Config, table: Table, texts: seq<Text>, hits: map<TextHash, Vector>) {
    forall i :: 0 <= i < |texts| ==>
      var h := c.hash(texts[i]);
      (h in hits <==> Key(c.owner, h) in table) && (h in hits ==> hits[h] == table[Key(c.owner, h)].embedding)
  }

  lemma LookupHits(c: Config, table: Table, texts: seq<Text>, hashes: seq<TextHash>)
    requires |hashes| == |texts| && forall i :: 0 <= i < |texts| ==> hashes[i] == c.hash(texts[i])
    ensures HitsOf(c, table, texts, Lookup(c, table, hashes))
  {
    forall i | 0 <= i < |texts| ensures c.hash(texts[i]) in hashes {
      assert hashes[i] == c.hash(texts[i]);
    }
  }

  /** Acting on the hits of a batch is acting on what the table holds. */
  lemma HitsStandForPresent(c: Config, l: Lazy, texts: seq<Text>, hits: map<TextHash, Vector>, clock: nat -> Millis,
      provider: Option<Text -> Vector>)
    requires HitsOf(c, l.table, texts, hits)
    ensures var hit := LazyRun(c, l, HitEvents(c, hits.Keys, texts, clock));
            LazyCall(c, l, EmbeddingModel.EmbedBatch(texts, provider, clock)) ==
              if provider.Some?
              then LazyRun(c, hit, StoreEvents(c, hits.Keys, texts, provider.value, clock(|texts|))) else hit
  {
    forall i | 0 <= i < |texts| ensures c.hash(texts[i]) in hits <==> c.hash(texts[i]) in Present(c, l.table) {
    }
    SameBatch(c, hits.Keys, Present(c, l.table), texts, clock, Else(provider), clock(|texts|));
    BatchCall(c, l, texts, provider, clock);
  }

  /** One more position runs one more hit if its text is present, and nothing otherwise. */
  lemma HitsExtend(c: Config, l: Lazy, present: set<TextHash>, texts: seq<Text>, i: nat, clock: nat -> Millis)
    requires i < |texts|
    ensures var before := LazyRun(c, l, HitEvents(c, present, texts[..i], clock));
            LazyRun(c, l, HitEvents(c, present, texts[..i + 1], clock))
            == if c.hash(texts[i]) in present then LazyStep(c, before, Hit(c.hash(texts[i]), clock(i))) else before
  {
    var events, h := HitEvents(c, present, texts[..i], clock), c.hash(texts[i]);
    assert texts[..i + 1][..i] == texts[..i];
    assert h !in present ==> HitEvents(c, present, texts[..i + 1], clock) == events;
    assert (events + [Hit(h, clock(i))])[..|events|] == events;
  }

  /** The results of scanning a batch against its hits. */
  ghost predicate ScannedAs(c: Config, texts: seq<Text>, hits: map<TextHash, Vector>, results: seq<Option<Vector>>) {
    && |results| == |texts|
    && forall i :: 0 <= i < |texts| ==>
          results[i] == if c.hash(texts[i]) in hits then Some(hits[c.hash(texts[i])]) else None
  }

  /** Every position is filled with what its text resolves to. */
  ghost predicate Complete(c: Config, table: Table, texts: seq<Text>, provider: Text -> Vector,
      results: seq<Option<Vector>>) {
    |results| == |texts| && forall i :: 0 <= i < |texts| ==> results[i] == Some(Resolve(c, table, texts[i], provider))
  }

  lemma CompleteAnswers(c: Config, table: Table, texts: seq<Text>, provider: Text -> Vector,
      results: seq<Option<Vector>>)
    requires Complete(c, table, texts, provider, results)
    ensures forall i :: 0 <= i < |results| ==> results[i].Some?
    ensures Answers(c, table, texts, provider, Values(results))
  {
    forall i | 0 <= i < |results|
      ensures results[i].Some? && Values(results)[i] == Resolve(c, table, texts[i], provider)
    {
    }
  }

  /** Filling the misses completes the answer, and there are none exactly when every text is cached. */
  lemma FilledAnswers(c: Config, table: Table, texts: seq<Text>, hits: map<TextHash, Vector>,
      provider: Text -> Vector, results: seq<Option<Vector>>)
    requires HitsOf(c, table, texts, hits) && ScannedAs(c, texts, hits, results)
    ensures var misses := Misses(c, hits.Keys, texts);
            && (forall j :: 0 <= j < |misses| ==> misses[j] < |texts|)
            && (misses == [] <==> AllCached(c, table, texts))
            && Complete(c, table, texts, provider, Fill(texts, results, misses, provider))
  {
    var misses := Misses(c, hits.Keys, texts);
    MissedPositions(c, hits.Keys, texts);
    var filled := Fill(texts, results, misses, provider);
    forall i | 0 <= i < |texts| ensures filled[i] == Some(Resolve(c, table, texts[i], provider)) {
      if i in misses {
        var j :| 0 <= j < |misses| && misses[j] == i;
        assert c.hash(texts[i]) !in hits.Keys;
      }
    }
    if misses != [] {
      assert c.hash(texts[misses[0]]) !in hits.Keys;
    }
  }

  /** The provider consulted, with an arbitrary one standing in for a provider that does not answer. */
  function Else(provider: Option<Text -> Vector>): Text -> Vector {
    if provider.Some? then provider.value else (t => [])
  }

  /** A batch only depends on which of its own texts are present. */
  lemma {:induction false} SameBatch(c: Config, p: set<TextHash>, q: set<TextHash>, texts: seq<Text>,
      clock: nat -> Millis, provider: Text -> Vector, now: Millis)
    requires forall i :: 0 <= i < |texts| ==> (c.hash(texts[i]) in p <==> c.hash(texts[i]) in q)
    ensures HitEvents(c, p, texts, clock) == HitEvents(c, q, texts, clock)
    ensures StoreEvents(c, p, texts, provider, now) == StoreEvents(c, q, texts, provider, now)
    ensures Misses(c, p, texts) == Misses(c, q, texts)
  {
    if texts != [] {
      var n := |texts| - 1;
      forall i | 0 <= i < n ensures texts[..n][i] == texts[i] {
      }
      SameBatch(c, p, q, texts[..n], clock, provider, now);
    }
  }

  // ---------------------------------------------------------------------------
  // Agreement with the provider
  // ---------------------------------------------------------------------------

  ghost predicate Injective(hash: Text -> TextHash) {
    forall a, b :: hash(a) == hash(b) ==> a == b
  }

  ghost predicate Idempotent(round: Vector -> Vector) {
    forall v :: round(round(v)) == round(v)
  }

  /** Every cached row of this owner holds the rounded vector of its text. */
  ghost predicate Coherent(c: Config, model: Text -> Vector, table: Table) {
    forall text :: Key(c.owner, c.hash(text)) in table ==>
      table[Key(c.owner, c.hash(text))].embedding == c.round(model(text))
  }

  /** The cache, its digest and its rounding are sound for the model, and a provider that answers is the model. */
  ghost predicate Agreeing(c: Config, model: Text -> Vector, table: Table, provider: Option<Text -> Vector>) {
    && Coherent(c, model, table) && Injective(c.hash) && Idempotent(c.round)
    && (provider.Some? ==> provider.value == model)
  }

  /** Position by position, the answer is the model's own vector up to rounding. */
  ghost predicate Agrees(c: Config, model: Text -> Vector, texts: seq<Text>, answer: seq<Vector>) {
    |answer| == |texts| && forall i :: 0 <= i < |texts| ==> c.round(answer[i]) == c.round(model(texts[i]))
  }

  /** Every answer, cached or fresh, agrees; without a provider all of them were cached. */
  lemma AnswersAgree(c: Config, model: Text -> Vector, table: Table, texts: seq<Text>,
      provider: Option<Text -> Vector>, answer: seq<Vector>)
    requires Agreeing(c, model, table, provider) && (provider.Some? || AllCached(c, table, texts))
    requires Answers(c, table, texts, Else(provider), answer)
    ensures Agrees(c, model, texts, answer)
  {
    forall i | 0 <= i < |texts| ensures c.round(answer[i]) == c.round(model(texts[i])) {
      assert answer[i] == Resolve(c, table, texts[i], Else(provider));
    }
  }

  /** The event stores nothing but the provider's own vector for some text. */
  ghost predicate Faithful(c: Config, model: Text -> Vector, event: Event) {
    event.Store? ==> exists text :: event.textHash == c.hash(text) && event.vector == model(text)
  }

  lemma FlushStaysCoherent(c: Config, model: Text -> Vector, l: Lazy)
    requires Coherent(c, model, l.table)
    ensures Coherent(c, model, Flushed(c, l))
  {
  }

  lemma StepStaysCoherent(c: Config, model: Text -> Vector, l: Lazy, event: Event)
    requires Coherent(c, model, l.table) && Injective(c.hash) && Faithful(c, model, event)
    ensures Coherent(c, model, LazyStep(c, l, event).table)
  {
    match event
    case Hit(h, now) => FlushStaysCoherent(c, model, l.(buffer := l.buffer[h := now]));
    case Store(_, _, _) =>
    case Evict(_, _) => FlushStaysCoherent(c, model, l);
    case WriteBack => FlushStaysCoherent(c, model, l);
  }

  lemma {:induction false} RunStaysCoherent(c: Config, model: Text -> Vector, l: Lazy, events: seq<Event>)
    requires Coherent(c, model, l.table) && Injective(c.hash)
    requires forall i :: 0 <= i < |events| ==> Faithful(c, model, events[i])
    ensures Coherent(c, model, LazyRun(c, l, events).table)
  {
    if events != [] {
      var before := events[..|events| - 1];
      RunStaysCoherent(c, model, l, before);
      StepStaysCoherent(c, model, LazyRun(c, l, before), events[|events| - 1]);
    }
  }

  lemma {:induction false} BatchIsFaithful(c: Config, model: Text -> Vector, present: set<TextHash>, texts: seq<Text>,
      clock: nat -> Millis, now: Millis)
    ensures forall i :: 0 <= i < |HitEvents(c, present, texts, clock)| ==> HitEvents(c, present, texts, clock)[i].Hit?
    ensures forall i :: 0 <= i < |StoreEvents(c, present, texts, model, now)| ==>
              Faithful(c, model, StoreEvents(c, present, texts, model, now)[i])
  {
    if texts != [] {
      BatchIsFaithful(c, model, present, texts[..|texts| - 1], clock, now);
    }
  }

  /** The call consults the one deterministic provider, if any. */
  ghost predicate Consults(model: Text -> Vector, call: Call) {
    (call.Embed? || call.EmbedBatch?) && call.provider.Some? ==> call.provider.value == model
  }

  lemma CallStaysCoherent(c: Config, model: Text -> Vector, l: Lazy, call: Call)
    requires Coherent(c, model, l.table) && Injective(c.hash) && Consults(model, call)
    ensures Coherent(c, model, LazyCall(c, l, call).table)
  {
    var present := Present(c, l.table);
    if call.EmbedBatch? {
      BatchIsFaithful(c, model, present, call.texts, call.clock, call.clock(|call.texts|));
    }
    RunStaysCoherent(c, model, l, Events(c, present, call));
  }

  /** A coherent cache stays coherent under any calls and any evictions. */
  lemma {:induction false} CallsStayCoherent(c: Config, model: Text -> Vector, table: Table, calls: seq<Call>)
    requires Coherent(c, model, table) && Injective(c.hash)
    requires forall i :: 0 <= i < |calls| ==> Consults(model, calls[i])
    ensures Coherent(c, model, LazyCalls(c, Lazy(table, map[]), calls).table)
  {
    if calls != [] {
      var before := calls[..|calls| - 1];
      CallsStayCoherent(c, model, table, before);
      assert Consults(model, calls[|calls| - 1]);
      CallStaysCoherent(c, model, LazyCalls(c, Lazy(table, map[]), before), calls[|calls| - 1]);
    }
  }

  /** After any calls and evictions on a coherent cache, whatever a batch answers agrees with the provider. */
  lemma LaterAnswersAgree(c: Config, model: Text -> Vector, table: Table, calls: seq<Call>, texts: seq<Text>,
      provider: Option<Text -> Vector>, answer: seq<Vector>)
    requires Agreeing(c, model, table, provider) && forall i :: 0 <= i < |calls| ==> Consults(model, calls[i])
    requires var now := LazyCalls(c, Lazy(table, map[]), calls).table;
             (provider.Some? || AllCached(c, now, texts)) && Answers(c, now, texts, Else(provider), answer)
    ensures Agrees(c, model, texts, answer)
  {
    CallsStayCoherent(c, model, table, calls);
    AnswersAgree(c, model, LazyCalls(c, Lazy(table, map[]), calls).table, texts, provider, answer);
  }

  lemma BatchIsAllCached(c: Config, before: Table, texts: seq<Text>, provider: Option<Text -> Vector>, now: Millis,
      table: Table)
    requires BatchLeaves(c, before, texts, provider, now, table)
    ensures provider.Some? || AllCached(c, before, texts) ==> AllCached(c, table, texts)
  {
    forall i | 0 <= i < |texts| && (provider.Some? || Key(c.owner, c.hash(texts[i])) in before)
      ensures Key(c.owner, c.hash(texts[i])) in table
    {
      if Key(c.owner, c.hash(texts[i])) !in before {
        assert StoredIn(c, table, texts, provider.value, now, c.hash(texts[i]));
      }
    }
  }

  /** After a batch, the table holds for each of its texts what the batch answered, up to rounding. */
  lemma BatchIsCached(c: Config, before: Table, texts: seq<Text>, provider: Option<Text -> Vector>, now: Millis,
      first: seq<Vector>, table: Table, i: nat)
    requires Injective(c.hash) && Idempotent(c.round) && BatchLeaves(c, before, texts, provider, now, table)
    requires (provider.Some? || AllCached(c, before, texts)) && Answers(c, before, texts, Else(provider), first)
    requires i < |texts|
    ensures var key := Key(c.owner, c.hash(texts[i]));
            key in table && c.round(table[key].embedding) == c.round(first[i])
  {
    assert first[i] == Resolve(c, before, texts[i], Else(provider));
    if Key(c.owner, c.hash(texts[i])) !in before {
      assert StoredIn(c, table, texts, provider.value, now, c.hash(texts[i]));
    }
  }

  /**
   A batch that was answered once is answered again after any calls that do not prune, without
   asking the provider, and by the same vectors up to rounding.
   */
  lemma AnsweredAgain(c: Config, l: Lazy, texts: seq<Text>, provider: Option<Text -> Vector>, clock: nat -> Millis,
      first: seq<Vector>, calls: seq<Call>, again: seq<Vector>)
    requires Injective(c.hash) && Idempotent(c.round)
    requires (provider.Some? || AllCached(c, l.table, texts)) && Answers(c, l.table, texts, Else(provider), first)
    requires forall i :: 0 <= i < |calls| ==> !calls[i].Prune?
    ensures var now := LazyCalls(c, LazyCall(c, l, EmbeddingModel.EmbedBatch(texts, provider, clock)), calls).table;
            && AllCached(c, now, texts)
            && (Answers(c, now, texts, Else(None), again) ==>
                  forall i :: 0 <= i < |texts| ==> c.round(again[i]) == c.round(first[i]))
  {
    var mid := LazyCall(c, l, EmbeddingModel.EmbedBatch(texts, provider, clock));
    BatchColumns(c, l, texts, provider, clock);
    CallsRetain(c, mid, calls);
    forall i | 0 <= i < |texts|
      ensures var key := Key(c.owner, c.hash(texts[i]));
              key in mid.table && c.round(mid.table[key].embedding) == c.round(first[i])
    {
      BatchIsCached(c, l.table, texts, provider, clock(|texts|), first, mid.table, i);
    }
  }
}
