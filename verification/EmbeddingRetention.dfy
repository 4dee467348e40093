/** The cache caches: what a call stores, what it leaves alone, and that an answer can be had again. */
module EmbeddingRetention {
  import opened Wrappers
  import opened EmbeddingModel
  import opened EmbeddingRefinement

  /** Every row is still there with its vector, dimensions and creation time; access columns may have moved. */
  ghost predicate Retains(before: Table, now: Table) {
    forall key :: key in before ==>
      && key in now && now[key].embedding == before[key].embedding
      && now[key].dims == before[key].dims && now[key].createdAt == before[key].createdAt
  }

  /** A row just stored for the text: rounded, dated now, and not hit yet. */
  ghost predicate FreshRow(c: Config, row: Row, v: Vector, now: Millis) {
    && row.embedding == c.round(v) && row.dims == c.dims
    && row.hitCount == 0 && row.createdAt == now && row.accessedAt == now
  }

  /** The one row a store writes, column by column. */
  ghost predicate StoreLeaves(c: Config, before: Table, h: TextHash, v: Vector, now: Millis, table: Table) {
    var key := Key(c.owner, h);
    && table.Keys == before.Keys + {key}
    && table[key].embedding == c.round(v) && table[key].dims == c.dims && table[key].hitCount == 0
    && table[key].accessedAt == now && table[key].createdAt == (if key in before then before[key].createdAt else now)
    && forall other :: other in before && other != key ==> table[other] == before[other]
  }

  /** The row was stored for the batch, with the vector of a text of that digest. */
  ghost predicate StoredIn(c: Config, table: Table, texts: seq<Text>, provider: Text -> Vector, now: Millis,
      h: TextHash)
  {
    && Key(c.owner, h) in table
    && exists j ::
         0 <= j < |texts| && c.hash(texts[j]) == h && FreshRow(c, table[Key(c.owner, h)], provider(texts[j]), now)
  }

  // ---------------------------------------------------------------------------
  // Events
  // ---------------------------------------------------------------------------

  lemma FlushRetains(c: Config, l: Lazy)
    ensures Retains(l.table, Flushed(c, l)) && Flushed(c, l).Keys == l.table.Keys
  {
  }

  lemma HitRetains(c: Config, l: Lazy, h: TextHash, now: Millis)
    ensures var t := LazyStep(c, l, Hit(h, now)).table; Retains(l.table, t) && t.Keys == l.table.Keys
  {
    FlushRetains(c, l.(buffer := l.buffer[h := now]));
  }

  lemma {:induction false} HitsRetain(c: Config, l: Lazy, present: set<TextHash>, texts: seq<Text>,
      clock: nat -> Millis)
    ensures var t := LazyRun(c, l, HitEvents(c, present, texts, clock)).table;
            Retains(l.table, t) && t.Keys == l.table.Keys
  {
    if texts != [] {
      var n := |texts| - 1;
      var before := HitEvents(c, present, texts[..n], clock);
      HitsRetain(c, l, present, texts[..n], clock);
      var hit := [Hit(c.hash(texts[n]), clock(n))];
      assert (before + hit)[..|before|] == before && before + [] == before;
      HitRetains(c, LazyRun(c, l, before), c.hash(texts[n]), clock(n));
    }
  }

  /** The stores of a batch leave present rows as they are and put every absent text in. */
  ghost predicate Filled(c: Config, before: Table, present: set<TextHash>, texts: seq<Text>, provider: Text -> Vector,
      now: Millis, table: Table)
  {
    && (forall key :: key in before && !(key.owner == c.owner && key.textHash !in present) ==>
          key in table && table[key] == before[key])
    && (forall i :: 0 <= i < |texts| && c.hash(texts[i]) !in present ==>
          StoredIn(c, table, texts, provider, now, c.hash(texts[i])))
    && (forall key :: key in table && key !in before ==>
          key.owner == c.owner && exists i :: 0 <= i < |texts| && c.hash(texts[i]) == key.textHash)
  }

  lemma StoreFills(c: Config, before: Table, present: set<TextHash>, texts: seq<Text>, provider: Text -> Vector,
      now: Millis, table: Table)
    requires texts != [] && Filled(c, before, present, texts[..|texts| - 1], provider, now, table)
    requires forall i :: 0 <= i < |texts| && c.hash(texts[i]) !in present ==> Key(c.owner, c.hash(texts[i])) !in before
    ensures var n := |texts| - 1; var h := c.hash(texts[n]);
            Filled(c, before, present, texts, provider, now,
                   if h in present then table else EagerStep(c, table, Store(h, provider(texts[n]), now)))
  {
    var n := |texts| - 1;
    var h, fewer := c.hash(texts[n]), texts[..n];
    var t := if h in present then table else EagerStep(c, table, Store(h, provider(texts[n]), now));
    forall i | 0 <= i < |texts| && c.hash(texts[i]) !in present
      ensures StoredIn(c, t, texts, provider, now, c.hash(texts[i]))
    {
      if c.hash(texts[i]) == h {
        if Key(c.owner, h) in table {
          assert exists k :: 0 <= k < |fewer| && c.hash(fewer[k]) == h;
          var k :| 0 <= k < |fewer| && c.hash(fewer[k]) == h;
          assert StoredIn(c, table, fewer, provider, now, c.hash(fewer[k]));
        }
        assert FreshRow(c, t[Key(c.owner, h)], provider(texts[n]), now);
      } else {
        assert fewer[i] == texts[i];
        assert StoredIn(c, table, fewer, provider, now, c.hash(fewer[i]));
        var j :| 0 <= j < |fewer| && c.hash(fewer[j]) == c.hash(texts[i])
                 && FreshRow(c, table[Key(c.owner, c.hash(texts[i]))], provider(fewer[j]), now);
        assert texts[j] == fewer[j];
      }
    }
    forall key | key in t && key !in before
      ensures key.owner == c.owner && exists i :: 0 <= i < |texts| && c.hash(texts[i]) == key.textHash
    {
      if key in table {
        var i :| 0 <= i < |fewer| && c.hash(fewer[i]) == key.textHash;
        assert texts[i] == fewer[i];
      } else {
        assert c.hash(texts[n]) == key.textHash;
      }
    }
  }

  lemma {:induction false} StoresFill(c: Config, l: Lazy, present: set<TextHash>, texts: seq<Text>,
      provider: Text -> Vector, now: Millis)
    requires forall i :: 0 <= i < |texts| && c.hash(texts[i]) !in present ==> Key(c.owner, c.hash(texts[i])) !in l.table
    ensures Filled(c, l.table, present, texts, provider, now,
                   LazyRun(c, l, StoreEvents(c, present, texts, provider, now)).table)
  {
    if texts != [] {
      var n := |texts| - 1;
      var h, before := c.hash(texts[n]), StoreEvents(c, present, texts[..n], provider, now);
      forall i | 0 <= i < n ensures texts[..n][i] == texts[i] {
      }
      StoresFill(c, l, present, texts[..n], provider, now);
      var last := [Store(h, provider(texts[n]), now)];
      assert (before + last)[..|before|] == before && before + [] == before;
      StoreFills(c, l.table, present, texts, provider, now, LazyRun(c, l, before).table);
    }
  }

  // ---------------------------------------------------------------------------
  // Calls
  // ---------------------------------------------------------------------------

  /** What an answered batch leaves: the rows it found, and a fresh row for each text it did not. */
  ghost predicate BatchLeaves(c: Config, before: Table, texts: seq<Text>, provider: Option<Text -> Vector>, now: Millis,
      table: Table)
  {
    && Retains(before, table)
    && (provider.Some? ==>
          forall i :: 0 <= i < |texts| && Key(c.owner, c.hash(texts[i])) !in before ==>
            StoredIn(c, table, texts, provider.value, now, c.hash(texts[i])))
    && (forall key :: key in table && key !in before ==>
          && provider.Some? && key.owner == c.owner
          && exists i :: 0 <= i < |texts| && c.hash(texts[i]) == key.textHash)
  }

  lemma BatchColumns(c: Config, l: Lazy, texts: seq<Text>, provider: Option<Text -> Vector>, clock: nat -> Millis)
    ensures BatchLeaves(c, l.table, texts, provider, clock(|texts|),
                        LazyCall(c, l, EmbedBatch(texts, provider, clock)).table)
  {
    var present := Present(c, l.table);
    var hits := HitEvents(c, present, texts, clock);
    var hit := LazyRun(c, l, hits);
    HitsRetain(c, l, present, texts, clock);
    assert hits + [] == hits;
    assert forall key :: key in l.table && key.owner == c.owner ==> key.textHash in present;
    if provider.Some? {
      RunAppends(c, l, hits, StoreEvents(c, present, texts, provider.value, clock(|texts|)));
      forall i | 0 <= i < |texts| && c.hash(texts[i]) !in present ensures Key(c.owner, c.hash(texts[i])) !in hit.table {
      }
      StoresFill(c, hit, present, texts, provider.value, clock(|texts|));
    }
  }

  /** What one embed leaves. */
  lemma EmbedColumns(c: Config, l: Lazy, text: Text, provider: Option<Text -> Vector>, now: Millis)
    ensures var table, key := LazyCall(c, l, Embed(text, provider, now)).table, Key(c.owner, c.hash(text));
            && Retains(l.table, table)
            && (key in l.table || provider.None? ==> table.Keys == l.table.Keys)
            && (key !in l.table && provider.Some? ==>
                  && table.Keys == l.table.Keys + {key} && FreshRow(c, table[key], provider.value(text), now)
                  && forall other :: other in l.table ==> table[other] == l.table[other])
  {
    var h, present := c.hash(text), Present(c, l.table);
    assert Key(c.owner, h) in l.table <==> h in present;
    if h in present {
      OneEvent(c, l, l.table, Hit(h, now));
      HitRetains(c, l, h, now);
    } else if provider.Some? {
      OneEvent(c, l, l.table, Store(h, provider.value(text), now));
    }
  }

  /** A prune deletes the victims and the rows created before the given time, and keeps the vectors of the others. */
  ghost predicate PruneLeaves(before: Table, victims: set<Key>, createdBefore: Option<Millis>, table: Table) {
    && (forall key :: key in table <==>
          && key in before && key !in victims
          && (createdBefore.None? || createdBefore.value <= before[key].createdAt))
    && forall key :: key in table ==>
         table[key].embedding == before[key].embedding && table[key].createdAt == before[key].createdAt
  }

  lemma PruneColumns(c: Config, l: Lazy, victims: set<Key>, createdBefore: Option<Millis>)
    ensures PruneLeaves(l.table, victims, createdBefore, LazyStep(c, l, Evict(victims, createdBefore)).table)
  {
    FlushRetains(c, l);
  }

  lemma CallRetains(c: Config, l: Lazy, call: Call)
    requires !call.Prune?
    ensures Retains(l.table, LazyCall(c, l, call).table)
  {
    match call
    case Embed(text, provider, now) => EmbedColumns(c, l, text, provider, now);
    case EmbedBatch(texts, provider, clock) => BatchColumns(c, l, texts, provider, clock);
    case Dispose =>
      OneEvent(c, l, l.table, WriteBack);
      FlushRetains(c, l);
  }

  /** Without a prune no row is lost and no vector changes. */
  lemma {:induction false} CallsRetain(c: Config, l: Lazy, calls: seq<Call>)
    requires forall i :: 0 <= i < |calls| ==> !calls[i].Prune?
    ensures Retains(l.table, LazyCalls(c, l, calls).table)
  {
    if calls != [] {
      CallsRetain(c, l, calls[..|calls| - 1]);
      CallRetains(c, LazyCalls(c, l, calls[..|calls| - 1]), calls[|calls| - 1]);
    }
  }

  // ---------------------------------------------------------------------------
  // Access times
  // ---------------------------------------------------------------------------

  /** The last position at which the text of this digest occurs. */
  ghost function LastAt(c: Config, texts: seq<Text>, h: TextHash): (at: Option<nat>)
    ensures at.Some? ==> at.value < |texts| && c.hash(texts[at.value]) == h
    ensures forall i :: 0 <= i < |texts| && c.hash(texts[i]) == h ==> at.Some? && i <= at.value
  {
    if texts == [] then None
    else if c.hash(texts[|texts| - 1]) == h then Some(|texts| - 1) else LastAt(c, texts[..|texts| - 1], h)
  }

  lemma HitTouches(c: Config, l: Lazy, h: TextHash, now: Millis, key: Key)
    requires key in l.table
    ensures var after := LazyStep(c, l, Hit(h, now));
            key in after.table && LastAccess(c, after, key) == if key == Key(c.owner, h) then now
                else LastAccess(c, l, key)
  {
  }

  /** What a batch does to the access time of a row that was there: its last occurrence decides, if it occurs. */
  ghost predicate Touches(c: Config, l: Lazy, texts: seq<Text>, clock: nat -> Millis, after: Lazy, key: Key)
    requires key in l.table
  {
    && key in after.table
    && var at := LastAt(c, texts, key.textHash);
    LastAccess(c, after, key) == if key.owner == c.owner && at.Some? then clock(at.value) else LastAccess(c, l, key)
  }

  lemma {:induction false} HitsTouch(c: Config, l: Lazy, present: set<TextHash>, texts: seq<Text>, clock: nat -> Millis,
      key: Key)
    requires key in l.table && (key.owner == c.owner ==> key.textHash in present)
    ensures Touches(c, l, texts, clock, LazyRun(c, l, HitEvents(c, present, texts, clock)), key)
  {
    if texts != [] {
      var n := |texts| - 1;
      var h, before := c.hash(texts[n]), HitEvents(c, present, texts[..n], clock);
      HitsTouch(c, l, present, texts[..n], clock, key);
      assert (before + [Hit(h, clock(n))])[..|before|] == before && before + [] == before;
      HitTouches(c, LazyRun(c, l, before), h, clock(n), key);
    }
  }

  lemma {:induction false} StoresKeepBuffer(c: Config, l: Lazy, present: set<TextHash>, texts: seq<Text>,
      provider: Text -> Vector, now: Millis)
    ensures LazyRun(c, l, StoreEvents(c, present, texts, provider, now)).buffer == l.buffer
  {
    if texts != [] {
      var n := |texts| - 1;
      var before := StoreEvents(c, present, texts[..n], provider, now);
      StoresKeepBuffer(c, l, present, texts[..n], provider, now);
      assert (before + [Store(c.hash(texts[n]), provider(texts[n]), now)])[..|before|] == before;
      assert before + [] == before;
    }
  }

  lemma BatchTouches(c: Config, l: Lazy, texts: seq<Text>, provider: Option<Text -> Vector>, clock: nat -> Millis,
      key: Key)
    requires key in l.table
    ensures Touches(c, l, texts, clock, LazyCall(c, l, EmbedBatch(texts, provider, clock)), key)
  {
    var present, now := Present(c, l.table), clock(|texts|);
    var hits := HitEvents(c, present, texts, clock);
    var hit := LazyRun(c, l, hits);
    HitsTouch(c, l, present, texts, clock, key);
    HitsRetain(c, l, present, texts, clock);
    assert hits + [] == hits;
    if provider.Some? {
      RunAppends(c, l, hits, StoreEvents(c, present, texts, provider.value, now));
      StoresFill(c, hit, present, texts, provider.value, now);
      StoresKeepBuffer(c, hit, present, texts, provider.value, now);
    }
  }

  lemma EmbedTouches(c: Config, l: Lazy, text: Text, provider: Option<Text -> Vector>, now: Millis)
    requires Key(c.owner, c.hash(text)) in l.table
    ensures var after := LazyCall(c, l, Embed(text, provider, now));
            Key(c.owner, c.hash(text)) in after.table && LastAccess(c, after, Key(c.owner, c.hash(text))) == now
  {
    assert c.hash(text) in Present(c, l.table);
    OneEvent(c, l, l.table, Hit(c.hash(text), now));
    HitTouches(c, l, c.hash(text), now, Key(c.owner, c.hash(text)));
  }
}
