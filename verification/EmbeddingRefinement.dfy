/** Buffering hits and writing them back late is indistinguishable, at every prune, from writing each hit at once. */
module EmbeddingRefinement {
  import opened Wrappers
  import opened EmbeddingModel

  // ---------------------------------------------------------------------------
  // The refinement relation
  // ---------------------------------------------------------------------------

  function LastAccess(c: Config, l: Lazy, key: Key): Millis
    requires key in l.table
  {
    if key.owner == c.owner && key.textHash in l.buffer then l.buffer[key.textHash] else l.table[key].accessedAt
  }

  /** Equal but for the hit counter, which the buffer collapses. */
  ghost predicate SameRow(a: Row, b: Row) {
    a.(hitCount := 0) == b.(hitCount := 0)
  }

  ghost predicate Refines(c: Config, l: Lazy, e: Table) {
    && l.table.Keys == e.Keys
    && (forall h :: h in l.buffer ==> Key(c.owner, h) in l.table)
    && (forall key :: key in e ==> SameRow(l.table[key].(accessedAt := LastAccess(c, l, key)), e[key]))
  }

  lemma FlushRefines(c: Config, l: Lazy, e: Table)
    requires Refines(c, l, e)
    ensures Refines(c, Lazy(Flushed(c, l), map[]), e)
    ensures forall key :: key in e ==> key in Flushed(c, l) && SameRow(Flushed(c, l)[key], e[key])
  {
  }

  /** The event only hits what is present, and only stores what has no pending access time. */
  ghost predicate Fits(c: Config, l: Lazy, event: Event) {
    match event
    case Hit(h, _) => Key(c.owner, h) in l.table
    case Store(h, _, _) => h !in l.buffer
    case Evict(_, _) => true
    case WriteBack => true
  }

  lemma HitRefines(c: Config, l: Lazy, e: Table, h: TextHash, now: Millis)
    requires Refines(c, l, e) && Key(c.owner, h) in l.table
    ensures Refines(c, l.(buffer := l.buffer[h := now]), EagerStep(c, e, Hit(h, now)))
  {
  }

  lemma StoreRefines(c: Config, l: Lazy, e: Table, event: Event)
    requires Refines(c, l, e) && Fits(c, l, event) && event.Store?
    ensures Refines(c, LazyStep(c, l, event), EagerStep(c, e, event))
  {
  }

  lemma StepRefines(c: Config, l: Lazy, e: Table, event: Event)
    requires Refines(c, l, e) && Fits(c, l, event)
    ensures Refines(c, LazyStep(c, l, event), EagerStep(c, e, event))
  {
    match event
    case Hit(h, now) =>
      var buffered := l.(buffer := l.buffer[h := now]);
      HitRefines(c, l, e, h, now);
      FlushRefines(c, buffered, EagerStep(c, e, event));
    case Store(_, _, _) => StoreRefines(c, l, e, event);
    case Evict(_, _) => FlushRefines(c, l, e);
    case WriteBack => FlushRefines(c, l, e);
  }

  // ---------------------------------------------------------------------------
  // Calls
  // ---------------------------------------------------------------------------

  /** Hits name present texts, stores name absent ones. */
  ghost predicate Separated(present: set<TextHash>, events: seq<Event>) {
    forall i :: 0 <= i < |events| ==>
      match events[i]
      case Hit(h, _) => h in present
      case Store(h, _, _) => h !in present
      case Evict(_, _) => false
      case WriteBack => true
  }

  lemma {:induction false} BatchIsSeparated(c: Config, present: set<TextHash>, texts: seq<Text>, clock: nat -> Millis,
      provider: Text -> Vector, now: Millis)
    ensures Separated(present, HitEvents(c, present, texts, clock))
    ensures Separated(present, StoreEvents(c, present, texts, provider, now))
  {
    if texts != [] {
      BatchIsSeparated(c, present, texts[..|texts| - 1], clock, provider, now);
    }
  }

  lemma {:induction false} RunRefines(c: Config, l: Lazy, e: Table, present: set<TextHash>, events: seq<Event>)
    requires Refines(c, l, e) && Separated(present, events)
    requires l.buffer.Keys <= present <= Present(c, l.table)
    ensures Refines(c, LazyRun(c, l, events), EagerRun(c, e, events))
    ensures LazyRun(c, l, events).buffer.Keys <= present <= Present(c, LazyRun(c, l, events).table)
  {
    if events != [] {
      var before, event := events[..|events| - 1], events[|events| - 1];
      RunRefines(c, l, e, present, before);
      var mid := LazyRun(c, l, before);
      assert Separated(present, [event]) by { assert events[|events| - 1] == event; }
      assert event.Hit? ==> event.textHash in Present(c, mid.table);
      StepRefines(c, mid, EagerRun(c, e, before), event);
      StepKeepsPresent(c, mid, present, event);
    }
  }

  lemma StepKeepsPresent(c: Config, l: Lazy, present: set<TextHash>, event: Event)
    requires l.buffer.Keys <= present <= Present(c, l.table)
    requires !event.Evict? && (event.Hit? ==> event.textHash in present)
    ensures LazyStep(c, l, event).buffer.Keys <= present <= Present(c, LazyStep(c, l, event).table)
  {
    var l' := LazyStep(c, l, event);
    forall h | h in present ensures h in Present(c, l'.table) {
      assert Key(c.owner, h) in l.table;
      assert Key(c.owner, h) in l'.table;
    }
  }

  ghost function LazyCall(c: Config, l: Lazy, call: Call): Lazy {
    LazyRun(c, l, Events(c, Present(c, l.table), call))
  }

  ghost function EagerCall(c: Config, e: Table, call: Call): Table {
    EagerRun(c, e, Events(c, Present(c, e), call))
  }

  lemma CallRefines(c: Config, l: Lazy, e: Table, call: Call)
    requires Refines(c, l, e)
    ensures Refines(c, LazyCall(c, l, call), EagerCall(c, e, call))
  {
    var present := Present(c, l.table);
    var events := Events(c, present, call);
    assert Present(c, e) == present;
    assert l.buffer.Keys <= present by {
      forall h | h in l.buffer ensures h in present { assert Key(c.owner, h) in l.table; }
    }
    match call
    case Embed(_, _, _) => RunRefines(c, l, e, present, events);
    case EmbedBatch(texts, provider, clock) =>
      BatchIsSeparated(c, present, texts, clock, if provider.Some? then provider.value else (t => []), clock(|texts|));
      RunRefines(c, l, e, present, events);
    case Prune(victims, before) =>
      OneEvent(c, l, e, Evict(victims, before));
      StepRefines(c, l, e, Evict(victims, before));
    case Dispose =>
      OneEvent(c, l, e, WriteBack);
      StepRefines(c, l, e, WriteBack);
  }

  lemma OneEvent(c: Config, l: Lazy, e: Table, event: Event)
    ensures LazyRun(c, l, [event]) == LazyStep(c, l, event)
    ensures EagerRun(c, e, [event]) == EagerStep(c, e, event)
  {
    assert [event][..0] == [];
  }

  lemma {:induction false} RunAppends(c: Config, l: Lazy, a: seq<Event>, b: seq<Event>)
    ensures LazyRun(c, l, a + b) == LazyRun(c, LazyRun(c, l, a), b)
  {
    if b == [] {
      assert a + b == a;
    } else {
      assert (a + b)[..|a + b| - 1] == a + b[..|b| - 1];
      RunAppends(c, l, a, b[..|b| - 1]);
    }
  }

  ghost function LazyCalls(c: Config, l: Lazy, calls: seq<Call>): Lazy {
    if calls == [] then l else LazyCall(c, LazyCalls(c, l, calls[..|calls| - 1]), calls[|calls| - 1])
  }

  ghost function EagerCalls(c: Config, e: Table, calls: seq<Call>): Table {
    if calls == [] then e else EagerCall(c, EagerCalls(c, e, calls[..|calls| - 1]), calls[|calls| - 1])
  }

  /** From one table and an empty buffer, any sequence of calls keeps the lazy cache equal to the eager one. */
  lemma {:induction false} LazyRefinesEager(c: Config, table: Table, calls: seq<Call>)
    ensures Refines(c, LazyCalls(c, Lazy(table, map[]), calls), EagerCalls(c, table, calls))
  {
    if calls != [] {
      var before := calls[..|calls| - 1];
      LazyRefinesEager(c, table, before);
      CallRefines(c, LazyCalls(c, Lazy(table, map[]), before), EagerCalls(c, table, before), calls[|calls| - 1]);
    }
  }

  // ---------------------------------------------------------------------------
  // Pruning
  // ---------------------------------------------------------------------------

  /** The rows the LRU delete may pick: as many as exceed the limit, none used later than a survivor. */
  ghost predicate LegalVictims(table: Table, maxEntries: nat, victims: set<Key>) {
    && victims <= table.Keys
    && |victims| == (if |table| > maxEntries then |table| - maxEntries else 0)
    && (forall v, s :: v in victims && s in table.Keys - victims ==> table[v].accessedAt <= table[s].accessedAt)
  }

  lemma ChoicesFollowAccess(a: Table, b: Table, maxEntries: nat, victims: set<Key>)
    requires a.Keys == b.Keys && forall key :: key in a ==> a[key].accessedAt == b[key].accessedAt
    requires LegalVictims(a, maxEntries, victims)
    ensures LegalVictims(b, maxEntries, victims)
  {
    assert |a| == |a.Keys| == |b.Keys| == |b|;
  }

  /** At every prune of any run, the lazy cache may evict exactly the sets of rows the eager one may. */
  lemma SameEvictionChoices(c: Config, table: Table, calls: seq<Call>, maxEntries: nat, victims: set<Key>)
    ensures var l, e := LazyCalls(c, Lazy(table, map[]), calls), EagerCalls(c, table, calls);
            LegalVictims(Flushed(c, l), maxEntries, victims) <==> LegalVictims(e, maxEntries, victims)
  {
    var l, e := LazyCalls(c, Lazy(table, map[]), calls), EagerCalls(c, table, calls);
    LazyRefinesEager(c, table, calls);
    FlushRefines(c, l, e);
    var f := Flushed(c, l);
    assert forall key :: key in f ==> SameRow(f[key], e[key]);
    if LegalVictims(f, maxEntries, victims) { ChoicesFollowAccess(f, e, maxEntries, victims); }
    if LegalVictims(e, maxEntries, victims) { ChoicesFollowAccess(e, f, maxEntries, victims); }
  }

  /** After a legal prune at most `maxEntries` rows survive. */
  lemma PruneBounds(table: Table, maxEntries: nat, victims: set<Key>, before: Option<Millis>)
    requires LegalVictims(table, maxEntries, victims)
    ensures |Pruned(table, victims, before)| <= maxEntries
  {
    var kept := Pruned(table, victims, before).Keys;
    Subset(kept, table.Keys - victims);
    assert |table.Keys - victims| == |table.Keys| - |victims|;
    assert |kept| == |Pruned(table, victims, before)|;
  }

  lemma {:induction false} Subset<T>(a: set<T>, b: set<T>)
    requires a <= b
    ensures |a| <= |b|
  {
    assert b == a + (b - a);
  }
}
