/** What the columns of a cached row mean over a whole run: its access time is its last use, its hit count its hits. */
module EmbeddingUse {
  import opened Wrappers
  import opened EmbeddingModel
  import opened EmbeddingRefinement

  // ---------------------------------------------------------------------------
  // The events of a sequence of calls
  // ---------------------------------------------------------------------------

  ghost function Trace(c: Config, table: Table, calls: seq<Call>): seq<Event> {
    if calls == [] then []
    else
      var before := calls[..|calls| - 1];
      Trace(c, table, before) + Events(c, Present(c, EagerCalls(c, table, before)), calls[|calls| - 1])
  }

  lemma {:induction false} EagerRunAppends(c: Config, table: Table, a: seq<Event>, b: seq<Event>)
    ensures EagerRun(c, table, a + b) == EagerRun(c, EagerRun(c, table, a), b)
  {
    if b == [] {
      assert a + b == a;
    } else {
      assert (a + b)[..|a + b| - 1] == a + b[..|b| - 1];
      EagerRunAppends(c, table, a, b[..|b| - 1]);
    }
  }

  /** Both caches run the one trace. */
  lemma {:induction false} CallsRunTheirTrace(c: Config, table: Table, calls: seq<Call>)
    ensures EagerCalls(c, table, calls) == EagerRun(c, table, Trace(c, table, calls))
    ensures LazyCalls(c, Lazy(table, map[]), calls) == LazyRun(c, Lazy(table, map[]), Trace(c, table, calls))
  {
    if calls != [] {
      var before, call := calls[..|calls| - 1], calls[|calls| - 1];
      CallsRunTheirTrace(c, table, before);
      var l, e := LazyCalls(c, Lazy(table, map[]), before), EagerCalls(c, table, before);
      LazyRefinesEager(c, table, before);
      assert Present(c, l.table) == Present(c, e);
      EagerRunAppends(c, table, Trace(c, table, before), Events(c, Present(c, e), call));
      RunAppends(c, Lazy(table, map[]), Trace(c, table, before), Events(c, Present(c, e), call));
    }
  }

  // ---------------------------------------------------------------------------
  // Access times are last uses
  // ---------------------------------------------------------------------------

  /** The event hits or stores the row. */
  predicate Uses(c: Config, event: Event, key: Key) {
    key.owner == c.owner && (event.Hit? || event.Store?) && event.textHash == key.textHash
  }

  /** When the run last hit or stored the row, or the access time it began with. */
  ghost function LastUse(c: Config, table: Table, events: seq<Event>, key: Key): Millis {
    if events == [] then if key in table then table[key].accessedAt else 0
    else
      var event := events[|events| - 1];
      if Uses(c, event, key) then event.now else LastUse(c, table, events[..|events| - 1], key)
  }

  /** Every row present after a run, whenever it was stored and whoever owns it, carries the time of its last use. */
  lemma {:induction false} AccessedAtIsLastUse(c: Config, table: Table, events: seq<Event>, key: Key)
    requires key in EagerRun(c, table, events)
    ensures EagerRun(c, table, events)[key].accessedAt == LastUse(c, table, events, key)
  {
    if events != [] && key in EagerRun(c, table, events[..|events| - 1]) {
      AccessedAtIsLastUse(c, table, events[..|events| - 1], key);
    }
  }

  /** Flushed after any calls, a row's access time is its last use, although hits were only buffered. */
  lemma FlushedAtIsLastUse(c: Config, table: Table, calls: seq<Call>, key: Key)
    requires key in Flushed(c, LazyCalls(c, Lazy(table, map[]), calls))
    ensures Flushed(c, LazyCalls(c, Lazy(table, map[]), calls))[key].accessedAt ==
              LastUse(c, table, Trace(c, table, calls), key)
  {
    var l, e := LazyCalls(c, Lazy(table, map[]), calls), EagerCalls(c, table, calls);
    LazyRefinesEager(c, table, calls);
    FlushRefines(c, l, e);
    CallsRunTheirTrace(c, table, calls);
    AccessedAtIsLastUse(c, table, Trace(c, table, calls), key);
    assert SameRow(Flushed(c, l)[key], e[key]);
  }

  /** At the prune that follows any calls, no row that may be evicted was used later than one that stays. */
  lemma EvictionFollowsUse(c: Config, table: Table, calls: seq<Call>, maxEntries: nat, victims: set<Key>, v: Key,
      s: Key)
    requires LegalVictims(Flushed(c, LazyCalls(c, Lazy(table, map[]), calls)), maxEntries, victims)
    requires v in victims && s in Flushed(c, LazyCalls(c, Lazy(table, map[]), calls)).Keys - victims
    ensures LastUse(c, table, Trace(c, table, calls), v) <= LastUse(c, table, Trace(c, table, calls), s)
  {
    FlushedAtIsLastUse(c, table, calls, v);
    FlushedAtIsLastUse(c, table, calls, s);
  }

  // ---------------------------------------------------------------------------
  // Hit counters
  // ---------------------------------------------------------------------------

  /** The event hits the row while an earlier hit on it is still pending. */
  ghost predicate Rehits(c: Config, l: Lazy, event: Event, key: Key) {
    event.Hit? && Uses(c, event, key) && key.textHash in l.buffer
  }

  /** The hits since the row was last stored that found an earlier one pending. */
  ghost function CountRehits(c: Config, l: Lazy, events: seq<Event>, key: Key): nat {
    if events == [] then 0
    else
      var before, event := events[..|events| - 1], events[|events| - 1];
      if event.Store? && Uses(c, event, key) then 0
      else CountRehits(c, l, before, key) + if Rehits(c, LazyRun(c, l, before), event, key) then 1 else 0
  }

  ghost predicate AllFit(c: Config, l: Lazy, events: seq<Event>) {
    forall i :: 0 <= i < |events| ==> Fits(c, LazyRun(c, l, events[..i]), events[i])
  }

  lemma AllFitAppends(c: Config, l: Lazy, a: seq<Event>, b: seq<Event>)
    requires AllFit(c, l, a) && AllFit(c, LazyRun(c, l, a), b)
    ensures AllFit(c, l, a + b)
  {
    forall i | 0 <= i < |a + b| ensures Fits(c, LazyRun(c, l, (a + b)[..i]), (a + b)[i]) {
      if i < |a| {
        assert (a + b)[..i] == a[..i];
      } else {
        assert (a + b)[..i] == a + b[..i - |a|];
        RunAppends(c, l, a, b[..i - |a|]);
      }
    }
  }

  lemma SeparatedFits(c: Config, l: Lazy, e: Table, present: set<TextHash>, events: seq<Event>)
    requires Refines(c, l, e) && Separated(present, events)
    requires l.buffer.Keys <= present <= Present(c, l.table)
    ensures AllFit(c, l, events)
  {
    forall i | 0 <= i < |events| ensures Fits(c, LazyRun(c, l, events[..i]), events[i]) {
      assert Separated(present, events[..i]);
      RunRefines(c, l, e, present, events[..i]);
      assert events[i].Hit? ==> events[i].textHash in Present(c, LazyRun(c, l, events[..i]).table);
    }
  }

  lemma CallFits(c: Config, l: Lazy, e: Table, call: Call)
    requires Refines(c, l, e)
    ensures AllFit(c, l, Events(c, Present(c, l.table), call))
  {
    var present := Present(c, l.table);
    forall h | h in l.buffer ensures h in present {
      assert Key(c.owner, h) in l.table;
    }
    match call
    case Embed(_, _, _) => SeparatedFits(c, l, e, present, Events(c, present, call));
    case EmbedBatch(texts, provider, clock) =>
      BatchIsSeparated(c, present, texts, clock, if provider.Some? then provider.value else (t => []), clock(|texts|));
      SeparatedFits(c, l, e, present, Events(c, present, call));
    case _ =>
  }

  /** Calls only hit what is present, and only store what has no pending access time. */
  lemma {:induction false} TraceFits(c: Config, table: Table, calls: seq<Call>)
    ensures AllFit(c, Lazy(table, map[]), Trace(c, table, calls))
  {
    if calls != [] {
      var start, before := Lazy(table, map[]), calls[..|calls| - 1];
      var l, e := LazyCalls(c, start, before), EagerCalls(c, table, before);
      TraceFits(c, table, before);
      CallsRunTheirTrace(c, table, before);
      LazyRefinesEager(c, table, before);
      assert Present(c, l.table) == Present(c, e);
      CallFits(c, l, e, calls[|calls| - 1]);
      AllFitAppends(c, start, Trace(c, table, before), Events(c, Present(c, e), calls[|calls| - 1]));
    }
  }

  /** The eager counter of a row, against the buffered one once it is flushed. */
  ghost predicate CountsDiffer(c: Config, l: Lazy, e: Table, key: Key, rehits: nat) {
    key in e ==> key in l.table && e[key].hitCount == Flushed(c, l)[key].hitCount + rehits
  }

  lemma FlushedTwice(c: Config, l: Lazy)
    ensures Flushed(c, Lazy(Flushed(c, l), map[])) == Flushed(c, l)
  {
  }

  lemma HitCountsDiffer(c: Config, l: Lazy, e: Table, h: TextHash, now: Millis, key: Key, rehits: nat)
    requires Refines(c, l, e) && Key(c.owner, h) in l.table && CountsDiffer(c, l, e, key, rehits)
    ensures CountsDiffer(c, l.(buffer := l.buffer[h := now]), EagerStep(c, e, Hit(h, now)), key,
                         rehits + if Rehits(c, l, Hit(h, now), key) then 1 else 0)
  {
  }

  lemma StepCountsDiffer(c: Config, l: Lazy, e: Table, event: Event, key: Key, rehits: nat)
    requires Refines(c, l, e) && Fits(c, l, event) && CountsDiffer(c, l, e, key, rehits)
    ensures CountsDiffer(c, LazyStep(c, l, event), EagerStep(c, e, event), key,
              if event.Store? && Uses(c, event, key) then 0 else rehits + if Rehits(c, l, event, key) then 1 else 0)
  {
    match event
    case Hit(h, now) =>
      HitCountsDiffer(c, l, e, h, now, key, rehits);
      FlushedTwice(c, l.(buffer := l.buffer[h := now]));
    case Store(_, _, _) =>
    case Evict(_, _) => FlushedTwice(c, l);
    case WriteBack => FlushedTwice(c, l);
  }

  lemma {:induction false} RunCountsDiffer(c: Config, table: Table, events: seq<Event>, key: Key)
    requires AllFit(c, Lazy(table, map[]), events)
    ensures Refines(c, LazyRun(c, Lazy(table, map[]), events), EagerRun(c, table, events))
    ensures CountsDiffer(c, LazyRun(c, Lazy(table, map[]), events), EagerRun(c, table, events), key,
                         CountRehits(c, Lazy(table, map[]), events, key))
  {
    if events != [] {
      var start, before, event := Lazy(table, map[]), events[..|events| - 1], events[|events| - 1];
      forall i | 0 <= i < |before| ensures Fits(c, LazyRun(c, start, before[..i]), before[i]) {
        assert before[..i] == events[..i] && before[i] == events[i];
      }
      RunCountsDiffer(c, table, before, key);
      var l, e := LazyRun(c, start, before), EagerRun(c, table, before);
      StepRefines(c, l, e, event);
      StepCountsDiffer(c, l, e, event, key, CountRehits(c, start, before, key));
    }
  }

  /** Some hit found an earlier one pending, and the row was not stored afresh since. */
  ghost predicate LostHit(c: Config, l: Lazy, events: seq<Event>, key: Key) {
    exists i :: 0 <= i < |events| && LostAt(c, l, events, key, i)
  }

  ghost predicate LostAt(c: Config, l: Lazy, events: seq<Event>, key: Key, i: nat)
    requires i < |events|
  {
    && Rehits(c, LazyRun(c, l, events[..i]), events[i], key)
    && forall j :: i < j < |events| ==> !(events[j].Store? && Uses(c, events[j], key))
  }

  lemma LostBefore(c: Config, l: Lazy, events: seq<Event>, key: Key, i: nat)
    requires i < |events| - 1
    requires var last := events[|events| - 1]; !(last.Store? && Uses(c, last, key))
    ensures LostAt(c, l, events, key, i) <==> LostAt(c, l, events[..|events| - 1], key, i)
  {
    var before := events[..|events| - 1];
    assert before[..i] == events[..i] && before[i] == events[i];
    assert forall j :: i < j < |before| ==> before[j] == events[j];
  }

  lemma {:induction false} RehitsAreLostHits(c: Config, l: Lazy, events: seq<Event>, key: Key)
    ensures CountRehits(c, l, events, key) > 0 <==> LostHit(c, l, events, key)
  {
    if events != [] {
      var n := |events| - 1;
      var before, event := events[..n], events[n];
      RehitsAreLostHits(c, l, before, key);
      if Rehits(c, LazyRun(c, l, before), event, key) {
        assert LostAt(c, l, events, key, n);
      } else if !(event.Store? && Uses(c, event, key)) {
        forall i | 0 <= i < n ensures LostAt(c, l, events, key, i) <==> LostAt(c, l, before, key, i) {
          LostBefore(c, l, events, key, i);
        }
        if LostHit(c, l, before, key) {
          var i :| 0 <= i < |before| && LostAt(c, l, before, key, i);
          assert LostAt(c, l, events, key, i);
        }
      }
    }
  }

  /**
   Over any calls the buffered counter falls short of the eager one by exactly the hits that found
   an earlier hit on the same row pending. The two agree if and only if there was none since the
   row was last stored.
   */
  lemma HitCountsCollapse(c: Config, table: Table, calls: seq<Call>, key: Key)
    requires key in EagerCalls(c, table, calls)
    ensures var l, e := LazyCalls(c, Lazy(table, map[]), calls), EagerCalls(c, table, calls);
            var events := Trace(c, table, calls);
            && key in Flushed(c, l)
            && e[key].hitCount == Flushed(c, l)[key].hitCount + CountRehits(c, Lazy(table, map[]), events, key)
            && (e[key].hitCount == Flushed(c, l)[key].hitCount <==> !LostHit(c, Lazy(table, map[]), events, key))
  {
    var events := Trace(c, table, calls);
    TraceFits(c, table, calls);
    CallsRunTheirTrace(c, table, calls);
    RunCountsDiffer(c, table, events, key);
    RehitsAreLostHits(c, Lazy(table, map[]), events, key);
  }

  /** Two hits in a row count as one. */
  lemma TwoHitsCountOnce(c: Config, table: Table, text: Text, t0: Millis, t1: Millis)
    requires Key(c.owner, c.hash(text)) in table
    ensures var calls := [Embed(text, None, t0), Embed(text, None, t1)];
            CountRehits(c, Lazy(table, map[]), Trace(c, table, calls), Key(c.owner, c.hash(text))) == 1
  {
    var h, key := c.hash(text), Key(c.owner, c.hash(text));
    var one, two := [Embed(text, None, t0)], [Embed(text, None, t0), Embed(text, None, t1)];
    assert two[..1] == one && one[..0] == [];
    assert h in Present(c, table) && EagerCalls(c, table, []) == table;
    OneEvent(c, Lazy(table, map[]), table, Hit(h, t0));
    assert Trace(c, table, one) == [Hit(h, t0)];
    assert key in EagerCalls(c, table, one) && h in Present(c, EagerCalls(c, table, one));
    assert Trace(c, table, two) == [Hit(h, t0), Hit(h, t1)];
    assert [Hit(h, t0), Hit(h, t1)][..1] == [Hit(h, t0)];
    var m: map<TextHash, Millis> := map[];
    assert |m[h := t0]| == 1 by { assert m[h := t0] == map[h := t0]; }
    assert LazyRun(c, Lazy(table, map[]), [Hit(h, t0)]).buffer == map[h := t0];
    assert [Hit(h, t0)][..0] == [] && LazyRun(c, Lazy(table, map[]), []).buffer == map[];
    assert CountRehits(c, Lazy(table, map[]), [Hit(h, t0)], key) == 0;
  }
}
