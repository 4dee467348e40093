/**
 The persistent embedding cache. Hits are recorded in a buffer of access times that is written back
 when it reaches a threshold or before pruning; the eager cache writes every hit at once.
 */
module EmbeddingModel {
  import opened Wrappers

  type Text = string
  type TextHash = string
  type Vector = seq<real>
  type Millis = int

  const FLUSH_THRESHOLD := 100

  /** Provider, model and configuration digest. */
  datatype Owner = Owner(provider: string, model: string, configHash: string)

  datatype Key = Key(owner: Owner, textHash: TextHash)

  datatype Row = Row(embedding: Vector, dims: int, hitCount: nat, createdAt: Millis, accessedAt: Millis)

  type Table = map<Key, Row>

  /** The table as one cache instance sees it, with its pending access times. */
  datatype Lazy = Lazy(table: Table, buffer: map<TextHash, Millis>)

  /** What one instance is configured with. */
  datatype Config = Config(owner: Owner, dims: int, hash: Text -> TextHash, round: Vector -> Vector)

  // ---------------------------------------------------------------------------
  // Events
  // ---------------------------------------------------------------------------

  datatype Event =
    | Hit(textHash: TextHash, now: Millis)
    | Store(textHash: TextHash, vector: Vector, now: Millis)
    | Evict(victims: set<Key>, createdBefore: Option<Millis>)
    | WriteBack

  function Touched(row: Row, now: Millis): Row {
    row.(accessedAt := now, hitCount := row.hitCount + 1)
  }

  /** The upsert: an existing row keeps its creation time and starts counting hits again. */
  function Stored(c: Config, table: Table, textHash: TextHash, v: Vector, now: Millis): Table {
    var key := Key(c.owner, textHash);
    table[key := if key in table
                 then table[key].(embedding := c.round(v), dims := c.dims, hitCount := 0, accessedAt := now)
                 else Row(c.round(v), c.dims, 0, now, now)]
  }

  predicate Outlived(row: Row, createdBefore: Option<Millis>) {
    createdBefore.Some? && row.createdAt < createdBefore.value
  }

  /** The two deletes of a prune: the chosen least recently used rows, then those past their time to live. */
  function Pruned(table: Table, victims: set<Key>, createdBefore: Option<Millis>): Table {
    map key | key in table && key !in victims && !Outlived(table[key], createdBefore) :: table[key]
  }

  /** Write every pending access time back to its row. */
  function Flushed(c: Config, l: Lazy): Table {
    map key | key in l.table ::
      if key.owner == c.owner && key.textHash in l.buffer
      then Touched(l.table[key], l.buffer[key.textHash])
      else l.table[key]
  }

  function EagerStep(c: Config, table: Table, e: Event): Table {
    match e
    case Hit(h, now) =>
      var key := Key(c.owner, h);
      if key in table then table[key := Touched(table[key], now)] else table
    case Store(h, v, now) => Stored(c, table, h, v, now)
    case Evict(victims, before) => Pruned(table, victims, before)
    case WriteBack => table
  }

  function LazyStep(c: Config, l: Lazy, e: Event): Lazy {
    match e
    case Hit(h, now) =>
      var buffered := l.(buffer := l.buffer[h := now]);
      if |buffered.buffer| >= FLUSH_THRESHOLD then Lazy(Flushed(c, buffered), map[]) else buffered
    case Store(h, v, now) => l.(table := Stored(c, l.table, h, v, now))
    case Evict(victims, before) => Lazy(Pruned(Flushed(c, l), victims, before), map[])
    case WriteBack => Lazy(Flushed(c, l), map[])
  }

  // ---------------------------------------------------------------------------
  // Calls
  // ---------------------------------------------------------------------------

  /** A call with the provider it would consult, if that answers, and the clock readings it would make. */
  datatype Call =
    | Embed(text: Text, provider: Option<Text -> Vector>, now: Millis)
    | EmbedBatch(texts: seq<Text>, provider: Option<Text -> Vector>, clock: nat -> Millis)
    | Prune(victims: set<Key>, createdBefore: Option<Millis>)
    | Dispose

  function Present(c: Config, table: Table): set<TextHash> {
    set key | key in table && key.owner == c.owner :: key.textHash
  }

  /** One hit per cached text, in order, each at its own clock reading. */
  function HitEvents(c: Config, present: set<TextHash>, texts: seq<Text>, clock: nat -> Millis): seq<Event> {
    if texts == [] then []
    else
      var n := |texts| - 1;
      HitEvents(c, present, texts[..n], clock)
        + if c.hash(texts[n]) in present then [Hit(c.hash(texts[n]), clock(n))] else []
  }

  /** One store per text that was not cached when the batch began, duplicates included. */
  function StoreEvents(c: Config, present: set<TextHash>, texts: seq<Text>, provider: Text -> Vector,
      now: Millis): seq<Event> {
    if texts == [] then []
    else
      var n := |texts| - 1;
      StoreEvents(c, present, texts[..n], provider, now)
        + if c.hash(texts[n]) in present then [] else [Store(c.hash(texts[n]), provider(texts[n]), now)]
  }

  /** What a call does, given only which texts are present. */
  function Events(c: Config, present: set<TextHash>, call: Call): seq<Event> {
    match call
    case Embed(text, provider, now) =>
      if c.hash(text) in present then [Hit(c.hash(text), now)]
      else if provider.Some? then [Store(c.hash(text), provider.value(text), now)] else []
    case EmbedBatch(texts, provider, clock) =>
      HitEvents(c, present, texts, clock)
        + if provider.Some? then StoreEvents(c, present, texts, provider.value, clock(|texts|)) else []
    case Prune(victims, before) => [Evict(victims, before)]
    case Dispose => [WriteBack]
  }

  function LazyRun(c: Config, l: Lazy, events: seq<Event>): Lazy {
    if events == [] then l else LazyStep(c, LazyRun(c, l, events[..|events| - 1]), events[|events| - 1])
  }

  function EagerRun(c: Config, table: Table, events: seq<Event>): Table {
    if events == [] then table else EagerStep(c, EagerRun(c, table, events[..|events| - 1]), events[|events| - 1])
  }
}
