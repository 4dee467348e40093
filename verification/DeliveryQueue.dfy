/** The crash-safe delivery queue: a status machine per row, with properties of whole runs. */
module DeliveryQueue {
  import opened Wrappers

  type EntryId = string
  type Millis = int

  const AMBIGUOUS_SEND_OUTCOME := "platform send outcome is uncertain; manual verification required"

  datatype Status = Pending | InFlight | Delivered | Failed | Expired

  /** The columns no operation changes after insertion. */
  datatype Message = Message(
    text: string, channelType: string, channelId: string, tenantId: string, agentId: string,
    conversationRef: string, destinationEndpoint: string, optionsJson: string, origin: string,
    maxAttempts: nat, createdAt: Millis, scheduledAt: Millis, expireAt: Millis, traceId: Option<string>)

  datatype Entry = Entry(
    message: Message, status: Status, attemptCount: nat, lastAttemptAt: Option<Millis>,
    nextRetryAt: Option<Millis>, lastError: Option<string>)

  type Queue = map<EntryId, Entry>

  // ---------------------------------------------------------------------------
  // Statements
  // ---------------------------------------------------------------------------

  predicate Due(e: Entry, now: Millis) {
    e.message.scheduledAt <= now && (e.nextRetryAt.Some? ==> e.nextRetryAt.value <= now)
  }

  predicate Claimable(q: Queue, id: EntryId, now: Millis) {
    id in q && q[id].status == Pending && Due(q[id], now)
  }

  function Expiring(q: Queue, now: Millis): set<EntryId> {
    set id | id in q && q[id].message.expireAt < now && q[id].status != Delivered
  }

  datatype Step =
    | Enqueue(id: EntryId, message: Message, inFlight: bool)
    | Claim(id: EntryId, now: Millis)
    | Ack(id: EntryId)
    | Nack(id: EntryId, error: string, nextRetryAt: Millis, now: Millis)
    | Fail(id: EntryId, error: string)
    | RecoverInFlight
    | PruneExpired(now: Millis)

  /** Inserting an id that is present violates the primary key and leaves the table alone. */
  function Next(q: Queue, step: Step): Queue {
    match step
    case Enqueue(id, message, inFlight) =>
      if id in q then q else q[id := Entry(message, if inFlight then InFlight else Pending, 0, None, None, None)]
    case Claim(id, now) =>
      if Claimable(q, id, now) then q[id := q[id].(status := InFlight, lastAttemptAt := Some(now))] else q
    case Ack(id) => if id in q then q[id := q[id].(status := Delivered)] else q
    case Nack(id, error, retry, now) =>
      if id in q then q[id := q[id].(attemptCount := q[id].attemptCount + 1, lastAttemptAt := Some(now),
                                     nextRetryAt := Some(retry), lastError := Some(error), status := Pending)]
      else q
    case Fail(id, error) => if id in q then q[id := q[id].(status := Failed, lastError := Some(error))] else q
    case RecoverInFlight =>
      map id | id in q ::
        if q[id].status == InFlight
        then q[id].(status := Failed, lastError := Some(AMBIGUOUS_SEND_OUTCOME), nextRetryAt := None) else q[id]
    case PruneExpired(now) => q - Expiring(q, now)
  }

  function Run(q: Queue, steps: seq<Step>): Queue {
    if steps == [] then q else Next(Run(q, steps[..|steps| - 1]), steps[|steps| - 1])
  }

  /** The claim at position `i` of the run succeeded. */
  predicate ClaimedAt(q: Queue, steps: seq<Step>, i: nat, id: EntryId)
    requires i < |steps|
  {
    steps[i].Claim? && steps[i].id == id && Claimable(Run(q, steps[..i]), id, steps[i].now)
  }

  // ---------------------------------------------------------------------------
  // Only an insertion or a nack makes a row pending
  // ---------------------------------------------------------------------------

  ghost predicate Unclaimable(q: Queue, id: EntryId) {
    id in q ==> q[id].status != Pending
  }

  /** The step may make the row pending. */
  ghost predicate Readies(step: Step, id: EntryId) {
    (step.Enqueue? && step.id == id) || (step.Nack? && step.id == id)
  }

  lemma {:induction false} StaysUnclaimable(q: Queue, steps: seq<Step>, id: EntryId, i: nat, j: nat)
    requires i <= j <= |steps| && Unclaimable(Run(q, steps[..i]), id)
    requires forall k :: i <= k < j ==> !Readies(steps[k], id)
    ensures Unclaimable(Run(q, steps[..j]), id)
  {
    if i < j {
      StaysUnclaimable(q, steps, id, i, j - 1);
      assert steps[..j][..j - 1] == steps[..j - 1] && steps[..j][j - 1] == steps[j - 1];
      assert !Readies(steps[j - 1], id);
    }
  }

  lemma {:induction false} CameFrom(q: Queue, steps: seq<Step>, id: EntryId)
    requires id in Run(q, steps)
    ensures id in q || exists k :: 0 <= k < |steps| && steps[k].Enqueue? && steps[k].id == id
  {
    if steps != [] {
      var before := steps[..|steps| - 1];
      if id in Run(q, before) {
        CameFrom(q, before, id);
        if id !in q {
          var k :| 0 <= k < |before| && before[k].Enqueue? && before[k].id == id;
          assert steps[k] == before[k];
        }
      } else {
        assert steps[|steps| - 1].Enqueue?;
      }
    }
  }

  /** Ids are random: none is enqueued twice or taken from the initial table. */
  ghost predicate FreshIds(q: Queue, steps: seq<Step>) {
    && (forall k :: 0 <= k < |steps| && steps[k].Enqueue? ==> steps[k].id !in q)
    && (forall k, l :: 0 <= k < l < |steps| && steps[k].Enqueue? && steps[l].Enqueue? ==> steps[k].id != steps[l].id)
  }

  lemma NeverReinserted(q: Queue, steps: seq<Step>, i: nat, k: nat, id: EntryId)
    requires FreshIds(q, steps) && i <= k < |steps| && id in Run(q, steps[..i])
    ensures !(steps[k].Enqueue? && steps[k].id == id)
  {
    CameFrom(q, steps[..i], id);
    if id !in q {
      var l :| 0 <= l < i && steps[..i][l].Enqueue? && steps[..i][l].id == id;
      assert steps[l] == steps[..i][l];
    }
  }

  /** Whatever the ids are: a row that is not pending is next claimed only after a nack or a new insertion. */
  lemma ClaimNeedsReadying(q: Queue, steps: seq<Step>, id: EntryId, i: nat, j: nat)
    requires i <= j < |steps| && Unclaimable(Run(q, steps[..i]), id)
    requires ClaimedAt(q, steps, j, id)
    ensures exists k :: i <= k < j && Readies(steps[k], id)
  {
    if forall k :: i <= k < j ==> !Readies(steps[k], id) {
      StaysUnclaimable(q, steps, id, i, j);
    }
  }

  /** With random ids only a nack is left. */
  lemma ClaimNeedsNack(q: Queue, steps: seq<Step>, id: EntryId, i: nat, j: nat)
    requires FreshIds(q, steps) && i <= j < |steps|
    requires id in Run(q, steps[..i]) && Unclaimable(Run(q, steps[..i]), id)
    requires ClaimedAt(q, steps, j, id)
    ensures exists k :: i <= k < j && steps[k].Nack? && steps[k].id == id
  {
    ClaimNeedsReadying(q, steps, id, i, j);
    var k :| i <= k < j && Readies(steps[k], id);
    NeverReinserted(q, steps, i, k, id);
  }

  /** A row is claimed twice only if a nack for it came between. */
  lemma ClaimedTwiceNeedsNack(q: Queue, steps: seq<Step>, id: EntryId, i: nat, j: nat)
    requires FreshIds(q, steps) && i < j < |steps|
    requires ClaimedAt(q, steps, i, id) && ClaimedAt(q, steps, j, id)
    ensures exists k :: i < k < j && steps[k].Nack? && steps[k].id == id
  {
    assert steps[..i + 1][..i] == steps[..i];
    ClaimNeedsNack(q, steps, id, i + 1, j);
  }

  /** A row in flight at a crash, once recovered, is never claimed again without a later nack. */
  lemma RecoveredNeedsNack(q: Queue, steps: seq<Step>, id: EntryId, i: nat, j: nat)
    requires FreshIds(q, steps) && i < j < |steps|
    requires steps[i].RecoverInFlight? && id in Run(q, steps[..i]) && Run(q, steps[..i])[id].status == InFlight
    requires ClaimedAt(q, steps, j, id)
    ensures exists k :: i < k < j && steps[k].Nack? && steps[k].id == id
  {
    assert steps[..i + 1][..i] == steps[..i];
    ClaimNeedsNack(q, steps, id, i + 1, j);
  }

  // ---------------------------------------------------------------------------
  // Attempts
  // ---------------------------------------------------------------------------

  /** The nacks applied to the row since it was inserted. */
  ghost function NacksApplied(steps: seq<Step>, id: EntryId): nat {
    if steps == [] then 0
    else
      var before, step := steps[..|steps| - 1], steps[|steps| - 1];
      var present := id in Run(map[], before);
      if step.Enqueue? && step.id == id && !present then 0
      else NacksApplied(before, id) + if step.Nack? && step.id == id && present then 1 else 0
  }

  ghost predicate Enqueues(step: Step, id: EntryId, message: Message) {
    step.Enqueue? && step.id == id && step.message == message
  }

  /** Over any run, a row's attempt count is the number of nacks applied to it, and its message never changes. */
  lemma {:induction false} AttemptsCountNacks(steps: seq<Step>, id: EntryId)
    requires id in Run(map[], steps)
    ensures Run(map[], steps)[id].attemptCount == NacksApplied(steps, id)
    ensures exists k :: 0 <= k < |steps| && Enqueues(steps[k], id, Run(map[], steps)[id].message)
  {
    var before, step := steps[..|steps| - 1], steps[|steps| - 1];
    if id in Run(map[], before) {
      AttemptsCountNacks(before, id);
      var k :| 0 <= k < |before| && Enqueues(before[k], id, Run(map[], before)[id].message);
      assert steps[k] == before[k];
    } else {
      assert steps[|steps| - 1].Enqueue?;
    }
  }

  // ---------------------------------------------------------------------------
  // Conservation
  // ---------------------------------------------------------------------------

  function Inserted(q: Queue, step: Step): nat {
    if step.Enqueue? && step.id !in q then 1 else 0
  }

  function Removed(q: Queue, step: Step): nat {
    if step.PruneExpired? then |Expiring(q, step.now)| else 0
  }

  function Enqueued(q: Queue, steps: seq<Step>): nat {
    if steps == [] then 0
    else Enqueued(q, steps[..|steps| - 1]) + Inserted(Run(q, steps[..|steps| - 1]), steps[|steps| - 1])
  }

  function Pruned(q: Queue, steps: seq<Step>): nat {
    if steps == [] then 0
    else Pruned(q, steps[..|steps| - 1]) + Removed(Run(q, steps[..|steps| - 1]), steps[|steps| - 1])
  }

  lemma InsertSize(q: Queue, id: EntryId, e: Entry)
    ensures |q[id := e]| == |q| + if id in q then 0 else 1
  {
    var t := q[id := e];
    assert t.Keys == q.Keys + {id};
    assert |t.Keys| == |t| && |q.Keys| == |q|;
  }

  lemma DeleteSize(q: Queue, gone: set<EntryId>)
    requires gone <= q.Keys
    ensures |q - gone| == |q| - |gone|
  {
    var t := q - gone;
    assert t.Keys == q.Keys - gone;
    assert |t.Keys| == |t| && |q.Keys| == |q| && |q.Keys - gone| == |q.Keys| - |gone|;
  }

  lemma UpdateSize(q: Queue, t: Queue)
    requires t.Keys == q.Keys
    ensures |t| == |q|
  {
    assert |t.Keys| == |t| && |q.Keys| == |q|;
  }

  lemma StepSize(q: Queue, step: Step)
    ensures |Next(q, step)| + Removed(q, step) == |q| + Inserted(q, step)
  {
    if step.Enqueue? {
      InsertSize(q, step.id, Entry(step.message, if step.inFlight then InFlight else Pending, 0, None, None, None));
    } else if step.PruneExpired? {
      DeleteSize(q, Expiring(q, step.now));
    } else {
      UpdateSize(q, Next(q, step));
    }
  }

  lemma {:induction false} RowsAreConserved(q: Queue, steps: seq<Step>)
    ensures |Run(q, steps)| + Pruned(q, steps) == |q| + Enqueued(q, steps)
  {
    if steps != [] {
      RowsAreConserved(q, steps[..|steps| - 1]);
      StepSize(Run(q, steps[..|steps| - 1]), steps[|steps| - 1]);
    }
  }

  function WithStatus(q: Queue, status: Status): set<EntryId> {
    set id | id in q && q[id].status == status
  }

  lemma StatusesPartition(q: Queue)
    ensures |WithStatus(q, Pending)| + |WithStatus(q, InFlight)| + |WithStatus(q, Delivered)|
            + |WithStatus(q, Failed)| + |WithStatus(q, Expired)| == |q|
  {
    var a, b, c := WithStatus(q, Pending), WithStatus(q, InFlight), WithStatus(q, Delivered);
    var d, e := WithStatus(q, Failed), WithStatus(q, Expired);
    assert q.Keys == a + b + c + d + e && |q.Keys| == |q|;
    assert a !! b && (a + b) !! c && (a + b + c) !! d && (a + b + c + d) !! e;
  }

  /** Over any run from an empty queue, the rows of the five statuses add up to those enqueued and not pruned. */
  lemma CountsAddUp(steps: seq<Step>)
    ensures var q := Run(map[], steps);
            |WithStatus(q, Pending)| + |WithStatus(q, InFlight)| + |WithStatus(q, Delivered)|
            + |WithStatus(q, Failed)| + |WithStatus(q, Expired)| == Enqueued(map[], steps) - Pruned(map[], steps)
  {
    RowsAreConserved(map[], steps);
    StatusesPartition(Run(map[], steps));
  }

  datatype Counts = Counts(pending: nat, inFlight: nat, failed: nat, delivered: nat, expired: nat)

  // ---------------------------------------------------------------------------
  // The adapter
  // ---------------------------------------------------------------------------

  class DeliveryQueueAdapter {
    var rows: Queue

    constructor ()
      ensures rows == map[]
    {
      rows := map[];
    }

    method Insert(id: EntryId, message: Message, inFlight: bool) returns (ok: bool)
      modifies this
      ensures rows == Next(old(rows), Enqueue(id, message, inFlight)) && ok == (id !in old(rows))
    {
      ok := id !in rows;
      if ok {
        rows := rows[id := Entry(message, if inFlight then InFlight else Pending, 0, None, None, None)];
      }
    }

    method TryClaim(id: EntryId, now: Millis) returns (claimed: bool)
      modifies this
      ensures rows == Next(old(rows), Claim(id, now)) && claimed == Claimable(old(rows), id, now)
    {
      claimed := id in rows && rows[id].status == Pending && Due(rows[id], now);
      if claimed {
        rows := rows[id := rows[id].(status := InFlight, lastAttemptAt := Some(now))];
      }
    }

    /** An unconditional update of one row; a missing row is not an error. */
    method Settle(step: Step)
      requires step.Ack? || step.Nack? || step.Fail?
      modifies this
      ensures rows == Next(old(rows), step)
    {
      if step.id in rows {
        var row := rows[step.id];
        match step {
          case Ack(_) => row := row.(status := Delivered);
          case Fail(_, error) => row := row.(status := Failed, lastError := Some(error));
          case Nack(_, error, retry, now) =>
            row := row.(attemptCount := row.attemptCount + 1, lastAttemptAt := Some(now), nextRetryAt := Some(retry));
            row := row.(lastError := Some(error), status := Pending);
        }
        rows := rows[step.id := row];
      }
    }

    method Recover() returns (changes: nat)
      modifies this
      ensures rows == Next(old(rows), RecoverInFlight) && changes == |WithStatus(old(rows), InFlight)|
    {
      changes := |WithStatus(rows, InFlight)|;
      rows := map id | id in rows ::
        if rows[id].status == InFlight
        then rows[id].(status := Failed, lastError := Some(AMBIGUOUS_SEND_OUTCOME), nextRetryAt := None) else rows[id];
    }

    method Prune(now: Millis) returns (changes: nat)
      modifies this
      ensures rows == Next(old(rows), PruneExpired(now)) && changes == Removed(old(rows), PruneExpired(now))
    {
      var expiring := Expiring(rows, now);
      changes := |expiring|;
      rows := rows - expiring;
    }

    /** A status without rows has no group and counts as zero. */
    method StatusCounts(channelType: Option<string>) returns (counts: Counts)
      ensures var q := OnChannel(rows, channelType);
              && counts.pending == |set id | id in q && q[id].status == Pending|
              && counts.inFlight == |set id | id in q && q[id].status == InFlight|
              && counts.failed == |set id | id in q && q[id].status == Failed|
              && counts.delivered == |set id | id in q && q[id].status == Delivered|
              && counts.expired == |set id | id in q && q[id].status == Expired|
              && counts.pending + counts.inFlight + counts.failed + counts.delivered + counts.expired == |q|
    {
      var q := OnChannel(rows, channelType);
      var groups := SelectGroups(q);
      counts := Counts(0, 0, 0, 0, 0);
      for k := 0 to |groups|
        invariant counts.pending == Found(groups[..k], Pending) && counts.inFlight == Found(groups[..k], InFlight)
        invariant counts.failed == Found(groups[..k], Failed) && counts.delivered == Found(groups[..k], Delivered)
        invariant counts.expired == Found(groups[..k], Expired)
      {
        assert groups[..k + 1][..k] == groups[..k];
        var (status, count) := groups[k];
        match status
        case Pending => counts := counts.(pending := count);
        case InFlight => counts := counts.(inFlight := count);
        case Failed => counts := counts.(failed := count);
        case Delivered => counts := counts.(delivered := count);
        case Expired => counts := counts.(expired := count);
      }
      assert groups[..|groups|] == groups;
      forall s: Status ensures Found(groups, s) == |WithStatus(q, s)| {
        FoundIs(groups, s);
      }
      StatusesPartition(q);
    }
  }

  function OnChannel(q: Queue, channelType: Option<string>): (r: Queue)
    ensures forall id :: id in r <==> id in q && (channelType == None || channelType == Some(q[id].message.channelType))
    ensures forall id :: id in r ==> r[id] == q[id]
  {
    if channelType.None? then q else map id | id in q && q[id].message.channelType == channelType.value :: q[id]
  }

  const STATUSES := [Pending, InFlight, Failed, Delivered, Expired]

  lemma StatusesAreAll(s: Status)
    ensures s in STATUSES
  {
    match s
    case Pending => assert STATUSES[0] == s;
    case InFlight => assert STATUSES[1] == s;
    case Failed => assert STATUSES[2] == s;
    case Delivered => assert STATUSES[3] == s;
    case Expired => assert STATUSES[4] == s;
  }

  ghost predicate Grouped(groups: seq<(Status, nat)>, s: Status) {
    exists i :: 0 <= i < |groups| && groups[i].0 == s
  }

  /** `GROUP BY status`: one row per status that occurs. */
  method SelectGroups(q: Queue) returns (groups: seq<(Status, nat)>)
    ensures forall i :: 0 <= i < |groups| ==> groups[i].1 == |WithStatus(q, groups[i].0)|
    ensures forall s :: !Grouped(groups, s) ==> WithStatus(q, s) == {}
  {
    groups := [];
    for k := 0 to |STATUSES|
      invariant forall i :: 0 <= i < |groups| ==> groups[i].1 == |WithStatus(q, groups[i].0)|
      invariant forall j :: 0 <= j < k && WithStatus(q, STATUSES[j]) != {} ==> Grouped(groups, STATUSES[j])
    {
      var s := STATUSES[k];
      ghost var before := groups;
      if WithStatus(q, s) != {} {
        groups := groups + [(s, |WithStatus(q, s)|)];
        assert groups[|before|].0 == s;
      }
      forall t | Grouped(before, t) ensures Grouped(groups, t) {
        var i :| 0 <= i < |before| && before[i].0 == t;
        assert groups[i] == before[i];
      }
    }
    forall s | !Grouped(groups, s) ensures WithStatus(q, s) == {} {
      StatusesAreAll(s);
    }
  }

  ghost function Found(groups: seq<(Status, nat)>, s: Status): nat {
    if groups == [] then 0
    else if groups[|groups| - 1].0 == s then groups[|groups| - 1].1
    else Found(groups[..|groups| - 1], s)
  }

  lemma {:induction false} FoundIs(groups: seq<(Status, nat)>, s: Status)
    ensures !Grouped(groups, s) ==> Found(groups, s) == 0
    ensures Grouped(groups, s) ==> exists i :: 0 <= i < |groups| && groups[i] == (s, Found(groups, s))
  {
    if groups != [] {
      var last := |groups| - 1;
      if groups[last].0 == s {
        assert groups[last] == (s, Found(groups, s));
      } else {
        var before := groups[..last];
        FoundIs(before, s);
        if Grouped(groups, s) {
          var j :| 0 <= j < |groups| && groups[j].0 == s;
          assert before[j].0 == s;
          var i :| 0 <= i < |before| && before[i] == (s, Found(before, s));
          assert groups[i] == before[i];
        }
        forall j | 0 <= j < |before| ensures before[j] == groups[j] {
        }
      }
    }
  }
}
