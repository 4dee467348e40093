/** What a row of the delivery queue says over a whole run, and what a caller may expect of it. */
module DeliveryOutcome {
  import opened Wrappers
  import opened DeliveryQueue

  // ---------------------------------------------------------------------------
  // The step that decides each column
  // ---------------------------------------------------------------------------

  /** The step changed the row, or inserted it. */
  ghost predicate TakesEffect(q: Queue, step: Step, id: EntryId) {
    match step
    case Enqueue(id', _, _) => id' == id && id !in q
    case Claim(id', now) =>
      && id' == id && id in q && q[id].status == Pending && q[id].message.scheduledAt <= now
      && (q[id].nextRetryAt.None? || q[id].nextRetryAt.value <= now)
    case Ack(id') => id' == id && id in q
    case Nack(id', _, _, _) => id' == id && id in q
    case Fail(id', _) => id' == id && id in q
    case RecoverInFlight => id in q && q[id].status == InFlight
    case PruneExpired(_) => false
  }

  ghost function StatusGiven(step: Step): Status
    requires !step.PruneExpired?
  {
    match step
    case Enqueue(_, _, inFlight) => if inFlight then InFlight else Pending
    case Claim(_, _) => InFlight
    case Ack(_) => Delivered
    case Nack(_, _, _, _) => Pending
    case Fail(_, _) => Failed
    case RecoverInFlight => Failed
  }

  /** The other columns: a column the step does not set keeps its value, and an insertion starts empty. */
  ghost predicate ColumnsGiven(was: Option<Entry>, step: Step, now: Entry) {
    match step
    case Enqueue(_, message, _) =>
      now.message == message && now.attemptCount == 0
      && now.lastAttemptAt == None && now.nextRetryAt == None && now.lastError == None
    case Claim(_, at) => was.Some? && now == was.value.(status := now.status, lastAttemptAt := Some(at))
    case Ack(_) => was.Some? && now == was.value.(status := now.status)
    case Nack(_, error, retry, at) =>
      was.Some? && now == was.value.(status := now.status, attemptCount := was.value.attemptCount + 1,
                                     lastAttemptAt := Some(at), nextRetryAt := Some(retry), lastError := Some(error))
    case Fail(_, error) => was.Some? && now == was.value.(status := now.status, lastError := Some(error))
    case RecoverInFlight =>
      was.Some? && now == was.value.(status := now.status, nextRetryAt := None,
          lastError := Some("platform send outcome is uncertain; manual verification required"))
    case PruneExpired(_) => false
  }

  /** One step: the rows it takes effect on become what it gives, expired rows go, and no other row moves. */
  lemma StepColumns(q: Queue, step: Step, id: EntryId)
    ensures var t := Next(q, step);
            if TakesEffect(q, step, id)
            then && id in t && t[id].status == StatusGiven(step)
                 && ColumnsGiven(if id in q then Some(q[id]) else None, step, t[id])
            else && (id in t ==> id in q && t[id] == q[id])
                 && (id in q && id !in t ==> step.PruneExpired?)
  {
  }

  ghost predicate EffectAt(steps: seq<Step>, i: nat, id: EntryId)
    requires i < |steps|
  {
    TakesEffect(Run(map[], steps[..i]), steps[i], id)
  }

  /** The step at `i` is the last that took effect on the row. */
  ghost predicate LastEffectAt(steps: seq<Step>, i: nat, id: EntryId)
    requires i < |steps|
  {
    EffectAt(steps, i, id) && forall j :: i < j < |steps| ==> !EffectAt(steps, j, id)
  }

  lemma EffectsBefore(steps: seq<Step>, i: nat, id: EntryId)
    requires i < |steps| - 1
    ensures EffectAt(steps, i, id) <==> EffectAt(steps[..|steps| - 1], i, id)
  {
    assert steps[..|steps| - 1][..i] == steps[..i];
  }

  lemma LastEffectStays(steps: seq<Step>, i: nat, id: EntryId)
    requires i < |steps| - 1 && !EffectAt(steps, |steps| - 1, id) && LastEffectAt(steps[..|steps| - 1], i, id)
    ensures LastEffectAt(steps, i, id)
  {
    forall j | i <= j < |steps| - 1 ensures EffectAt(steps, j, id) <==> EffectAt(steps[..|steps| - 1], j, id) {
      EffectsBefore(steps, j, id);
    }
  }

  /** Over any run, the status of a present row is the one given by the last step that took effect on it. */
  lemma {:induction false} StatusIsLastEffect(steps: seq<Step>, id: EntryId)
    requires id in Run(map[], steps)
    ensures exists i :: 0 <= i < |steps| && LastEffectAt(steps, i, id)
                        && Run(map[], steps)[id].status == StatusGiven(steps[i])
  {
    var n := |steps| - 1;
    var before, q := steps[..n], Run(map[], steps[..n]);
    StepColumns(q, steps[n], id);
    if EffectAt(steps, n, id) {
      assert LastEffectAt(steps, n, id);
    } else {
      StatusIsLastEffect(before, id);
      var i :| 0 <= i < |before| && LastEffectAt(before, i, id) && q[id].status == StatusGiven(before[i]);
      LastEffectStays(steps, i, id);
      assert steps[i] == before[i];
    }
  }

  /** The error the last nack, failure or recovery since its insertion left on the row. */
  ghost function ErrorLeft(steps: seq<Step>, id: EntryId): Option<string> {
    if steps == [] then None
    else
      var before, step := steps[..|steps| - 1], steps[|steps| - 1];
      if !TakesEffect(Run(map[], before), step, id) then ErrorLeft(before, id)
      else
        match step
        case Enqueue(_, _, _) => None
        case Nack(_, error, _, _) => Some(error)
        case Fail(_, error) => Some(error)
        case RecoverInFlight => Some("platform send outcome is uncertain; manual verification required")
        case _ => ErrorLeft(before, id)
  }

  lemma {:induction false} LastErrorIsLeft(steps: seq<Step>, id: EntryId)
    requires id in Run(map[], steps)
    ensures Run(map[], steps)[id].lastError == ErrorLeft(steps, id)
  {
    var before := steps[..|steps| - 1];
    StepColumns(Run(map[], before), steps[|steps| - 1], id);
    if id in Run(map[], before) {
      LastErrorIsLeft(before, id);
    }
  }

  // ---------------------------------------------------------------------------
  // What a caller may expect
  // ---------------------------------------------------------------------------

  /** After a nack the row can be claimed from its retry time on, if it is scheduled by then, and not before. */
  lemma NackedUntilRetry(q: Queue, id: EntryId, error: string, retry: Millis, at: Millis, now: Millis)
    requires id in q
    ensures var nacked := Next(q, Nack(id, error, retry, at));
            && id in nacked && nacked[id].status == Pending
            && (Next(nacked, Claim(id, now))[id].status == InFlight <==>
                  retry <= now && q[id].message.scheduledAt <= now)
  {
  }

  /** Pruning deletes a row exactly if it is expired and not delivered, and changes no other. */
  lemma PruneDeletesExpired(q: Queue, now: Millis, id: EntryId)
    ensures var t := Next(q, PruneExpired(now));
            && (id in t <==> id in q && (q[id].status == Delivered || now <= q[id].message.expireAt))
            && (id in t ==> t[id] == q[id])
  {
  }

  /** A delivered row stays in the queue, and stays delivered, until it is nacked or failed. */
  lemma {:induction false} DeliveredStays(q: Queue, steps: seq<Step>, id: EntryId)
    requires id in q && q[id].status == Delivered
    requires forall i :: 0 <= i < |steps| ==> !((steps[i].Nack? || steps[i].Fail?) && steps[i].id == id)
    ensures id in Run(q, steps) && Run(q, steps)[id].status == Delivered
  {
    if steps != [] {
      var before := steps[..|steps| - 1];
      DeliveredStays(q, before, id);
      StepColumns(Run(q, before), steps[|steps| - 1], id);
      if steps[|steps| - 1].PruneExpired? {
        PruneDeletesExpired(Run(q, before), steps[|steps| - 1].now, id);
      }
    }
  }
}
