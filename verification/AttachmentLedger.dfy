/** What the ledger guarantees over whole runs: exclusive sources, faithful history, idempotent replay. */
module AttachmentLedger {
  import opened Wrappers
  import opened AttachmentModel

  // ---------------------------------------------------------------------------
  // The net effect of a step
  // ---------------------------------------------------------------------------

  ghost predicate CreateAdds(s: Store, r: Record, t: Store) {
    && ValidRecord(r) && r.state == Active && r.id !in s.rows && !PathInUse(s.rows, r.sourcePath)
    && t == s.(rows := s.rows[r.id := Inserted(r)])
  }

  ghost predicate OperationAdds(hash: Input -> Digest, s: Store, input: Input, t: Store) {
    && input.id in s.rows && s.rows[input.id].state == Active
    && Find(s.ledger, KeyOf(input)).None?
    && s.rows[input.id].updatedAtMs <= AtMs(input)
    && ValidRecord(Produced(s.rows[input.id], input))
    && t == Recorded(hash, s, input)
  }

  ghost predicate Effect(hash: Input -> Digest, s: Store, step: Step, t: Store) {
    || t == s
    || (step.CreateStep? && CreateAdds(s, step.record, t))
    || (step.OperateStep? && OperationAdds(hash, s, step.input, t))
  }

  lemma StepHasEffect(hash: Input -> Digest, s: Store, step: Step)
    ensures var (t, out) := Apply(hash, s, step);
            && Effect(hash, s, step, t)
            && (t != s ==> out.Ok? && (if step.CreateStep? then out.value == Created(step.record)
                                       else out.value == Applied(Produced(s.rows[step.input.id], step.input))))
            && (out.Ok? && out.value.Created? ==> step.CreateStep? && CreateAdds(s, step.record, t))
            && (out.Ok? && out.value.Applied? ==> step.OperateStep? && OperationAdds(hash, s, step.input, t)
                                                  && s.rows[step.input.id].scope == step.scope)
  {
  }

  // ---------------------------------------------------------------------------
  // State invariants
  // ---------------------------------------------------------------------------

  ghost predicate SharePath(rows: map<AttachmentId, Record>, a: AttachmentId, b: AttachmentId) {
    && a in rows && b in rows && rows[a].state == Active && rows[b].state == Active
    && rows[a].sourcePath == rows[b].sourcePath
  }

  /** At most one active attachment uses a given source path. */
  ghost predicate Exclusive(rows: map<AttachmentId, Record>) {
    forall a, b :: SharePath(rows, a, b) ==> a == b
  }

  /** Rows sit under their own id and validate. */
  ghost predicate RowsValid(rows: map<AttachmentId, Record>) {
    forall id :: id in rows ==> rows[id].id == id && ValidRecord(rows[id])
  }

  /** The record of the latest ledger operation on an attachment. */
  ghost function LatestIn(ledger: seq<Operation>, id: AttachmentId): Option<Record> {
    if ledger == [] then None
    else
      var last := ledger[|ledger| - 1];
      if last.key.id == id then Some(last.record) else LatestIn(ledger[..|ledger| - 1], id)
  }

  ghost predicate RowsAreLatest(s: Store) {
    forall id :: LatestIn(s.ledger, id).Some? ==> id in s.rows && s.rows[id] == LatestIn(s.ledger, id).value
  }

  ghost predicate LedgerValid(s: Store) {
    forall i :: 0 <= i < |s.ledger| ==> ValidRecord(s.ledger[i].record)
  }

  ghost predicate Consistent(s: Store) {
    Exclusive(s.rows) && RowsValid(s.rows) && RowsAreLatest(s) && LedgerValid(s)
  }

  lemma InsertKeepsExclusive(rows: map<AttachmentId, Record>, r: Record)
    requires Exclusive(rows) && r.id !in rows && !PathInUse(rows, r.sourcePath)
    ensures Exclusive(rows[r.id := r])
  {
    var grown := rows[r.id := r];
    forall a, b | SharePath(grown, a, b) ensures a == b {
      if a != r.id && b != r.id {
        assert SharePath(rows, a, b);
      }
    }
  }

  lemma CreateKeepsRows(s: Store, r: Record, t: Store)
    requires RowsValid(s.rows) && CreateAdds(s, r, t)
    ensures RowsValid(t.rows)
  {
    assert ValidRecord(Inserted(r));
  }

  lemma CreateKeepsConsistent(s: Store, r: Record, t: Store)
    requires Consistent(s) && CreateAdds(s, r, t)
    ensures Consistent(t)
  {
    InsertKeepsExclusive(s.rows, Inserted(r));
    CreateKeepsRows(s, r, t);
  }

  lemma OperationKeepsRows(hash: Input -> Digest, s: Store, input: Input, t: Store)
    requires Exclusive(s.rows) && RowsValid(s.rows) && OperationAdds(hash, s, input, t)
    ensures Exclusive(t.rows) && RowsValid(t.rows)
  {
    forall a, b | SharePath(t.rows, a, b) ensures a == b {
      assert SharePath(s.rows, a, b);
    }
  }

  lemma OperationKeepsLedger(hash: Input -> Digest, s: Store, input: Input, t: Store)
    requires RowsAreLatest(s) && LedgerValid(s) && OperationAdds(hash, s, input, t)
    ensures RowsAreLatest(t) && LedgerValid(t)
  {
    assert t.ledger[..|t.ledger| - 1] == s.ledger;
  }

  lemma EffectKeepsConsistent(hash: Input -> Digest, s: Store, step: Step, t: Store)
    requires Consistent(s) && Effect(hash, s, step, t)
    ensures Consistent(t)
  {
    if t != s {
      match step
      case CreateStep(r, _) => CreateKeepsConsistent(s, r, t);
      case OperateStep(_, input, _) =>
        OperationKeepsRows(hash, s, input, t);
        OperationKeepsLedger(hash, s, input, t);
    }
  }

  /**
   In every reachable state: one active attachment per source path, valid rows, and each row its
   latest ledger record.
   */
  lemma {:induction false} RunKeepsConsistent(hash: Input -> Digest, s: Store, steps: seq<Step>)
    requires Consistent(s)
    ensures Consistent(Run(hash, s, steps))
  {
    if steps != [] {
      var t := Run(hash, s, steps[..|steps| - 1]);
      RunKeepsConsistent(hash, s, steps[..|steps| - 1]);
      StepHasEffect(hash, t, steps[|steps| - 1]);
      EffectKeepsConsistent(hash, t, steps[|steps| - 1], Apply(hash, t, steps[|steps| - 1]).0);
    }
  }

  // ---------------------------------------------------------------------------
  // How a row may evolve
  // ---------------------------------------------------------------------------

  /** Scope, path and creation never change, time never moves back, and a revoked row is final. */
  ghost predicate Evolves(a: Record, b: Record) {
    && a.id == b.id && a.scope == b.scope && a.sourcePath == b.sourcePath && a.relayIdentity == b.relayIdentity
    && a.targetName == b.targetName && a.createdAtMs == b.createdAtMs
    && a.updatedAtMs <= b.updatedAtMs
    && (a.state == Revoked ==> a == b)
  }

  lemma {:induction false} RunEvolves(hash: Input -> Digest, s: Store, steps: seq<Step>, id: AttachmentId)
    requires id in s.rows
    ensures id in Run(hash, s, steps).rows && Evolves(s.rows[id], Run(hash, s, steps).rows[id])
  {
    if steps != [] {
      var t := Run(hash, s, steps[..|steps| - 1]);
      RunEvolves(hash, s, steps[..|steps| - 1], id);
      StepHasEffect(hash, t, steps[|steps| - 1]);
    }
  }

  // ---------------------------------------------------------------------------
  // Replay
  // ---------------------------------------------------------------------------

  lemma {:induction false} FindInPrefix(a: seq<Operation>, b: seq<Operation>, key: Key)
    ensures Find(a, key).Some? ==> Find(a + b, key) == Find(a, key)
    ensures Find(a, key).None? ==> Find(a + b, key) == Find(b, key)
  {
    if a == [] {
      assert a + b == b;
    } else {
      assert (a + b)[1..] == a[1..] + b;
      FindInPrefix(a[1..], b, key);
    }
  }

  lemma {:induction false} RunKeepsEntry(hash: Input -> Digest, s: Store, steps: seq<Step>, key: Key)
    requires Find(s.ledger, key).Some?
    ensures Find(Run(hash, s, steps).ledger, key) == Find(s.ledger, key)
  {
    if steps != [] {
      var t, step := Run(hash, s, steps[..|steps| - 1]), steps[|steps| - 1];
      RunKeepsEntry(hash, s, steps[..|steps| - 1], key);
      StepHasEffect(hash, t, step);
      if Apply(hash, t, step).0 != t && step.OperateStep? {
        var input := step.input;
        var entry := Operation(KeyOf(input), hash(input), Produced(t.rows[input.id], input), AtMs(input));
        FindInPrefix(t.ledger, [entry], key);
      }
    }
  }

  ghost predicate Injective(hash: Input -> Digest) {
    forall a, b :: hash(a) == hash(b) ==> a == b
  }

  /** The step applied its operation and produced the record. */
  ghost predicate Applies(hash: Input -> Digest, s: Store, step: Step, produced: Record) {
    step.OperateStep? && Apply(hash, s, step).1 == Ok(Applied(produced))
  }

  /**
   An applied operation, repeated after any number of further steps under the same scope, answers
   with its original record and changes nothing. The same operation id with any other input of the
   same kind is a conflict, provided the digest separates the two inputs.
   */
  lemma ReplayIsIdempotent(hash: Input -> Digest, s: Store, step: Step, produced: Record, steps: seq<Step>,
      again: Input, runs: Authorities)
    requires Consistent(s) && Applies(hash, s, step, produced)
    requires KeyOf(again) == KeyOf(step.input)
    ensures var t := Run(hash, Apply(hash, s, step).0, steps);
            && (again == step.input ==> Operate(hash, t, step.scope, again, runs) == (t, Ok(IdenticalReplay(produced))))
            && (again != step.input && Injective(hash) ==>
                  Operate(hash, t, step.scope, again, runs) == (t, Ok(ReplayConflict)))
  {
    var after := Apply(hash, s, step).0;
    var entry := Operation(KeyOf(step.input), hash(step.input), produced, AtMs(step.input));
    StepHasEffect(hash, s, step);
    FindInPrefix(s.ledger, [entry], KeyOf(again));
    assert Find(after.ledger, KeyOf(again)) == Some(entry);
    EffectKeepsConsistent(hash, s, step, after);
    RunKeepsConsistent(hash, after, steps);
    RunKeepsEntry(hash, after, steps, KeyOf(again));
    RunEvolves(hash, after, steps, again.id);
  }

  // ---------------------------------------------------------------------------
  // The current row as the latest reported record
  // ---------------------------------------------------------------------------

  /** The outcome reports the attachment as created, revoked or recovered. */
  ghost predicate Reports(out: Result<Outcome, StoreError>, id: AttachmentId) {
    out.Ok? && (out.value.Created? || out.value.Applied?) && out.value.record.id == id
  }

  /** The outcome in which the run last reported the attachment. */
  ghost function LatestReport(hash: Input -> Digest, steps: seq<Step>, id: AttachmentId): (report: Option<Outcome>)
    ensures report.Some? ==> Reports(Ok(report.value), id)
  {
    if steps == [] then None
    else
      var before := steps[..|steps| - 1];
      var out := Apply(hash, Run(hash, NoStore, before), steps[|steps| - 1]).1;
      if Reports(out, id) then Some(out.value) else LatestReport(hash, before, id)
  }

  /** The attachment is stored exactly if it was reported; a creation is stored without its recovery time. */
  ghost predicate Follows(rows: map<AttachmentId, Record>, id: AttachmentId, report: Option<Outcome>)
    requires report.Some? ==> Reports(Ok(report.value), id)
  {
    && (id in rows <==> report.Some?)
    && (id in rows ==>
          rows[id] == if report.value.Created? then Inserted(report.value.record) else report.value.record)
  }

  lemma StepFollowsReport(hash: Input -> Digest, t: Store, step: Step, id: AttachmentId, report: Option<Outcome>)
    requires RowsValid(t.rows) && (report.Some? ==> Reports(Ok(report.value), id)) && Follows(t.rows, id, report)
    ensures var (u, out) := Apply(hash, t, step);
            Follows(u.rows, id, if Reports(out, id) then Some(out.value) else report)
  {
    StepHasEffect(hash, t, step);
  }

  /** Over every run, the latest report of an attachment decides its row. */
  lemma {:induction false} RowFollowsReport(hash: Input -> Digest, steps: seq<Step>, id: AttachmentId)
    ensures Follows(Run(hash, NoStore, steps).rows, id, LatestReport(hash, steps, id))
  {
    if steps != [] {
      var before, step := steps[..|steps| - 1], steps[|steps| - 1];
      RowFollowsReport(hash, before, id);
      RunKeepsConsistent(hash, NoStore, before);
      StepFollowsReport(hash, Run(hash, NoStore, before), step, id, LatestReport(hash, before, id));
    }
  }

  /**
   Reading an attachment gives the record most recently reported for it if and only if that report
   is not a creation that carried a recovery time. Other attachments do not matter.
   */
  lemma CurrentIsLatestReported(hash: Input -> Digest, steps: seq<Step>, id: AttachmentId)
    requires id in Run(hash, NoStore, steps).rows
    ensures var row, report := Run(hash, NoStore, steps).rows[id], LatestReport(hash, steps, id);
            && report.Some?
            && (row == report.value.record <==>
                  !(report.value.Created? && report.value.record.lastRecoveredAtMs.Some?))
  {
    RowFollowsReport(hash, steps, id);
  }

  /**
   The created record is what is stored, and creating it again is an identical replay, exactly when
   it carries no recovery time: the insert drops that column, so otherwise even an immediate replay
   of the same record is a conflict.
   */
  lemma CreateStoresUnlessRecovered(s: Store, r: Record, runs: Authorities, again: Authorities)
    requires Create(s, r, runs).1 == Ok(Created(r))
    ensures var t := Create(s, r, runs).0;
            && r.id in t.rows
            && (t.rows[r.id] == r <==> r.lastRecoveredAtMs.None?)
            && Create(t, r, again) ==
                 (t, if r.lastRecoveredAtMs.None? then Ok(IdenticalReplay(r)) else Ok(ReplayConflict))
  {
  }

  // ---------------------------------------------------------------------------
  // Recovering an attachment
  // ---------------------------------------------------------------------------

  /** What recovery learns about a record: that it cannot be recovered now, that a lookup failed, or its source. */
  datatype Observation = Unavailable | LookupFailed | Seen(identity: FileIdentity, nowMs: int)

  datatype Verdict = Recovered | Kept | Failed

  /** The operation id depends on the attachment and the file at its source, not on the time. */
  type Naming = (AttachmentId, FileIdentity) -> string

  function RecoveryInput(name: Naming, id: AttachmentId, seen: Observation): Input
    requires seen.Seen?
  {
    ReconcileInput(name(id, seen.identity), id, seen.identity, seen.nowMs)
  }

  function VerdictOf(out: Result<Outcome, StoreError>): Verdict {
    if out.Err? then Failed
    else if out.value.Applied? || out.value.IdenticalReplay? then Recovered else Kept
  }

  lemma ScopeStays(hash: Input -> Digest, s: Store, step: Step, produced: Record, steps: seq<Step>)
    requires Consistent(s) && Applies(hash, s, step, produced)
    ensures var t := Run(hash, Apply(hash, s, step).0, steps);
            step.input.id in t.rows && t.rows[step.input.id].scope == step.scope
  {
    StepHasEffect(hash, s, step);
    RunEvolves(hash, Apply(hash, s, step).0, steps, step.input.id);
  }

  /**
   After an attachment was recovered, and whatever ran since, recovering it again from an unchanged
   source changes nothing. It reports the attachment as recovered if and only if the clock shows the
   very time of the first recovery, and as preserved otherwise.
   */
  lemma RecoveringAgain(hash: Input -> Digest, name: Naming, s: Store, id: AttachmentId, seen: Observation, step: Step,
      produced: Record, steps: seq<Step>, again: Observation, runs: Authorities)
    requires Consistent(s) && Injective(hash)
    requires seen.Seen? && step.OperateStep? && step.input == RecoveryInput(name, id, seen)
    requires Applies(hash, s, step, produced)
    requires again.Seen? && again.identity == seen.identity
    ensures var t := Run(hash, Apply(hash, s, step).0, steps);
            && id in t.rows
            && var (u, out) := Operate(hash, t, t.rows[id].scope, RecoveryInput(name, id, again), runs);
            && u == t
            && VerdictOf(out) == if again.nowMs == seen.nowMs then Recovered else Kept
  {
    ScopeStays(hash, s, step, produced, steps);
    ReplayIsIdempotent(hash, s, step, produced, steps, RecoveryInput(name, id, again), runs);
  }
}
