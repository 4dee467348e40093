/** Which creations, revocations and reconciliations the store accepts, and what it then holds, column by column. */
module AttachmentAnswers {
  import opened Wrappers
  import opened AttachmentModel

  /** The run is the attachment's own and its lease, held by that run, is active and not about to be released. */
  ghost predicate Leased(runs: Authorities, scope: Scope) {
    && scope.managedRunId in runs
    && var a := runs[scope.managedRunId];
    && (a.tenantId, a.agentId, a.serviceInstanceId) == (scope.tenantId, scope.agentId, scope.serviceInstanceId)
    && (a.leaseTenantId, a.leaseAgentId, a.leaseServiceInstanceId, a.leaseManagedRunId)
       == (scope.tenantId, scope.agentId, scope.serviceInstanceId, scope.managedRunId)
    && a.workspaceLeaseId == Some(scope.workspaceLeaseId) && a.leaseActive && !a.releaseReserved
  }

  ghost predicate PathFree(s: Store, path: string) {
    forall id :: id in s.rows && s.rows[id].state == Active ==> s.rows[id].sourcePath != path
  }

  /** Its times are in order, and it is revoked with a time and a reason, or active with neither. */
  ghost predicate InOrder(r: Record) {
    && 0 <= r.createdAtMs && r.createdAtMs <= r.updatedAtMs
    && (r.lastRecoveredAtMs.Some? ==> r.createdAtMs <= r.lastRecoveredAtMs.value <= r.updatedAtMs)
    && match r.state
       case Active => r.revokedAtMs == None && r.reason == None
       case Revoked => r.reason.Some? && r.revokedAtMs.Some? && r.createdAtMs <= r.revokedAtMs.value <= r.updatedAtMs
  }

  /** A creation is refused as invalid exactly for a malformed name, path or identity, or times out of order. */
  lemma InvalidRecordAnswers(s: Store, r: Record, runs: Authorities)
    ensures Create(s, r, runs).1 == Err(InvalidRecord) <==>
              !(&& IsOpaqueId(r.id) && IsNormalizedPath(r.sourcePath) && IsRelayIdentity(r.relayIdentity)
                && IsTargetName(r.targetName) && ValidFileIdentity(r.identity) && InOrder(r)
                && 1 <= |r.scope.tenantId| <= 256 && 1 <= |r.scope.agentId| <= 256
                && IsOpaqueId(r.scope.serviceInstanceId) && IsOpaqueId(r.scope.managedRunId)
                && IsOpaqueId(r.scope.workspaceLeaseId))
  {
  }

  /** A creation succeeds exactly for a valid active record under a new id, with a lease and a free path. */
  lemma CreateAnswers(s: Store, r: Record, runs: Authorities)
    ensures var (t, out) := Create(s, r, runs);
            var proper := ValidRecord(r) && r.state == Active;
            && (out == Ok(Created(r)) <==>
                  proper && r.id !in s.rows && Leased(runs, r.scope) && PathFree(s, r.sourcePath))
            && (out == Ok(AuthorityMismatch) <==> proper && r.id !in s.rows && !Leased(runs, r.scope))
            && (out == Ok(IdenticalReplay(r)) <==> proper && r.id in s.rows && s.rows[r.id] == r)
            && (out == Ok(ReplayConflict) <==>
                  && proper
                  && if r.id in s.rows then ValidRecord(s.rows[r.id]) && s.rows[r.id] != r
                     else Leased(runs, r.scope) && !PathFree(s, r.sourcePath))
            && (out.Err? <==> !proper || (r.id in s.rows && !ValidRecord(s.rows[r.id])))
            && t.ledger == s.ledger
            && t.rows == if out == Ok(Created(r)) then s.rows[r.id := r.(lastRecoveredAtMs := None)] else s.rows
  {
    assert AuthorityMatches(runs, r.scope) <==> Leased(runs, r.scope);
    assert PathFree(s, r.sourcePath) <==> !PathInUse(s.rows, r.sourcePath);
  }

  /** The operation's own entry. */
  ghost predicate IsEntry(op: Operation, input: Input) {
    op.key.id == input.id && op.key.operationId == input.operationId && op.key.revoking == input.RevokeInput?
  }

  ghost predicate Unused(ledger: seq<Operation>, input: Input) {
    forall i :: 0 <= i < |ledger| ==> !IsEntry(ledger[i], input)
  }

  lemma {:induction false} FoundIffUsed(ledger: seq<Operation>, input: Input)
    ensures Find(ledger, KeyOf(input)).None? <==> Unused(ledger, input)
    ensures Find(ledger, KeyOf(input)).Some? ==>
              exists i ::
                0 <= i < |ledger| && IsEntry(ledger[i], input) && Find(ledger, KeyOf(input)) == Some(ledger[i])
  {
    if ledger != [] {
      FoundIffUsed(ledger[1..], input);
      assert ledger[0].key == KeyOf(input) <==> IsEntry(ledger[0], input);
      forall i | 1 <= i < |ledger| ensures ledger[i] == ledger[1..][i - 1] {
      }
    }
  }

  /** The stored row in the caller's scope, if the operation has not been seen before. */
  ghost predicate Addressed(s: Store, scope: Scope, input: Input) {
    && input.id in s.rows && ValidRecord(s.rows[input.id]) && s.rows[input.id].scope == scope
    && Unused(s.ledger, input)
  }

  /** What the operation makes of the row. */
  ghost predicate Becomes(row: Record, input: Input, next: Record) {
    match input
    case RevokeInput(_, _, reason, at) =>
      && next.state == Revoked && next.reason == Some(reason) && next.revokedAtMs == Some(at) && next.updatedAtMs == at
      && next == row.(state := next.state, reason := next.reason, revokedAtMs := next.revokedAtMs,
                      updatedAtMs := next.updatedAtMs)
    case ReconcileInput(_, _, identity, at) =>
      && next.identity == identity && next.lastRecoveredAtMs == Some(at) && next.updatedAtMs == at
      && next == row.(identity := next.identity, lastRecoveredAtMs := next.lastRecoveredAtMs,
                      updatedAtMs := next.updatedAtMs)
  }

  ghost function TimeOf(input: Input): int {
    if input.RevokeInput? then input.revokedAtMs else input.recoveredAtMs
  }

  /** An addressed operation applies exactly to an active row, no earlier than its last update, if leased and valid. */
  ghost predicate Applicable(s: Store, input: Input, runs: Authorities)
    requires input.id in s.rows
  {
    && s.rows[input.id].state == Active && s.rows[input.id].updatedAtMs <= TimeOf(input)
    && (input.ReconcileInput? ==> Leased(runs, s.rows[input.id].scope) && ValidFileIdentity(input.identity))
  }

  lemma ProducedIsValid(row: Record, input: Input)
    requires ValidRecord(row) && row.state == Active && row.updatedAtMs <= TimeOf(input)
    ensures ValidRecord(Produced(row, input)) <==> input.ReconcileInput? ==> ValidFileIdentity(input.identity)
  {
  }

  /** The operation applies exactly if it is addressed and applicable, and is refused for state exactly if inactive. */
  lemma OperateAnswers(hash: Input -> Digest, s: Store, scope: Scope, input: Input, runs: Authorities)
    ensures var out := Operate(hash, s, scope, input, runs).1;
            && (out == Ok(NotFound) <==> input.id !in s.rows)
            && (out == Ok(ScopeMismatch) <==>
                  input.id in s.rows && ValidRecord(s.rows[input.id]) && s.rows[input.id].scope != scope)
            && (out.Ok? && out.value.Applied? <==> Addressed(s, scope, input) && Applicable(s, input, runs))
            && (out == Ok(StateMismatch) <==> Addressed(s, scope, input) && s.rows[input.id].state != Active)
  {
    FoundIffUsed(s.ledger, input);
    if input.id in s.rows {
      var row := s.rows[input.id];
      assert AuthorityMatches(runs, row.scope) <==> Leased(runs, row.scope);
      if ValidRecord(row) && row.state == Active && row.updatedAtMs <= TimeOf(input) {
        ProducedIsValid(row, input);
      }
    }
  }

  /** An addressed operation on an active row fails for want of a lease, or for its time. */
  lemma OperateRefusals(hash: Input -> Digest, s: Store, scope: Scope, input: Input, runs: Authorities)
    ensures var out := Operate(hash, s, scope, input, runs).1;
            var reached := Addressed(s, scope, input) && s.rows[input.id].state == Active;
            var leased := reached && (input.ReconcileInput? ==> Leased(runs, s.rows[input.id].scope));
            && (out == Ok(AuthorityMismatch) <==> reached && !leased)
            && (out == Err(TimeMovesBackward) <==> leased && TimeOf(input) < s.rows[input.id].updatedAtMs)
  {
    FoundIffUsed(s.ledger, input);
    if input.id in s.rows {
      assert AuthorityMatches(runs, s.rows[input.id].scope) <==> Leased(runs, s.rows[input.id].scope);
    }
  }

  /**
   An applied operation rewrites its row, appends its one entry, and nothing else; every other answer
   changes nothing.
   */
  lemma OperateColumns(hash: Input -> Digest, s: Store, scope: Scope, input: Input, runs: Authorities)
    ensures var (t, out) := Operate(hash, s, scope, input, runs);
            if out.Ok? && out.value.Applied?
            then && input.id in s.rows && Becomes(s.rows[input.id], input, out.value.record)
                 && t.rows == s.rows[input.id := out.value.record]
                 && |t.ledger| == |s.ledger| + 1 && t.ledger[..|s.ledger|] == s.ledger
                 && var op := t.ledger[|s.ledger|];
                 && IsEntry(op, input) && op.inputHash == hash(input) && op.record == out.value.record
                 && op.createdAtMs == TimeOf(input)
            else t == s
  {
  }
}
