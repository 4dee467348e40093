/** The checkpoint store itself: an object over two tables, each transaction proved to be one step of the model. */
module DurableStore {
  import opened Wrappers
  import opened DurableModel

  /** A running row that does not validate, reported by its identity only. */
  datatype InvalidCheckpoint = InvalidCheckpoint(checkpointId: CheckpointId, rootRunId: RootId)

  class DurableRunStore {
    var checkpoints: map<CheckpointId, Row>
    var roots: map<RootId, Option<Millis>>

    ghost function Contents(): (s: Tables)
      reads this
    {
      Tables(checkpoints, roots)
    }

    constructor ()
      ensures Contents() == NoTables
    {
      checkpoints, roots := map[], map[];
    }

    // -------------------------------------------------------------------------
    // Reads
    // -------------------------------------------------------------------------

    /** Folds the running rows of a root in the order they arrive; fails on the first row that does not validate. */
    method ReadRootBudgetAuthority(root: RootId) returns (res: Result<Option<Budget>, StoreError>)
      ensures res == if RootReadable(Contents(), root) then Ok(Authority(Contents(), root)) else Err(UnreadableRow)
    {
      var authority: Option<Budget> := None;
      var rows := RowIds(Tables(checkpoints, roots), root);
      ghost var seen: set<CheckpointId> := {};
      while rows != {}
        invariant rows <= RowIds(Contents(), root)
        invariant forall id :: id in RowIds(Contents(), root) - rows ==> ValidRow(id, checkpoints[id])
        invariant seen == RunningIds(Contents(), root) - rows
        invariant Gathered(checkpoints, seen, authority)
        decreases rows
      {
        var id :| id in rows;
        rows := rows - {id};
        if !ValidRow(id, checkpoints[id]) {
          return Err(UnreadableRow);
        }
        if checkpoints[id].status == Running {
          var budget := BudgetOf(checkpoints[id]);
          JoinIsLeast(checkpoints, seen, id, authority);
          authority := Some(if authority.None? then budget else Join(authority.value, budget));
          seen := seen + {id};
        }
      }
      GatheredIsAuthority(Contents(), root, authority);
      return Ok(authority);
    }

    method ValidateRootBudgetFloor(record: Record) returns (refused: Option<StoreError>)
      ensures refused == FloorError(Contents(), record)
    {
      var authority := ReadRootBudgetAuthority(record.identity.rootRunId);
      if authority.Err? {
        return Some(authority.error);
      }
      if authority.value.Some? && !Dominates(record.payload.rootBudget, authority.value.value) {
        return Some(BudgetReset);
      }
      if record.checkpointId in checkpoints {
        var existing := checkpoints[record.checkpointId];
        if !ValidRow(record.checkpointId, existing) {
          return Some(UnreadableRow);
        }
        if record.lastHeartbeatAt < existing.lastHeartbeatAt {
          return Some(HeartbeatBackward);
        }
      }
      return None;
    }

    method GetByCheckpoint(id: CheckpointId) returns (res: Result<Option<Record>, StoreError>)
      ensures id !in checkpoints ==> res == Ok(None)
      ensures id in checkpoints && !ValidRow(id, checkpoints[id]) ==> res == Err(UnreadableRow)
      ensures id in checkpoints && ValidRow(id, checkpoints[id]) ==> res == Ok(Some(ToRecord(id, checkpoints[id])))
    {
      if id !in checkpoints {
        return Ok(None);
      }
      var record := ToRecord(id, checkpoints[id]);
      return if ValidRecord(record) then Ok(Some(record)) else Err(UnreadableRow);
    }

    // -------------------------------------------------------------------------
    // Transactions
    // -------------------------------------------------------------------------

    method RunUpsert(record: Record, now: Millis) returns (changes: nat)
      modifies this
      ensures (Contents(), changes) == UpsertRow(old(Contents()), record, now)
    {
      var id := record.checkpointId;
      changes := 1;
      if id !in checkpoints {
        checkpoints := checkpoints[id := ToRow(record, now)];
      } else if MayUpdate(checkpoints[id], record) {
        checkpoints := checkpoints[id := UpdatedRow(checkpoints[id], record, now)];
      } else {
        changes := 0;
      }
    }

    method RunInvalidate(root: RootId, now: Millis)
      modifies this`checkpoints
      ensures Contents() == RevokeRunning(old(Contents()), root, now)
    {
      checkpoints := map id | id in checkpoints ::
        if checkpoints[id].identity.rootRunId == root && checkpoints[id].status == Running
        then RevokedRow(checkpoints[id], now) else checkpoints[id];
    }

    method RunTombstone(root: RootId, now: Millis)
      modifies this`roots
      ensures Contents() == Tombstone(old(Contents()), root, now)
    {
      if root !in roots || roots[root].None? {
        roots := roots[root := Some(now)];
      }
    }

    method RunComplete(id: CheckpointId, reason: TerminalReason, now: Millis) returns (changes: nat)
      modifies this`checkpoints
      ensures (Contents(), changes) == CompleteRunning(old(Contents()), id, reason, now)
    {
      changes := 0;
      if id in checkpoints && checkpoints[id].status == Running {
        checkpoints := checkpoints[id := CompletedRow(checkpoints[id], reason, now)];
        changes := 1;
      }
    }

    /** An upsert refused for its identity has already committed its root: only a throw rolls back. */
    method UpsertCheckpoint(record: Record, now: Millis) returns (res: Result<(), StoreError>)
      modifies this
      ensures (Contents(), res) == Upsert(old(Contents()), record, now)
    {
      if !ValidRecord(record) {
        return Err(InvalidRecord);
      }
      var root := record.identity.rootRunId;
      if record.status == Revoked {
        RunTombstone(root, now);
      } else {
        var refused := ValidateRootBudgetFloor(record);
        if refused.Some? {
          return Err(refused.value);
        }
        if root !in roots {
          roots := roots[root := None];
        }
        if roots[root].Some? {
          return Err(RootIsRevoked);
        }
      }
      var changes := RunUpsert(record, now);
      if changes != 1 {
        return Err(IdentityMismatch);
      }
      if record.status == Revoked {
        RunInvalidate(root, now);
      }
      return Ok(());
    }

    /** The checks of a claim, up to the record it would install. */
    method ExamineClaim(claim: ResumeClaim) returns (answer: Result<ClaimOutcome, StoreError>)
      ensures answer == Examine(Contents(), claim)
    {
      if !ValidClaim(claim) {
        return Err(InvalidClaim);
      }
      if claim.checkpointId !in checkpoints {
        return Ok(ClaimNotFound);
      }
      var source := ToRecord(claim.checkpointId, checkpoints[claim.checkpointId]);
      if !ValidRecord(source) {
        return Err(UnreadableRow);
      }
      var root := source.identity.rootRunId;
      if root !in roots {
        return Err(RootMissing);
      }
      if roots[root].Some? || source.status != Running {
        return Ok(NotResumable(RevokedOrTerminal));
      }
      if claim.claimedAtMs < source.lastHeartbeatAt {
        return Err(HeartbeatBackward);
      }
      if !Authorized(source.identity, claim.principal) {
        return Ok(Denied);
      }
      if claim.replacementId in checkpoints {
        return Ok(NotResumable(ReplacementExists));
      }
      var budget := ReadRootBudgetAuthority(root);
      if budget.Err? {
        return Err(budget.error);
      }
      if budget.value.None? {
        return Err(NoBudgetAuthority);
      }
      var authoritative := WithBudget(source, budget.value.value);
      if !ValidRecord(authoritative) {
        return Err(AuthorityInvalid);
      }
      var replacement := Replacement(authoritative, claim);
      return if ValidRecord(replacement) then Ok(Claimed(replacement)) else Err(ReplacementInvalid);
    }

    method ClaimForResume(claim: ResumeClaim) returns (res: Result<ClaimOutcome, StoreError>)
      modifies this`checkpoints
      ensures (Contents(), res) == Claim(old(Contents()), claim)
    {
      res := ExamineClaim(claim);
      if res.Err? || !res.value.Claimed? {
        return;
      }
      var changes := RunComplete(claim.checkpointId, Superseded, claim.claimedAtMs);
      if changes == 1 {
        checkpoints := checkpoints[claim.replacementId := ToRow(res.value.record, claim.claimedAtMs)];
      } else {
        res := Ok(NotResumable(SourceRaced));
      }
    }

    method TerminalizeCheckpoint(id: CheckpointId, reason: TerminalReason, now: Millis)
      returns (res: Result<TerminalOutcome, StoreError>)
      modifies this`checkpoints
      ensures (Contents(), res) == Terminalize(old(Contents()), id, reason, now)
    {
      if id !in checkpoints {
        return Ok(TerminalNotFound);
      }
      var row := checkpoints[id];
      if !ValidRow(id, row) {
        return Err(UnreadableRow);
      }
      if row.status == Completed {
        if row.payload.terminalReason == Some(reason) {
          return Ok(AlreadyTerminal);
        }
        if row.payload.terminalReason.Some? {
          return Err(TerminalWith(row.payload.terminalReason.value));
        }
        checkpoints := checkpoints[id := CompletedRow(row, reason, now)];
        return Ok(Terminalized);
      }
      if row.status != Running {
        return Ok(AlreadyTerminal);
      }
      var changes := RunComplete(id, reason, now);
      res := if changes == 1 then Ok(Terminalized) else Err(LostCas);
    }

    method MarkCheckpointOrphaned(id: CheckpointId, reason: string, now: Millis)
      modifies this`checkpoints
      ensures Contents() == MarkOrphaned(old(Contents()), id, reason, now)
    {
      if id in checkpoints && checkpoints[id].status == Running {
        checkpoints := checkpoints[id :=
          checkpoints[id].(status := Orphaned, orphanReason := Some(reason), updatedAtMs := now)];
      }
    }

    method Touch(id: CheckpointId, atMs: Millis, now: Millis) returns (res: Result<(), StoreError>)
      modifies this`checkpoints
      ensures (Contents(), res) == TouchHeartbeat(old(Contents()), id, atMs, now)
    {
      if id !in checkpoints || checkpoints[id].status != Running {
        return Err(NotRunning);
      }
      checkpoints := checkpoints[id := checkpoints[id].(lastHeartbeatAt := atMs, updatedAtMs := now)];
      return Ok(());
    }

    method Revoke(root: RootId, now: Millis)
      modifies this
      ensures Contents() == InvalidateForRevoke(old(Contents()), root, now)
    {
      RunTombstone(root, now);
      RunInvalidate(root, now);
    }

    // -------------------------------------------------------------------------
    // The boot scan
    // -------------------------------------------------------------------------

    /** `SELECT ... WHERE status = 'running' ORDER BY last_heartbeat_at`, as repeated selection of an oldest row. */
    method SelectRunning() returns (ids: seq<CheckpointId>)
      ensures forall id :: id in ids <==> id in checkpoints && checkpoints[id].status == Running
      ensures InOrder(checkpoints, ids)
    {
      ids := [];
      var left := set id | id in checkpoints && checkpoints[id].status == Running;
      while left != {}
        invariant forall id :: id in ids || id in left <==> id in checkpoints && checkpoints[id].status == Running
        invariant forall id :: id in ids ==> id !in left
        invariant forall i, j :: 0 <= i < j < |ids| ==>
                    ids[i] != ids[j] && checkpoints[ids[i]].lastHeartbeatAt <= checkpoints[ids[j]].lastHeartbeatAt
        invariant forall i, id :: 0 <= i < |ids| && id in left ==>
                    checkpoints[ids[i]].lastHeartbeatAt <= checkpoints[id].lastHeartbeatAt
        decreases left
      {
        var oldest :| oldest in left;
        var rest := left - {oldest};
        while rest != {}
          invariant oldest in left && rest <= left
          invariant forall id :: id in left - rest ==>
                      checkpoints[oldest].lastHeartbeatAt <= checkpoints[id].lastHeartbeatAt
          decreases rest
        {
          var id :| id in rest;
          rest := rest - {id};
          if checkpoints[id].lastHeartbeatAt < checkpoints[oldest].lastHeartbeatAt {
            oldest := id;
          }
        }
        ids := ids + [oldest];
        left := left - {oldest};
      }
    }

    /** Every running row is reported exactly once: as a record, oldest heartbeat first, or as invalid. */
    method ListResumable() returns (records: seq<Record>, invalid: seq<InvalidCheckpoint>)
      ensures Reports(checkpoints, records, invalid)
    {
      var rows := SelectRunning();
      records, invalid := [], [];
      for k := 0 to |rows|
        invariant records == Parsed(checkpoints, rows[..k]) && invalid == Rejected(checkpoints, rows[..k])
      {
        var id := rows[k];
        assert rows[..k + 1][..k] == rows[..k];
        if ValidRow(id, checkpoints[id]) {
          records := records + [ToRecord(id, checkpoints[id])];
        } else {
          invalid := invalid + [InvalidCheckpoint(id, checkpoints[id].identity.rootRunId)];
        }
      }
      assert rows[..|rows|] == rows;
      ReportIsExact(checkpoints, rows);
    }
  }

  ghost function BudgetsOf(checkpoints: map<CheckpointId, Row>, ids: set<CheckpointId>): set<Budget>
    requires ids <= checkpoints.Keys
  {
    set id | id in ids :: BudgetOf(checkpoints[id])
  }

  ghost predicate Gathered(checkpoints: map<CheckpointId, Row>, seen: set<CheckpointId>, authority: Option<Budget>) {
    && seen <= checkpoints.Keys
    && if authority.None? then seen == {} else LeastUpper(BudgetsOf(checkpoints, seen), authority.value)
  }

  lemma GatheredIsAuthority(s: Tables, root: RootId, authority: Option<Budget>)
    requires Gathered(s.checkpoints, RunningIds(s, root), authority)
    ensures authority == Authority(s, root)
  {
    assert BudgetsOf(s.checkpoints, RunningIds(s, root)) == RunningBudgets(s, root);
    if authority.Some? {
      TopIs(RunningBudgets(s, root), authority.value);
    }
  }

  lemma JoinIsLeast(checkpoints: map<CheckpointId, Row>, seen: set<CheckpointId>, id: CheckpointId,
      authority: Option<Budget>)
    requires Gathered(checkpoints, seen, authority) && id in checkpoints
    ensures var budget := BudgetOf(checkpoints[id]);
            Gathered(checkpoints, seen + {id}, Some(if authority.None? then budget else Join(authority.value, budget)))
  {
    var bs, cs, budget := BudgetsOf(checkpoints, seen), BudgetsOf(checkpoints, seen + {id}), BudgetOf(checkpoints[id]);
    assert cs == bs + {budget};
  }

  // ---------------------------------------------------------------------------
  // What the listing reports
  // ---------------------------------------------------------------------------

  ghost function Parsed(checkpoints: map<CheckpointId, Row>, ids: seq<CheckpointId>): seq<Record>
    requires forall id :: id in ids ==> id in checkpoints
  {
    if ids == [] then []
    else
      var n := |ids| - 1;
      var row := checkpoints[ids[n]];
      Parsed(checkpoints, ids[..n]) + if ValidRow(ids[n], row) then [ToRecord(ids[n], row)] else []
  }

  ghost function Rejected(checkpoints: map<CheckpointId, Row>, ids: seq<CheckpointId>): seq<InvalidCheckpoint>
    requires forall id :: id in ids ==> id in checkpoints
  {
    if ids == [] then []
    else
      var n := |ids| - 1;
      var row := checkpoints[ids[n]];
      Rejected(checkpoints, ids[..n])
        + if ValidRow(ids[n], row) then [] else [InvalidCheckpoint(ids[n], row.identity.rootRunId)]
  }

  ghost predicate InOrder(checkpoints: map<CheckpointId, Row>, ids: seq<CheckpointId>)
    requires forall id :: id in ids ==> id in checkpoints
  {
    forall i, j :: 0 <= i < j < |ids| ==>
      ids[i] != ids[j] && checkpoints[ids[i]].lastHeartbeatAt <= checkpoints[ids[j]].lastHeartbeatAt
  }

  lemma {:induction false} ParsedAreRows(checkpoints: map<CheckpointId, Row>, ids: seq<CheckpointId>)
    requires (forall id :: id in ids ==> id in checkpoints) && InOrder(checkpoints, ids)
    ensures forall r :: r in Parsed(checkpoints, ids) <==>
              r.checkpointId in ids && ValidRow(r.checkpointId, checkpoints[r.checkpointId])
              && r == ToRecord(r.checkpointId, checkpoints[r.checkpointId])
    ensures forall i, j :: 0 <= i < j < |Parsed(checkpoints, ids)| ==>
              && Parsed(checkpoints, ids)[i].checkpointId != Parsed(checkpoints, ids)[j].checkpointId
              && Parsed(checkpoints, ids)[i].lastHeartbeatAt <= Parsed(checkpoints, ids)[j].lastHeartbeatAt
  {
    if ids != [] {
      var n := |ids| - 1;
      assert ids == ids[..n] + [ids[n]];
      ParsedAreRows(checkpoints, ids[..n]);
      var before := Parsed(checkpoints, ids[..n]);
      forall i | 0 <= i < |before|
        ensures before[i].checkpointId != ids[n] && before[i].lastHeartbeatAt <= checkpoints[ids[n]].lastHeartbeatAt
      {
        assert before[i] in before;
      }
    }
  }

  lemma {:induction false} RejectedAreRows(checkpoints: map<CheckpointId, Row>, ids: seq<CheckpointId>)
    requires (forall id :: id in ids ==> id in checkpoints) && InOrder(checkpoints, ids)
    ensures forall x :: x in Rejected(checkpoints, ids) <==>
              x.checkpointId in ids && !ValidRow(x.checkpointId, checkpoints[x.checkpointId])
              && x.rootRunId == checkpoints[x.checkpointId].identity.rootRunId
    ensures forall i, j :: 0 <= i < j < |Rejected(checkpoints, ids)| ==>
              Rejected(checkpoints, ids)[i].checkpointId != Rejected(checkpoints, ids)[j].checkpointId
  {
    if ids != [] {
      var n := |ids| - 1;
      assert ids == ids[..n] + [ids[n]];
      RejectedAreRows(checkpoints, ids[..n]);
      var before := Rejected(checkpoints, ids[..n]);
      forall i | 0 <= i < |before| ensures before[i].checkpointId != ids[n] {
        assert before[i] in before;
      }
    }
  }

  /** The running rows that parse, oldest heartbeat first, and apart from them the running rows that do not. */
  ghost predicate Reports(checkpoints: map<CheckpointId, Row>, records: seq<Record>, invalid: seq<InvalidCheckpoint>) {
    && (forall r :: r in records <==>
          && r.checkpointId in checkpoints && checkpoints[r.checkpointId].status == Running
          && ValidRow(r.checkpointId, checkpoints[r.checkpointId])
          && r == ToRecord(r.checkpointId, checkpoints[r.checkpointId]))
    && (forall x :: x in invalid <==>
          && x.checkpointId in checkpoints && checkpoints[x.checkpointId].status == Running
          && !ValidRow(x.checkpointId, checkpoints[x.checkpointId])
          && x.rootRunId == checkpoints[x.checkpointId].identity.rootRunId)
    && (forall i, j :: 0 <= i < j < |records| ==>
          && records[i].checkpointId != records[j].checkpointId
          && records[i].lastHeartbeatAt <= records[j].lastHeartbeatAt)
    && (forall i, j :: 0 <= i < j < |invalid| ==> invalid[i].checkpointId != invalid[j].checkpointId)
  }

  lemma ReportIsExact(checkpoints: map<CheckpointId, Row>, ids: seq<CheckpointId>)
    requires forall id :: id in ids <==> id in checkpoints && checkpoints[id].status == Running
    requires InOrder(checkpoints, ids)
    ensures Reports(checkpoints, Parsed(checkpoints, ids), Rejected(checkpoints, ids))
  {
    ParsedAreRows(checkpoints, ids);
    RejectedAreRows(checkpoints, ids);
  }
}
