/** The attachment store as an object over its two tables, and the recovery loop that scans it. */
module AttachmentStore {
  import opened Wrappers
  import opened AttachmentModel
  import opened RecoveryScan
  import opened AttachmentLedger
  import opened AttachmentAnswers

  const MAX_SCAN_LIMIT := 10_000

  datatype ScanError = InvalidLimit | UnreadableScan

  datatype Scan = Scan(records: seq<Record>, next: Option<AttachmentId>)

  /** What one round of the scan came to. */
  datatype Round =
    | PageDone(recovered: seq<AttachmentId>, preserved: seq<AttachmentId>, next: Option<AttachmentId>)
    | PageUnread
    | PageFailed

  datatype Recovery =
    | Completed(recovered: seq<AttachmentId>, preserved: seq<AttachmentId>)
    | ScanFailed
    | OperationFailed

  class ExecutionAttachmentStore {
    const hash: Input -> Digest
    var rows: map<AttachmentId, Record>
    var ledger: seq<Operation>

    ghost function Contents(): (s: Store)
      reads this
    {
      Store(rows, ledger)
    }

    constructor (hash: Input -> Digest)
      ensures Contents() == NoStore && this.hash == hash
    {
      this.hash := hash;
      rows, ledger := map[], [];
    }

    /** `selectActiveSource`. */
    method ActiveSource(path: string) returns (found: bool)
      ensures found == PathInUse(rows, path)
    {
      var left := rows.Keys;
      while left != {}
        invariant left <= rows.Keys
        invariant forall id :: id in rows && id !in left ==> !(rows[id].sourcePath == path && rows[id].state == Active)
        decreases left
      {
        var id :| id in left;
        if rows[id].sourcePath == path && rows[id].state == Active {
          return true;
        }
        left := left - {id};
      }
      return false;
    }

    method CreateAttachment(record: Record, runs: Authorities) returns (res: Result<Outcome, StoreError>)
      modifies this`rows
      ensures (Contents(), res) == Create(old(Contents()), record, runs)
    {
      if !ValidRecord(record) {
        return Err(InvalidRecord);
      }
      if record.state != Active {
        return Err(CreationNotActive);
      }
      if record.id in rows {
        var existing := rows[record.id];
        if !ValidRecord(existing) {
          return Err(UnreadableRow);
        }
        return if existing == record then Ok(IdenticalReplay(existing)) else Ok(ReplayConflict);
      }
      if !AuthorityMatches(runs, record.scope) {
        return Ok(AuthorityMismatch);
      }
      var taken := ActiveSource(record.sourcePath);
      if taken {
        return Ok(ReplayConflict);
      }
      rows := rows[record.id := record.(lastRecoveredAtMs := None, revokedAtMs := None, reason := None)];
      return Ok(Created(record));
    }

    /** Writes only the columns an operation may change. */
    method Persist(next: Record)
      requires next.id in rows
      modifies this`rows
      ensures rows == old(rows)[next.id := old(rows)[next.id].(
                identity := next.identity, state := next.state, updatedAtMs := next.updatedAtMs,
                lastRecoveredAtMs := next.lastRecoveredAtMs, revokedAtMs := next.revokedAtMs, reason := next.reason)]
    {
      var row := rows[next.id];
      row := row.(identity := next.identity);
      row := row.(state := next.state, updatedAtMs := next.updatedAtMs);
      row := row.(lastRecoveredAtMs := next.lastRecoveredAtMs, revokedAtMs := next.revokedAtMs, reason := next.reason);
      rows := rows[next.id := row];
    }

    /** A revocation or a reconciliation; rows sit under their own id. */
    method OperateOn(scope: Scope, input: Input, runs: Authorities) returns (res: Result<Outcome, StoreError>)
      requires OwnIds(rows)
      modifies this`rows, this`ledger
      ensures (Contents(), res) == Operate(hash, old(Contents()), scope, input, runs)
      ensures OwnIds(rows) && old(ledger) <= ledger
      ensures UnchangedExcept(old(rows), rows, [input.id])
    {
      if input.id !in rows {
        return Ok(NotFound);
      }
      var current := rows[input.id];
      if !ValidRecord(current) {
        return Err(UnreadableRow);
      }
      if current.scope != scope {
        return Ok(ScopeMismatch);
      }
      var inputHash := hash(input);
      var previous := Find(ledger, KeyOf(input));
      if previous.Some? {
        if !ValidRecord(previous.value.record) {
          return Err(UnreadableRow);
        }
        var same := previous.value.inputHash == inputHash;
        return if same then Ok(IdenticalReplay(previous.value.record)) else Ok(ReplayConflict);
      }
      if current.state != Active {
        return Ok(StateMismatch);
      }
      if input.ReconcileInput? && !AuthorityMatches(runs, current.scope) {
        return Ok(AuthorityMismatch);
      }
      if AtMs(input) < current.updatedAtMs {
        return Err(TimeMovesBackward);
      }
      var next := Produced(current, input);
      if !ValidRecord(next) {
        return Err(InvalidRecord);
      }
      Persist(next);
      ledger := ledger + [Operation(KeyOf(input), inputHash, next, AtMs(input))];
      return Ok(Applied(next));
    }

    // -------------------------------------------------------------------------
    // Recovery
    // -------------------------------------------------------------------------

    /** The least of a non-empty set of ids. */
    method Least(ids: set<AttachmentId>) returns (least: AttachmentId)
      requires ids != {}
      ensures least in ids && forall id :: id in ids && id != least ==> Less(least, id)
    {
      least :| least in ids;
      var rest := ids - {least};
      while rest != {}
        invariant least in ids && rest <= ids && least !in rest
        invariant forall id :: id in ids && id !in rest && id != least ==> Less(least, id)
        decreases rest
      {
        var id :| id in rest;
        rest := rest - {id};
        LessIsTotal(id, least);
        if Less(id, least) {
          forall other | other in ids && other !in rest && other != id ensures Less(id, other) {
            if other != least { LessIsTransitive(id, least, other); }
          }
          least := id;
        }
      }
    }

    /** `ORDER BY execution_attachment_id LIMIT limit` beyond the cursor. */
    method SelectPage(cutoff: int, after: Option<AttachmentId>, limit: nat) returns (page: seq<AttachmentId>)
      ensures IsPage(rows, cutoff, after, limit, page)
    {
      page := [];
      var left := Eligible(rows, cutoff, after);
      while |page| < limit && left != {}
        invariant |page| <= limit && Ascending(page)
        invariant left <= Eligible(rows, cutoff, after)
        invariant forall id :: id in page <==> id in Eligible(rows, cutoff, after) && id !in left
        invariant forall id :: id in left ==> Precede(page, id)
        decreases left
      {
        var next := Least(left);
        assert Precede(page, next);
        forall id | id in left && id != next ensures Precede(page + [next], id) {
          assert Precede(page, id);
        }
        page := page + [next];
        left := left - {next};
      }
    }

    method ListRecoverable(cutoff: int, after: Option<AttachmentId>, limit: int)
      returns (res: Result<Scan, ScanError>, ghost page: seq<AttachmentId>)
      ensures !(0 < limit <= MAX_SCAN_LIMIT) ==> res == Err(InvalidLimit)
      ensures 0 < limit <= MAX_SCAN_LIMIT ==>
                && IsPage(rows, cutoff, after, limit, page)
                && (if forall i :: 0 <= i < |page| ==> ValidRecord(rows[page[i]])
                    then && res.Ok? && res.value.next == Cursor(page, limit) && |res.value.records| == |page|
                         && forall i :: 0 <= i < |page| ==> res.value.records[i] == rows[page[i]]
                    else res == Err(UnreadableScan))
    {
      page := [];
      if limit <= 0 || limit > MAX_SCAN_LIMIT {
        return Err(InvalidLimit), page;
      }
      var ids := SelectPage(cutoff, after, limit);
      page := ids;
      var records := [];
      for k := 0 to |ids|
        invariant |records| == k
        invariant forall i :: 0 <= i < k ==> ValidRecord(rows[ids[i]]) && records[i] == rows[ids[i]]
      {
        if !ValidRecord(rows[ids[k]]) {
          return Err(UnreadableScan), page;
        }
        records := records + [rows[ids[k]]];
      }
      var next := if |records| == limit then Some(ids[|ids| - 1]) else None;
      res := Ok(Scan(records, next));
    }

    /** Reconciles one record if its source could be observed. */
    method RecoverOne(record: Record, name: Naming, seen: Observation, runs: Authorities) returns (verdict: Verdict)
      requires OwnIds(rows)
      modifies this`rows, this`ledger
      ensures OwnIds(rows) && UnchangedExcept(old(rows), rows, [record.id]) && old(ledger) <= ledger
      ensures Legible(old(ledger)) ==> Legible(ledger)
      ensures Legible(old(ledger)) && Manageable(record, seen) && Stored(old(rows), record) ==> verdict != Failed
      ensures verdict != Recovered ==> rows == old(rows) && ledger == old(ledger)
      ensures seen.Unavailable? ==> verdict == Kept
      ensures seen.LookupFailed? ==> verdict == Failed
      ensures seen.Seen? ==>
                (Contents(), verdict) ==
                  Recovering(hash, old(Contents()), record, RecoveryInput(name, record.id, seen), runs)
    {
      match seen
      case Unavailable => return Kept;
      case LookupFailed => return Failed;
      case Seen(_, _) =>
        ManageableSucceeds(hash, Contents(), record, RecoveryInput(name, record.id, seen), runs);
        var out := OperateOn(record.scope, RecoveryInput(name, record.id, seen), runs);
        return VerdictOf(out);
    }

    /** One round of the loop over a page: the record joins the list its verdict names, unless recovery fails. */
    method RecoverNext(record: Record, name: Naming, observe: Record -> Observation, runs: Authorities)
      returns (ok: bool, recovered: seq<AttachmentId>, preserved: seq<AttachmentId>)
      requires OwnIds(rows) && Stored(rows, record)
      modifies this`rows, this`ledger
      ensures OwnIds(rows) && UnchangedExcept(old(rows), rows, [record.id]) && old(ledger) <= ledger
      ensures Legible(old(ledger)) ==> Legible(ledger) && (Manageable(record, observe(record)) ==> ok)
      ensures ok ==> Filed(hash, name, observe, old(rows), rows, ledger, recovered, preserved, [record.id])
    {
      var seen := observe(record);
      var verdict := RecoverOne(record, name, seen, runs);
      match verdict
      case Failed =>
        return false, [], [];
      case Recovered =>
        RecoveredIsRecorded(hash, name, Store(old(rows), old(ledger)), record, seen, runs);
        return true, [record.id], [];
      case Kept =>
        return true, [], [record.id];
    }

    /** Reconciles one page, each record with its own observation and run authorities. */
    method RecoverPage(records: seq<Record>, name: Naming, observe: Record -> Observation,
        runs: AttachmentId -> Authorities)
      returns (ok: bool, recovered: seq<AttachmentId>, preserved: seq<AttachmentId>)
      requires OwnIds(rows) && Ascending(Ids(records))
      requires forall i :: 0 <= i < |records| ==> Stored(rows, records[i])
      modifies this`rows, this`ledger
      ensures OwnIds(rows) && UnchangedExcept(old(rows), rows, Ids(records)) && old(ledger) <= ledger
      ensures Legible(old(ledger)) ==>
                && Legible(ledger)
                && ((forall i :: 0 <= i < |records| ==> Manageable(records[i], observe(records[i]))) ==> ok)
      ensures ok ==> Filed(hash, name, observe, old(rows), rows, ledger, recovered, preserved, Ids(records))
    {
      ok, recovered, preserved := true, [], [];
      ghost var ids := Ids(records);
      for k := 0 to |records|
        invariant OwnIds(rows) && old(ledger) <= ledger && (Legible(old(ledger)) ==> Legible(ledger))
        invariant DoneUpTo(hash, name, observe, old(rows), rows, ledger, recovered, preserved, ids, k)
      {
        var record := records[k];
        NotYetVisited(ids, k);
        assert rows[ids[k]] == record;
        ghost var before, entries := rows, ledger;
        var found, kept;
        ok, found, kept := RecoverNext(record, name, observe, runs(record.id));
        if !ok {
          StillInPage(old(rows), before, rows, ids, k);
          return;
        }
        PageContinues(hash, name, observe, old(rows), before, entries, recovered, preserved, ids, k,
                      rows, ledger, found, kept);
        recovered, preserved := recovered + found, preserved + kept;
      }
      assert ids[..|records|] == ids;
    }

    /** One round of the scan: a page beyond the cursor, and every record on it. */
    method RecoverRound(cutoff: int, after: Option<AttachmentId>, limit: int, name: Naming,
        observe: Record -> Observation, runs: AttachmentId -> Authorities)
      returns (round: Round, ghost page: seq<AttachmentId>)
      requires OwnIds(rows)
      modifies this`rows, this`ledger
      ensures OwnIds(rows) && UnchangedExcept(old(rows), rows, page)
      ensures old(ledger) <= ledger && (Legible(old(ledger)) ==> Legible(ledger))
      ensures if round.PageUnread? then page == [] else 0 < limit && IsPage(old(rows), cutoff, after, limit, page)
      ensures 0 < limit <= MAX_SCAN_LIMIT && Legible(old(ledger)) ==>
                AllManageable(old(rows), cutoff, after, observe) ==>
                round.PageDone?
      ensures round.PageDone? ==>
                && round.next == Cursor(page, limit)
                && Filed(hash, name, observe, old(rows), rows, ledger, round.recovered, round.preserved, page)
    {
      var scan;
      scan, page := ListRecoverable(cutoff, after, limit);
      if scan.Err? {
        return PageUnread, [];
      }
      assert Ids(scan.value.records) == page;
      var ok, found, kept := RecoverPage(scan.value.records, name, observe, runs);
      return if ok then PageDone(found, kept, scan.value.next) else PageFailed, page;
    }

    /**
     Follows the cursor until it is absent, reconciling each record whose source could be observed.
     It terminates, and completes unless a page cannot be read or a record fails. Then every
     attachment that was active within the cutoff at the start is reported exactly once, in ascending
     order, on the list its recovery calls for.
     */
    method RecoverAll(cutoff: int, limit: int, name: Naming, observe: Record -> Observation,
        runs: AttachmentId -> Authorities)
      returns (res: Recovery, ghost visited: seq<AttachmentId>)
      requires OwnIds(rows)
      modifies this`rows, this`ledger
      ensures Ascending(visited) && UnchangedExcept(old(rows), rows, visited)
      ensures 0 < limit <= MAX_SCAN_LIMIT && Legible(old(ledger)) && AllManageable(old(rows), cutoff, None, observe) ==>
                res.Completed?
      ensures res.Completed? ==>
                forall id :: id in visited <==>
                  id in old(rows) && old(rows)[id].state == Active && old(rows)[id].updatedAtMs <= cutoff
      ensures res.Completed? ==>
                Filed(hash, name, observe, old(rows), rows, ledger, res.recovered, res.preserved, visited)
    {
      visited := [];
      var recovered: seq<AttachmentId>, preserved: seq<AttachmentId> := [], [];
      var after: Option<AttachmentId>, more := None, true;
      while more
        invariant OwnIds(rows) && Progress(old(rows), rows, visited, cutoff, after, more)
        invariant Filed(hash, name, observe, old(rows), rows, ledger, recovered, preserved, visited)
        invariant Legible(old(ledger)) ==> Legible(ledger)
        invariant more && AllManageable(old(rows), cutoff, None, observe) ==>
                    AllManageable(rows, cutoff, after, observe)
        decreases more, Eligible(old(rows), cutoff, after)
      {
        ghost var before, entries, earlier := rows, ledger, visited;
        var round, page := RecoverRound(cutoff, after, limit, name, observe, runs);
        if round.PageUnread? {
          return ScanFailed, visited;
        }
        PageAdvances(old(rows), before, rows, visited, cutoff, after, limit, page);
        PageIsNew(old(rows), before, visited, cutoff, after, limit, page);
        visited := visited + page;
        if round.PageFailed? {
          return OperationFailed, visited;
        }
        FiledAdds(hash, name, observe, old(rows), before, entries, recovered, preserved, earlier,
                  rows, ledger, round.recovered, round.preserved, page);
        recovered, preserved := recovered + round.recovered, preserved + round.preserved;
        after := round.next;
        more := after.Some?;
        if more {
          RestIsManageable(old(rows), rows, visited, cutoff, after, observe);
        }
      }
      assert forall id :: id in visited <==> id in Elements(visited);
      return Completed(recovered, preserved), visited;
    }
  }

  /** The reconciliation of one record, and the verdict its outcome gives. */
  function Recovering(hash: Input -> Digest, s: Store, record: Record, input: Input,
      runs: Authorities): (Store, Verdict) {
    var (t, out) := Operate(hash, s, record.scope, input, runs);
    (t, VerdictOf(out))
  }

  ghost predicate Stored(rows: Rows, record: Record) {
    record.id in rows && rows[record.id] == record
  }

  /** Every ledger entry can be read back. */
  ghost predicate Legible(ledger: seq<Operation>) {
    forall i :: 0 <= i < |ledger| ==> ValidRecord(ledger[i].record)
  }

  /** The record is readable and nothing about its source or the clock makes its reconciliation an error. */
  ghost predicate Manageable(record: Record, seen: Observation) {
    && ValidRecord(record) && !seen.LookupFailed?
    && (seen.Seen? ==> record.updatedAtMs <= seen.nowMs && ValidFileIdentity(seen.identity))
  }

  ghost predicate AllManageable(rows: Rows, cutoff: int, after: Option<AttachmentId>, observe: Record -> Observation) {
    forall id :: id in Eligible(rows, cutoff, after) ==> Manageable(rows[id], observe(rows[id]))
  }

  lemma RestIsManageable(start: Rows, rows: Rows, visited: seq<AttachmentId>, cutoff: int, after: Option<AttachmentId>,
      observe: Record -> Observation)
    requires UnchangedExcept(start, rows, visited) && AtOrBefore(after, visited)
    ensures AllManageable(start, cutoff, None, observe) ==> AllManageable(rows, cutoff, after, observe)
  {
    forall id | Beyond(after, id) ensures id !in visited {
      if id in visited { LessIsTotal(id, after.value); }
    }
    assert forall id :: id in Eligible(rows, cutoff, after) ==>
             id in Eligible(start, cutoff, None) && rows[id] == start[id];
  }

  lemma ManageableSucceeds(hash: Input -> Digest, s: Store, record: Record, input: Input, runs: Authorities)
    requires input.ReconcileInput? && input.id == record.id
    ensures Legible(s.ledger) ==> Legible(Operate(hash, s, record.scope, input, runs).0.ledger)
    ensures Legible(s.ledger) && Stored(s.rows, record) ==>
              Manageable(record, Seen(input.identity, input.recoveredAtMs)) ==>
              Operate(hash, s, record.scope, input, runs).1.Ok?
  {
    FoundIffUsed(s.ledger, input);
    if Manageable(record, Seen(input.identity, input.recoveredAtMs)) && record.state == Active {
      ProducedIsValid(record, input);
    }
  }

  ghost predicate OwnIds(rows: map<AttachmentId, Record>) {
    forall id :: id in rows ==> rows[id].id == id
  }

  function Ids(records: seq<Record>): (ids: seq<AttachmentId>)
    ensures |ids| == |records| && forall i :: 0 <= i < |ids| ==> ids[i] == records[i].id
  {
    seq(|records|, i requires 0 <= i < |records| => records[i].id)
  }

  ghost predicate UnchangedExcept(a: map<AttachmentId, Record>, b: map<AttachmentId, Record>, ids: seq<AttachmentId>) {
    a.Keys == b.Keys && forall id :: id in a && id !in ids ==> a[id] == b[id]
  }

  /** What lies beyond the cursor has not been visited, so it is still what it was at the start. */
  lemma StillEligible(start: map<AttachmentId, Record>, rows: map<AttachmentId, Record>, visited: seq<AttachmentId>,
      cutoff: int, after: Option<AttachmentId>)
    requires UnchangedExcept(start, rows, visited) && AtOrBefore(after, visited)
    ensures Eligible(rows, cutoff, after) == Eligible(start, cutoff, after)
  {
    forall id | Beyond(after, id) ensures id !in visited {
      if id in visited { LessIsTotal(id, after.value); }
    }
  }

  /** Where a scan that began on `start` stands: what it visited, and what remains beyond its cursor. */
  ghost predicate Progress(start: Rows, rows: Rows, visited: seq<AttachmentId>, cutoff: int,
      after: Option<AttachmentId>, more: bool) {
    && UnchangedExcept(start, rows, visited) && Ascending(visited)
    && (if more
        then && AtOrBefore(after, visited)
             && Elements(visited) + Eligible(start, cutoff, after) == Eligible(start, cutoff, None)
        else Elements(visited) == Eligible(start, cutoff, None))
  }

  lemma PageAdvances(start: Rows, rows: Rows, rows': Rows, visited: seq<AttachmentId>, cutoff: int,
      after: Option<AttachmentId>, limit: nat, page: seq<AttachmentId>)
    requires Progress(start, rows, visited, cutoff, after, true) && limit > 0
    requires IsPage(rows, cutoff, after, limit, page) && UnchangedExcept(rows, rows', page)
    ensures Progress(start, rows', visited + page, cutoff, Cursor(page, limit), Cursor(page, limit).Some?)
    ensures Cursor(page, limit).Some? ==> Eligible(start, cutoff, Cursor(page, limit)) < Eligible(start, cutoff, after)
  {
    StillEligible(start, rows, visited, cutoff, after);
    PageExtends(visited, after, page);
    assert Elements(visited + page) == Elements(visited) + Elements(page);
    if Cursor(page, limit).Some? {
      RestAfterPage(rows, cutoff, after, limit, page);
      assert AtOrBefore(Cursor(page, limit), visited + page);
      assert UnchangedExcept(start, rows, visited + page);
      StillEligible(start, rows, visited + page, cutoff, Cursor(page, limit));
    } else {
      LastPage(rows, cutoff, after, limit, page);
    }
  }

  /** What the page lists was not visited before, and is still what it was at the start. */
  lemma PageIsNew(start: Rows, rows: Rows, visited: seq<AttachmentId>, cutoff: int, after: Option<AttachmentId>,
      limit: nat, page: seq<AttachmentId>)
    requires Progress(start, rows, visited, cutoff, after, true) && IsPage(rows, cutoff, after, limit, page)
    ensures forall id :: id in page ==> id !in visited && id in start && start[id] == rows[id]
  {
    forall id | id in page ensures id !in visited {
      assert Beyond(after, id);
      if id in visited { LessIsTotal(id, after.value); }
    }
  }

  lemma NotYetVisited(ids: seq<AttachmentId>, k: nat)
    requires Ascending(ids) && k < |ids|
    ensures ids[k] !in ids[..k]
  {
    forall i | 0 <= i < k ensures ids[i] != ids[k] {
      LessIsTotal(ids[i], ids[k]);
    }
  }

  // ---------------------------------------------------------------------------
  // What recovery reports
  // ---------------------------------------------------------------------------

  /** The ledger holds the reconciliation of what was seen, and with its digest. */
  ghost predicate RecordedFor(hash: Input -> Digest, name: Naming, ledger: seq<Operation>, id: AttachmentId,
      seen: Observation)
  {
    seen.Seen? && exists i :: 0 <= i < |ledger| && EntryFor(hash, name, ledger[i], id, seen)
  }

  ghost predicate EntryFor(hash: Input -> Digest, name: Naming, op: Operation, id: AttachmentId, seen: Observation)
    requires seen.Seen?
  {
    var input := ReconcileInput(name(id, seen.identity), id, seen.identity, seen.nowMs);
    op.key == Key(id, input.operationId, false) && op.inputHash == hash(input)
  }

  lemma RecoveredIsRecorded(hash: Input -> Digest, name: Naming, s: Store, record: Record, seen: Observation,
      runs: Authorities)
    requires seen.Seen?
    ensures var (t, verdict) := Recovering(hash, s, record, RecoveryInput(name, record.id, seen), runs);
            verdict == Recovered ==> RecordedFor(hash, name, t.ledger, record.id, seen)
  {
    var input := RecoveryInput(name, record.id, seen);
    var (t, out) := Operate(hash, s, record.scope, input, runs);
    FoundIffUsed(s.ledger, input);
    OperateColumns(hash, s, record.scope, input, runs);
    if out.Ok? && out.value.IdenticalReplay? {
      var i :| 0 <= i < |s.ledger| && IsEntry(s.ledger[i], input) && Find(s.ledger, KeyOf(input)) == Some(s.ledger[i]);
      assert EntryFor(hash, name, t.ledger[i], record.id, seen);
    } else if out.Ok? && out.value.Applied? {
      assert EntryFor(hash, name, t.ledger[|s.ledger|], record.id, seen);
    }
  }

  /**
   Every visited attachment is on exactly one list. A preserved one has the row it had, a recovered
   one was seen and its reconciliation is in the ledger, and one that was unavailable is preserved.
   */
  ghost predicate Filed(hash: Input -> Digest, name: Naming, observe: Record -> Observation, start: Rows, rows: Rows,
      ledger: seq<Operation>, recovered: seq<AttachmentId>, preserved: seq<AttachmentId>, visited: seq<AttachmentId>)
  {
    && Elements(recovered) + Elements(preserved) == Elements(visited) && Elements(recovered) !! Elements(preserved)
    && |recovered| + |preserved| == |visited|
    && (forall id :: id in preserved ==> id in start && id in rows && rows[id] == start[id])
    && (forall id :: id in recovered ==> id in start && RecordedFor(hash, name, ledger, id, observe(start[id])))
    && (forall id :: id in visited ==> id in start && (observe(start[id]).Unavailable? ==> id in preserved))
  }

  lemma RecordStays(hash: Input -> Digest, name: Naming, ledger: seq<Operation>, longer: seq<Operation>,
      id: AttachmentId, seen: Observation)
    requires RecordedFor(hash, name, ledger, id, seen) && ledger <= longer
    ensures RecordedFor(hash, name, longer, id, seen)
  {
    var i :| 0 <= i < |ledger| && EntryFor(hash, name, ledger[i], id, seen);
    assert longer[i] == ledger[i];
  }

  /** What two stretches of the scan reported adds up, when the second visits nothing of the first. */
  lemma FiledAdds(hash: Input -> Digest, name: Naming, observe: Record -> Observation,
      start: Rows, mid: Rows, entries: seq<Operation>, a: seq<AttachmentId>, b: seq<AttachmentId>, v: seq<AttachmentId>,
      rows: Rows, ledger: seq<Operation>, c: seq<AttachmentId>, d: seq<AttachmentId>, w: seq<AttachmentId>)
    requires Filed(hash, name, observe, start, mid, entries, a, b, v)
    requires Filed(hash, name, observe, mid, rows, ledger, c, d, w)
    requires UnchangedExcept(mid, rows, w) && entries <= ledger
    requires forall id :: id in w ==> id !in v && id in start && start[id] == mid[id]
    ensures Filed(hash, name, observe, start, rows, ledger, a + c, b + d, v + w)
  {
    assert Elements(a + c) == Elements(a) + Elements(c);
    assert Elements(b + d) == Elements(b) + Elements(d);
    assert Elements(v + w) == Elements(v) + Elements(w);
    InElements(a, v, b);
    InElements(c, w, d);
    assert forall id :: id in b ==> id in v by { InElements(b, v, a); }
    assert forall id :: id in d ==> id in w by { InElements(d, w, c); }
    forall id | id in a + c ensures id in start && RecordedFor(hash, name, ledger, id, observe(start[id])) {
      if id in a {
        RecordStays(hash, name, entries, ledger, id, observe(start[id]));
      }
    }
  }

  /** The page is done up to position `k`. */
  ghost predicate DoneUpTo(hash: Input -> Digest, name: Naming, observe: Record -> Observation, start: Rows, rows: Rows,
      ledger: seq<Operation>, recovered: seq<AttachmentId>, preserved: seq<AttachmentId>, ids: seq<AttachmentId>,
          k: nat)
    requires k <= |ids|
  {
    && UnchangedExcept(start, rows, ids[..k])
    && Filed(hash, name, observe, start, rows, ledger, recovered, preserved, ids[..k])
  }

  lemma PageContinues(hash: Input -> Digest, name: Naming, observe: Record -> Observation,
      start: Rows, mid: Rows, entries: seq<Operation>, a: seq<AttachmentId>, b: seq<AttachmentId>,
      ids: seq<AttachmentId>, k: nat, rows: Rows, ledger: seq<Operation>, c: seq<AttachmentId>, d: seq<AttachmentId>)
    requires k < |ids| && ids[k] !in ids[..k] && ids[k] in start
    requires DoneUpTo(hash, name, observe, start, mid, entries, a, b, ids, k)
    requires Filed(hash, name, observe, mid, rows, ledger, c, d, [ids[k]])
    requires UnchangedExcept(mid, rows, [ids[k]]) && entries <= ledger
    ensures DoneUpTo(hash, name, observe, start, rows, ledger, a + c, b + d, ids, k + 1)
  {
    assert ids[..k + 1] == ids[..k] + [ids[k]];
    FiledAdds(hash, name, observe, start, mid, entries, a, b, ids[..k], rows, ledger, c, d, [ids[k]]);
  }

  lemma StillInPage(start: Rows, mid: Rows, rows: Rows, ids: seq<AttachmentId>, k: nat)
    requires k < |ids| && UnchangedExcept(start, mid, ids[..k]) && UnchangedExcept(mid, rows, [ids[k]])
    ensures UnchangedExcept(start, rows, ids)
  {
  }

  lemma InElements(part: seq<AttachmentId>, all: seq<AttachmentId>, other: seq<AttachmentId>)
    requires Elements(part) + Elements(other) == Elements(all)
    ensures forall id :: id in part ==> id in all
  {
    assert forall id :: id in part ==> id in Elements(part);
    assert forall id :: id in Elements(all) ==> id in all;
  }
}
