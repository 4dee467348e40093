/** The net effect of each step on the two tables, stated without the checks that lead to it. */
module DurableEffects {
  import opened Wrappers
  import opened DurableModel

  /** A root other than the one written keeps its entry, and a tombstone keeps its first time. */
  ghost predicate RootWritten(s: Tables, root: RootId, t: Tables) {
    && t.roots.Keys == s.roots.Keys + {root}
    && (forall q :: q in s.roots && (q != root || s.roots[q].Some?) ==> t.roots[q] == s.roots[q])
  }

  /** A successful upsert writes its own row; a revoking one also ends its running siblings. */
  ghost predicate UpsertWrites(s: Tables, r: Record, now: Millis, t: Tables) {
    var id, root := r.checkpointId, r.identity.rootRunId;
    && (id in s.checkpoints ==> MayUpdate(s.checkpoints[id], r))
    && RootWritten(s, root, t)
    && (t.roots[root].Some? <==> r.status == Revoked)
    && t.checkpoints.Keys == s.checkpoints.Keys + {id}
    && t.checkpoints[id] == (if id in s.checkpoints then UpdatedRow(s.checkpoints[id], r, now) else ToRow(r, now))
    && (forall other :: other in s.checkpoints && other != id ==>
          t.checkpoints[other] ==
            if r.status == Revoked && s.checkpoints[other].status == Running
                && s.checkpoints[other].identity.rootRunId == root
            then RevokedRow(s.checkpoints[other], now) else s.checkpoints[other])
  }

  /** A refused upsert touches no checkpoint; at most it creates its root entry, or tombstones it when revoking. */
  ghost predicate UpsertRefused(s: Tables, r: Record, t: Tables) {
    && t.checkpoints == s.checkpoints
    && (t == s || RootWritten(s, r.identity.rootRunId, t))
    && (r.status != Revoked ==> forall q :: q in t.roots && t.roots[q].Some? ==>
          q in s.roots && s.roots[q] == t.roots[q])
  }

  lemma RevokingUpsertHasEffect(s: Tables, r: Record, now: Millis)
    requires r.status == Revoked
    ensures var (t, out) := RevokingUpsert(s, r, now);
            if out.Ok? then UpsertWrites(s, r, now, t) else UpsertRefused(s, r, t)
  {
  }

  lemma OrdinaryUpsertHasEffect(s: Tables, r: Record, now: Millis)
    requires r.status != Revoked
    ensures var (t, out) := OrdinaryUpsert(s, r, now);
            if out.Ok? then UpsertWrites(s, r, now, t) else UpsertRefused(s, r, t)
  {
  }

  lemma UpsertHasEffect(s: Tables, r: Record, now: Millis)
    ensures var (t, out) := Upsert(s, r, now);
            if out.Ok? then UpsertWrites(s, r, now, t) && ValidRecord(r) else UpsertRefused(s, r, t)
  {
    if r.status == Revoked { RevokingUpsertHasEffect(s, r, now); } else { OrdinaryUpsertHasEffect(s, r, now); }
  }

  /**
   A successful claim completes the source as superseded and adds one row, and moves nothing else.
   The new row is the source under the root's budget authority, holding exactly the capabilities the
   principal still has, with the source's own heartbeat.
   */
  ghost predicate ClaimMoves(s: Tables, c: ResumeClaim, t: Tables) {
    && c.checkpointId in s.checkpoints && c.replacementId !in s.checkpoints
    && t.roots == s.roots
    && t.checkpoints.Keys == s.checkpoints.Keys + {c.replacementId}
    && (forall other :: other in s.checkpoints && other != c.checkpointId ==>
          t.checkpoints[other] == s.checkpoints[other])
    && var source, heir := s.checkpoints[c.checkpointId], t.checkpoints[c.replacementId];
    && source.status == Running
    && t.checkpoints[c.checkpointId] == CompletedRow(source, Superseded, c.claimedAtMs)
    && source.identity.rootRunId in s.roots && s.roots[source.identity.rootRunId].None?
    && heir.status == Running
    && heir.identity == source.identity
    && heir.payload == source.payload.(rootBudget := BudgetOf(heir))
    && Some(BudgetOf(heir)) == Authority(s, source.identity.rootRunId)
    && heir.budgetConsumed == BudgetOf(heir).usdConsumed
    && (forall cap :: cap in heir.caps <==> cap in source.caps && cap in c.principal.caps)
    && heir.leaseIds == []
    && heir.lastHeartbeatAt == source.lastHeartbeatAt
    && heir.cronOrigin == source.cronOrigin
    && heir.scriptRef == source.scriptRef && heir.checkpointRef == source.checkpointRef
    && heir.createdAtMs == heir.updatedAtMs == c.claimedAtMs && heir.orphanReason.None?
  }

  /** What the checks of a claim have established when they accept it, and what they propose to install. */
  lemma AcceptedClaim(s: Tables, c: ResumeClaim)
    requires ClaimSucceeds(s, ClaimStep(c))
    ensures c.checkpointId in s.checkpoints && c.replacementId !in s.checkpoints && c.checkpointId != c.replacementId
    ensures var source := s.checkpoints[c.checkpointId];
            var root := source.identity.rootRunId;
            var r := Examine(s, c).value.record;
            && source.status == Running
            && root in s.roots && s.roots[root].None?
            && Authority(s, root).Some?
            && r == Replacement(WithBudget(ToRecord(c.checkpointId, source), Authority(s, root).value), c)
            && ValidRecord(r)
  {
  }

  lemma InstallMoves(s: Tables, c: ResumeClaim, b: Budget)
    requires c.checkpointId in s.checkpoints && c.replacementId !in s.checkpoints
    requires var source := s.checkpoints[c.checkpointId];
             && source.status == Running
             && source.identity.rootRunId in s.roots && s.roots[source.identity.rootRunId].None?
             && Authority(s, source.identity.rootRunId) == Some(b)
    ensures var r := Replacement(WithBudget(ToRecord(c.checkpointId, s.checkpoints[c.checkpointId]), b), c);
            var (t, out) := Install(s, c, r);
            && ClaimMoves(s, c, t) && out == Ok(Claimed(r))
            && r == ToRecord(c.replacementId, t.checkpoints[c.replacementId])
  {
  }

  /** All or nothing: every outcome other than `claimed` leaves both tables exactly as they were. */
  lemma ClaimHasEffect(s: Tables, c: ResumeClaim)
    ensures var (t, out) := Claim(s, c);
            if ClaimSucceeds(s, ClaimStep(c))
            then && ClaimMoves(s, c, t)
                 && out == Ok(Claimed(ToRecord(c.replacementId, t.checkpoints[c.replacementId])))
                 && ValidRow(c.replacementId, t.checkpoints[c.replacementId])
            else t == s && !(out.Ok? && out.value.Claimed?)
  {
    if ClaimSucceeds(s, ClaimStep(c)) {
      AcceptedClaim(s, c);
      InstallMoves(s, c, Authority(s, s.checkpoints[c.checkpointId].identity.rootRunId).value);
    }
  }

  /** The effect of any step, refused or not. */
  ghost predicate Effect(s: Tables, step: Step, t: Tables) {
    match step
    case UpsertStep(r, now) => UpsertWrites(s, r, now, t) || UpsertRefused(s, r, t)
    case ClaimStep(c) => t == s || ClaimMoves(s, c, t)
    case OrphanStep(id, why, now) => t == MarkOrphaned(s, id, why, now)
    case TerminalizeStep(id, reason, now) =>
      t == s || t == CompleteRunning(s, id, reason, now).0 || t == RepairReason(s, id, reason, now).0
    case TouchStep(id, atMs, now) => t == TouchHeartbeat(s, id, atMs, now).0
    case RevokeStep(root, now) => t == InvalidateForRevoke(s, root, now)
  }

  lemma StepHasEffect(s: Tables, step: Step)
    ensures Effect(s, step, Next(s, step))
  {
    match step
    case UpsertStep(r, now) => UpsertHasEffect(s, r, now);
    case ClaimStep(c) => ClaimHasEffect(s, c);
    case OrphanStep(_, _, _) =>
    case TerminalizeStep(_, _, _) =>
    case TouchStep(_, _, _) =>
    case RevokeStep(_, _) =>
  }
}
