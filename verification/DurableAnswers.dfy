/**
 What each operation answers and what it writes, decided by the stored columns: which claims are
 accepted or denied, which upserts are refused and why, and what every written row then holds.
 */
module DurableAnswers {
  import opened Wrappers
  import opened DurableModel
  import opened DurableEffects
  import opened DurableAtomicity
  import opened DurableBudget

  /** Every row of the root validates. */
  ghost predicate AllRowsValid(s: Tables, root: RootId) {
    forall id :: id in s.checkpoints && s.checkpoints[id].identity.rootRunId == root ==> ValidRow(id, s.checkpoints[id])
  }

  ghost predicate Live(s: Tables, root: RootId) {
    root in s.roots ==> s.roots[root] == None
  }

  // ---------------------------------------------------------------------------
  // Claims
  // ---------------------------------------------------------------------------

  ghost predicate WellFormed(c: ResumeClaim) {
    && c.checkpointId != "" && c.replacementId != "" && c.checkpointId != c.replacementId && c.claimedAtMs >= 0.0
    && "" !in [c.principal.tenantId, c.principal.agentId, c.principal.principalId]
    && "" !in ScopeNames(c.principal.conversationScope) && "" !in OriginNames(c.principal.deliveryOrigin)
  }

  /** Every name a conversation scope is made of. */
  ghost function ScopeNames(scope: ConversationScope): seq<string> {
    [scope.tenantId, scope.agentId]
    + match scope.partition
      case AgentPartition => []
      case PrincipalPartition(id) => [id]
      case ChannelPrincipal(channel, id) => [channel, id]
      case EndpointConversation(e) => EndpointNames(e)
      case EndpointPrincipal(e, id) => EndpointNames(e) + [id]
  }

  ghost function EndpointNames(e: Endpoint): seq<string> {
    [e.channelType, e.channelInstanceId, e.conversationId] + if e.threadId.Some? then [e.threadId.value] else []
  }

  ghost function OriginNames(o: Option<DeliveryOrigin>): seq<string> {
    if o.None? then [] else [o.value.channelType, o.value.channelId, o.value.userId, o.value.tenantId]
  }

  lemma NamesAreValid(scope: ConversationScope, o: Option<DeliveryOrigin>)
    ensures ValidScope(scope) <==> "" !in ScopeNames(scope)
    ensures (o.Some? ==> ValidOrigin(o.value)) <==> "" !in OriginNames(o)
  {
    var p := scope.partition;
    if p.EndpointConversation? || p.EndpointPrincipal? {
      assert ValidEndpoint(p.endpoint) <==> "" !in EndpointNames(p.endpoint);
    }
    assert forall names: seq<string>, more: seq<string> :: "" in names + more <==> "" in names || "" in more;
  }

  lemma WellFormedIsValid(c: ResumeClaim)
    ensures ValidClaim(c) <==> WellFormed(c)
  {
    NamesAreValid(c.principal.conversationScope, c.principal.deliveryOrigin);
  }

  /** The source can be resumed by someone: stored, readable, running under a live root. */
  ghost predicate Waiting(s: Tables, id: CheckpointId) {
    && id in s.checkpoints && ValidRow(id, s.checkpoints[id])
    && s.checkpoints[id].status == Running && Live(s, s.checkpoints[id].identity.rootRunId)
  }

  /** The principal is the one the row was checkpointed for. */
  ghost predicate SameParty(row: Row, p: Principal) {
    && p.tenantId == row.identity.tenantId && p.agentId == row.identity.agentId
    && p.conversationRef == row.identity.conversationRef && p.conversationScope == row.identity.conversationScope
    && p.principalId == row.identity.principalId && p.deliveryOrigin == row.identity.deliveryOrigin
  }

  ghost predicate TrustSuffices(needed: TrustLevel, held: TrustLevel) {
    match needed
    case Guest => true
    case User => held == User || held == Admin
    case Admin => held == Admin
  }

  ghost predicate Entitled(row: Row, p: Principal) {
    SameParty(row, p) && TrustSuffices(row.identity.trustLevel, p.trustLevel)
  }

  /** The claim reached the point where only the principal decides. */
  ghost predicate Timely(s: Tables, c: ResumeClaim) {
    WellFormed(c) && Waiting(s, c.checkpointId) && s.checkpoints[c.checkpointId].lastHeartbeatAt <= c.claimedAtMs
  }

  lemma EntitledIsAuthorized(row: Row, p: Principal)
    ensures Authorized(row.identity, p) <==> Entitled(row, p)
  {
  }

  /** A claim succeeds exactly under these conditions, and is denied exactly for want of identity or trust. */
  lemma ClaimAnswers(s: Tables, c: ResumeClaim)
    requires RootsCovered(s)
    ensures var out := Claim(s, c).1;
            && (out.Ok? && out.value.Claimed? <==>
                  && Timely(s, c) && Entitled(s.checkpoints[c.checkpointId], c.principal)
                  && c.replacementId !in s.checkpoints
                  && AllRowsValid(s, s.checkpoints[c.checkpointId].identity.rootRunId))
            && (out == Ok(Denied) <==> Timely(s, c) && !Entitled(s.checkpoints[c.checkpointId], c.principal))
  {
    WellFormedIsValid(c);
    if c.checkpointId in s.checkpoints {
      var root := s.checkpoints[c.checkpointId].identity.rootRunId;
      EntitledIsAuthorized(s.checkpoints[c.checkpointId], c.principal);
      assert AllRowsValid(s, root) <==> RootReadable(s, root);
      if Timely(s, c) && RootReadable(s, root) {
        BudgetedSourceIsValid(s, c);
      }
    }
  }

  /** Why the other claims fail. */
  lemma ClaimRefusals(s: Tables, c: ResumeClaim)
    requires RootsCovered(s)
    ensures var out, id := Claim(s, c).1, c.checkpointId;
            && (out == Err(InvalidClaim) <==> !WellFormed(c))
            && (out == Ok(ClaimNotFound) <==> WellFormed(c) && id !in s.checkpoints)
            && (out == Err(HeartbeatBackward) <==>
                  WellFormed(c) && Waiting(s, id) && c.claimedAtMs < s.checkpoints[id].lastHeartbeatAt)
            && (out.Ok? && out.value.NotResumable? <==>
                  || (WellFormed(c) && id in s.checkpoints && ValidRow(id, s.checkpoints[id]) && !Waiting(s, id))
                  || (Timely(s, c) && Entitled(s.checkpoints[id], c.principal) && c.replacementId in s.checkpoints))
  {
    WellFormedIsValid(c);
    if c.checkpointId in s.checkpoints {
      EntitledIsAuthorized(s.checkpoints[c.checkpointId], c.principal);
      ClaimAnswers(s, c);
    }
  }

  // ---------------------------------------------------------------------------
  // Upserts
  // ---------------------------------------------------------------------------

  /** The record names its run, conversation and principal consistently. */
  ghost predicate Identified(i: Identity) {
    var scope := i.conversationScope;
    && "" !in [i.rootRunId, i.tenantId, i.agentId, i.principalId]
    && "" !in ScopeNames(scope) && "" !in OriginNames(i.deliveryOrigin)
    && (scope.tenantId, scope.agentId) == (i.tenantId, i.agentId) && i.conversationRef.scope == scope
    && (scope.partition.AgentPartition? || scope.partition.EndpointConversation?
        || scope.partition.principalId == i.principalId)
    && (i.deliveryOrigin.Some? ==>
          i.deliveryOrigin.value.tenantId == i.tenantId && i.deliveryOrigin.value.userId == i.principalId)
  }

  /** Its budget is not negative, is what it says was consumed, and began no later than its heartbeat. */
  ghost predicate Accounted(r: Record) {
    var b := r.payload.rootBudget;
    && 0.0 <= b.startedAtMs <= r.lastHeartbeatAt && 0 <= b.tokensConsumed && 0.0 <= b.usdConsumed
    && b.usdConsumed == r.budgetConsumed
  }

  ghost predicate WellTyped(r: Record) {
    && r.checkpointId != ""
    && (r.payload.spawnTree.Dag? && |r.payload.spawnTree.nodes| > 0 ==> r.checkpointRef != None)
    && (r.payload.workspacePolicyHash.Some? ==> IsHash(r.payload.workspacePolicyHash.value))
    && (r.payload.resumeDescriptorHash.Some? ==> IsHash(r.payload.resumeDescriptorHash.value))
  }

  /** A record is refused as invalid exactly for these reasons, and then nothing is written. */
  lemma InvalidRecordAnswers(s: Tables, r: Record, now: Millis)
    ensures Upsert(s, r, now).1 == Err(InvalidRecord) <==> !(WellTyped(r) && Identified(r.identity) && Accounted(r))
    ensures Upsert(s, r, now).1 == Err(InvalidRecord) ==> Upsert(s, r, now).0 == s
  {
    NamesAreValid(r.identity.conversationScope, r.identity.deliveryOrigin);
    assert ValidIdentity(r.identity) <==> Identified(r.identity);
    assert ValidRecord(r) <==> WellTyped(r) && Identified(r.identity) && Accounted(r);
  }

  ghost predicate RunsUnder(s: Tables, id: CheckpointId, root: RootId) {
    id in s.checkpoints && s.checkpoints[id].identity.rootRunId == root && s.checkpoints[id].status == Running
  }

  /** No running row of the root started earlier or consumed more. */
  ghost predicate AtLeastSpent(s: Tables, r: Record) {
    forall id :: RunsUnder(s, id, r.identity.rootRunId) ==> SpentNoMore(s.checkpoints[id], r.payload.rootBudget)
  }

  ghost predicate SpentNoMore(row: Row, b: Budget) {
    && b.startedAtMs <= row.payload.rootBudget.startedAtMs
    && row.payload.rootBudget.tokensConsumed <= b.tokensConsumed
    && row.payload.rootBudget.usdConsumed <= b.usdConsumed
  }

  /** The stored row, if any, is the same run and holds every capability the record asks for. */
  ghost predicate Compatible(s: Tables, r: Record) {
    r.checkpointId in s.checkpoints ==>
      && s.checkpoints[r.checkpointId].identity == r.identity
      && forall cap :: cap in r.caps ==> cap in s.checkpoints[r.checkpointId].caps
  }

  /** The stored row, if any, was not heard from later than the record says. */
  ghost predicate NotStale(s: Tables, r: Record) {
    r.checkpointId in s.checkpoints ==> s.checkpoints[r.checkpointId].lastHeartbeatAt <= r.lastHeartbeatAt
  }

  ghost predicate StoredIsValid(s: Tables, r: Record) {
    r.checkpointId in s.checkpoints ==> ValidRow(r.checkpointId, s.checkpoints[r.checkpointId])
  }

  lemma FloorIsEverySibling(s: Tables, r: Record)
    ensures AtLeastSpent(s, r) <==>
              var a := Authority(s, r.identity.rootRunId); a.Some? ==> Dominates(r.payload.rootBudget, a.value)
  {
    var root, b := r.identity.rootRunId, r.payload.rootBudget;
    var bs := RunningBudgets(s, root);
    assert forall id :: RunsUnder(s, id, root) ==> id in RunningIds(s, root) && BudgetOf(s.checkpoints[id]) in bs;
    if bs != {} {
      TopIsAbove(bs);
      var top := Top(bs).value;
      assert LeastUpper(bs, top);
      if AtLeastSpent(s, r) {
        forall x | x in bs ensures Dominates(b, x) {
          var id :| id in RunningIds(s, root) && x == BudgetOf(s.checkpoints[id]);
          assert RunsUnder(s, id, root);
        }
      }
    }
  }

  /** An ordinary upsert is accepted exactly if budget, heartbeat, tombstone, identity and capabilities allow it. */
  lemma OrdinaryUpsertAnswers(s: Tables, r: Record, now: Millis)
    requires r.status != Revoked && ValidRecord(r)
    ensures var out, root := Upsert(s, r, now).1, r.identity.rootRunId;
            var readable := AllRowsValid(s, root);
            && (out.Ok? <==> readable && AtLeastSpent(s, r) && StoredIsValid(s, r) && NotStale(s, r)
                             && Live(s, root) && Compatible(s, r))
            && (out == Err(BudgetReset) <==> readable && !AtLeastSpent(s, r))
            && (out == Err(HeartbeatBackward) <==>
                  readable && AtLeastSpent(s, r) && StoredIsValid(s, r) && !NotStale(s, r))
            && (out == Err(RootIsRevoked) <==>
                  readable && AtLeastSpent(s, r) && StoredIsValid(s, r) && NotStale(s, r) && !Live(s, root))
            && (out == Err(IdentityMismatch) <==>
                  readable && AtLeastSpent(s, r) && StoredIsValid(s, r) && NotStale(s, r) && Live(s, root)
                  && !Compatible(s, r))
  {
    FloorIsEverySibling(s, r);
    assert AllRowsValid(s, r.identity.rootRunId) <==> RootReadable(s, r.identity.rootRunId);
  }

  lemma RevokingUpsertAnswers(s: Tables, r: Record, now: Millis)
    ensures !ValidRecord(r) ==> Upsert(s, r, now) == (s, Err(InvalidRecord))
    ensures ValidRecord(r) && r.status == Revoked ==> (Upsert(s, r, now).1.Ok? <==> Compatible(s, r))
  {
  }

  /** The written row: as sent if new, frozen if terminal, else as sent but for creation time and null references. */
  ghost predicate WrittenAs(was: Option<Row>, r: Record, now: Millis, row: Row) {
    match was
    case None =>
      row == Row(r.identity, r.payload, r.caps, r.leaseIds, r.budgetConsumed, r.cronOrigin, r.status, None,
                 r.lastHeartbeatAt, now, now, r.scriptRef, r.checkpointRef)
    case Some(old') =>
      row == if old'.status != Running then old'
             else Row(r.identity, r.payload, r.caps, r.leaseIds, r.budgetConsumed, r.cronOrigin, r.status,
                      old'.orphanReason, r.lastHeartbeatAt, old'.createdAtMs, now,
                      if r.scriptRef.Some? then r.scriptRef else old'.scriptRef,
                      if r.checkpointRef.Some? then r.checkpointRef else old'.checkpointRef)
  }

  ghost predicate EndedAs(was: Row, status: Status, note: string, now: Millis, row: Row) {
    && row.status == status && row.orphanReason == Some(note) && row.updatedAtMs == now
    && row == was.(status := row.status, orphanReason := row.orphanReason, updatedAtMs := row.updatedAtMs)
  }

  /** The rows of the root that ran are revoked, and no other row moves. */
  ghost predicate OthersRevoked(s: Tables, root: RootId, now: Millis, t: Tables, written: set<CheckpointId>) {
    forall id :: id in s.checkpoints && id !in written ==>
      && id in t.checkpoints
      && if s.checkpoints[id].identity.rootRunId == root && s.checkpoints[id].status == Running
         then EndedAs(s.checkpoints[id], Revoked, "revoked", now, t.checkpoints[id])
         else t.checkpoints[id] == s.checkpoints[id]
  }

  /** The root is tombstoned, with its first time if it has one. */
  ghost predicate RootTombstoned(s: Tables, root: RootId, now: Millis, t: Tables) {
    t.roots == s.roots[root := Some(if root in s.roots && s.roots[root].Some? then s.roots[root].value else now)]
  }

  lemma UpsertColumns(s: Tables, r: Record, now: Millis)
    requires Upsert(s, r, now).1.Ok?
    ensures var t, id, root := Upsert(s, r, now).0, r.checkpointId, r.identity.rootRunId;
            && t.checkpoints.Keys == s.checkpoints.Keys + {id}
            && WrittenAs(if id in s.checkpoints then Some(s.checkpoints[id]) else None, r, now, t.checkpoints[id])
            && (r.status == Revoked ==> RootTombstoned(s, root, now, t) && OthersRevoked(s, root, now, t, {id}))
            && (r.status != Revoked ==> t.roots == s.roots[root := None])
            && (r.status != Revoked ==>
                  forall other :: other in s.checkpoints && other != id ==>
                    t.checkpoints[other] == s.checkpoints[other])
  {
    UpsertHasEffect(s, r, now);
    var t, root := Upsert(s, r, now).0, r.identity.rootRunId;
    if r.status != Revoked {
      assert t.roots == s.roots[root := None];
    } else {
      assert t.roots == Tombstone(s, root, now).roots;
    }
  }

  // ---------------------------------------------------------------------------
  // Ending a checkpoint
  // ---------------------------------------------------------------------------

  /** The row is completed with the reason, and nothing else of it moves. */
  ghost predicate CompletedAs(was: Row, reason: TerminalReason, now: Millis, row: Row) {
    && row.status == Completed && row.payload.terminalReason == Some(reason) && row.updatedAtMs == now
    && row.payload == was.payload.(terminalReason := row.payload.terminalReason)
    && row == was.(status := row.status, payload := row.payload, updatedAtMs := row.updatedAtMs)
  }

  ghost predicate OnlyRow(s: Tables, id: CheckpointId, t: Tables) {
    && t.roots == s.roots && t.checkpoints.Keys == s.checkpoints.Keys
    && forall other :: other in s.checkpoints && other != id ==> t.checkpoints[other] == s.checkpoints[other]
  }

  /**
   A running row is completed, a completed row without a reason is given one, and every other row
   answers as it is.
   */
  lemma TerminalizeAnswers(s: Tables, id: CheckpointId, reason: TerminalReason, now: Millis)
    ensures var (t, out) := Terminalize(s, id, reason, now);
            if id !in s.checkpoints then t == s && out == Ok(TerminalNotFound)
            else
              var row := s.checkpoints[id];
              var known := row.payload.terminalReason;
              if !ValidRow(id, row) then t == s && out == Err(UnreadableRow)
              else if row.status == Running || (row.status == Completed && known == None)
              then out == Ok(Terminalized) && OnlyRow(s, id, t) && CompletedAs(row, reason, now, t.checkpoints[id])
              else && t == s
                   && out == if row.status == Completed && known != Some(reason) then Err(TerminalWith(known.value))
                             else Ok(AlreadyTerminal)
  {
  }

  lemma OrphanColumns(s: Tables, id: CheckpointId, why: string, now: Millis)
    ensures var t := MarkOrphaned(s, id, why, now);
            if id in s.checkpoints && s.checkpoints[id].status == Running
            then OnlyRow(s, id, t) && EndedAs(s.checkpoints[id], Orphaned, why, now, t.checkpoints[id])
            else t == s
  {
  }

  lemma RevokeColumns(s: Tables, root: RootId, now: Millis)
    ensures var t := InvalidateForRevoke(s, root, now);
            && t.checkpoints.Keys == s.checkpoints.Keys
            && RootTombstoned(s, root, now, t) && OthersRevoked(s, root, now, t, {})
  {
  }

  lemma TouchColumns(s: Tables, id: CheckpointId, atMs: Millis, now: Millis)
    ensures var (t, out) := TouchHeartbeat(s, id, atMs, now);
            if id in s.checkpoints && s.checkpoints[id].status == Running
            then && out == Ok(()) && OnlyRow(s, id, t)
                 && t.checkpoints[id].lastHeartbeatAt == atMs && t.checkpoints[id].updatedAtMs == now
                 && t.checkpoints[id] == s.checkpoints[id].(lastHeartbeatAt := t.checkpoints[id].lastHeartbeatAt,
                                                            updatedAtMs := t.checkpoints[id].updatedAtMs)
            else t == s && out == Err(NotRunning)
  {
  }
}
