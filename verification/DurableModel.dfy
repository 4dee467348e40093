/**
 The durable checkpoint store as a state machine over its two tables: checkpoints keyed by
 checkpoint id, and roots carrying a revocation tombstone. Every `.immediate` transaction is one
 step. A step that returns an error keeps what it had already written.
 */
module DurableModel {
  import opened Wrappers

  // ---------------------------------------------------------------------------
  // Records
  // ---------------------------------------------------------------------------

  type CheckpointId = string
  type RootId = string
  type Millis = real

  datatype Capability =
    | Spawn | GraphRun | Cron | Message | Skill | Read | Web | Analyze | Write | Browse | Mcp

  datatype TrustLevel = Guest | User | Admin

  datatype Status = Running | Orphaned | Completed | Revoked

  datatype TerminalReason = Finished | Failed | Killed | WatchdogTimeout | GhostSweep | Superseded

  /** Tree-wide budget state; every sibling checkpoint of a root persists one. */
  datatype Budget = Budget(startedAtMs: Millis, tokensConsumed: int, usdConsumed: real)

  datatype DeliveryOrigin = DeliveryOrigin(
    channelType: string, channelId: string, userId: string, threadId: Option<string>, tenantId: string)

  datatype ConversationKind = Direct | Shared

  datatype Endpoint = Endpoint(
    channelType: string, channelInstanceId: string, conversationId: string,
    threadId: Option<string>, kind: ConversationKind)

  datatype Partition =
    | AgentPartition
    | PrincipalPartition(principalId: string)
    | ChannelPrincipal(channelType: string, principalId: string)
    | EndpointConversation(endpoint: Endpoint)
    | EndpointPrincipal(endpoint: Endpoint, principalId: string)

  datatype ConversationScope = ConversationScope(tenantId: string, agentId: string, partition: Partition)

  /** The opaque reference is a digest of the scope; the digest is taken to be injective. */
  datatype ConversationRef = DigestOf(scope: ConversationScope)

  datatype SpawnNode = SpawnNode(nodeId: string, status: string, runId: Option<string>)

  datatype SpawnTree = Flat(ids: seq<string>) | Dag(nodes: seq<SpawnNode>)

  /** The columns an update may never change, and that a resuming principal has to match. */
  datatype Identity = Identity(
    rootRunId: RootId, tenantId: string, agentId: string, conversationRef: ConversationRef,
    conversationScope: ConversationScope, principalId: string,
    deliveryOrigin: Option<DeliveryOrigin>, trustLevel: TrustLevel)

  /** What the `spawn_tree` JSON column holds. */
  datatype Payload = Payload(
    spawnTree: SpawnTree, rootBudget: Budget, workspacePolicyHash: Option<string>,
    resumeDescriptorHash: Option<string>, terminalReason: Option<TerminalReason>)

  datatype Record = Record(
    checkpointId: CheckpointId, identity: Identity, payload: Payload, caps: seq<Capability>,
    leaseIds: seq<string>, budgetConsumed: real, cronOrigin: Option<string>, status: Status,
    lastHeartbeatAt: Millis, scriptRef: Option<string>, checkpointRef: Option<string>)

  datatype Row = Row(
    identity: Identity, payload: Payload, caps: seq<Capability>, leaseIds: seq<string>,
    budgetConsumed: real, cronOrigin: Option<string>, status: Status, orphanReason: Option<string>,
    lastHeartbeatAt: Millis, createdAtMs: Millis, updatedAtMs: Millis,
    scriptRef: Option<string>, checkpointRef: Option<string>)

  // ---------------------------------------------------------------------------
  // Record validation (`parseDurableRunRecord`)
  // ---------------------------------------------------------------------------

  predicate IsHash(s: string) {
    |s| == 64 && forall i :: 0 <= i < |s| ==> '0' <= s[i] <= '9' || 'a' <= s[i] <= 'f'
  }

  predicate ValidEndpoint(e: Endpoint) {
    && e.channelType != "" && e.channelInstanceId != "" && e.conversationId != ""
    && (e.threadId.Some? ==> e.threadId.value != "")
  }

  predicate ValidPartition(p: Partition) {
    match p
    case AgentPartition => true
    case PrincipalPartition(id) => id != ""
    case ChannelPrincipal(channel, id) => channel != "" && id != ""
    case EndpointConversation(e) => ValidEndpoint(e)
    case EndpointPrincipal(e, id) => ValidEndpoint(e) && id != ""
  }

  predicate ValidScope(scope: ConversationScope) {
    scope.tenantId != "" && scope.agentId != "" && ValidPartition(scope.partition)
  }

  predicate ValidOrigin(o: DeliveryOrigin) {
    o.channelType != "" && o.channelId != "" && o.userId != "" && o.tenantId != ""
  }

  /** The principal a partition names, when it names one, is the record's principal. */
  predicate PartitionNames(p: Partition, principalId: string) {
    match p
    case AgentPartition => true
    case PrincipalPartition(id) => id == principalId
    case ChannelPrincipal(_, id) => id == principalId
    case EndpointConversation(_) => true
    case EndpointPrincipal(_, id) => id == principalId
  }

  predicate ValidIdentity(i: Identity) {
    && i.rootRunId != "" && i.tenantId != "" && i.agentId != "" && i.principalId != ""
    && ValidScope(i.conversationScope)
    && i.conversationScope.tenantId == i.tenantId
    && i.conversationScope.agentId == i.agentId
    && i.conversationRef == DigestOf(i.conversationScope)
    && PartitionNames(i.conversationScope.partition, i.principalId)
    && (i.deliveryOrigin.Some? ==>
          && ValidOrigin(i.deliveryOrigin.value)
          && i.deliveryOrigin.value.tenantId == i.tenantId
          && i.deliveryOrigin.value.userId == i.principalId)
  }

  predicate ValidBudget(b: Budget) {
    b.startedAtMs >= 0.0 && b.tokensConsumed >= 0 && b.usdConsumed >= 0.0
  }

  predicate IsDag(tree: SpawnTree) {
    tree.Dag? && tree.nodes != []
  }

  predicate ValidRecord(r: Record) {
    && r.checkpointId != ""
    && ValidIdentity(r.identity)
    && ValidBudget(r.payload.rootBudget)
    && r.budgetConsumed == r.payload.rootBudget.usdConsumed
    && r.payload.rootBudget.startedAtMs <= r.lastHeartbeatAt
    && (IsDag(r.payload.spawnTree) ==> r.checkpointRef.Some?)
    && (r.payload.workspacePolicyHash.Some? ==> IsHash(r.payload.workspacePolicyHash.value))
    && (r.payload.resumeDescriptorHash.Some? ==> IsHash(r.payload.resumeDescriptorHash.value))
  }

  // ---------------------------------------------------------------------------
  // Rows
  // ---------------------------------------------------------------------------

  /** `checkpointArgs`: the columns of a freshly inserted record. */
  function ToRow(r: Record, now: Millis): Row {
    Row(r.identity, r.payload, r.caps, r.leaseIds, r.budgetConsumed, r.cronOrigin, r.status, None,
        r.lastHeartbeatAt, now, now, r.scriptRef, r.checkpointRef)
  }

  /** `rowToRecord`, before validation. */
  function ToRecord(id: CheckpointId, row: Row): Record {
    Record(id, row.identity, row.payload, row.caps, row.leaseIds, row.budgetConsumed,
           row.cronOrigin, row.status, row.lastHeartbeatAt, row.scriptRef, row.checkpointRef)
  }

  predicate ValidRow(id: CheckpointId, row: Row) {
    ValidRecord(ToRecord(id, row))
  }

  predicate Terminal(status: Status) {
    status != Running
  }

  function Coalesce<T>(first: Option<T>, second: Option<T>): Option<T> {
    if first.Some? then first else second
  }

  predicate SubsetOf(requested: seq<Capability>, held: seq<Capability>) {
    forall c :: c in requested ==> c in held
  }

  /** The WHERE clause of the upsert: same identity, and no capability the row does not hold. */
  predicate MayUpdate(was: Row, r: Record) {
    was.identity == r.identity && SubsetOf(r.caps, was.caps)
  }

  /** The DO UPDATE clause of the upsert: a terminal row keeps every column. */
  function UpdatedRow(was: Row, r: Record, now: Millis): Row {
    if Terminal(was.status) then was else
    was.(payload := r.payload, caps := r.caps, leaseIds := r.leaseIds,
         budgetConsumed := r.budgetConsumed, cronOrigin := r.cronOrigin, status := r.status,
         lastHeartbeatAt := r.lastHeartbeatAt, updatedAtMs := now,
         scriptRef := Coalesce(r.scriptRef, was.scriptRef),
         checkpointRef := Coalesce(r.checkpointRef, was.checkpointRef))
  }

  function CompletedRow(was: Row, reason: TerminalReason, now: Millis): Row {
    was.(status := Completed, payload := was.payload.(terminalReason := Some(reason)), updatedAtMs := now)
  }

  function RevokedRow(was: Row, now: Millis): Row {
    was.(status := Revoked, orphanReason := Some("revoked"), updatedAtMs := now)
  }

  // ---------------------------------------------------------------------------
  // Tables and the budget authority of a root
  // ---------------------------------------------------------------------------

  datatype Tables = Tables(checkpoints: map<CheckpointId, Row>, roots: map<RootId, Option<Millis>>)

  const NoTables := Tables(map[], map[])

  function BudgetOf(row: Row): Budget {
    row.payload.rootBudget
  }

  function RowIds(s: Tables, root: RootId): set<CheckpointId> {
    set id | id in s.checkpoints && s.checkpoints[id].identity.rootRunId == root
  }

  function RunningIds(s: Tables, root: RootId): set<CheckpointId> {
    set id | id in s.checkpoints && s.checkpoints[id].identity.rootRunId == root && s.checkpoints[id].status == Running
  }

  /** Reading a root's rows fails as soon as one of them, running or not, does not validate. */
  predicate RootReadable(s: Tables, root: RootId) {
    forall id :: id in RowIds(s, root) ==> ValidRow(id, s.checkpoints[id])
  }

  /** An earlier start and at least as many tokens and dollars: the order a root's budgets only climb. */
  predicate Dominates(a: Budget, b: Budget) {
    a.startedAtMs <= b.startedAtMs && a.tokensConsumed >= b.tokensConsumed && a.usdConsumed >= b.usdConsumed
  }

  function Join(a: Budget, b: Budget): (j: Budget)
    ensures Dominates(j, a) && Dominates(j, b)
    ensures forall c :: Dominates(c, a) && Dominates(c, b) ==> Dominates(c, j)
  {
    Budget(if a.startedAtMs <= b.startedAtMs then a.startedAtMs else b.startedAtMs,
           if a.tokensConsumed >= b.tokensConsumed then a.tokensConsumed else b.tokensConsumed,
           if a.usdConsumed >= b.usdConsumed then a.usdConsumed else b.usdConsumed)
  }

  /** The least budget dominating every one in `bs`: each component is bounded and attained. */
  ghost predicate LeastUpper(bs: set<Budget>, b: Budget) {
    && (forall x :: x in bs ==> Dominates(b, x))
    && (exists x :: x in bs && x.startedAtMs == b.startedAtMs)
    && (exists x :: x in bs && x.tokensConsumed == b.tokensConsumed)
    && (exists x :: x in bs && x.usdConsumed == b.usdConsumed)
  }

  /** The fold of `readRootBudgetAuthority`, in whatever order the budgets arrive. */
  ghost function Fold(bs: set<Budget>): (b: Budget)
    requires bs != {}
    ensures LeastUpper(bs, b)
  {
    var x :| x in bs;
    if bs == {x} then x
    else
      var rest := Fold(bs - {x});
      assert bs == (bs - {x}) + {x};
      Join(rest, x)
  }

  ghost function Top(bs: set<Budget>): Option<Budget> {
    if bs == {} then None else Some(Fold(bs))
  }

  /** Any budget with the two halves of `LeastUpper` is the top, however it was computed. */
  lemma TopIs(bs: set<Budget>, b: Budget)
    requires LeastUpper(bs, b)
    ensures Top(bs) == Some(b)
  {
    assert LeastUpper(bs, Fold(bs));
  }

  ghost function RunningBudgets(s: Tables, root: RootId): set<Budget> {
    set id | id in RunningIds(s, root) :: BudgetOf(s.checkpoints[id])
  }

  ghost function Authority(s: Tables, root: RootId): Option<Budget> {
    Top(RunningBudgets(s, root))
  }

  // ---------------------------------------------------------------------------
  // Claims
  // ---------------------------------------------------------------------------

  datatype Principal = Principal(
    tenantId: string, agentId: string, conversationRef: ConversationRef,
    conversationScope: ConversationScope, principalId: string,
    deliveryOrigin: Option<DeliveryOrigin>, trustLevel: TrustLevel, caps: seq<Capability>)

  datatype ResumeClaim = ResumeClaim(
    checkpointId: CheckpointId, replacementId: CheckpointId, principal: Principal, claimedAtMs: Millis)

  predicate ValidClaim(c: ResumeClaim) {
    && c.checkpointId != "" && c.replacementId != "" && c.checkpointId != c.replacementId
    && c.claimedAtMs >= 0.0
    && c.principal.tenantId != "" && c.principal.agentId != "" && c.principal.principalId != ""
    && ValidScope(c.principal.conversationScope)
    && (c.principal.deliveryOrigin.Some? ==> ValidOrigin(c.principal.deliveryOrigin.value))
  }

  function TrustRank(t: TrustLevel): nat {
    match t case Guest => 0 case User => 1 case Admin => 2
  }

  predicate Authorized(i: Identity, p: Principal) {
    && i.tenantId == p.tenantId && i.agentId == p.agentId
    && i.conversationRef == p.conversationRef && i.conversationScope == p.conversationScope
    && i.principalId == p.principalId && i.deliveryOrigin == p.deliveryOrigin
    && TrustRank(i.trustLevel) <= TrustRank(p.trustLevel)
  }

  function Filter(caps: seq<Capability>, current: set<Capability>): (kept: seq<Capability>)
    ensures forall c :: c in kept <==> c in caps && c in current
  {
    if caps == [] then []
    else (if caps[0] in current then [caps[0]] else []) + Filter(caps[1..], current)
  }

  /** The record under the root's budget authority instead of its own, possibly stale, budget. */
  function WithBudget(r: Record, b: Budget): Record {
    r.(budgetConsumed := b.usdConsumed, payload := r.payload.(rootBudget := b))
  }

  /** The record a successful claim installs; the heartbeat is the source's. */
  function Replacement(r: Record, c: ResumeClaim): Record {
    r.(checkpointId := c.replacementId, leaseIds := [], status := Running,
       caps := Filter(r.caps, set x | x in c.principal.caps))
  }

  // ---------------------------------------------------------------------------
  // Outcomes
  // ---------------------------------------------------------------------------

  datatype StoreError =
    | InvalidRecord | InvalidClaim | UnreadableRow
    | RootIsRevoked | RootMissing
    | BudgetReset | HeartbeatBackward | IdentityMismatch
    | NoBudgetAuthority | AuthorityInvalid | ReplacementInvalid
    | TerminalWith(reason: TerminalReason) | LostCas | NotRunning

  /** Why a claim is not resumable; callers only see that it is not. */
  datatype Refusal = RevokedOrTerminal | ReplacementExists | SourceRaced

  datatype ClaimOutcome = Claimed(record: Record) | ClaimNotFound | NotResumable(why: Refusal) | Denied

  datatype TerminalOutcome = Terminalized | AlreadyTerminal | TerminalNotFound

  datatype Outcome =
    | Written(written: Result<(), StoreError>)
    | ClaimResult(claim: Result<ClaimOutcome, StoreError>)
    | TerminalResult(terminal: Result<TerminalOutcome, StoreError>)

  // ---------------------------------------------------------------------------
  // SQL statements, each returning the new tables and its `changes` count
  // ---------------------------------------------------------------------------

  function Tombstone(s: Tables, root: RootId, now: Millis): Tables {
    var first := if root in s.roots then s.roots[root] else None;
    s.(roots := s.roots[root := Coalesce(first, Some(now))])
  }

  function EnsureRoot(s: Tables, root: RootId): Tables {
    if root in s.roots then s else s.(roots := s.roots[root := None])
  }

  function UpsertRow(s: Tables, r: Record, now: Millis): (Tables, nat) {
    var id := r.checkpointId;
    if id !in s.checkpoints then (s.(checkpoints := s.checkpoints[id := ToRow(r, now)]), 1)
    else if !MayUpdate(s.checkpoints[id], r) then (s, 0)
    else (s.(checkpoints := s.checkpoints[id := UpdatedRow(s.checkpoints[id], r, now)]), 1)
  }

  function CompleteRunning(s: Tables, id: CheckpointId, reason: TerminalReason, now: Millis): (Tables, nat) {
    if id in s.checkpoints && s.checkpoints[id].status == Running
    then (s.(checkpoints := s.checkpoints[id := CompletedRow(s.checkpoints[id], reason, now)]), 1)
    else (s, 0)
  }

  function RepairReason(s: Tables, id: CheckpointId, reason: TerminalReason, now: Millis): (Tables, nat) {
    if id in s.checkpoints && s.checkpoints[id].status == Completed && s.checkpoints[id].payload.terminalReason.None?
    then (s.(checkpoints := s.checkpoints[id := CompletedRow(s.checkpoints[id], reason, now)]), 1)
    else (s, 0)
  }

  function RevokeRunning(s: Tables, root: RootId, now: Millis): Tables {
    s.(checkpoints := map id | id in s.checkpoints ::
      if s.checkpoints[id].identity.rootRunId == root && s.checkpoints[id].status == Running
      then RevokedRow(s.checkpoints[id], now) else s.checkpoints[id])
  }

  // ---------------------------------------------------------------------------
  // Transactions
  // ---------------------------------------------------------------------------

  /** `validateRootBudgetFloor`: the error it returns, if any. */
  ghost function FloorError(s: Tables, r: Record): Option<StoreError> {
    var root := r.identity.rootRunId;
    var authority := Authority(s, root);
    if !RootReadable(s, root) then Some(UnreadableRow)
    else if authority.Some? && !Dominates(r.payload.rootBudget, authority.value) then Some(BudgetReset)
    else if r.checkpointId !in s.checkpoints then None
    else if !ValidRow(r.checkpointId, s.checkpoints[r.checkpointId]) then Some(UnreadableRow)
    else if r.lastHeartbeatAt < s.checkpoints[r.checkpointId].lastHeartbeatAt then Some(HeartbeatBackward)
    else None
  }

  /** A revoking upsert tombstones its root first, and keeps the tombstone even when its row is refused. */
  function RevokingUpsert(s: Tables, r: Record, now: Millis): (Tables, Result<(), StoreError>) {
    var (written, changes) := UpsertRow(Tombstone(s, r.identity.rootRunId, now), r, now);
    if changes != 1 then (written, Err(IdentityMismatch))
    else (RevokeRunning(written, r.identity.rootRunId, now), Ok(()))
  }

  function OrdinaryUpsert(s: Tables, r: Record, now: Millis): (Tables, Result<(), StoreError>) {
    var ensured := EnsureRoot(s, r.identity.rootRunId);
    if ensured.roots[r.identity.rootRunId].Some? then (ensured, Err(RootIsRevoked))
    else
      var (written, changes) := UpsertRow(ensured, r, now);
      (written, if changes == 1 then Ok(()) else Err(IdentityMismatch))
  }

  ghost function Upsert(s: Tables, r: Record, now: Millis): (Tables, Result<(), StoreError>) {
    if !ValidRecord(r) then (s, Err(InvalidRecord))
    else if r.status == Revoked then RevokingUpsert(s, r, now)
    else if FloorError(s, r).Some? then (s, Err(FloorError(s, r).value))
    else OrdinaryUpsert(s, r, now)
  }

  /** Every check of a claim, in order: the replacement record to install, or what to answer instead. */
  ghost function Examine(s: Tables, c: ResumeClaim): (answer: Result<ClaimOutcome, StoreError>)
  {
    if !ValidClaim(c) then Err(InvalidClaim)
    else if c.checkpointId !in s.checkpoints then Ok(ClaimNotFound)
    else
      var source := ToRecord(c.checkpointId, s.checkpoints[c.checkpointId]);
      var root := source.identity.rootRunId;
      if !ValidRecord(source) then Err(UnreadableRow)
      else if root !in s.roots then Err(RootMissing)
      else if s.roots[root].Some? || source.status != Running then Ok(NotResumable(RevokedOrTerminal))
      else if c.claimedAtMs < source.lastHeartbeatAt then Err(HeartbeatBackward)
      else if !Authorized(source.identity, c.principal) then Ok(Denied)
      else if c.replacementId in s.checkpoints then Ok(NotResumable(ReplacementExists))
      else if !RootReadable(s, root) then Err(UnreadableRow)
      else if Authority(s, root).None? then Err(NoBudgetAuthority)
      else
        var authoritative := WithBudget(source, Authority(s, root).value);
        if !ValidRecord(authoritative) then Err(AuthorityInvalid)
        else if !ValidRecord(Replacement(authoritative, c)) then Err(ReplacementInvalid)
        else Ok(Claimed(Replacement(authoritative, c)))
  }

  /** Supersede the source and insert its replacement. */
  function Install(s: Tables, c: ResumeClaim, replacement: Record): (Tables, Result<ClaimOutcome, StoreError>) {
    var (completed, changes) := CompleteRunning(s, c.checkpointId, Superseded, c.claimedAtMs);
    if changes != 1 then (completed, Ok(NotResumable(SourceRaced)))
    else
      (completed.(checkpoints := completed.checkpoints[c.replacementId := ToRow(replacement, c.claimedAtMs)]),
       Ok(Claimed(replacement)))
  }

  ghost function Claim(s: Tables, c: ResumeClaim): (Tables, Result<ClaimOutcome, StoreError>) {
    var answer := Examine(s, c);
    if answer.Ok? && answer.value.Claimed? then Install(s, c, answer.value.record) else (s, answer)
  }

  function Terminalize(s: Tables, id: CheckpointId, reason: TerminalReason, now: Millis)
    : (Tables, Result<TerminalOutcome, StoreError>)
  {
    if id !in s.checkpoints then (s, Ok(TerminalNotFound))
    else
      var row := s.checkpoints[id];
      if !ValidRow(id, row) then (s, Err(UnreadableRow))
      else if row.status == Completed then
        if row.payload.terminalReason == Some(reason) then (s, Ok(AlreadyTerminal))
        else if row.payload.terminalReason.Some? then (s, Err(TerminalWith(row.payload.terminalReason.value)))
        else
          var (repaired, changes) := RepairReason(s, id, reason, now);
          (repaired, if changes == 1 then Ok(Terminalized) else Err(LostCas))
      else if row.status != Running then (s, Ok(AlreadyTerminal))
      else
        var (completed, changes) := CompleteRunning(s, id, reason, now);
        (completed, if changes == 1 then Ok(Terminalized) else Err(LostCas))
  }

  function MarkOrphaned(s: Tables, id: CheckpointId, reason: string, now: Millis): Tables {
    if id in s.checkpoints && s.checkpoints[id].status == Running
    then s.(checkpoints := s.checkpoints[id :=
              s.checkpoints[id].(status := Orphaned, orphanReason := Some(reason), updatedAtMs := now)])
    else s
  }

  /** Writes the caller's time as given: neither monotone nor checked against the budget start. */
  function TouchHeartbeat(s: Tables, id: CheckpointId, atMs: Millis, now: Millis): (Tables, Result<(), StoreError>) {
    if id in s.checkpoints && s.checkpoints[id].status == Running
    then
      var touched := s.checkpoints[id].(lastHeartbeatAt := atMs, updatedAtMs := now);
      (s.(checkpoints := s.checkpoints[id := touched]), Ok(()))
    else (s, Err(NotRunning))
  }

  function InvalidateForRevoke(s: Tables, root: RootId, now: Millis): Tables {
    RevokeRunning(Tombstone(s, root, now), root, now)
  }

  // ---------------------------------------------------------------------------
  // Runs
  // ---------------------------------------------------------------------------

  datatype Step =
    | UpsertStep(record: Record, now: Millis)
    | ClaimStep(claim: ResumeClaim)
    | OrphanStep(id: CheckpointId, why: string, now: Millis)
    | TerminalizeStep(id: CheckpointId, reason: TerminalReason, now: Millis)
    | TouchStep(id: CheckpointId, atMs: Millis, now: Millis)
    | RevokeStep(root: RootId, now: Millis)

  ghost function Apply(s: Tables, step: Step): (Tables, Outcome) {
    match step
    case UpsertStep(r, now) => var (t, out) := Upsert(s, r, now); (t, Written(out))
    case ClaimStep(c) => var (t, out) := Claim(s, c); (t, ClaimResult(out))
    case OrphanStep(id, why, now) => (MarkOrphaned(s, id, why, now), Written(Ok(())))
    case TerminalizeStep(id, reason, now) => var (t, out) := Terminalize(s, id, reason, now); (t, TerminalResult(out))
    case TouchStep(id, atMs, now) => var (t, out) := TouchHeartbeat(s, id, atMs, now); (t, Written(out))
    case RevokeStep(root, now) => (InvalidateForRevoke(s, root, now), Written(Ok(())))
  }

  ghost function Next(s: Tables, step: Step): Tables {
    Apply(s, step).0
  }

  ghost function Run(s: Tables, steps: seq<Step>): Tables {
    if steps == [] then s else Next(Run(s, steps[..|steps| - 1]), steps[|steps| - 1])
  }

  /** The step is a claim that succeeded. */
  ghost predicate ClaimSucceeds(s: Tables, step: Step) {
    step.ClaimStep? && Examine(s, step.claim).Ok? && Examine(s, step.claim).value.Claimed?
  }
}
