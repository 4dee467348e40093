/**
 The execution-attachment store: current rows plus an operation ledger. A ledger entry keeps the
 digest of the input it was applied with and the record it produced.
 */
module AttachmentModel {
  import opened Wrappers

  type AttachmentId = string
  type Digest = string

  const MAX_SAFE_INTEGER := 0x1F_FFFF_FFFF_FFFF

  /** The five owners a caller has to name, all of them, to act on an attachment. */
  datatype Scope = Scope(
    tenantId: string, agentId: string, serviceInstanceId: string, managedRunId: string, workspaceLeaseId: string)

  datatype FileIdentity = FileIdentity(device: int, inode: int, birthtimeNs: string)

  datatype State = Active | Revoked

  datatype RevocationReason = LeaseRelease | AuthorityRevoked | RecoveryMismatch

  datatype Record = Record(
    id: AttachmentId, scope: Scope, sourcePath: string, relayIdentity: string, targetName: string,
    identity: FileIdentity, state: State, createdAtMs: int, updatedAtMs: int,
    lastRecoveredAtMs: Option<int>, revokedAtMs: Option<int>, reason: Option<RevocationReason>)

  // ---------------------------------------------------------------------------
  // Record validation (`parseExecutionAttachmentRecord`)
  // ---------------------------------------------------------------------------

  predicate IsDigit(c: char) { '0' <= c <= '9' }

  predicate IsHex(c: char) { IsDigit(c) || 'a' <= c <= 'f' }

  predicate IsAlphanumeric(c: char) { IsDigit(c) || 'a' <= c <= 'z' || 'A' <= c <= 'Z' }

  predicate IsOpaqueId(s: string) {
    && 1 <= |s| <= 256 && IsAlphanumeric(s[0])
    && forall i :: 0 <= i < |s| ==> IsAlphanumeric(s[i]) || s[i] in "._~-"
  }

  /** Absolute, with no empty, `.` or `..` segment. */
  predicate IsNormalizedPath(s: string) {
    && 1 <= |s| <= 4096 && s[0] == '/'
    && (forall i :: 0 <= i < |s| - 1 && s[i] == '/' ==> s[i + 1] != '/')
    && (forall i :: 0 <= i < |s| - 1 && s[i] == '/' && s[i + 1] == '.' ==>
          && i + 2 < |s| && s[i + 2] != '/'
          && (s[i + 2] == '.' ==> i + 3 < |s| && s[i + 3] != '/'))
  }

  predicate IsRelayIdentity(s: string) {
    |s| == 64 && (forall i :: 0 <= i < |s| ==> IsHex(s[i])) && exists i :: 0 <= i < |s| && s[i] != '0'
  }

  predicate IsTargetName(s: string) {
    && |s| == 48 && s[..11] == "attachment-" && s[43..] == ".sock"
    && forall i :: 11 <= i < 43 ==> IsHex(s[i])
  }

  predicate ValidFileIdentity(f: FileIdentity) {
    && 0 <= f.device <= MAX_SAFE_INTEGER && 0 <= f.inode <= MAX_SAFE_INTEGER
    && 1 <= |f.birthtimeNs| <= 20 && f.birthtimeNs[0] != '0'
    && forall i :: 0 <= i < |f.birthtimeNs| ==> IsDigit(f.birthtimeNs[i])
  }

  predicate ValidScope(scope: Scope) {
    && 1 <= |scope.tenantId| <= 256 && 1 <= |scope.agentId| <= 256
    && IsOpaqueId(scope.serviceInstanceId) && IsOpaqueId(scope.managedRunId) && IsOpaqueId(scope.workspaceLeaseId)
  }

  predicate Within(at: Option<int>, r: Record) {
    at.Some? ==> r.createdAtMs <= at.value <= r.updatedAtMs
  }

  predicate ValidRecord(r: Record) {
    && IsOpaqueId(r.id) && ValidScope(r.scope) && IsNormalizedPath(r.sourcePath)
    && IsRelayIdentity(r.relayIdentity) && IsTargetName(r.targetName) && ValidFileIdentity(r.identity)
    && 0 <= r.createdAtMs <= r.updatedAtMs
    && Within(r.lastRecoveredAtMs, r) && Within(r.revokedAtMs, r)
    && (r.state == Revoked ==> r.revokedAtMs.Some? && r.reason.Some?)
    && (r.state == Active ==> r.revokedAtMs.None? && r.reason.None?)
  }

  // ---------------------------------------------------------------------------
  // Operations, the ledger and the run authority
  // ---------------------------------------------------------------------------

  datatype Input =
    | RevokeInput(operationId: string, id: AttachmentId, reason: RevocationReason, revokedAtMs: int)
    | ReconcileInput(operationId: string, id: AttachmentId, identity: FileIdentity, recoveredAtMs: int)

  /** Ledger rows are keyed by attachment, operation id and kind of operation. */
  datatype Key = Key(id: AttachmentId, operationId: string, revoking: bool)

  function KeyOf(input: Input): Key {
    Key(input.id, input.operationId, input.RevokeInput?)
  }

  datatype Operation = Operation(key: Key, inputHash: Digest, record: Record, createdAtMs: int)

  datatype Store = Store(rows: map<AttachmentId, Record>, ledger: seq<Operation>)

  const NoStore := Store(map[], [])

  /** `selectOperation`: the ledger row with the given key. */
  function Find(ledger: seq<Operation>, key: Key): Option<Operation> {
    if ledger == [] then None
    else if ledger[0].key == key then Some(ledger[0])
    else Find(ledger[1..], key)
  }

  /** The join of a managed run with its lease and its release reservation. */
  datatype Authority = Authority(
    serviceInstanceId: string, tenantId: string, agentId: string, workspaceLeaseId: Option<string>,
    leaseManagedRunId: string, leaseServiceInstanceId: string, leaseTenantId: string, leaseAgentId: string,
    leaseActive: bool, releaseReserved: bool)

  /** What the join returns at the time of a step, by managed run id. */
  type Authorities = map<string, Authority>

  predicate AuthorityMatches(runs: Authorities, scope: Scope) {
    && scope.managedRunId in runs
    && var a := runs[scope.managedRunId];
    && a.serviceInstanceId == scope.serviceInstanceId && a.tenantId == scope.tenantId && a.agentId == scope.agentId
    && a.workspaceLeaseId == Some(scope.workspaceLeaseId)
    && a.leaseManagedRunId == scope.managedRunId && a.leaseServiceInstanceId == scope.serviceInstanceId
    && a.leaseTenantId == scope.tenantId && a.leaseAgentId == scope.agentId
    && a.leaseActive && !a.releaseReserved
  }

  // ---------------------------------------------------------------------------
  // Transactions
  // ---------------------------------------------------------------------------

  datatype StoreError = InvalidRecord | CreationNotActive | UnreadableRow | TimeMovesBackward

  datatype Outcome =
    | Created(record: Record) | Applied(record: Record) | IdenticalReplay(record: Record)
    | ReplayConflict | AuthorityMismatch | NotFound | ScopeMismatch | StateMismatch

  predicate PathInUse(rows: map<AttachmentId, Record>, path: string) {
    exists id :: id in rows && rows[id].sourcePath == path && rows[id].state == Active
  }

  /** The insert writes a null recovery time whatever the record carries. */
  function Inserted(r: Record): Record {
    r.(lastRecoveredAtMs := None)
  }

  function Create(s: Store, r: Record, runs: Authorities): (Store, Result<Outcome, StoreError>) {
    if !ValidRecord(r) then (s, Err(InvalidRecord))
    else if r.state != Active then (s, Err(CreationNotActive))
    else if r.id in s.rows then
      if !ValidRecord(s.rows[r.id]) then (s, Err(UnreadableRow))
      else if s.rows[r.id] == r then (s, Ok(IdenticalReplay(r)))
      else (s, Ok(ReplayConflict))
    else if !AuthorityMatches(runs, r.scope) then (s, Ok(AuthorityMismatch))
    else if PathInUse(s.rows, r.sourcePath) then (s, Ok(ReplayConflict))
    else (s.(rows := s.rows[r.id := Inserted(r)]), Ok(Created(r)))
  }

  /** The record an operation would produce from the current one. */
  function Produced(current: Record, input: Input): Record {
    match input
    case RevokeInput(_, _, reason, at) =>
      current.(state := Revoked, updatedAtMs := at, revokedAtMs := Some(at), reason := Some(reason))
    case ReconcileInput(_, _, identity, at) =>
      current.(identity := identity, updatedAtMs := at, lastRecoveredAtMs := Some(at))
  }

  function AtMs(input: Input): int {
    match input case RevokeInput(_, _, _, at) => at case ReconcileInput(_, _, _, at) => at
  }

  /** Persist the next record and append the operation that produced it. */
  function Recorded(hash: Input -> Digest, s: Store, input: Input): Store
    requires input.id in s.rows
  {
    var next := Produced(s.rows[input.id], input);
    Store(s.rows[input.id := next], s.ledger + [Operation(KeyOf(input), hash(input), next, AtMs(input))])
  }

  /** `revokeTransaction` and `reconcileTransaction`; only a reconciliation re-checks the run's authority. */
  function Operate(hash: Input -> Digest, s: Store, scope: Scope, input: Input, runs: Authorities)
    : (Store, Result<Outcome, StoreError>)
  {
    if input.id !in s.rows then (s, Ok(NotFound))
    else
      var current := s.rows[input.id];
      var previous := Find(s.ledger, KeyOf(input));
      if !ValidRecord(current) then (s, Err(UnreadableRow))
      else if current.scope != scope then (s, Ok(ScopeMismatch))
      else if previous.Some? then
        if !ValidRecord(previous.value.record) then (s, Err(UnreadableRow))
        else if previous.value.inputHash == hash(input) then (s, Ok(IdenticalReplay(previous.value.record)))
        else (s, Ok(ReplayConflict))
      else if current.state != Active then (s, Ok(StateMismatch))
      else if input.ReconcileInput? && !AuthorityMatches(runs, current.scope) then (s, Ok(AuthorityMismatch))
      else if AtMs(input) < current.updatedAtMs then (s, Err(TimeMovesBackward))
      else if !ValidRecord(Produced(current, input)) then (s, Err(InvalidRecord))
      else (Recorded(hash, s, input), Ok(Applied(Produced(current, input))))
  }

  // ---------------------------------------------------------------------------
  // Runs
  // ---------------------------------------------------------------------------

  datatype Step =
    | CreateStep(record: Record, runs: Authorities)
    | OperateStep(scope: Scope, input: Input, runs: Authorities)

  function Apply(hash: Input -> Digest, s: Store, step: Step): (Store, Result<Outcome, StoreError>) {
    match step
    case CreateStep(r, runs) => Create(s, r, runs)
    case OperateStep(scope, input, runs) => Operate(hash, s, scope, input, runs)
  }

  function Run(hash: Input -> Digest, s: Store, steps: seq<Step>): Store {
    if steps == [] then s
    else Apply(hash, Run(hash, s, steps[..|steps| - 1]), steps[|steps| - 1]).0
  }
}
