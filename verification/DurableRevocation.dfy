/** Revocation is permanent: a tombstone keeps its first time and the running rows under it only disappear. */
module DurableRevocation {
  import opened Wrappers
  import opened DurableModel
  import opened DurableEffects

  ghost predicate Tombstoned(s: Tables, root: RootId) {
    root in s.roots && s.roots[root].Some?
  }

  lemma EffectKeepsTombstone(s: Tables, step: Step, t: Tables, root: RootId)
    requires Effect(s, step, t) && Tombstoned(s, root)
    ensures Tombstoned(t, root) && t.roots[root] == s.roots[root]
    ensures RunningIds(t, root) <= RunningIds(s, root)
  {
  }

  /** Over any run a tombstone keeps its first time, and no row under its root becomes running. */
  lemma {:induction false} RunKeepsTombstone(s: Tables, steps: seq<Step>, root: RootId)
    requires Tombstoned(s, root)
    ensures Tombstoned(Run(s, steps), root) && Run(s, steps).roots[root] == s.roots[root]
    ensures RunningIds(Run(s, steps), root) <= RunningIds(s, root)
  {
    if steps != [] {
      var t := Run(s, steps[..|steps| - 1]);
      RunKeepsTombstone(s, steps[..|steps| - 1], root);
      StepHasEffect(t, steps[|steps| - 1]);
      EffectKeepsTombstone(t, steps[|steps| - 1], Next(t, steps[|steps| - 1]), root);
    }
  }

  /** The step names a row or a record under the root. */
  ghost predicate Addresses(s: Tables, step: Step, root: RootId) {
    || (step.UpsertStep? && step.record.identity.rootRunId == root)
    || (step.ClaimStep? && step.claim.checkpointId in s.checkpoints
        && s.checkpoints[step.claim.checkpointId].identity.rootRunId == root)
  }

  /** At any later point, no claim under the root succeeds and no upsert but a revoking one does. */
  lemma NothingSucceedsUnderTombstone(s: Tables, steps: seq<Step>, step: Step, root: RootId)
    requires Tombstoned(s, root) && Addresses(Run(s, steps), step, root)
    ensures !ClaimSucceeds(Run(s, steps), step)
    ensures step.UpsertStep? && Apply(Run(s, steps), step).1.written.Ok? ==> step.record.status == Revoked
  {
    var t := Run(s, steps);
    RunKeepsTombstone(s, steps, root);
    match step
    case UpsertStep(r, now) => UpsertHasEffect(t, r, now);
    case ClaimStep(c) => ClaimHasEffect(t, c);
  }

  /** The step revoked the root: an explicit revocation, or a revoking upsert that was accepted. */
  ghost predicate Revokes(s: Tables, step: Step, root: RootId) {
    || (step.RevokeStep? && step.root == root)
    || (step.UpsertStep? && step.record.status == Revoked && step.record.identity.rootRunId == root
        && Apply(s, step).1.written.Ok?)
  }

  lemma RevokingStepEndsRoot(s: Tables, step: Step, root: RootId)
    requires Revokes(s, step, root)
    ensures Tombstoned(Next(s, step), root) && RunningIds(Next(s, step), root) == {}
  {
    if step.UpsertStep? {
      UpsertHasEffect(s, step.record, step.now);
      RevokingWriteEndsRoot(s, step.record, step.now, Next(s, step));
    }
  }

  /**
   A valid revoking upsert tombstones its root whether or not its row is accepted. The row is refused
   exactly when a stored row differs in identity or lacks a requested capability, and then no row changes.
   */
  lemma RefusedRevocationTombstones(s: Tables, r: Record, now: Millis)
    requires ValidRecord(r) && r.status == Revoked
    ensures var (t, out) := Upsert(s, r, now);
            var id, root := r.checkpointId, r.identity.rootRunId;
            && Tombstoned(t, root) && (Tombstoned(s, root) ==> t.roots[root] == s.roots[root])
            && (out.Err? <==> id in s.checkpoints && !MayUpdate(s.checkpoints[id], r))
            && (out.Err? ==> out == Err(IdentityMismatch) && t.checkpoints == s.checkpoints)
  {
  }

  lemma RevokingWriteEndsRoot(s: Tables, r: Record, now: Millis, t: Tables)
    requires UpsertWrites(s, r, now, t) && r.status == Revoked
    ensures Tombstoned(t, r.identity.rootRunId) && RunningIds(t, r.identity.rootRunId) == {}
  {
  }

  /** After a revocation the root has no running row in any later state, whatever runs in between. */
  lemma RevokedForever(s: Tables, step: Step, root: RootId, steps: seq<Step>)
    requires Revokes(s, step, root)
    ensures RunningIds(Run(Next(s, step), steps), root) == {}
  {
    RevokingStepEndsRoot(s, step, root);
    RunKeepsTombstone(Next(s, step), steps, root);
  }
}
