/** Steps are all or nothing, their guard branches are dead, and exactly one step can make a row unreadable. */
module DurableAtomicity {
  import opened Wrappers
  import opened DurableModel
  import opened DurableEffects

  /** The step reported that it took effect. */
  ghost predicate TookEffect(out: Outcome) {
    match out
    case Written(w) => w.Ok?
    case ClaimResult(c) => c.Ok? && c.value.Claimed?
    case TerminalResult(t) => t == Ok(Terminalized)
  }

  /**
   A step that reports anything else leaves every checkpoint alone, and only a refused upsert may
   still write its root.
   */
  lemma RefusedStepKeepsRows(s: Tables, step: Step)
    requires !TookEffect(Apply(s, step).1)
    ensures Next(s, step).checkpoints == s.checkpoints
    ensures !step.UpsertStep? ==> Next(s, step) == s
    ensures step.UpsertStep? ==> UpsertRefused(s, step.record, Next(s, step))
  {
    match step
    case UpsertStep(r, now) => UpsertHasEffect(s, r, now);
    case ClaimStep(c) => ClaimHasEffect(s, c);
    case TerminalizeStep(_, _, _) =>
    case TouchStep(_, _, _) =>
  }

  /**
   The stored record after writing `r`: what was sent, a null reference keeping the old one, a
   terminal row untouched.
   */
  ghost predicate ReadsBack(s: Tables, r: Record, got: Record) {
    if r.checkpointId !in s.checkpoints then got == r
    else
      var was := ToRecord(r.checkpointId, s.checkpoints[r.checkpointId]);
      if Terminal(was.status) then got == was
      else && got.scriptRef == (if r.scriptRef.Some? then r.scriptRef else was.scriptRef)
           && got.checkpointRef == (if r.checkpointRef.Some? then r.checkpointRef else was.checkpointRef)
           && got.(scriptRef := r.scriptRef, checkpointRef := r.checkpointRef) == r
  }

  lemma WrittenReadsBack(s: Tables, r: Record, now: Millis, t: Tables)
    requires UpsertWrites(s, r, now, t)
    ensures ReadsBack(s, r, ToRecord(r.checkpointId, t.checkpoints[r.checkpointId]))
  {
  }

  /** Reading a checkpoint after a successful upsert gives the record back. */
  lemma UpsertReadsBack(s: Tables, r: Record, now: Millis)
    requires Upsert(s, r, now).1.Ok?
    ensures r.checkpointId in Upsert(s, r, now).0.checkpoints
    ensures ReadsBack(s, r, ToRecord(r.checkpointId, Upsert(s, r, now).0.checkpoints[r.checkpointId]))
  {
    UpsertHasEffect(s, r, now);
    WrittenReadsBack(s, r, now, Upsert(s, r, now).0);
  }

  // ---------------------------------------------------------------------------
  // Branches no run reaches
  // ---------------------------------------------------------------------------

  /** Every checkpoint's root has an authority row. */
  ghost predicate RootsCovered(s: Tables) {
    forall id :: id in s.checkpoints ==> s.checkpoints[id].identity.rootRunId in s.roots
  }

  lemma EffectCoversRoots(s: Tables, step: Step, t: Tables)
    requires Effect(s, step, t) && RootsCovered(s)
    ensures RootsCovered(t)
  {
  }

  lemma {:induction false} RunCoversRoots(s: Tables, steps: seq<Step>)
    requires RootsCovered(s)
    ensures RootsCovered(Run(s, steps))
  {
    if steps != [] {
      var t := Run(s, steps[..|steps| - 1]);
      RunCoversRoots(s, steps[..|steps| - 1]);
      StepHasEffect(t, steps[|steps| - 1]);
      EffectCoversRoots(t, steps[|steps| - 1], Next(t, steps[|steps| - 1]));
    }
  }

  /** The errors and refusals that only a missing authority row or a lost compare-and-set could produce. */
  ghost predicate GuardTripped(out: Outcome) {
    match out
    case Written(_) => false
    case ClaimResult(c) =>
      || c == Ok(NotResumable(SourceRaced))
      || (c.Err? && c.error in {RootMissing, NoBudgetAuthority, AuthorityInvalid, ReplacementInvalid})
    case TerminalResult(t) => t == Err(LostCas)
  }

  lemma BudgetedSourceIsValid(s: Tables, c: ResumeClaim)
    requires c.checkpointId in s.checkpoints && s.checkpoints[c.checkpointId].status == Running
    requires ValidClaim(c)
    requires RootReadable(s, s.checkpoints[c.checkpointId].identity.rootRunId)
    ensures Authority(s, s.checkpoints[c.checkpointId].identity.rootRunId).Some?
    ensures var a := Authority(s, s.checkpoints[c.checkpointId].identity.rootRunId).value;
            var r := WithBudget(ToRecord(c.checkpointId, s.checkpoints[c.checkpointId]), a);
            ValidRecord(r) && ValidRecord(Replacement(r, c))
  {
    var root := s.checkpoints[c.checkpointId].identity.rootRunId;
    assert c.checkpointId in RunningIds(s, root) && RunningIds(s, root) <= RowIds(s, root);
    assert BudgetOf(s.checkpoints[c.checkpointId]) in RunningBudgets(s, root);
    assert LeastUpper(RunningBudgets(s, root), Authority(s, root).value);
  }

  lemma ClaimGuardsHold(s: Tables, c: ResumeClaim)
    requires RootsCovered(s)
    ensures !GuardTripped(ClaimResult(Claim(s, c).1))
  {
    ClaimHasEffect(s, c);
    var answer := Examine(s, c);
    if answer.Err? && answer.error in {NoBudgetAuthority, AuthorityInvalid, ReplacementInvalid} {
      BudgetedSourceIsValid(s, c);
    }
  }

  /** From empty tables, no run ever reaches a guard branch: read and write share one transaction. */
  lemma GuardsNeverTrip(steps: seq<Step>, step: Step)
    ensures !GuardTripped(Apply(Run(NoTables, steps), step).1)
  {
    RunCoversRoots(NoTables, steps);
    match step
    case ClaimStep(c) => ClaimGuardsHold(Run(NoTables, steps), c);
    case _ =>
  }

  // ---------------------------------------------------------------------------
  // Readability
  // ---------------------------------------------------------------------------

  ghost predicate AllReadable(s: Tables) {
    forall id :: id in s.checkpoints ==> ValidRow(id, s.checkpoints[id])
  }

  /** A heartbeat stamped before the row's own budget started. */
  ghost predicate StaleTouch(s: Tables, step: Step) {
    && step.TouchStep? && step.id in s.checkpoints && s.checkpoints[step.id].status == Running
    && step.atMs < BudgetOf(s.checkpoints[step.id]).startedAtMs
  }

  lemma WriteStaysReadable(s: Tables, r: Record, now: Millis, t: Tables)
    requires AllReadable(s) && UpsertWrites(s, r, now, t) && ValidRecord(r)
    ensures AllReadable(t)
  {
  }

  lemma MoveStaysReadable(s: Tables, c: ResumeClaim, t: Tables)
    requires AllReadable(s) && ClaimMoves(s, c, t) && ValidRow(c.replacementId, t.checkpoints[c.replacementId])
    ensures AllReadable(t)
  {
    assert ValidRow(c.checkpointId, s.checkpoints[c.checkpointId]);
  }

  lemma TouchReadableIff(s: Tables, step: Step)
    requires AllReadable(s) && step.TouchStep?
    ensures AllReadable(Next(s, step)) <==> !StaleTouch(s, step)
  {
    if step.id in s.checkpoints && s.checkpoints[step.id].status == Running {
      assert ValidRow(step.id, Next(s, step).checkpoints[step.id]) <==> !StaleTouch(s, step);
    }
  }

  lemma UpsertStaysReadable(s: Tables, r: Record, now: Millis)
    requires AllReadable(s)
    ensures AllReadable(Upsert(s, r, now).0)
  {
    UpsertHasEffect(s, r, now);
    if Upsert(s, r, now).1.Ok? { WriteStaysReadable(s, r, now, Upsert(s, r, now).0); }
  }

  lemma ClaimStaysReadable(s: Tables, c: ResumeClaim)
    requires AllReadable(s)
    ensures AllReadable(Claim(s, c).0)
  {
    ClaimHasEffect(s, c);
    if ClaimSucceeds(s, ClaimStep(c)) { MoveStaysReadable(s, c, Claim(s, c).0); }
  }

  /** Orphaning, terminalizing and revoking keep every row readable. */
  lemma EndingStaysReadable(s: Tables, step: Step)
    requires AllReadable(s) && (step.OrphanStep? || step.TerminalizeStep? || step.RevokeStep?)
    ensures AllReadable(Next(s, step))
  {
  }

  /** The store stays readable across a step if and only if the step is not a stale heartbeat. */
  lemma ReadableUnlessStaleTouch(s: Tables, step: Step)
    requires AllReadable(s)
    ensures AllReadable(Next(s, step)) <==> !StaleTouch(s, step)
  {
    match step
    case UpsertStep(r, now) => UpsertStaysReadable(s, r, now);
    case ClaimStep(c) => ClaimStaysReadable(s, c);
    case TouchStep(_, _, _) => TouchReadableIff(s, step);
    case _ => EndingStaysReadable(s, step);
  }

  /** Over any run without a stale heartbeat every row stays readable. */
  lemma {:induction false} RunStaysReadable(s: Tables, steps: seq<Step>)
    requires AllReadable(s)
    requires forall i :: 0 <= i < |steps| ==> !StaleTouch(Run(s, steps[..i]), steps[i])
    ensures AllReadable(Run(s, steps))
  {
    if steps != [] {
      var before := steps[..|steps| - 1];
      forall i | 0 <= i < |before| ensures !StaleTouch(Run(s, before[..i]), before[i]) {
        assert before[..i] == steps[..i] && before[i] == steps[i];
      }
      RunStaysReadable(s, before);
      ReadableUnlessStaleTouch(Run(s, before), steps[|steps| - 1]);
    }
  }

  /** One unreadable row blocks its whole root: until it changes, no sibling can be checkpointed or resumed. */
  lemma UnreadableRowBlocksRoot(s: Tables, bad: CheckpointId, step: Step)
    requires bad in s.checkpoints && !ValidRow(bad, s.checkpoints[bad])
    ensures step.UpsertStep? && step.record.status != Revoked
            && step.record.identity.rootRunId == s.checkpoints[bad].identity.rootRunId ==>
              !TookEffect(Apply(s, step).1) && Next(s, step) == s
    ensures step.ClaimStep? && step.claim.checkpointId in s.checkpoints
            && s.checkpoints[step.claim.checkpointId].identity.rootRunId == s.checkpoints[bad].identity.rootRunId ==>
              !TookEffect(Apply(s, step).1) && Next(s, step) == s
  {
    assert bad in RowIds(s, s.checkpoints[bad].identity.rootRunId);
  }
}
