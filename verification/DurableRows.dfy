/** What a step, and so a run, may do to a checkpoint that already exists. */
module DurableRows {
  import opened DurableModel
  import opened DurableEffects

  /**
   A terminal row is frozen: no column moves, except that a completed row without a terminal
   reason may be given one, once, together with its update time.
   */
  ghost predicate Frozen(a: Row, b: Row) {
    || a == b
    || (&& a.status == Completed && a.payload.terminalReason.None? && b.payload.terminalReason.Some?
        && b == CompletedRow(a, b.payload.terminalReason.value, b.updatedAtMs))
  }

  /** How a row may evolve: identity and creation are fixed, capabilities shrink, endings are final. */
  ghost predicate Evolves(a: Row, b: Row) {
    && a.identity == b.identity
    && a.createdAtMs == b.createdAtMs
    && SubsetOf(b.caps, a.caps)
    && (Terminal(a.status) ==> Frozen(a, b))
  }

  lemma EffectEvolves(s: Tables, step: Step, t: Tables, id: CheckpointId)
    requires Effect(s, step, t) && id in s.checkpoints
    ensures id in t.checkpoints && Evolves(s.checkpoints[id], t.checkpoints[id])
  {
  }

  /** Over any run a checkpoint stays, keeps its identity, never regains a capability, and once terminal is frozen. */
  lemma {:induction false} RunEvolves(s: Tables, steps: seq<Step>, id: CheckpointId)
    requires id in s.checkpoints
    ensures id in Run(s, steps).checkpoints
    ensures Evolves(s.checkpoints[id], Run(s, steps).checkpoints[id])
  {
    if steps != [] {
      var t := Run(s, steps[..|steps| - 1]);
      RunEvolves(s, steps[..|steps| - 1], id);
      StepHasEffect(t, steps[|steps| - 1]);
      EffectEvolves(t, steps[|steps| - 1], Next(t, steps[|steps| - 1]), id);
    }
  }

  /** The first terminal reason a checkpoint records is the one it keeps in every later state. */
  lemma FirstReasonWins(s: Tables, steps: seq<Step>, id: CheckpointId)
    requires id in s.checkpoints && Terminal(s.checkpoints[id].status)
    requires s.checkpoints[id].payload.terminalReason.Some?
    ensures id in Run(s, steps).checkpoints && Run(s, steps).checkpoints[id] == s.checkpoints[id]
  {
    RunEvolves(s, steps, id);
  }
}
