/** The order structure of root budgets: running siblings form a chain, and its top is the root's authority. */
module DurableBudget {
  import opened Wrappers
  import opened DurableModel
  import opened DurableEffects

  /** Any two budgets are comparable by dominance. */
  ghost predicate Chain(bs: set<Budget>) {
    forall x, y :: x in bs && y in bs ==> Dominates(x, y) || Dominates(y, x)
  }

  ghost predicate Above(b: Budget, bs: set<Budget>) {
    forall x :: x in bs ==> Dominates(b, x)
  }

  lemma TopIsAbove(bs: set<Budget>)
    requires bs != {}
    ensures Top(bs).Some? && Above(Top(bs).value, bs)
  {
    assert LeastUpper(bs, Fold(bs));
  }

  /** Adding a budget above a set makes it the top. */
  lemma NewTop(bs: set<Budget>, more: set<Budget>, b: Budget)
    requires Above(b, bs) && b in more && more <= bs + {b}
    ensures Top(more) == Some(b) && (Chain(bs) ==> Chain(more))
  {
    assert LeastUpper(more, b);
    TopIs(more, b);
  }

  /** The componentwise minimum and maximum over a chain is one of its members. */
  lemma TopOfChain(bs: set<Budget>)
    requires Chain(bs) && bs != {}
    ensures Top(bs).Some? && Top(bs).value in bs
  {
    var b := Fold(bs);
    var earliest :| earliest in bs && earliest.startedAtMs == b.startedAtMs;
    var busiest :| busiest in bs && busiest.tokensConsumed == b.tokensConsumed;
    var dearest :| dearest in bs && dearest.usdConsumed == b.usdConsumed;
    var higher := if Dominates(earliest, busiest) then earliest else busiest;
    var top := if Dominates(higher, dearest) then higher else dearest;
    assert Dominates(b, top);
    assert top == b;
  }

  // ---------------------------------------------------------------------------
  // How each step moves the running budgets of a root
  // ---------------------------------------------------------------------------

  lemma AcceptedUpsertIsAboveFloor(s: Tables, r: Record, now: Millis)
    requires Upsert(s, r, now).1.Ok? && r.status != Revoked
    ensures Above(r.payload.rootBudget, RunningBudgets(s, r.identity.rootRunId))
  {
    var bs := RunningBudgets(s, r.identity.rootRunId);
    if bs != {} {
      TopIsAbove(bs);
    }
  }

  lemma WriteBudgets(s: Tables, r: Record, now: Millis, t: Tables, root: RootId)
    requires UpsertWrites(s, r, now, t)
    ensures root != r.identity.rootRunId || r.status != Running ==> RunningBudgets(t, root) <= RunningBudgets(s, root)
    ensures RunningBudgets(t, root) <= RunningBudgets(s, root) + {r.payload.rootBudget}
  {
  }

  /** A running row gives way to a new one of the same root. */
  ghost predicate Succeeds(s: Tables, from: CheckpointId, t: Tables, to: CheckpointId) {
    && from in s.checkpoints && to !in s.checkpoints && t.checkpoints.Keys == s.checkpoints.Keys + {to}
    && (forall id :: id in s.checkpoints && id != from ==> t.checkpoints[id] == s.checkpoints[id])
    && t.checkpoints[from].status != Running && t.checkpoints[to].status == Running
    && t.checkpoints[to].identity.rootRunId == s.checkpoints[from].identity.rootRunId
    && t.checkpoints[from].identity.rootRunId == s.checkpoints[from].identity.rootRunId
  }

  lemma SuccessionBudgets(s: Tables, from: CheckpointId, t: Tables, to: CheckpointId, root: RootId)
    requires Succeeds(s, from, t, to) && s.checkpoints[from].status == Running
    ensures var top := BudgetOf(t.checkpoints[to]);
            if root == s.checkpoints[from].identity.rootRunId
            then top in RunningBudgets(t, root) && RunningBudgets(t, root) <= RunningBudgets(s, root) + {top}
            else RunningBudgets(t, root) == RunningBudgets(s, root)
  {
    if root == s.checkpoints[from].identity.rootRunId {
      assert to in RunningIds(t, root);
      forall id | id in RunningIds(t, root) && id != to
        ensures id in RunningIds(s, root) && t.checkpoints[id] == s.checkpoints[id]
      {
      }
    } else {
      assert RunningIds(t, root) == RunningIds(s, root);
    }
  }

  lemma MoveBudgets(s: Tables, c: ResumeClaim, t: Tables, root: RootId)
    requires ClaimMoves(s, c, t)
    ensures var top := BudgetOf(t.checkpoints[c.replacementId]);
            if root == s.checkpoints[c.checkpointId].identity.rootRunId
            then top in RunningBudgets(t, root) && RunningBudgets(t, root) <= RunningBudgets(s, root) + {top}
            else RunningBudgets(t, root) == RunningBudgets(s, root)
  {
    SuccessionBudgets(s, c.checkpointId, t, c.replacementId, root);
  }

  lemma OtherStepBudgets(s: Tables, step: Step, root: RootId)
    requires !step.UpsertStep? && !step.ClaimStep?
    ensures RunningBudgets(Next(s, step), root) <= RunningBudgets(s, root)
  {
    var t := Next(s, step);
    forall id | id in RunningIds(t, root)
      ensures id in RunningIds(s, root) && BudgetOf(t.checkpoints[id]) == BudgetOf(s.checkpoints[id])
    {
    }
  }

  // ---------------------------------------------------------------------------
  // Results over runs
  // ---------------------------------------------------------------------------

  lemma StepKeepsChain(s: Tables, step: Step, root: RootId)
    requires Chain(RunningBudgets(s, root))
    ensures Chain(RunningBudgets(Next(s, step), root))
  {
    match step
    case UpsertStep(r, now) => UpsertKeepsChain(s, r, now, root);
    case ClaimStep(c) =>
      ClaimHasEffect(s, c);
      if ClaimSucceeds(s, step) { MoveKeepsAuthority(s, c, Claim(s, c).0, root); }
    case _ => OtherStepBudgets(s, step, root);
  }

  lemma WriteKeepsChain(s: Tables, r: Record, now: Millis, t: Tables, root: RootId)
    requires UpsertWrites(s, r, now, t) && Chain(RunningBudgets(s, root))
    requires r.status != Revoked ==> Above(r.payload.rootBudget, RunningBudgets(s, r.identity.rootRunId))
    ensures Chain(RunningBudgets(t, root))
  {
    WriteBudgets(s, r, now, t, root);
  }

  lemma UpsertKeepsChain(s: Tables, r: Record, now: Millis, root: RootId)
    requires Chain(RunningBudgets(s, root))
    ensures Chain(RunningBudgets(Upsert(s, r, now).0, root))
  {
    UpsertHasEffect(s, r, now);
    var (t, out) := Upsert(s, r, now);
    if out.Ok? {
      if r.status != Revoked {
        AcceptedUpsertIsAboveFloor(s, r, now);
      }
      WriteKeepsChain(s, r, now, t, root);
    } else {
      assert RunningIds(t, root) == RunningIds(s, root);
    }
  }

  lemma MoveKeepsAuthority(s: Tables, c: ResumeClaim, t: Tables, root: RootId)
    requires ClaimMoves(s, c, t)
    ensures Authority(t, root) == Authority(s, root)
    ensures Chain(RunningBudgets(s, root)) ==> Chain(RunningBudgets(t, root))
  {
    MoveBudgets(s, c, t, root);
    if root == s.checkpoints[c.checkpointId].identity.rootRunId {
      TopIsAbove(RunningBudgets(s, root));
      NewTop(RunningBudgets(s, root), RunningBudgets(t, root), BudgetOf(t.checkpoints[c.replacementId]));
    }
  }

  /** In every state a run reaches, the budgets of a root's running rows are totally ordered by dominance. */
  lemma {:induction false} RunKeepsChain(s: Tables, steps: seq<Step>, root: RootId)
    requires Chain(RunningBudgets(s, root))
    ensures Chain(RunningBudgets(Run(s, steps), root))
  {
    if steps != [] {
      RunKeepsChain(s, steps[..|steps| - 1], root);
      StepKeepsChain(Run(s, steps[..|steps| - 1]), steps[|steps| - 1], root);
    }
  }

  /**
   The authority of a root is never a mixture: in every reachable state some running row holds
   exactly that budget.
   */
  lemma AuthorityIsARow(steps: seq<Step>, root: RootId)
    ensures var s := Run(NoTables, steps);
            Authority(s, root).Some? ==>
              exists id :: id in RunningIds(s, root) && Authority(s, root) == Some(BudgetOf(s.checkpoints[id]))
  {
    var s := Run(NoTables, steps);
    RunKeepsChain(NoTables, steps, root);
    if RunningBudgets(s, root) != {} {
      TopOfChain(RunningBudgets(s, root));
    }
  }

  /** Whether it succeeds or not, a claim leaves the budget authority of every root where it was. */
  lemma ClaimKeepsAuthority(s: Tables, c: ResumeClaim, root: RootId)
    ensures Authority(Claim(s, c).0, root) == Authority(s, root)
  {
    ClaimHasEffect(s, c);
    if ClaimSucceeds(s, ClaimStep(c)) {
      MoveKeepsAuthority(s, c, Claim(s, c).0, root);
    }
  }

  /** An accepted running upsert of a row that has not ended makes its own budget the authority, exactly. */
  lemma UpsertSetsAuthority(s: Tables, r: Record, now: Millis)
    requires Upsert(s, r, now).1.Ok? && r.status == Running
    requires r.checkpointId in s.checkpoints ==> s.checkpoints[r.checkpointId].status == Running
    ensures Authority(Upsert(s, r, now).0, r.identity.rootRunId) == Some(r.payload.rootBudget)
  {
    var root, t := r.identity.rootRunId, Upsert(s, r, now).0;
    UpsertHasEffect(s, r, now);
    AcceptedUpsertIsAboveFloor(s, r, now);
    WriteBudgets(s, r, now, t, root);
    assert r.checkpointId in RunningIds(t, root);
    NewTop(RunningBudgets(s, root), RunningBudgets(t, root), r.payload.rootBudget);
  }
}
