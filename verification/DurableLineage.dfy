/** Claim lineages: over a run, successful claims link checkpoints into disjoint, acyclic chains. */
module DurableLineage {
  import opened Wrappers
  import opened DurableModel
  import opened DurableEffects
  import opened DurableRows

  /** From each replacement to the source it replaced. */
  type LinkMap = map<CheckpointId, CheckpointId>

  /** The links that the successful claims of a run made. */
  ghost function Links(s: Tables, steps: seq<Step>): LinkMap {
    if steps == [] then map[]
    else
      var before, step := steps[..|steps| - 1], steps[|steps| - 1];
      if ClaimSucceeds(Run(s, before), step)
      then Links(s, before)[step.claim.replacementId := step.claim.checkpointId]
      else Links(s, before)
  }

  /** A chain of links, from an earlier checkpoint down to a later one. */
  ghost predicate Path(links: LinkMap, p: seq<CheckpointId>) {
    && p != []
    && (|p| > 1 ==>
          && p[|p| - 1] in links && links[p[|p| - 1]] == p[|p| - 2]
          && Path(links, p[..|p| - 1]))
  }

  /** What holds of one link: the source was superseded, identity is kept, capabilities only shrink. */
  ghost predicate LinkHolds(t: Tables, source: CheckpointId, replacement: CheckpointId) {
    && source in t.checkpoints && replacement in t.checkpoints
    && WasSuperseded(t, source)
    && t.checkpoints[source].identity == t.checkpoints[replacement].identity
    && SubsetOf(t.checkpoints[replacement].caps, t.checkpoints[source].caps)
  }

  ghost predicate WasSuperseded(t: Tables, id: CheckpointId) {
    && id in t.checkpoints && t.checkpoints[id].status == Completed
    && t.checkpoints[id].payload.terminalReason == Some(Superseded)
  }

  ghost predicate Linked(t: Tables, links: LinkMap) {
    && (forall r :: r in links ==> LinkHolds(t, links[r], r))
    && (forall a, b :: a in links && b in links && links[a] == links[b] ==> a == b)
  }

  // ---------------------------------------------------------------------------
  // Links hold throughout a run
  // ---------------------------------------------------------------------------

  lemma LinksSurvive(s: Tables, step: Step, t: Tables, links: LinkMap)
    requires Effect(s, step, t) && Linked(s, links)
    ensures Linked(t, links)
  {
    forall r | r in links ensures LinkHolds(t, links[r], r) {
      EffectEvolves(s, step, t, links[r]);
      EffectEvolves(s, step, t, r);
    }
  }

  /** A superseded source no longer runs, so no earlier link can share it with a new claim. */
  lemma ClaimAddsLink(s: Tables, c: ResumeClaim, t: Tables, links: LinkMap)
    requires ClaimMoves(s, c, t) && Linked(s, links) && Linked(t, links)
    ensures Linked(t, links[c.replacementId := c.checkpointId])
    ensures c.replacementId !in links && c.replacementId !in links.Values && c.checkpointId !in links.Values
  {
    assert LinkHolds(t, c.checkpointId, c.replacementId);
    assert forall r :: r in links ==> LinkHolds(s, links[r], r);
  }

  lemma {:induction false} RunLinks(s: Tables, steps: seq<Step>)
    ensures Linked(Run(s, steps), Links(s, steps))
  {
    if steps != [] {
      var before, step := steps[..|steps| - 1], steps[|steps| - 1];
      var t := Run(s, before);
      RunLinks(s, before);
      StepHasEffect(t, step);
      LinksSurvive(t, step, Next(t, step), Links(s, before));
      if ClaimSucceeds(t, step) {
        ClaimHasEffect(t, step.claim);
        ClaimAddsLink(t, step.claim, Next(t, step), Links(s, before));
      }
    }
  }

  /** The position in the run of the claim that installed the checkpoint, or zero. */
  ghost function Rank(s: Tables, steps: seq<Step>, id: CheckpointId): (n: nat)
    ensures n <= |steps|
  {
    if steps == [] then 0
    else
      var before, step := steps[..|steps| - 1], steps[|steps| - 1];
      if ClaimSucceeds(Run(s, before), step) && step.claim.replacementId == id then |steps|
      else Rank(s, before, id)
  }

  lemma ClaimIsFresh(s: Tables, steps: seq<Step>, step: Step)
    requires ClaimSucceeds(Run(s, steps), step)
    ensures step.claim.replacementId != step.claim.checkpointId
    ensures step.claim.replacementId !in Links(s, steps) && step.claim.replacementId !in Links(s, steps).Values
  {
    var t := Run(s, steps);
    RunLinks(s, steps);
    StepHasEffect(t, step);
    ClaimHasEffect(t, step.claim);
    LinksSurvive(t, step, Next(t, step), Links(s, steps));
    ClaimAddsLink(t, step.claim, Next(t, step), Links(s, steps));
  }

  lemma {:induction false} RankRises(s: Tables, steps: seq<Step>, r: CheckpointId)
    requires r in Links(s, steps)
    ensures Rank(s, steps, Links(s, steps)[r]) < Rank(s, steps, r)
  {
    var before, step := steps[..|steps| - 1], steps[|steps| - 1];
    if ClaimSucceeds(Run(s, before), step) {
      ClaimIsFresh(s, before, step);
      if r != step.claim.replacementId {
        RankRises(s, before, r);
      }
    } else {
      RankRises(s, before, r);
    }
  }

  // ---------------------------------------------------------------------------
  // Chains
  // ---------------------------------------------------------------------------

  /** A chain never returns to a checkpoint it has left. */
  lemma {:induction false} ChainsAreAcyclic(s: Tables, steps: seq<Step>, p: seq<CheckpointId>)
    requires Path(Links(s, steps), p) && |p| > 1
    ensures p[0] != p[|p| - 1]
    ensures Rank(s, steps, p[0]) < Rank(s, steps, p[|p| - 1])
  {
    RankRises(s, steps, p[|p| - 1]);
    if |p| > 2 {
      ChainsAreAcyclic(s, steps, p[..|p| - 1]);
    }
  }

  lemma {:induction false} PathsDoNotBranch(t: Tables, links: LinkMap, p: seq<CheckpointId>, q: seq<CheckpointId>)
    requires Linked(t, links) && Path(links, p) && Path(links, q) && p[0] == q[0] && |p| <= |q|
    ensures p == q[..|p|]
    decreases |p| + |q|
  {
    if |p| < |q| {
      PathsDoNotBranch(t, links, p, q[..|q| - 1]);
    } else if |p| > 1 {
      PathsDoNotBranch(t, links, p[..|p| - 1], q[..|q| - 1]);
      assert p[|p| - 2] == p[..|p| - 1][|p| - 2] == q[|q| - 2];
      assert p == p[..|p| - 1] + [p[|p| - 1]] && q == q[..|q| - 1] + [q[|q| - 1]];
    }
  }

  lemma {:induction false} PathsAttenuate(t: Tables, links: LinkMap, p: seq<CheckpointId>)
    requires Linked(t, links) && Path(links, p) && p[0] in t.checkpoints
    ensures p[|p| - 1] in t.checkpoints
    ensures t.checkpoints[p[|p| - 1]].identity == t.checkpoints[p[0]].identity
    ensures SubsetOf(t.checkpoints[p[|p| - 1]].caps, t.checkpoints[p[0]].caps)
    ensures forall k :: 0 <= k < |p| - 1 ==> WasSuperseded(t, p[k])
  {
    if |p| > 1 {
      var before := p[..|p| - 1];
      PathsAttenuate(t, links, before);
      assert LinkHolds(t, p[|p| - 2], p[|p| - 1]);
      forall k | 0 <= k < |p| - 1 ensures WasSuperseded(t, p[k]) {
        assert p[k] == before[k];
      }
    }
  }

  /**
   Along any chain of any run: identity is fixed, capabilities only shrink from the first row to the
   last, and every checkpoint that has a successor was superseded, so it never runs again.
   */
  lemma ChainsAttenuate(s: Tables, steps: seq<Step>, p: seq<CheckpointId>)
    requires Path(Links(s, steps), p) && p[0] in Run(s, steps).checkpoints
    ensures var rows := Run(s, steps).checkpoints;
            && p[|p| - 1] in rows
            && rows[p[|p| - 1]].identity == rows[p[0]].identity
            && SubsetOf(rows[p[|p| - 1]].caps, rows[p[0]].caps)
            && forall k :: 0 <= k < |p| - 1 ==> WasSuperseded(Run(s, steps), p[k])
  {
    RunLinks(s, steps);
    PathsAttenuate(Run(s, steps), Links(s, steps), p);
  }

  /** Chains are disjoint: of two chains from one checkpoint, the longer continues the shorter. */
  lemma ChainsDoNotBranch(s: Tables, steps: seq<Step>, p: seq<CheckpointId>, q: seq<CheckpointId>)
    requires Path(Links(s, steps), p) && Path(Links(s, steps), q) && p[0] == q[0] && |p| <= |q|
    ensures p == q[..|p|]
  {
    RunLinks(s, steps);
    PathsDoNotBranch(Run(s, steps), Links(s, steps), p, q);
  }

  lemma {:induction false} Suffix(links: LinkMap, q: seq<CheckpointId>, k: nat)
    requires Path(links, q) && k < |q|
    ensures Path(links, q[k..])
  {
    if k < |q| - 1 {
      Suffix(links, q[..|q| - 1], k);
      assert q[..|q| - 1][k..] == q[k..][..|q| - k - 1];
    } else {
      assert |q[k..]| == 1;
    }
  }

  /** At most one member of a chain is running. */
  lemma OneRunningPerChain(s: Tables, steps: seq<Step>, p: seq<CheckpointId>, q: seq<CheckpointId>)
    requires Path(Links(s, steps), p) && Path(Links(s, steps), q) && p[0] == q[0]
    requires p[0] in Run(s, steps).checkpoints
    ensures var rows := Run(s, steps).checkpoints; var a, b := p[|p| - 1], q[|q| - 1];
            a in rows && b in rows && rows[a].status == Running && rows[b].status == Running ==> a == b
    decreases |p| > |q|
  {
    if |p| > |q| {
      OneRunningPerChain(s, steps, q, p);
    } else {
      ChainsDoNotBranch(s, steps, p, q);
      ChainsAttenuate(s, steps, p);
      Suffix(Links(s, steps), q, |p| - 1);
      ChainsAttenuate(s, steps, q[|p| - 1..]);
    }
  }

  // ---------------------------------------------------------------------------
  // Claims along a run
  // ---------------------------------------------------------------------------

  lemma {:induction false} RunSplits(s: Tables, steps: seq<Step>, i: nat)
    requires i <= |steps|
    ensures Run(Run(s, steps[..i]), steps[i..]) == Run(s, steps)
  {
    if i == |steps| {
      assert steps[..i] == steps;
    } else {
      RunSplits(s, steps[..|steps| - 1], i);
      assert steps[..|steps| - 1][..i] == steps[..i];
      assert steps[..|steps| - 1][i..] == steps[i..][..|steps[i..]| - 1];
    }
  }

  lemma ClaimedRowsStay(s: Tables, steps: seq<Step>, i: nat, j: nat, id: CheckpointId)
    requires i < j <= |steps| && id in Next(Run(s, steps[..i]), steps[i]).checkpoints
    ensures id in Run(s, steps[..j]).checkpoints
    ensures Evolves(Next(Run(s, steps[..i]), steps[i]).checkpoints[id], Run(s, steps[..j]).checkpoints[id])
  {
    assert steps[..i + 1][..i] == steps[..i];
    RunSplits(s, steps[..j], i + 1);
    assert steps[..j][..i + 1] == steps[..i + 1];
    RunEvolves(Run(s, steps[..i + 1]), steps[..j][i + 1..], id);
  }

  lemma MovesAreExclusive(s: Tables, c: ResumeClaim, t: Tables, s': Tables, c': ResumeClaim, t': Tables)
    requires ClaimMoves(s, c, t) && ClaimMoves(s', c', t')
    requires c.checkpointId in s'.checkpoints && Evolves(t.checkpoints[c.checkpointId], s'.checkpoints[c.checkpointId])
    requires c.replacementId in s'.checkpoints
    ensures c.checkpointId != c'.checkpointId && c.replacementId != c'.replacementId
              && c.checkpointId != c'.replacementId
  {
  }

  /** Each source is claimed at most once, and each replacement id is new when it is installed. */
  lemma ClaimsAreExclusive(s: Tables, steps: seq<Step>, i: nat, j: nat)
    requires i < j < |steps|
    requires ClaimSucceeds(Run(s, steps[..i]), steps[i]) && ClaimSucceeds(Run(s, steps[..j]), steps[j])
    ensures steps[i].claim.checkpointId != steps[j].claim.checkpointId
    ensures steps[i].claim.replacementId != steps[j].claim.replacementId
    ensures steps[i].claim.checkpointId != steps[j].claim.replacementId
  {
    var before, later := Run(s, steps[..i]), Run(s, steps[..j]);
    ClaimHasEffect(before, steps[i].claim);
    ClaimHasEffect(later, steps[j].claim);
    ClaimedRowsStay(s, steps, i, j, steps[i].claim.checkpointId);
    ClaimedRowsStay(s, steps, i, j, steps[i].claim.replacementId);
    MovesAreExclusive(before, steps[i].claim, Next(before, steps[i]), later, steps[j].claim, Next(later, steps[j]));
  }

  // ---------------------------------------------------------------------------
  // Claims alone do not advance the heartbeat
  // ---------------------------------------------------------------------------

  ghost predicate MakesNoProgress(steps: seq<Step>) {
    forall i :: 0 <= i < |steps| ==> !steps[i].UpsertStep? && !steps[i].TouchStep?
  }

  ghost predicate BeatsKept(s: Tables, t: Tables) {
    forall id :: id in s.checkpoints ==>
        id in t.checkpoints && t.checkpoints[id].lastHeartbeatAt == s.checkpoints[id].lastHeartbeatAt
  }

  ghost predicate BeatsAlong(t: Tables, links: LinkMap) {
    forall r :: r in links ==> r in t.checkpoints && links[r] in t.checkpoints
                               && t.checkpoints[r].lastHeartbeatAt == t.checkpoints[links[r]].lastHeartbeatAt
  }

  lemma EffectKeepsBeats(s: Tables, step: Step, t: Tables)
    requires Effect(s, step, t) && !step.UpsertStep? && !step.TouchStep?
    ensures BeatsKept(s, t)
  {
  }

  lemma {:induction false} RunKeepsBeats(s: Tables, steps: seq<Step>)
    requires MakesNoProgress(steps)
    ensures BeatsAlong(Run(s, steps), Links(s, steps))
  {
    if steps != [] {
      var before, step := steps[..|steps| - 1], steps[|steps| - 1];
      var t := Run(s, before);
      RunKeepsBeats(s, before);
      StepHasEffect(t, step);
      EffectKeepsBeats(t, step, Next(t, step));
      if ClaimSucceeds(t, step) {
        ClaimHasEffect(t, step.claim);
      }
    }
  }

  /** However often a checkpoint is claimed, without an upsert or a touch the chain keeps its first heartbeat. */
  lemma {:induction false} ClaimsKeepHeartbeat(s: Tables, steps: seq<Step>, p: seq<CheckpointId>)
    requires MakesNoProgress(steps)
    requires Path(Links(s, steps), p) && p[0] in Run(s, steps).checkpoints
    ensures p[|p| - 1] in Run(s, steps).checkpoints
    ensures Run(s, steps).checkpoints[p[|p| - 1]].lastHeartbeatAt == Run(s, steps).checkpoints[p[0]].lastHeartbeatAt
  {
    RunKeepsBeats(s, steps);
    if |p| > 1 {
      ClaimsKeepHeartbeat(s, steps, p[..|p| - 1]);
    }
  }
}
