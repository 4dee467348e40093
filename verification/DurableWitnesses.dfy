/** Short runs from empty tables that reach the states a caller might not expect. */
module DurableWitnesses {
  import opened Wrappers
  import opened DurableModel
  import opened DurableRevocation

  /** A first checkpoint of a run that started one millisecond after the epoch. */
  function SampleRecord(): Record {
    var scope := ConversationScope("tenant", "agent", AgentPartition);
    Record("checkpoint", Identity("root", "tenant", "agent", DigestOf(scope), scope, "principal", None, User),
           Payload(Flat([]), Budget(1.0, 0, 0.0), None, None, None), [], [], 0.0, None, Running, 1.0, None, None)
  }

  lemma FirstCheckpoint()
    ensures ValidRecord(SampleRecord())
    ensures Apply(NoTables, UpsertStep(SampleRecord(), 1.0)) ==
              (Tables(map["checkpoint" := ToRow(SampleRecord(), 1.0)], map["root" := None]), Written(Ok(())))
  {
    assert RowIds(NoTables, "root") == {} && RunningIds(NoTables, "root") == {};
    assert FloorError(NoTables, SampleRecord()).None?;
  }

  /** Two accepted calls reach an unreadable row: a checkpoint, then a heartbeat before its budget began. */
  lemma HeartbeatCanSpoilRow()
    ensures var s := Next(Next(NoTables, UpsertStep(SampleRecord(), 1.0)), TouchStep("checkpoint", 0.0, 2.0));
            "checkpoint" in s.checkpoints && !ValidRow("checkpoint", s.checkpoints["checkpoint"])
  {
    FirstCheckpoint();
  }

  /**
   A checkpoint, then a revoking upsert of it that asks for one capability more: it is refused, and
   leaves a tombstoned root with a row that still runs.
   */
  lemma RefusedRevocationCanLeaveRunning()
    ensures var s := Next(NoTables, UpsertStep(SampleRecord(), 1.0));
            var (t, out) := Apply(s, UpsertStep(SampleRecord().(status := Revoked, caps := [Spawn]), 2.0));
            && out == Written(Err(IdentityMismatch))
            && Tombstoned(t, "root") && RunningIds(t, "root") == {"checkpoint"}
  {
    FirstCheckpoint();
    var s, r := Next(NoTables, UpsertStep(SampleRecord(), 1.0)), SampleRecord().(status := Revoked, caps := [Spawn]);
    assert Spawn in r.caps && Spawn !in s.checkpoints["checkpoint"].caps;
    RefusedRevocationTombstones(s, r, 2.0);
  }
}
