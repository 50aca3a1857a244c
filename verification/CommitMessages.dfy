/** The messages of the parallel commit protocol (replication/commit/commit-proto.proto and
    replication/lr/lr-proto.proto), with the addressee where the transport carries it. */
module CommitMessages {

  datatype CommitResult = COMMIT | ABORT | PRECOMMIT | PREPARED

  /** A log entry.  The term is 0 throughout. */
  datatype Entry = Entry(lsn: nat, txn: nat, writes: map<string, string>)

  datatype Message =
      // leader -> the other replicas of its shard
    | ReplicateTxn(shard: nat, entry: Entry, primaryCoordinator: nat, primaryShard: nat,
                   participants: seq<nat>, hasPreCommit: bool)
      // replica -> leader
    | ReplicateReply(shard: nat, lsn: nat, tid: nat, replica: nat)
      // replica -> co-located coordinator
    | ReplyAndVote(to: nat, tid: nat, shard: nat, replica: nat, vote: CommitResult,
                   participants: seq<nat>, primaryShard: nat, primaryCoordinator: nat,
                   timestamp: nat, hasPreCommit: bool)
      // coordinator -> primary coordinator
    | BypassReply(to: nat, tid: nat, shard: nat, replica: nat)
    | BypassReplyUnion(to: nat, tid: nat, shards: seq<nat>, replica: nat)
      // leader -> coordinator
    | DependenciesCleared(to: nat, tid: nat, shard: nat)
      // coordinator -> leader with the same index
    | NotifyDecision(shard: nat, replica: nat, tid: nat, state: CommitResult, timestamp: nat)
    | NotifyReplicateResult(shard: nat, replica: nat, tid: nat, timestamp: nat)
      // primary coordinator -> the other coordinators, and back
    | ReplicateDecision(tid: nat, state: CommitResult, timestamp: nat)
    | ReplyDecision(to: nat, tid: nat, coordinator: nat, timestamp: nat)
      // leader -> the other replicas of its shard
    | ReplicateCommit(shard: nat, lsn: nat, tid: nat, timestamp: nat)
}
