/** A shard's replica (replication/lr/replica.cc), on the path of MODE_PARALLEL: what each
    request does to its state, and what it sends. */
module LrReplicaSpec {
  import opened CommitMessages

  /** The live part of class Transaction (store/common/transaction.h): `out` are the
      transactions that read this one's writes before it committed, `incoming` counts the
      transactions this one has to wait for. */
  datatype Txn = Txn(writes: map<string, string>, participants: seq<nat>, primaryShard: nat,
                     out: seq<nat>, incoming: nat)

  /** struct PendingTransaction. */
  datatype PendingTxn = PendingTxn(lsn: nat, participants: seq<nat>, primaryShard: nat,
                                   hasPreCommit: bool, quorum: set<nat>, reachConsensus: bool)

  /** `marked` are the log positions whose entry has been given the state COMMIT;
      `precommitted` is the part of the store this file relies on: the transactions
      pre-committed there and not committed. */
  datatype Replica = Replica(
    shard: nat,
    id: nat,
    n: nat,
    f: nat,
    log: map<nat, Entry>,
    last: nat,
    marked: set<nat>,
    pendingTxns: map<nat, PendingTxn>,
    activeTxns: map<nat, Txn>,
    committedTxns: set<nat>,
    inDependency: map<nat, int>,
    precommitted: set<nat>)

  function Waiting(r: Replica, tid: nat): int {
    if tid in r.inDependency then r.inDependency[tid] else 0
  }

  /** A C int as an unsigned 64-bit number. */
  function Unsigned(i: int): nat {
    if i < 0 then i % 0x1_0000_0000_0000_0000 else i
  }

  // ----- Leader: HandlePrepareTxn, InvokeReplicateTxn, ReplicateTxn -----

  /** A lsn that is not in the log reads as a default entry. */
  function ReplicateMessage(r: Replica, req: PendingTxn): Message
    requires r.n > 0
  {
    ReplicateTxn(r.shard, if req.lsn in r.log then r.log[req.lsn] else Entry(0, 0, map[]),
                 req.primaryShard % r.n, req.primaryShard, req.participants, req.hasPreCommit)
  }

  /** The transaction enters the log at the next position. */
  function AddToLog(r: Replica, tid: nat, writes: map<string, string>): Replica {
    r.(log := r.log[r.last := Entry(r.last, tid, writes)], last := r.last + 1)
  }

  /** A transaction that is being replicated already is sent again as it was. */
  function InvokeReplicate(r: Replica, lsn: nat, tid: nat, hasPreCommit: bool): (Replica, seq<Message>)
    requires r.n > 0 && tid in r.activeTxns
  {
    if tid in r.pendingTxns then (r, [ReplicateMessage(r, r.pendingTxns[tid])])
    else
      var txn := r.activeTxns[tid];
      var req := PendingTxn(lsn, txn.participants, txn.primaryShard, hasPreCommit, {}, false);
      (r.(pendingTxns := r.pendingTxns[tid := req]), [ReplicateMessage(r, req)])
  }

  /** The requests that HandlePrepareTxn answers without preparing anything. */
  predicate AlreadyKnown(r: Replica, tid: nat) {
    || Waiting(r, tid) == -1
    || tid in r.committedTxns
    || (tid in r.pendingTxns && r.pendingTxns[tid].reachConsensus)
  }

  /** A new transaction with its counter, in the list of active ones and in the log. */
  function Admit(r: Replica, tid: nat, writes: map<string, string>, participants: seq<nat>,
                 primaryShard: nat, incoming: nat): Replica {
    var txn := Txn(writes, participants, primaryShard, [], incoming);
    AddToLog(r.(activeTxns := r.activeTxns[tid := txn]), tid, writes)
  }

  /** `passes` is the store's verdict on the transaction.  The counter is signed while the
      transaction reads and unsigned 64-bit from then on. */
  function HandlePrepare(r: Replica, tid: nat, writes: map<string, string>, participants: seq<nat>,
                         primaryShard: nat, passes: bool): (Replica, seq<Message>)
    requires r.n > 0
  {
    if Waiting(r, tid) == -1 then (r.(inDependency := r.inDependency - {tid}), [])
    else if AlreadyKnown(r, tid) then (r, [])
    else
      var incoming := Unsigned(Waiting(r, tid));
      var started := r.(inDependency := r.inDependency - {tid});
      if !passes then (started, [])
      else InvokeReplicate(Admit(started, tid, writes, participants, primaryShard, incoming),
                           r.last, tid, incoming > 0)
  }

  /** The timer of a pending transaction. */
  function Resend(r: Replica, tid: nat): seq<Message>
    requires r.n > 0
  {
    if tid in r.pendingTxns then [ReplicateMessage(r, r.pendingTxns[tid])] else []
  }

  /** HandleReplicateTransactionReply: a quorum of replicas holds the entry. */
  function HandleReplicateReply(r: Replica, tid: nat, replica: nat): Replica {
    if tid !in r.pendingTxns || r.pendingTxns[tid].reachConsensus then r
    else
      var req := r.pendingTxns[tid];
      var quorum := req.quorum + {replica};
      r.(pendingTxns := r.pendingTxns[tid :=
           req.(quorum := quorum, reachConsensus := |quorum| >= r.f + 1)])
  }

  // ----- Leader: reads, the pre-commit decision and the commit -----

  /** The dependency bookkeeping changes out lists and counters and nothing else. */
  ghost predicate SameButCounters(r: Replica, r': Replica) {
    && r' == r.(activeTxns := r'.activeTxns, inDependency := r'.inDependency)
    && r'.activeTxns.Keys == r.activeTxns.Keys
    && forall t :: t in r.activeTxns ==>
         r'.activeTxns[t] == r.activeTxns[t].(out := r'.activeTxns[t].out, incoming := r'.activeTxns[t].incoming)
  }

  /** One key of HandleRead, for which the store reported `dependency` (0 for none). */
  function ReadKey(r: Replica, tid: nat, dependency: nat): Replica {
    if dependency == 0 || dependency !in r.activeTxns then r
    else
      var txn := r.activeTxns[dependency];
      r.(activeTxns := r.activeTxns[dependency := txn.(out := txn.out + [tid])],
         inDependency := r.inDependency[tid := Waiting(r, tid) + 1])
  }

  function HandleRead(r: Replica, tid: nat, dependencies: seq<nat>): (r': Replica)
    ensures SameButCounters(r, r')
    decreases |dependencies|
  {
    if dependencies == [] then r
    else HandleRead(ReadKey(r, tid, dependencies[0]), tid, dependencies[1..])
  }

  /** HandleDecisionFromCoordinatorReplica, for a transaction that is to commit. */
  function HandleDecision(r: Replica, tid: nat): Replica {
    if tid !in r.pendingTxns then r
    else r.(precommitted := r.precommitted + {tid}, committedTxns := r.committedTxns + {tid})
  }

  /** One transaction of an out list, when the transaction it waited for commits. */
  function Release(r: Replica, waiter: nat, coordinator: nat): (Replica, seq<Message>) {
    if waiter in r.activeTxns then
      var txn := r.activeTxns[waiter];
      var left := if txn.incoming > 0 then txn.incoming - 1 else 0;
      (r.(activeTxns := r.activeTxns[waiter := txn.(incoming := left)]),
       if left == 0 then [DependenciesCleared(coordinator, waiter, r.shard)] else [])
    else (r.(inDependency := r.inDependency[waiter := Waiting(r, waiter) - 1]), [])
  }

  /** The loop of notifyForFollowingDependenies. */
  function ReleaseAll(r: Replica, waiters: seq<nat>, coordinator: nat): (out: (Replica, seq<Message>))
    ensures SameButCounters(r, out.0)
    decreases |waiters|
  {
    if waiters == [] then (r, [])
    else
      var (r1, m1) := Release(r, waiters[0], coordinator);
      var (r2, m2) := ReleaseAll(r1, waiters[1..], coordinator);
      (r2, m1 + m2)
  }

  /** Log::SetStatus with COMMIT: the position is marked if there is an entry at it. */
  function Mark(r: Replica, lsn: nat): Replica {
    if lsn in r.log then r.(marked := r.marked + {lsn}) else r
  }

  /** HandleCommit, for a transaction that commits.  The status is set at the position that has
      the transaction's id as its number. */
  function HandleCommit(r: Replica, tid: nat, timestamp: nat): (Replica, seq<Message>)
    requires r.n > 0
  {
    if tid !in r.pendingTxns || tid !in r.activeTxns then (r, [])
    else
      var req := r.pendingTxns[tid];
      var applied := Mark(r, tid).(precommitted := r.precommitted - {tid});
      var (released, sends) := ReleaseAll(applied, r.activeTxns[tid].out, req.primaryShard % r.n);
      (released.(pendingTxns := released.pendingTxns - {tid},
                 activeTxns := released.activeTxns - {tid},
                 committedTxns := released.committedTxns + {tid}),
       [ReplicateCommit(r.shard, req.lsn, tid, timestamp)] + sends)
  }

  // ----- Follower -----

  /** HandleReplicateTransaction: the entry is logged once, and every copy of the request is
      answered to the leader and, with the leader's vote, to the co-located coordinator.  The
      vote's timestamp is never set. */
  function HandleReplicate(r: Replica, m: Message): (Replica, seq<Message>)
    requires m.ReplicateTxn?
  {
    var e := m.entry;
    var r' := if e.lsn in r.log then r
              else r.(log := r.log[e.lsn := e],
                      activeTxns := r.activeTxns[e.txn := Txn(e.writes, m.participants, 0, [], 0)]);
    (r', [ReplicateReply(r.shard, e.lsn, e.txn, r.id),
          ReplyAndVote(r.id, e.txn, r.shard, r.id, PREPARED, m.participants, m.primaryShard,
                       m.primaryCoordinator, 0, m.hasPreCommit)])
  }

  /** HandleReplicateCommit. */
  function HandleReplicateCommit(r: Replica, tid: nat): Replica {
    r.(activeTxns := r.activeTxns - {tid})
  }
}
