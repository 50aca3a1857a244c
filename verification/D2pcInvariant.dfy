/** What every step of the parallel commit protocol keeps. */
module D2pcInvariant {
  import opened CommitMessages
  import opened Counting
  import opened D2pcSystem
  import C = CoordinatorSpec
  import R = LrReplicaSpec

  /** History only grows. */
  ghost predicate Later(f: Facts, g: Facts) {
    && f.validated <= g.validated && f.handled <= g.handled && f.stored <= g.stored
    && f.free <= g.free && f.noticed <= g.noticed && f.applied <= g.applied && f.dependsOn <= g.dependsOn
    && f.announced <= g.announced
  }

  /** Shard `p` has the transaction on `replicas`, each counted once. */
  ghost predicate Replicated(f: Facts, p: nat, t: nat, replicas: seq<nat>) {
    && Distinct(replicas)
    && forall r :: r in replicas ==> (p, r, t) in f.stored
  }

  ghost predicate OnMajority(cfg: Config, f: Facts, p: nat, t: nat) {
    exists replicas :: Replicated(f, p, t, replicas) && |replicas| >= C.Majority(cfg.n)
  }

  ghost predicate AllValidated(cfg: Config, f: Facts, t: nat) {
    forall p :: p in cfg.participants(t) ==> (p, t) in f.validated
  }

  /** Every participant has the transaction at its replica beside coordinator `id`. */
  ghost predicate AllBeside(cfg: Config, f: Facts, id: nat, t: nat) {
    forall p :: p in cfg.participants(t) ==> (p, id, t) in f.stored
  }

  /** What coordinator `id` has been told: shard `s` has no dependency of `t` left. */
  ghost predicate Cleared(f: Facts, s: nat, id: nat, t: nat) {
    (s, t) in f.free || (s, id, t) in f.noticed
  }

  /** What a commit decision rests on. */
  ghost predicate Backed(cfg: Config, f: Facts, t: nat)
    requires cfg.n > 0
  {
    && cfg.participants(t) != []
    && AllValidated(cfg, f, t)
    && AllBeside(cfg, f, cfg.PrimaryCoordinator(t), t)
    && (forall p :: p in cfg.participants(t) ==> OnMajority(cfg, f, p, t))
    && (forall p :: p in cfg.participants(t) ==> Cleared(f, p, cfg.PrimaryCoordinator(t), t))
  }

  ghost predicate Announced(cfg: Config, f: Facts, t: nat)
    requires cfg.n > 0
  {
    (cfg.PrimaryCoordinator(t), t) in f.announced
  }

  /** The replicas that answer replication requests. */
  ghost predicate Reports(cfg: Config, s: nat, r: nat) {
    cfg.loopback || r != cfg.leader(s)
  }

  ghost predicate FactsOk(cfg: Config, f: Facts)
    requires cfg.n > 0
  {
    && (forall s, t :: (s, t) in f.validated ==> s in cfg.participants(t))
    && (forall s, r, t :: (s, r, t) in f.stored ==> (s, t) in f.validated && r < cfg.n && Reports(cfg, s, r))
    && (forall s, t :: (s, t) in f.free ==> s in cfg.participants(t))
    && (forall s, c, t :: (s, c, t) in f.noticed ==> s in cfg.participants(t))
    && (forall s, t :: (s, t) in f.applied ==> Announced(cfg, f, t))
    && (forall c, t :: (c, t) in f.announced ==> c == cfg.PrimaryCoordinator(t) && Backed(cfg, f, t))
    && Distinct(f.announced)
  }

  // ----- Messages -----

  ghost predicate MessageOk(cfg: Config, f: Facts, m: Message)
    requires cfg.n > 0
  {
    match m
    case ReplicateTxn(s, e, pc, ps, parts, pre) =>
      && s < cfg.shards
      && (s, e.txn) in f.validated
      && OfTxn(cfg, e.txn, parts, ps) && pc == cfg.PrimaryCoordinator(e.txn)
      && (!pre ==> (s, e.txn) in f.free)
    case ReplyAndVote(to, t, s, r, vote, parts, ps, pc, ts, pre) =>
      && to == r && vote == PREPARED && ts == 0
      && (s, r, t) in f.stored
      && OfTxn(cfg, t, parts, ps) && pc == cfg.PrimaryCoordinator(t)
      && (!pre ==> (s, t) in f.free)
    case BypassReply(to, t, s, r) => to == cfg.PrimaryCoordinator(t) && (s, r, t) in f.stored
    case BypassReplyUnion(_, _, _, _) => false
    case DependenciesCleared(to, t, s) => (s, to, t) in f.noticed
    case NotifyDecision(_, _, t, state, ts) => state == PREPARED && ts == 0 && AllValidated(cfg, f, t)
    case NotifyReplicateResult(s, c, t, ts) => ts == 0 && s == cfg.primary(t) && (c, t) in f.announced
    case ReplicateDecision(t, state, ts) => state == PREPARED && ts == 0 && Announced(cfg, f, t)
    case ReplyDecision(to, t, _, ts) => to == cfg.PrimaryCoordinator(t) && ts == 0 && Announced(cfg, f, t)
    case ReplicateReply(_, _, _, _) => true
    case ReplicateCommit(_, _, _, ts) => ts == 0
  }

  ghost predicate OfTxn(cfg: Config, t: nat, parts: seq<nat>, primaryShard: nat) {
    parts == cfg.participants(t) && primaryShard == cfg.primary(t)
  }

  // ----- Coordinators -----

  /** A coordinator's votes come from the replicas beside it. */
  ghost predicate VotesOk(cfg: Config, f: Facts, id: nat, t: nat, votes: map<nat, CommitResult>) {
    forall s :: s in votes ==>
      votes[s] == PREPARED && s in cfg.participants(t) && (s, t) in f.validated && (s, id, t) in f.stored
  }

  ghost predicate DependenciesOk(cfg: Config, f: Facts, id: nat, t: nat, dependencies: map<nat, bool>) {
    forall s :: s in dependencies ==>
      s in cfg.participants(t) && (!dependencies[s] ==> Cleared(f, s, id, t))
  }

  ghost predicate ResultsOk(cfg: Config, f: Facts, t: nat, results: map<nat, seq<nat>>) {
    forall s :: s in results ==> s in cfg.participants(t) && Replicated(f, s, t, results[s])
  }

  ghost predicate AllReplicated(cfg: Config, t: nat, results: map<nat, seq<nat>>) {
    && cfg.participants(t) != []
    && forall p :: p in cfg.participants(t) ==> p in results && |results[p]| >= C.Majority(cfg.n)
  }

  ghost predicate PendingOk(cfg: Config, f: Facts, id: nat, t: nat, req: C.Pending)
    requires cfg.n > 0
  {
    && req.timestamp == 0
    && (req.participants == [] || OfTxn(cfg, t, req.participants, req.primaryShard))
    && (id != cfg.PrimaryCoordinator(t) ==>
          OfTxn(cfg, t, req.participants, req.primaryShard) && req.replicateResults == map[])
    && VotesOk(cfg, f, id, t, req.votes)
    && DependenciesOk(cfg, f, id, t, req.dependencies)
    && ResultsOk(cfg, f, t, req.replicateResults)
    && (req.reachConsensus ==>
          && OfTxn(cfg, t, req.participants, req.primaryShard) && req.state == PREPARED
          && AllValidated(cfg, f, t) && AllBeside(cfg, f, id, t))
    && (req.reachFaultTolerance ==>
          && id == cfg.PrimaryCoordinator(t) && req.participants == cfg.participants(t)
          && AllReplicated(cfg, t, req.replicateResults))
  }

  /** The primary coordinator records its commit decision; the others, told PREPARED, file an
      abort. */
  ghost predicate ResultOk(cfg: Config, f: Facts, id: nat, t: nat, result: C.CommitState)
    requires cfg.n > 0
  {
    && Announced(cfg, f, t)
    && if id == cfg.PrimaryCoordinator(t)
       then result.faultTolerant && (result.state == PREPARED || result.state == COMMIT)
       else result == C.CommitState(ABORT, false)
  }

  ghost predicate CoordinatorOk(cfg: Config, f: Facts, c: C.Coordinator)
    requires cfg.n > 0
  {
    && c.n == cfg.n
    && c.pendingCommits.Keys !! c.commitResults.Keys
    && (forall t :: t in c.pendingCommits ==> PendingOk(cfg, f, c.id, t, c.pendingCommits[t]))
    && (forall t :: t in c.commitResults ==> ResultOk(cfg, f, c.id, t, c.commitResults[t]))
    && (forall t :: (c.id, t) in f.announced ==> t in c.commitResults)
  }

  // ----- Replicas -----

  ghost predicate LogOk(f: Facts, s: nat, r: R.Replica) {
    && (forall l :: l in r.log ==> l < r.last && r.log[l].lsn == l && (s, r.log[l].txn) in f.validated)
    && (forall t :: (s, t) in f.validated ==> Logged(r, t))
  }

  ghost predicate Logged(r: R.Replica, t: nat) {
    exists l :: l in r.log && r.log[l].txn == t
  }

  ghost predicate PendingTxnOk(cfg: Config, f: Facts, s: nat, r: R.Replica, t: nat)
    requires t in r.pendingTxns
  {
    var req := r.pendingTxns[t];
    && req.lsn in r.log && r.log[req.lsn].txn == t
    && OfTxn(cfg, t, req.participants, req.primaryShard)
    && t in r.activeTxns
    && (!req.hasPreCommit ==> (s, t) in f.free)
  }

  ghost predicate LeaderOk(cfg: Config, f: Facts, s: nat, r: R.Replica) {
    && LogOk(f, s, r)
    && (forall t :: t in r.pendingTxns ==> PendingTxnOk(cfg, f, s, r, t))
    && (forall t :: t in r.activeTxns ==> s in cfg.participants(t))
    && r.precommitted <= r.pendingTxns.Keys
  }

  ghost predicate FollowerOk(f: Facts, x: Node, r: R.Replica, leader: R.Replica) {
    && (forall l :: l in r.log ==> l in leader.log && r.log[l] == leader.log[l])
    && (forall t :: (x.shard, x.replica, t) in f.stored ==> Logged(r, t))
  }

  /** Replication requests carry entries of the leader's log. */
  ghost predicate FromLog(cfg: Config, sys: System, m: Message)
    requires Shaped(cfg, sys)
  {
    m.ReplicateTxn? && m.shard < cfg.shards ==>
      var log := sys.replicas[Leader(cfg, m.shard)].log;
      m.entry.lsn in log && log[m.entry.lsn] == m.entry
  }

  ghost predicate AllOk(cfg: Config, f: Facts, sends: seq<Message>)
    requires cfg.n > 0
  {
    forall m :: m in sends ==> MessageOk(cfg, f, m)
  }

  ghost predicate MessagesOk(cfg: Config, f: Facts, net: set<Message>)
    requires cfg.n > 0
  {
    forall m :: m in net ==> MessageOk(cfg, f, m)
  }

  ghost predicate RequestsOk(cfg: Config, sys: System)
    requires Shaped(cfg, sys)
  {
    forall m :: m in sys.net ==> FromLog(cfg, sys, m)
  }

  ghost predicate CoordinatorsOk(cfg: Config, f: Facts, coordinators: map<nat, C.Coordinator>)
    requires cfg.n > 0
  {
    forall c :: c in coordinators ==> CoordinatorOk(cfg, f, coordinators[c])
  }

  ghost predicate LeadersOk(cfg: Config, sys: System)
    requires Shaped(cfg, sys)
  {
    forall s: nat :: s < cfg.shards ==> LeaderOk(cfg, sys.facts, s, sys.replicas[Leader(cfg, s)])
  }

  ghost predicate FollowersOk(cfg: Config, sys: System)
    requires Shaped(cfg, sys)
  {
    forall x :: x in sys.replicas && x.replica != cfg.leader(x.shard) ==>
      FollowerOk(sys.facts, x, sys.replicas[x], sys.replicas[Leader(cfg, x.shard)])
  }

  ghost predicate Inv(cfg: Config, sys: System) {
    && Shaped(cfg, sys)
    && FactsOk(cfg, sys.facts)
    && MessagesOk(cfg, sys.facts, sys.net)
    && RequestsOk(cfg, sys)
    && CoordinatorsOk(cfg, sys.facts, sys.coordinators)
    && LeadersOk(cfg, sys)
    && FollowersOk(cfg, sys)
  }

  // ----- Growth of history -----

  lemma BackedLater(cfg: Config, f: Facts, g: Facts, t: nat)
    requires cfg.n > 0 && Later(f, g) && Backed(cfg, f, t)
    ensures Backed(cfg, g, t)
  {
    forall p | p in cfg.participants(t) ensures OnMajority(cfg, g, p, t) {
      var replicas :| Replicated(f, p, t, replicas) && |replicas| >= C.Majority(cfg.n);
      assert Replicated(g, p, t, replicas);
    }
  }

  lemma MessageLater(cfg: Config, f: Facts, g: Facts, m: Message)
    requires cfg.n > 0 && Later(f, g) && MessageOk(cfg, f, m)
    ensures MessageOk(cfg, g, m)
  {
  }

  lemma PendingLater(cfg: Config, f: Facts, g: Facts, id: nat, t: nat, req: C.Pending)
    requires cfg.n > 0 && Later(f, g) && PendingOk(cfg, f, id, t, req)
    ensures PendingOk(cfg, g, id, t, req)
  {
  }

  lemma CoordinatorLater(cfg: Config, f: Facts, g: Facts, c: C.Coordinator)
    requires cfg.n > 0 && Later(f, g) && CoordinatorOk(cfg, f, c)
    requires forall t :: (c.id, t) in g.announced ==> (c.id, t) in f.announced
    ensures CoordinatorOk(cfg, g, c)
  {
    forall t | t in c.pendingCommits ensures PendingOk(cfg, g, c.id, t, c.pendingCommits[t]) {
      PendingLater(cfg, f, g, c.id, t, c.pendingCommits[t]);
    }
    forall t | t in c.commitResults ensures ResultOk(cfg, g, c.id, t, c.commitResults[t]) {
    }
  }
}
