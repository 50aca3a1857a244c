/** What a leader tells its followers in parallel commit: every commit it applies, and again every
    transaction it is still replicating. */
module D2pcCommits {
  import opened CommitMessages
  import opened Counting
  import opened D2pcSystem
  import opened D2pcInvariant
  import C = CoordinatorSpec
  import R = LrReplicaSpec
  import Re = D2pcReplica
  import Th = D2pcTheorems

  /** A step of a replica. */
  lemma ReplicaStep(cfg: Config, sys: System, e: Event)
    requires Shaped(cfg, sys) && Enabled(cfg, sys, e) && !e.ToCoordinator?
    ensures Where(cfg, e) in sys.replicas && sys.replicas[Where(cfg, e)].n == cfg.n > 0
    ensures
      var x := Where(cfg, e);
      var out := React(cfg, sys.replicas[x], e);
      var next := Step(cfg, sys, e);
      && next.replicas == sys.replicas[x := out.0] && next.coordinators == sys.coordinators
      && next.net == sys.net + ToSet(out.1)
  {
    hide React, Record;
    Th.ApplyIs(cfg, sys, e);
  }

  // ----- What a leader has logged or committed stays -----

  ghost predicate Grows(r: R.Replica, r': R.Replica) {
    Re.LogGrows(r.log, r'.log) && r.committedTxns <= r'.committedTxns
  }

  ghost predicate LeadersGrow(cfg: Config, sys: System, next: System) {
    forall s: nat :: s < cfg.shards ==>
      && Leader(cfg, s) in sys.replicas && Leader(cfg, s) in next.replicas
      && Grows(sys.replicas[Leader(cfg, s)], next.replicas[Leader(cfg, s)])
  }

  lemma PrepareGrows(r: R.Replica, tid: nat, writes: map<string, string>, parts: seq<nat>, primary: nat, passes: bool)
    requires r.n > 0 && forall l :: l in r.log ==> l < r.last
    ensures Grows(r, R.HandlePrepare(r, tid, writes, parts, primary, passes).0)
  {
  }

  lemma CommitKeepsLog(r: R.Replica, tid: nat, timestamp: nat)
    requires r.n > 0
    ensures
      var r' := R.HandleCommit(r, tid, timestamp).0;
      r'.log == r.log && r'.committedTxns == r.committedTxns + if Commits(r, tid) then {tid} else {}
  {
    hide R.ReleaseAll;
    if Commits(r, tid) {
      var a := R.Mark(r, tid).(precommitted := r.precommitted - {tid});
      assert R.SameButCounters(a, R.ReleaseAll(a, r.activeTxns[tid].out, r.pendingTxns[tid].primaryShard % r.n).0) by {
        Released(a, r.activeTxns[tid].out, r.pendingTxns[tid].primaryShard % r.n);
      }
    }
  }

  lemma Released(r: R.Replica, waiters: seq<nat>, c: nat)
    ensures R.SameButCounters(r, R.ReleaseAll(r, waiters, c).0)
  {
  }

  /** Whatever happens at a leader. */
  lemma ReactGrows(cfg: Config, r: R.Replica, e: Event)
    requires r.n > 0 && forall l :: l in r.log ==> l < r.last
    requires e.ToReplica? && e.m.ReplicateTxn? ==> e.m.entry.lsn in r.log
    ensures Grows(r, React(cfg, r, e).0)
  {
    hide R.HandlePrepare, R.HandleCommit;
    match e
    case Prepare(_, tid, writes, passes) =>
      PrepareGrows(r, tid, writes, cfg.participants(tid), cfg.primary(tid), passes);
    case ClientCommit(_, tid, timestamp) => CommitKeepsLog(r, tid, timestamp);
    case ToReplica(m, at) =>
      if m.NotifyReplicateResult? {
        CommitKeepsLog(r, m.tid, m.timestamp);
      }
    case _ =>
  }

  lemma LeaderReactsGrow(cfg: Config, sys: System, e: Event)
    requires Inv(cfg, sys) && Enabled(cfg, sys, e) && !e.ToCoordinator?
    requires Where(cfg, e) == Leader(cfg, Where(cfg, e).shard) && Where(cfg, e).shard < cfg.shards
    ensures Where(cfg, e) in sys.replicas && sys.replicas[Where(cfg, e)].n > 0
    ensures Grows(sys.replicas[Where(cfg, e)], React(cfg, sys.replicas[Where(cfg, e)], e).0)
  {
    hide React;
    var x := Where(cfg, e);
    Th.LeaderIs(cfg, sys, x.shard);
    assert e.ToReplica? && e.m.ReplicateTxn? ==> FromLog(cfg, sys, e.m);
    ReactGrows(cfg, sys.replicas[x], e);
  }

  lemma StepGrows(cfg: Config, sys: System, e: Event)
    requires Inv(cfg, sys)
    ensures LeadersGrow(cfg, sys, Step(cfg, sys, e))
  {
    assert Shaped(cfg, sys);
    AllLeaders(cfg, sys);
    hide Inv, React, Record, Apply, C.Handle, Shaped;
    if Enabled(cfg, sys, e) {
      if e.ToCoordinator? {
        CoordinatorLeaves(cfg, sys, e);
      } else {
        ReplicaGrows(cfg, sys, e);
      }
    }
  }

  lemma AllLeaders(cfg: Config, sys: System)
    requires Shaped(cfg, sys)
    ensures forall s: nat :: s < cfg.shards ==> Leader(cfg, s) in sys.replicas
  {
  }

  lemma CoordinatorLeaves(cfg: Config, sys: System, e: Event)
    requires Shaped(cfg, sys) && Enabled(cfg, sys, e) && e.ToCoordinator?
    ensures Step(cfg, sys, e).replicas == sys.replicas
  {
    hide C.Handle;
  }

  lemma ReplicaGrows(cfg: Config, sys: System, e: Event)
    requires Inv(cfg, sys) && Enabled(cfg, sys, e) && !e.ToCoordinator?
    ensures LeadersGrow(cfg, sys, Step(cfg, sys, e))
  {
    assert Shaped(cfg, sys);
    hide Inv, React, Step;
    var x := Where(cfg, e);
    WhereIs(cfg, sys, e);
    ReplicaStep(cfg, sys, e);
    if x == Leader(cfg, x.shard) {
      LeaderReactsGrow(cfg, sys, e);
    }
    hide Enabled;
    OneGrows(cfg, sys, Step(cfg, sys, e), x);
  }

  lemma WhereIs(cfg: Config, sys: System, e: Event)
    requires Shaped(cfg, sys) && Enabled(cfg, sys, e) && !e.ToCoordinator?
    ensures Where(cfg, e).shard < cfg.shards
  {
  }

  lemma OneGrows(cfg: Config, sys: System, next: System, x: Node)
    requires Shaped(cfg, sys) && x in sys.replicas && x in next.replicas
    requires next.replicas == sys.replicas[x := next.replicas[x]]
    requires x == Leader(cfg, x.shard) ==> Grows(sys.replicas[x], next.replicas[x])
    ensures LeadersGrow(cfg, sys, next)
  {
  }

  // ----- A commit is replicated -----

  /** The leader of shard `s` knows `t` as committed, and the commit is on its way to the followers,
      with the position of the transaction's entry in the leader's log. */
  ghost predicate Told(cfg: Config, sys: System, s: nat, t: nat) {
    && Leader(cfg, s) in sys.replicas && t in sys.replicas[Leader(cfg, s)].committedTxns
    && exists l :: ReplicateCommit(s, l, t, 0) in sys.net
                   && l in sys.replicas[Leader(cfg, s)].log && sys.replicas[Leader(cfg, s)].log[l].txn == t
  }

  ghost predicate AllTold(cfg: Config, sys: System) {
    forall s, t :: (s, t) in sys.facts.applied ==> s < cfg.shards && Told(cfg, sys, s, t)
  }

  lemma ToldStays(cfg: Config, sys: System, next: System, s: nat, t: nat)
    requires Told(cfg, sys, s, t) && s < cfg.shards && sys.net <= next.net && LeadersGrow(cfg, sys, next)
    ensures Told(cfg, next, s, t)
  {
    var l :| ReplicateCommit(s, l, t, 0) in sys.net
             && l in sys.replicas[Leader(cfg, s)].log && sys.replicas[Leader(cfg, s)].log[l].txn == t;
    assert ReplicateCommit(s, l, t, 0) in next.net;
  }

  /** What a leader that commits sends first. */
  lemma CommitTells(r: R.Replica, t: nat)
    requires r.n > 0 && Commits(r, t)
    ensures ReplicateCommit(r.shard, r.pendingTxns[t].lsn, t, 0) in R.HandleCommit(r, t, 0).1
    ensures R.HandleCommit(r, t, 0).0.log == r.log && t in R.HandleCommit(r, t, 0).0.committedTxns
  {
    hide R.ReleaseAll;
    CommitKeepsLog(r, t, 0);
    assert R.HandleCommit(r, t, 0).1[0] == ReplicateCommit(r.shard, r.pendingTxns[t].lsn, t, 0);
  }

  /** The event by which a leader commits. */
  ghost predicate Applies(e: Event, s: nat, t: nat) {
    || (e.ClientCommit? && e.shard == s && e.tid == t)
    || (e.ToReplica? && e.m.NotifyReplicateResult? && e.m.shard == s && e.m.tid == t)
  }

  lemma AppliesIs(cfg: Config, sys: System, e: Event, s: nat, t: nat)
    requires Shaped(cfg, sys) && Enabled(cfg, sys, e)
    requires (s, t) in Step(cfg, sys, e).facts.applied && (s, t) !in sys.facts.applied
    ensures Applies(e, s, t) && Where(cfg, e) == Leader(cfg, s) && s < cfg.shards
    ensures Where(cfg, e) in sys.replicas && Commits(sys.replicas[Where(cfg, e)], t)
  {
    hide C.Handle, React;
    if !e.ToCoordinator? {
      Th.ApplyIs(cfg, sys, e);
      assert Step(cfg, sys, e).facts.applied == Record(sys.facts, sys.replicas[Where(cfg, e)], e).applied;
    }
  }

  lemma NewlyApplied(cfg: Config, sys: System, e: Event, s: nat, t: nat)
    requires Inv(cfg, sys) && Enabled(cfg, sys, e)
    requires (s, t) in Step(cfg, sys, e).facts.applied && (s, t) !in sys.facts.applied
    ensures s < cfg.shards && Told(cfg, Step(cfg, sys, e), s, t)
  {
    assert Shaped(cfg, sys);
    hide Step, React, R.HandleCommit, FactsOk, Shaped;
    AppliesIs(cfg, sys, e, s, t);
    ReplicaStep(cfg, sys, e);
    Th.LeaderIs(cfg, sys, s);
    var x := Leader(cfg, s);
    var r := sys.replicas[x];
    assert PendingTxnOk(cfg, sys.facts, s, r, t);
    Th.DecisionWasAnnounced(cfg, sys, t, if e.ClientCommit? then e.timestamp else e.m.timestamp);
    hide Inv, LeaderOk;
    CommitTells(r, t);
    CommitReacts(cfg, r, e, s, t);
    assert ReplicateCommit(s, r.pendingTxns[t].lsn, t, 0) in Step(cfg, sys, e).net;
  }

  lemma CommitReacts(cfg: Config, r: R.Replica, e: Event, s: nat, t: nat)
    requires r.n > 0 && Applies(e, s, t) && (if e.ClientCommit? then e.timestamp else e.m.timestamp) == 0
    ensures React(cfg, r, e) == R.HandleCommit(r, t, 0)
  {
    hide R.HandleCommit;
  }

  lemma StepTells(cfg: Config, sys: System, e: Event)
    requires Inv(cfg, sys) && AllTold(cfg, sys)
    ensures AllTold(cfg, Step(cfg, sys, e))
  {
    var next := Step(cfg, sys, e);
    StepGrows(cfg, sys, e);
    NetGrows(cfg, sys, e);
    hide Step, Inv, Told, LeadersGrow;
    forall s, t | (s, t) in next.facts.applied ensures s < cfg.shards && Told(cfg, next, s, t) {
      if (s, t) in sys.facts.applied {
        ToldStays(cfg, sys, next, s, t);
      } else {
        AppliedNeedsEvent(cfg, sys, e);
        NewlyApplied(cfg, sys, e, s, t);
      }
    }
  }

  lemma NetGrows(cfg: Config, sys: System, e: Event)
    requires Inv(cfg, sys)
    ensures sys.net <= Step(cfg, sys, e).net
  {
    if Enabled(cfg, sys, e) && !e.ToCoordinator? {
      Th.ApplyIs(cfg, sys, e);
      hide Inv, React, Record, Apply;
    } else {
      hide Inv, C.Handle;
    }
  }

  lemma AppliedNeedsEvent(cfg: Config, sys: System, e: Event)
    requires Inv(cfg, sys)
    ensures !Enabled(cfg, sys, e) ==> Step(cfg, sys, e) == sys
  {
  }

  lemma {:induction false} RunTells(cfg: Config, sys: System, events: seq<Event>)
    requires Inv(cfg, sys) && AllTold(cfg, sys)
    ensures AllTold(cfg, Run(cfg, sys, events))
    decreases |events|
  {
    assert Shaped(cfg, sys);
    hide Inv, AllTold, Step;
    if events != [] {
      Th.StepInv(cfg, sys, events[0]);
      StepTells(cfg, sys, events[0]);
      RunTells(cfg, Step(cfg, sys, events[0]), events[1..]);
    }
  }

  /** Every commit that a leader has applied has been sent to the followers, as a commit at time 0
      with the position of the transaction's entry in the leader's log. */
  lemma CommitIsReplicated(cfg: Config, end: System, s: nat, t: nat)
    requires Th.Reachable(cfg, end) && (s, t) in end.facts.applied
    ensures s < cfg.shards && Leader(cfg, s) in end.replicas && t in end.replicas[Leader(cfg, s)].committedTxns
    ensures exists l :: ReplicateCommit(s, l, t, 0) in end.net
                        && l in end.replicas[Leader(cfg, s)].log && end.replicas[Leader(cfg, s)].log[l].txn == t
  {
    var sys, events :| Initial(cfg, sys) && end == Run(cfg, sys, events);
    Th.InitialInv(cfg, sys);
    assert AllTold(cfg, sys);
    hide Inv, Run;
    RunTells(cfg, sys, events);
  }

  /** A prepare request for it that comes later is not prepared again: nothing is sent or logged. */
  lemma LatePrepareIsDropped(cfg: Config, end: System, s: nat, t: nat, writes: map<string, string>, passes: bool)
    requires Th.Reachable(cfg, end) && Shaped(cfg, end) && (s, t) in end.facts.applied
    ensures
      var x := Leader(cfg, s);
      var next := Step(cfg, end, Prepare(s, t, writes, passes));
      && x in end.replicas && x in next.replicas && next.net == end.net && next.coordinators == end.coordinators
      && next.replicas == end.replicas[x := end.replicas[x].(inDependency := next.replicas[x].inDependency)]
  {
    CommitIsReplicated(cfg, end, s, t);
    var e := Prepare(s, t, writes, passes);
    var x := Leader(cfg, s);
    var r := end.replicas[x];
    if Enabled(cfg, end, e) {
      ReplicaStep(cfg, end, e);
      assert React(cfg, r, e) == (r.(inDependency := React(cfg, r, e).0.inDependency), []);
      assert ToSet([]) == {};
    } else {
      assert end.replicas[x := r] == end.replicas;
    }
    hide Step, React;
  }

  /** A follower that gets it drops the transaction from its active ones, keeps its log, and no one
      else is touched. */
  lemma FollowerDrops(cfg: Config, end: System, m: Message, at: nat)
    requires Th.Reachable(cfg, end) && Shaped(cfg, end) && m in end.net && m.ReplicateCommit? && m.shard < cfg.shards
    requires at < cfg.n && at != cfg.leader(m.shard)
    ensures
      var x := Node(m.shard, at);
      var next := Step(cfg, end, ToReplica(m, at));
      && x in end.replicas && x in next.replicas && next.net == end.net && next.coordinators == end.coordinators
      && m.tid !in next.replicas[x].activeTxns && next.replicas[x].log == end.replicas[x].log
      && (forall t :: t != m.tid && t in end.replicas[x].activeTxns ==>
            t in next.replicas[x].activeTxns && next.replicas[x].activeTxns[t] == end.replicas[x].activeTxns[t])
      && (forall y :: y != x && y in end.replicas ==> y in next.replicas && next.replicas[y] == end.replicas[y])
  {
    hide Th.Reachable, Step;
    var e := ToReplica(m, at);
    var x := Node(m.shard, at);
    assert Enabled(cfg, end, e);
    ReplicaStep(cfg, end, e);
    hide Shaped;
    assert React(cfg, end.replicas[x], e) == (R.HandleReplicateCommit(end.replicas[x], m.tid), []);
    assert ToSet([]) == {};
  }

  // ----- Replication of a new transaction -----

  /** A transaction that the leader does not know and that its store accepts takes the next
      position of the log, and is sent to the followers from there. */
  lemma PrepareIsSent(cfg: Config, sys: System, s: nat, t: nat, writes: map<string, string>)
    requires Shaped(cfg, sys) && s in cfg.participants(t) && s < cfg.shards && Leader(cfg, s) in sys.replicas
    requires
      var r := sys.replicas[Leader(cfg, s)];
      !R.AlreadyKnown(r, t) && t !in r.pendingTxns && R.Waiting(r, t) >= 0
    ensures
      var x := Leader(cfg, s);
      var r := sys.replicas[x];
      var entry := Entry(r.last, t, writes);
      var next := Step(cfg, sys, Prepare(s, t, writes, true));
      && x in next.replicas && next.replicas[x].log == r.log[r.last := entry] && next.replicas[x].last == r.last + 1
      && ReplicateTxn(s, entry, cfg.primary(t) % cfg.n, cfg.primary(t), cfg.participants(t), R.Waiting(r, t) > 0)
           in next.net
      && t in next.replicas[x].pendingTxns && t in next.replicas[x].activeTxns
      && next.replicas[x].activeTxns[t] == R.Txn(writes, cfg.participants(t), cfg.primary(t), [], R.Waiting(r, t))
  {
    var e := Prepare(s, t, writes, true);
    var x := Leader(cfg, s);
    assert sys.replicas[x].shard == s;
    hide Step, Shaped;
    ReplicaStep(cfg, sys, e);
    var out := React(cfg, sys.replicas[x], e);
    assert |out.1| == 1 && out.1[0] in out.1;
  }

  /** One that the store refuses is neither logged nor sent. */
  lemma RefusedIsDropped(cfg: Config, sys: System, s: nat, t: nat, writes: map<string, string>)
    requires Shaped(cfg, sys) && s in cfg.participants(t) && s < cfg.shards && Leader(cfg, s) in sys.replicas
    ensures
      var x := Leader(cfg, s);
      var next := Step(cfg, sys, Prepare(s, t, writes, false));
      && x in next.replicas && next.net == sys.net && next.coordinators == sys.coordinators
      && next.replicas == sys.replicas[x := sys.replicas[x].(inDependency := next.replicas[x].inDependency)]
  {
    hide Step, Shaped;
    var e := Prepare(s, t, writes, false);
    var x := Leader(cfg, s);
    var r := sys.replicas[x];
    ReplicaStep(cfg, sys, e);
    assert React(cfg, r, e) == (r.(inDependency := React(cfg, r, e).0.inDependency), []);
    assert ToSet([]) == {};
  }

  /** A follower logs the entry under its position the first time, and answers every copy of the
      request to the leader and to the coordinator beside it. */
  lemma FollowerStores(cfg: Config, sys: System, m: Message, at: nat)
    requires Shaped(cfg, sys) && Enabled(cfg, sys, ToReplica(m, at)) && m.ReplicateTxn?
    ensures
      var x := Node(m.shard, at);
      var e := m.entry;
      var next := Step(cfg, sys, ToReplica(m, at));
      && x in sys.replicas && x in next.replicas && e.lsn in next.replicas[x].log
      && ReplicateReply(m.shard, e.lsn, e.txn, at) in next.net
      && ReplyAndVote(at, e.txn, m.shard, at, PREPARED, m.participants, m.primaryShard, m.primaryCoordinator, 0,
                      m.hasPreCommit) in next.net
      && (e.lsn in sys.replicas[x].log ==> next.replicas[x] == sys.replicas[x])
      && (e.lsn !in sys.replicas[x].log ==>
            && next.replicas[x].log == sys.replicas[x].log[e.lsn := e] && e.txn in next.replicas[x].activeTxns
            && next.replicas[x].activeTxns[e.txn] == R.Txn(e.writes, m.participants, 0, [], 0))
  {
    hide Step;
    var e := ToReplica(m, at);
    ReplicaStep(cfg, sys, e);
    var x := Node(m.shard, at);
    assert sys.replicas[x].shard == m.shard && sys.replicas[x].id == at;
    hide Shaped;
    var out := R.HandleReplicate(sys.replicas[x], m);
    assert out.1[0] in out.1 && out.1[1] in out.1;
  }

  /** The decision to commit makes a transaction's writes readable at the leader before the commit,
      exactly if the transaction is still being replicated there.  A decision to abort changes
      nothing at the leader. */
  lemma DecisionPrecommits(cfg: Config, sys: System, m: Message, at: nat)
    requires Shaped(cfg, sys) && Enabled(cfg, sys, ToReplica(m, at)) && m.NotifyDecision?
    ensures
      var x := Node(m.shard, at);
      var readable := m.state == PREPARED && m.tid in sys.replicas[x].pendingTxns;
      var next := Step(cfg, sys, ToReplica(m, at));
      && x in sys.replicas && x in next.replicas && next.net == sys.net
      && next.replicas[x].precommitted ==
           sys.replicas[x].precommitted + (if readable then {m.tid} else {})
      && next.replicas[x].pendingTxns == sys.replicas[x].pendingTxns
      && next.replicas[x].activeTxns == sys.replicas[x].activeTxns
      && (!readable ==> next.replicas[x] == sys.replicas[x])
      && (readable ==> m.tid in next.replicas[x].committedTxns)
  {
    hide Step;
    var e := ToReplica(m, at);
    ReplicaStep(cfg, sys, e);
    hide Shaped;
    assert ToSet([]) == {};
  }

  // ----- Retransmission -----

  /** The timer of a transaction that is being replicated sends the request again, as it was. */
  lemma TimerResends(cfg: Config, end: System, s: nat, t: nat)
    requires Th.Reachable(cfg, end) && Shaped(cfg, end) && s < cfg.shards && Leader(cfg, s) in end.replicas
    requires t in end.replicas[Leader(cfg, s)].pendingTxns
    ensures
      var req := end.replicas[Leader(cfg, s)].pendingTxns[t];
      var log := end.replicas[Leader(cfg, s)].log;
      var next := Step(cfg, end, Timeout(s, t));
      && req.lsn in log && log[req.lsn].txn == t && next.replicas == end.replicas
      && ReplicateTxn(s, log[req.lsn], cfg.PrimaryCoordinator(t), cfg.primary(t), cfg.participants(t), req.hasPreCommit)
           in next.net
  {
    hide Inv, Th.Reachable, FactsOk, Step;
    Th.ReachableInv(cfg, end);
    Th.LeaderIs(cfg, end, s);
    var x := Leader(cfg, s);
    var r := end.replicas[x];
    assert PendingTxnOk(cfg, end.facts, s, r, t);
    hide LeaderOk;
    var e := Timeout(s, t);
    assert Enabled(cfg, end, e);
    ReplicaStep(cfg, end, e);
    var m := R.ReplicateMessage(r, r.pendingTxns[t]);
    assert React(cfg, r, e) == (r, [m]) && m in [m];
    assert end.replicas[x := r] == end.replicas;
  }

  // ----- Replies to the leader -----

  /** The replies of `replicas`, one after another. */
  function HandleReplies(r: R.Replica, tid: nat, replicas: seq<nat>): R.Replica
    decreases |replicas|
  {
    if replicas == [] then r
    else R.HandleReplicateReply(HandleReplies(r, tid, replicas[..|replicas| - 1]), tid, replicas[|replicas| - 1])
  }

  /** Replication of a transaction is complete exactly if f + 1 distinct replicas have answered,
      however often each; and nothing else changes. */
  lemma {:induction false} RepliesReachConsensus(r: R.Replica, tid: nat, replicas: seq<nat>)
    requires tid in r.pendingTxns && r.pendingTxns[tid].quorum == {} && !r.pendingTxns[tid].reachConsensus
    ensures
      var r' := HandleReplies(r, tid, replicas);
      && r' == r.(pendingTxns := r'.pendingTxns) && r'.pendingTxns.Keys == r.pendingTxns.Keys
      && (forall t :: t in r.pendingTxns && t != tid ==> r'.pendingTxns[t] == r.pendingTxns[t])
      && (r'.pendingTxns[tid].reachConsensus <==> |Elements(replicas)| >= r.f + 1)
      && (!r'.pendingTxns[tid].reachConsensus ==> r'.pendingTxns[tid].quorum == Elements(replicas))
    decreases |replicas|
  {
    if replicas != [] {
      var init, last := replicas[..|replicas| - 1], replicas[|replicas| - 1];
      RepliesReachConsensus(r, tid, init);
      assert Elements(replicas) == Elements(init) + {last};
      SubsetSize(Elements(init), Elements(replicas));
    } else {
      assert Elements(replicas) == {};
    }
  }
}
