/** Whole runs in which a leader takes up at most one prepare request per transaction, after
    the transaction's reads: dependency counters are conserved, and a transaction is committed
    only after everything it read from. */
module Recoverability {
  import opened CommitMessages
  import opened D2pcSystem
  import opened D2pcInvariant
  import opened LrReplicaSpec
  import opened Dependencies
  import C = CoordinatorSpec
  import Re = D2pcReplica
  import Th = D2pcTheorems

  ghost predicate Orderly(sys: System, e: Event) {
    e.Prepare? || e.Read? ==> (e.shard, e.tid) !in sys.facts.handled
  }

  ghost predicate OrderlyRun(cfg: Config, sys: System, events: seq<Event>)
    requires Shaped(cfg, sys)
    decreases |events|
  {
    events == [] || (Orderly(sys, events[0]) && OrderlyRun(cfg, Step(cfg, sys, events[0]), events[1..]))
  }

  ghost predicate DepInv(cfg: Config, sys: System)
    requires Shaped(cfg, sys)
  {
    forall s: nat :: s < cfg.shards ==> DepOk(cfg, sys.facts, s, sys.replicas[Leader(cfg, s)])
  }

  /** The same history, as far as shard `s` is concerned. */
  ghost predicate SameFor(f: Facts, g: Facts, s: nat) {
    && f.applied <= g.applied
    && (forall t :: (s, t) in f.handled <==> (s, t) in g.handled)
    && (forall t :: (s, t) in f.validated <==> (s, t) in g.validated)
    && (forall t :: (s, t) in f.free <==> (s, t) in g.free)
    && (forall c, t :: (s, c, t) in f.noticed <==> (s, c, t) in g.noticed)
    && (forall t :: (s, t) in f.applied <==> (s, t) in g.applied)
    && (forall t, d :: (s, t, d) in f.dependsOn <==> (s, t, d) in g.dependsOn)
  }

  /** What the dependency bookkeeping looks at. */
  ghost predicate SameBooks(r: Replica, r': Replica) {
    && r'.activeTxns == r.activeTxns && r'.inDependency == r.inDependency
    && r'.pendingTxns.Keys == r.pendingTxns.Keys && r'.log == r.log && r'.marked == r.marked
  }

  lemma DepOkSame(cfg: Config, f: Facts, g: Facts, s: nat, r: Replica, r': Replica)
    requires cfg.n > 0 && DepOk(cfg, f, s, r) && SameFor(f, g, s) && SameBooks(r, r')
    requires forall t :: t in r'.committedTxns ==> t in r.committedTxns || t in r.pendingTxns
    ensures DepOk(cfg, g, s, r')
  {
    hide Occurrences, Noted, Conserved, Tracked;
    assert Known(g, s, r') && Marks(g, s, r');
    hide Marks;
    SameNotes(cfg, f, g, s);
    hide Known;
    SameCounters(f, g, s, r, r');
  }

  lemma SameCounters(f: Facts, g: Facts, s: nat, r: Replica, r': Replica)
    requires Conserved(f, s, r) && Tracked(f, s, r) && SameFor(f, g, s) && SameBooks(r, r')
    ensures Conserved(g, s, r') && Tracked(g, s, r')
  {
    hide Occurrences;
  }

  // ----- Events at a leader -----

  lemma NotKnown(cfg: Config, f: Facts, s: nat, r: Replica, tid: nat)
    requires cfg.n > 0 && DepOk(cfg, f, s, r) && (s, tid) !in f.handled
    ensures !AlreadyKnown(r, tid) && Waiting(r, tid) >= 0 && tid !in r.pendingTxns && tid !in r.activeTxns
  {
  }

  lemma PrepareDep(cfg: Config, f: Facts, x: Node, r: Replica, tid: nat, writes: map<string, string>, passes: bool)
    requires cfg.Valid() && DepOk(cfg, f, x.shard, r) && (x.shard, tid) !in f.handled && r.n == cfg.n
    ensures
      var e := Prepare(x.shard, tid, writes, passes);
      var out := React(cfg, r, e);
      DepOk(cfg, Re.Grown(x, Record(f, r, e), out.1), x.shard, out.0)
  {
    var s := x.shard;
    var e := Prepare(s, tid, writes, passes);
    var out := React(cfg, r, e);
    var h := Record(f, r, e);
    NotKnown(cfg, f, s, r, tid);
    if !passes {
      FailKeeps(cfg, f, s, r, tid);
      Re.GrownByNothing(x, h);
      assert h == f.(handled := f.handled + {(s, tid)});
    } else {
      var m := out.1[0];
      assert out.1 == [m] && m.entry.txn == tid && m.hasPreCommit == (Waiting(r, tid) > 0);
      Re.GrownByOne(x, h, m);
      assert Admitted(r, out.0, tid, r.last);
      hide React, Re.Grown, DepOk, Admitted;
      AdmitKeeps(cfg, f, Re.Grown(x, h, [m]), s, r, out.0, tid, r.last);
    }
  }

  lemma CommitDep(cfg: Config, f: Facts, x: Node, r: Replica, d: nat)
    requires cfg.Valid() && FactsOk(cfg, f) && DepOk(cfg, f, x.shard, r) && LeaderOk(cfg, f, x.shard, r)
    requires r.shard == x.shard && r.n == cfg.n
    ensures
      var h := if Commits(r, d) then f.(applied := f.applied + [(x.shard, d)]) else f;
      var out := HandleCommit(r, d, 0);
      DepOk(cfg, Re.Grown(x, h, out.1), x.shard, out.0)
  {
    hide HandleCommit, FactsOk, Re.Grown;
    if !Commits(r, d) {
      Re.GrownByNothing(x, f);
      assert HandleCommit(r, d, 0) == (r, []) by {
        NothingToCommit(r, d);
      }
    } else {
      assert PendingTxnOk(cfg, f, x.shard, r, d);
      hide LeaderOk;
      CommittedDep(cfg, f, x, r, d);
    }
  }

  lemma NothingToCommit(r: Replica, d: nat)
    requires r.n > 0 && !Commits(r, d)
    ensures HandleCommit(r, d, 0) == (r, [])
  {
  }

  lemma CommittedDep(cfg: Config, f: Facts, x: Node, r: Replica, d: nat)
    requires cfg.Valid() && FactsOk(cfg, f) && DepOk(cfg, f, x.shard, r)
    requires r.shard == x.shard && r.n == cfg.n && Commits(r, d) && r.pendingTxns[d].primaryShard == cfg.primary(d)
    ensures
      var h := f.(applied := f.applied + [(x.shard, d)]);
      var out := HandleCommit(r, d, 0);
      DepOk(cfg, Re.Grown(x, h, out.1), x.shard, out.0)
  {
    var s := x.shard;
    var h := f.(applied := f.applied + [(s, d)]);
    var out := HandleCommit(r, d, 0);
    var g := Re.Grown(x, h, out.1);
    CommitGrows(x, h, r, d);
    hide HandleCommit, Re.Grown, Conserved, Tracked, Known, Noted, Marks, FactsOk, Notices, Occurrences;
    CommitConserves(f, g, s, r, d);
    CommitKnown(f, g, s, r, d);
    CommitTracks(f, g, s, r, d);
    CommitReleases(cfg, f, s, r, d);
    hide Releases;
    CommitNotes(cfg, f, g, s, r, out.0, d);
  }

  lemma CommitReleases(cfg: Config, f: Facts, s: nat, r: Replica, d: nat)
    requires Conserved(f, s, r) && Known(f, s, r) && Commits(r, d) && r.n == cfg.n > 0 && r.shard == s
    requires r.pendingTxns[d].primaryShard == cfg.primary(d)
    ensures
      var (r', sends) := HandleCommit(r, d, 0);
      && (forall c: nat, t: nat :: (s, c, t) in Notices(s, sends) <==>
            c == cfg.PrimaryCoordinator(d) && Releases(r, r', t))
      && (forall t: nat :: Releases(r, r', t) ==> t in r.activeTxns[d].out)
  {
    var (r', sends) := HandleCommit(r, d, 0);
    hide HandleCommit, Conserved, Known, Notices, Occurrences, Count;
    forall c: nat, t: nat
      ensures (s, c, t) in Notices(s, sends) <==> c == cfg.PrimaryCoordinator(d) && Releases(r, r', t)
    {
      CommitNotices(f, s, r, d, c, t);
    }
    forall t: nat | Releases(r, r', t) ensures t in r.activeTxns[d].out {
      CommitEffect(f, s, r, d, t);
      CountIn(r.activeTxns[d].out, t);
    }
  }

  /** A commit adds notices, and nothing else, to what it records. */
  lemma CommitGrows(x: Node, h: Facts, r: Replica, d: nat)
    requires Commits(r, d) && r.n > 0
    ensures
      var sends := HandleCommit(r, d, 0).1;
      Re.Grown(x, h, sends) == h.(noticed := h.noticed + Notices(x.shard, sends))
  {
    ReleaseAllSendsTo(Committing(r, d), r.activeTxns[d].out, r.pendingTxns[d].primaryShard % r.n);
    hide ReleaseAll, Notices;
    var sends := HandleCommit(r, d, 0).1;
    Re.NoDeposits(x.shard, x.replica, sends);
    assert Freed(x.shard, sends) == {};
  }

  lemma ReadDep(cfg: Config, f: Facts, x: Node, r: Replica, tid: nat, dependencies: seq<nat>)
    requires cfg.n > 0 && DepOk(cfg, f, x.shard, r) && (x.shard, tid) !in f.handled && r.n > 0
    requires r.precommitted <= r.pendingTxns.Keys
    requires forall d :: d in dependencies ==> d == 0 || d in r.precommitted
    ensures
      var e := Read(x.shard, tid, dependencies);
      DepOk(cfg, Re.Grown(x, Record(f, r, e), []), x.shard, React(cfg, r, e).0)
  {
    var e := Read(x.shard, tid, dependencies);
    assert r.activeTxns.Keys == r.pendingTxns.Keys;
    ReadKeeps(cfg, f, x.shard, r, tid, dependencies);
    assert Record(f, r, e) == f.(dependsOn := f.dependsOn + ReadsFrom(x.shard, tid, dependencies));
    Re.GrownByNothing(x, Record(f, r, e));
  }

  lemma TimeoutDep(cfg: Config, f: Facts, x: Node, r: Replica, tid: nat)
    requires cfg.Valid() && DepOk(cfg, f, x.shard, r) && LeaderOk(cfg, f, x.shard, r) && r.n == cfg.n
    ensures DepOk(cfg, Re.Grown(x, f, Resend(r, tid)), x.shard, r)
  {
    hide DepOk, Re.Grown;
    if tid in r.pendingTxns {
      var m := ReplicateMessage(r, r.pendingTxns[tid]);
      assert PendingTxnOk(cfg, f, x.shard, r, tid);
      hide LeaderOk;
      Re.GrownByOne(x, f, m);
      assert Re.Grown(x, f, [m]) == f by {
        assert (if m.hasPreCommit then f.free else f.free + {(x.shard, tid)}) == f.free;
      }
    } else {
      Re.GrownByNothing(x, f);
    }
  }

  // ----- Every event -----

  /** An event at the leader of one shard leaves the history of the others alone. */
  lemma OthersSame(f: Facts, x: Node, r: Replica, e: Event, sends: seq<Message>, s: nat)
    requires s != x.shard && !e.ToCoordinator?
    requires if e.ToReplica? then (e.m.NotifyReplicateResult? ==> e.m.shard == x.shard) else e.shard == x.shard
    ensures SameFor(f, Re.Grown(x, Record(f, r, e), sends), s)
  {
  }

  lemma LeaderMovesDep(cfg: Config, sys: System, x: Node, e: Event)
    requires Shaped(cfg, sys) && DepInv(cfg, sys) && Enabled(cfg, sys, e) && !e.ToCoordinator?
    requires x == Where(cfg, e) == Leader(cfg, x.shard)
    requires
      var out := React(cfg, sys.replicas[x], e);
      DepOk(cfg, Re.Grown(x, Record(sys.facts, sys.replicas[x], e), out.1), x.shard, out.0)
    ensures Shaped(cfg, Apply(cfg, sys, e)) && DepInv(cfg, Apply(cfg, sys, e))
  {
    ApplyShaped(cfg, sys, e);
    Th.ApplyIs(cfg, sys, e);
    var next := Apply(cfg, sys, e);
    var r := sys.replicas[x];
    var out := React(cfg, r, e);
    var g := Re.Grown(x, Record(sys.facts, r, e), out.1);
    assert next.facts == g && next.replicas == sys.replicas[x := out.0];
    hide Apply, AtReplica, React, Record, Re.Grown, DepOk, SameFor;
    forall s: nat | s < cfg.shards && s != x.shard ensures SameFor(sys.facts, g, s) {
      OthersSame(sys.facts, x, r, e, out.1, s);
    }
    OtherLeadersDep(cfg, sys, next, x);
  }

  lemma OtherLeadersDep(cfg: Config, sys: System, next: System, x: Node)
    requires Shaped(cfg, sys) && Shaped(cfg, next) && DepInv(cfg, sys) && x == Leader(cfg, x.shard) && x in sys.replicas
    requires next.replicas == sys.replicas[x := next.replicas[x]]
    requires DepOk(cfg, next.facts, x.shard, next.replicas[x])
    requires forall s: nat :: s < cfg.shards && s != x.shard ==> SameFor(sys.facts, next.facts, s)
    ensures DepInv(cfg, next)
  {
    hide DepOk, SameFor;
    forall s: nat | s < cfg.shards ensures DepOk(cfg, next.facts, s, next.replicas[Leader(cfg, s)]) {
      if s != x.shard {
        DepOkSame(cfg, sys.facts, next.facts, s, sys.replicas[Leader(cfg, s)], sys.replicas[Leader(cfg, s)]);
      }
    }
  }

  lemma QuietDep(cfg: Config, f: Facts, x: Node, r: Replica, m: Message)
    requires cfg.n > 0 && DepOk(cfg, f, x.shard, r) && r.n > 0 && (m.ReplicateReply? || m.NotifyDecision?)
    ensures DepOk(cfg, Re.Grown(x, f, []), x.shard, HandleAtReplica(r, m).0)
  {
    Re.GrownByNothing(x, f);
    hide Re.Grown;
    DepOkSame(cfg, f, f, x.shard, r, HandleAtReplica(r, m).0);
  }

  /** A reply to a replication request clears nothing. */
  lemma ReplicaAnswers(x: Node, f: Facts, r: Replica, m: Message)
    requires r.n > 0 && (m.ReplicateTxn? || m.ReplicateCommit?)
    ensures Re.Grown(x, f, HandleAtReplica(r, m).1) == f.(stored := Re.Grown(x, f, HandleAtReplica(r, m).1).stored)
  {
    Re.NoClearances(x.shard, HandleAtReplica(r, m).1);
  }

  lemma ReplicationShape(cfg: Config, sys: System, m: Message, at: nat)
    requires Inv(cfg, sys) && Enabled(cfg, sys, ToReplica(m, at)) && (m.ReplicateTxn? || m.ReplicateCommit?)
    ensures
      var x := Node(m.shard, at);
      var next := Apply(cfg, sys, ToReplica(m, at));
      && Shaped(cfg, next) && next.facts == sys.facts.(stored := next.facts.stored)
      && forall s: nat :: s < cfg.shards ==> next.replicas[Leader(cfg, s)] == sys.replicas[Leader(cfg, s)]
  {
    var e := ToReplica(m, at);
    var x := Node(m.shard, at);
    ApplyShaped(cfg, sys, e);
    Th.ApplyIs(cfg, sys, e);
    var r := sys.replicas[x];
    ReplicaAnswers(x, sys.facts, r, m);
    assert m.ReplicateTxn? ==> FromLog(cfg, sys, m);
    assert at == cfg.leader(m.shard) ==> HandleAtReplica(r, m).0 == r;
    hide Apply, Inv, HandleAtReplica;
    var next := Apply(cfg, sys, e);
    assert next.replicas == sys.replicas[x := HandleAtReplica(r, m).0];
    assert next.facts == Re.Grown(x, sys.facts, HandleAtReplica(r, m).1);
  }

  lemma ReplicationDep(cfg: Config, sys: System, m: Message, at: nat)
    requires Inv(cfg, sys) && DepInv(cfg, sys) && Enabled(cfg, sys, ToReplica(m, at))
    requires m.ReplicateTxn? || m.ReplicateCommit?
    ensures Shaped(cfg, Apply(cfg, sys, ToReplica(m, at))) && DepInv(cfg, Apply(cfg, sys, ToReplica(m, at)))
  {
    assert Shaped(cfg, sys);
    hide Apply, DepInv, Inv, Enabled;
    ReplicationShape(cfg, sys, m, at);
    LeadersSame(cfg, sys, Apply(cfg, sys, ToReplica(m, at)));
  }

  lemma LeadersSame(cfg: Config, sys: System, next: System)
    requires Shaped(cfg, sys) && Shaped(cfg, next) && DepInv(cfg, sys)
    requires next.facts == sys.facts.(stored := next.facts.stored, announced := next.facts.announced)
    requires forall s: nat :: s < cfg.shards ==> next.replicas[Leader(cfg, s)] == sys.replicas[Leader(cfg, s)]
    ensures DepInv(cfg, next)
  {
    hide DepOk;
    forall s: nat | s < cfg.shards ensures DepOk(cfg, next.facts, s, next.replicas[Leader(cfg, s)]) {
      assert DepOk(cfg, sys.facts, s, sys.replicas[Leader(cfg, s)]);
      DepOkSame(cfg, sys.facts, next.facts, s, sys.replicas[Leader(cfg, s)], sys.replicas[Leader(cfg, s)]);
    }
  }

  lemma CoordinatorDep(cfg: Config, sys: System, m: Message, at: nat)
    requires Shaped(cfg, sys) && DepInv(cfg, sys) && Enabled(cfg, sys, ToCoordinator(m, at))
    ensures Shaped(cfg, Apply(cfg, sys, ToCoordinator(m, at))) && DepInv(cfg, Apply(cfg, sys, ToCoordinator(m, at)))
  {
    var e := ToCoordinator(m, at);
    ApplyShaped(cfg, sys, e);
    var next := Apply(cfg, sys, e);
    assert next.replicas == sys.replicas && next.facts == sys.facts.(announced := next.facts.announced);
    hide Apply, DepInv;
    LeadersSame(cfg, sys, next);
  }

  lemma LeaderDep(cfg: Config, sys: System, e: Event)
    requires Inv(cfg, sys) && DepInv(cfg, sys) && Enabled(cfg, sys, e) && Orderly(sys, e) && !e.ToCoordinator?
    requires e.ToReplica? ==> !e.m.ReplicateTxn? && !e.m.ReplicateCommit?
    ensures Shaped(cfg, Apply(cfg, sys, e)) && DepInv(cfg, Apply(cfg, sys, e))
  {
    var x := Where(cfg, e);
    Th.LeaderIs(cfg, sys, x.shard);
    var r := sys.replicas[x];
    var f := sys.facts;
    assert DepOk(cfg, f, x.shard, r);
    if e.ClientCommit? {
      Th.DecisionWasAnnounced(cfg, sys, e.tid, e.timestamp);
    }
    if e.ToReplica? && e.m.NotifyReplicateResult? {
      Th.DecisionWasAnnounced(cfg, sys, e.m.tid, e.m.timestamp);
    }
    assert r.precommitted <= r.pendingTxns.Keys;
    hide Inv, DepInv, DepOk, LeaderOk, FactsOk, Re.Grown;
    LeaderReactsDep(cfg, sys, x, r, e);
    hide React, Record, Apply;
    LeaderMovesDep(cfg, sys, x, e);
  }

  lemma LeaderReactsDep(cfg: Config, sys: System, x: Node, r: Replica, e: Event)
    requires Shaped(cfg, sys) && Enabled(cfg, sys, e) && Orderly(sys, e) && !e.ToCoordinator?
    requires e.ToReplica? ==> !e.m.ReplicateTxn? && !e.m.ReplicateCommit?
    requires x == Where(cfg, e) && x in sys.replicas && r == sys.replicas[x] && r.shard == x.shard && r.n == cfg.n
    requires FactsOk(cfg, sys.facts) && DepOk(cfg, sys.facts, x.shard, r) && LeaderOk(cfg, sys.facts, x.shard, r)
    requires r.precommitted <= r.pendingTxns.Keys
    requires e.ClientCommit? ==> e.timestamp == 0
    requires e.ToReplica? && e.m.NotifyReplicateResult? ==> e.m.timestamp == 0
    ensures DepOk(cfg, Re.Grown(x, Record(sys.facts, r, e), React(cfg, r, e).1), x.shard, React(cfg, r, e).0)
  {
    var f := sys.facts;
    hide FactsOk, DepOk, LeaderOk, Re.Grown, HandleCommit, HandlePrepare, HandleRead;
    match e
    case Prepare(s, tid, writes, passes) => PrepareDep(cfg, f, x, r, tid, writes, passes);
    case Read(s, tid, dependencies) => ReadDep(cfg, f, x, r, tid, dependencies);
    case Timeout(s, tid) => TimeoutDep(cfg, f, x, r, tid);
    case ClientCommit(s, tid, timestamp) => CommitDep(cfg, f, x, r, tid);
    case ToReplica(m, at) =>
      if m.NotifyReplicateResult? {
        CommitDep(cfg, f, x, r, m.tid);
      } else {
        QuietDep(cfg, f, x, r, m);
      }
  }

  lemma StepDep(cfg: Config, sys: System, e: Event)
    requires Inv(cfg, sys) && DepInv(cfg, sys) && Orderly(sys, e)
    ensures DepInv(cfg, Step(cfg, sys, e))
  {
    assert Shaped(cfg, sys);
    hide Inv, DepInv;
    if Enabled(cfg, sys, e) {
      if e.ToCoordinator? {
        CoordinatorDep(cfg, sys, e.m, e.at);
      } else if e.ToReplica? && (e.m.ReplicateTxn? || e.m.ReplicateCommit?) {
        ReplicationDep(cfg, sys, e.m, e.at);
      } else {
        LeaderDep(cfg, sys, e);
      }
    }
  }

  lemma {:induction false} RunDep(cfg: Config, sys: System, events: seq<Event>)
    requires Inv(cfg, sys) && DepInv(cfg, sys) && OrderlyRun(cfg, sys, events)
    ensures Inv(cfg, Run(cfg, sys, events)) && DepInv(cfg, Run(cfg, sys, events))
    decreases |events|
  {
    assert Shaped(cfg, sys);
    hide Inv, DepInv, Step;
    if events != [] {
      Th.StepInv(cfg, sys, events[0]);
      StepDep(cfg, sys, events[0]);
      RunDep(cfg, Step(cfg, sys, events[0]), events[1..]);
    }
  }

  lemma InitialDep(cfg: Config, sys: System)
    requires Initial(cfg, sys)
    ensures Inv(cfg, sys) && DepInv(cfg, sys)
  {
    Th.InitialInv(cfg, sys);
  }

  // ----- The theorems -----

  /** A state that an orderly run leads to. */
  ghost predicate OrderlyReachable(cfg: Config, end: System) {
    exists sys, events :: Initial(cfg, sys) && OrderlyRun(cfg, sys, events) && end == Run(cfg, sys, events)
  }

  lemma OrderlyInv(cfg: Config, end: System)
    requires OrderlyReachable(cfg, end)
    ensures Inv(cfg, end) && DepInv(cfg, end)
  {
    var sys, events :| Initial(cfg, sys) && OrderlyRun(cfg, sys, events) && end == Run(cfg, sys, events);
    InitialDep(cfg, sys);
    hide Inv, DepInv, Run, OrderlyRun;
    RunDep(cfg, sys, events);
  }

  /** Dependency conservation: at every leader, the counter of a transaction that is still
      reading, and that of an active transaction, equals its number of occurrences in the out
      lists of the active transactions. */
  lemma CountersAreExact(cfg: Config, end: System, s: nat, t: nat)
    requires OrderlyReachable(cfg, end) && s < cfg.shards
    ensures Leader(cfg, s) in end.replicas
    ensures
      var r := end.replicas[Leader(cfg, s)];
      && ((s, t) !in end.facts.handled ==> Waiting(r, t) == Occurrences(r.activeTxns, t))
      && (t in r.activeTxns ==> r.activeTxns[t].incoming == Occurrences(r.activeTxns, t))
  {
    OrderlyInv(cfg, end);
    Th.LeaderIs(cfg, end, s);
    assert DepOk(cfg, end.facts, s, end.replicas[Leader(cfg, s)]);
  }

  /** The notice that a transaction's dependencies are cleared is sent exactly when the last
      transaction it waits for commits; it goes to the coordinator of that transaction. */
  lemma NoticeIsExact(cfg: Config, end: System, s: nat, d: nat, t: nat, c: nat, r: Replica)
    requires OrderlyReachable(cfg, end) && s < cfg.shards
    requires Leader(cfg, s) in end.replicas && r == end.replicas[Leader(cfg, s)] && Commits(r, d)
    ensures cfg.n > 0 && r.n > 0
    ensures
      var (r', sends) := HandleCommit(r, d, 0);
      DependenciesCleared(c, t, s) in sends <==>
        && c == cfg.PrimaryCoordinator(d)
        && t in r.activeTxns && Occurrences(r.activeTxns, t) > Occurrences(r'.activeTxns, t) == 0
  {
    OrderlyInv(cfg, end);
    Th.LeaderIs(cfg, end, s);
    assert DepOk(cfg, end.facts, s, r) && PendingTxnOk(cfg, end.facts, s, r, d);
    hide Occurrences, HandleCommit, Inv, DepInv;
    CommitNotices(end.facts, s, r, d, c, t);
    var sends := HandleCommit(r, d, 0).1;
    if (s, c, t) in Notices(s, sends) {
      var m :| m in sends && m.DependenciesCleared? && (s, m.to, m.tid) == (s, c, t);
      NoticeShard(r, d, m);
    }
  }

  lemma NoticeShard(r: Replica, d: nat, m: Message)
    requires Commits(r, d) && r.n > 0 && m in HandleCommit(r, d, 0).1 && m.DependenciesCleared?
    ensures m.shard == r.shard
  {
    ReleaseAllSendsTo(Committing(r, d), r.activeTxns[d].out, r.pendingTxns[d].primaryShard % r.n);
  }

  /** Who is told that the dependencies of a transaction are cleared: nobody but the primary
      coordinator of the last transaction it waited for, which may not be its own. */
  lemma NoticeGoesToLast(cfg: Config, end: System, s: nat, c: nat, t: nat)
    requires OrderlyReachable(cfg, end) && s < cfg.shards
    requires (s, t) in end.facts.validated && (s, t) !in end.facts.free
    ensures cfg.n > 0
    ensures (s, c, t) in end.facts.noticed <==> OfLast(cfg, end.facts, s, c, t)
  {
    NotedAt(cfg, end, s);
    hide OrderlyReachable;
    LastIsNoticed(cfg, end.facts, s, c, t);
  }

  lemma NotedAt(cfg: Config, end: System, s: nat)
    requires OrderlyReachable(cfg, end) && s < cfg.shards
    ensures cfg.n > 0 && FactsOk(cfg, end.facts) && Noted(cfg, end.facts, s)
  {
    OrderlyInv(cfg, end);
    Th.LeaderIs(cfg, end, s);
    assert DepOk(cfg, end.facts, s, end.replicas[Leader(cfg, s)]);
    hide Inv, DepInv, Noted, FactsOk, OrderlyReachable;
  }

  lemma LastIsNoticed(cfg: Config, f: Facts, s: nat, c: nat, t: nat)
    requires cfg.n > 0 && Noted(cfg, f, s) && (s, t) in f.validated && (s, t) !in f.free
    ensures (s, c, t) in f.noticed <==> OfLast(cfg, f, s, c, t)
  {
    if OfLast(cfg, f, s, c, t) {
      var d :| Last(f, s, t, d) && c == cfg.PrimaryCoordinator(d);
      hide Last;
      LastIsOne(f, s, t, d, d);
      assert SomeNotice(f, s, t);
      var b :| (s, b, t) in f.noticed;
      assert OfLast(cfg, f, s, b, t);
      var e :| Last(f, s, t, e) && b == cfg.PrimaryCoordinator(e);
      LastIsOne(f, s, t, d, e);
    }
  }

  /** A transaction is committed only if, at every participant where it was prepared while it
      waited for others, the last of those has the same primary coordinator. */
  lemma LastHasSameCoordinator(cfg: Config, end: System, c: nat, t: nat, p: nat)
    requires OrderlyReachable(cfg, end) && (Th.DecidedAt(end, c, t) || Th.Broadcast(end, t))
    requires p in cfg.participants(t)
    ensures cfg.n > 0
    ensures (p, t) in end.facts.free || OfLast(cfg, end.facts, p, cfg.PrimaryCoordinator(t), t)
  {
    OrderlyInv(cfg, end);
    Th.DecidedIsAnnounced(cfg, end, c, t);
    assert Backed(cfg, end.facts, t);
    Th.LeaderIs(cfg, end, p);
    assert DepOk(cfg, end.facts, p, end.replicas[Leader(cfg, p)]);
  }

  /** Some participant has told another coordinator, and not the transaction's own, that
      its dependencies are cleared. */
  ghost predicate Stranded(cfg: Config, sys: System, t: nat)
    requires cfg.n > 0
  {
    exists p, c :: p in cfg.participants(t) && (p, c, t) in sys.facts.noticed && c != cfg.PrimaryCoordinator(t)
  }

  /** `end` is reached from `mid` by an orderly run. */
  ghost predicate LeadsOrderly(cfg: Config, mid: System, end: System)
    requires Shaped(cfg, mid)
  {
    exists events :: OrderlyRun(cfg, mid, events) && end == Run(cfg, mid, events)
  }

  lemma StepLater(cfg: Config, sys: System, e: Event)
    requires Shaped(cfg, sys)
    ensures sys.facts.noticed <= Step(cfg, sys, e).facts.noticed
  {
    if Enabled(cfg, sys, e) && !e.ToCoordinator? {
      Th.ApplyIs(cfg, sys, e);
      hide React, Apply;
    } else {
      hide C.Handle;
    }
  }

  lemma {:induction false} RunLater(cfg: Config, sys: System, events: seq<Event>)
    requires Shaped(cfg, sys)
    ensures sys.facts.noticed <= Run(cfg, sys, events).facts.noticed
    decreases |events|
  {
    if events != [] {
      StepLater(cfg, sys, events[0]);
      hide Step;
      RunLater(cfg, Step(cfg, sys, events[0]), events[1..]);
    }
  }

  /** A stranded transaction is never committed, whatever happens later. */
  lemma StrandedForever(cfg: Config, mid: System, end: System, c: nat, t: nat)
    requires OrderlyReachable(cfg, mid) && OrderlyReachable(cfg, end)
    requires Shaped(cfg, mid) && LeadsOrderly(cfg, mid, end) && Stranded(cfg, mid, t)
    ensures Stranded(cfg, end, t) && !Th.DecidedAt(end, c, t) && !Th.Broadcast(end, t)
  {
    var events :| OrderlyRun(cfg, mid, events) && end == Run(cfg, mid, events);
    RunLater(cfg, mid, events);
    hide Run, OrderlyRun, OrderlyReachable;
    StrandedHere(cfg, end, c, t);
  }

  lemma StrandedHere(cfg: Config, end: System, c: nat, t: nat)
    requires OrderlyReachable(cfg, end) && cfg.n > 0 && Stranded(cfg, end, t)
    ensures !Th.DecidedAt(end, c, t) && !Th.Broadcast(end, t)
  {
    var p, b :| p in cfg.participants(t) && (p, b, t) in end.facts.noticed && b != cfg.PrimaryCoordinator(t);
    OrderlyInv(cfg, end);
    Th.LeaderIs(cfg, end, p);
    assert DepOk(cfg, end.facts, p, end.replicas[Leader(cfg, p)]);
    var d :| Last(end.facts, p, t, d) && b == cfg.PrimaryCoordinator(d);
    if Th.DecidedAt(end, c, t) || Th.Broadcast(end, t) {
      LastHasSameCoordinator(cfg, end, c, t, p);
      var e :| Last(end.facts, p, t, e) && cfg.PrimaryCoordinator(t) == cfg.PrimaryCoordinator(e);
      LastIsOne(end.facts, p, t, d, e);
    }
  }

  /** Recoverability: when a coordinator decides to commit a transaction, every transaction
      whose pre-committed writes it read at a participant has been committed by that
      participant's leader, and is recorded as committed by its own primary coordinator. */
  lemma ReadsFromCommitted(cfg: Config, end: System, c: nat, t: nat, p: nat, d: nat)
    requires OrderlyReachable(cfg, end) && (Th.DecidedAt(end, c, t) || Th.Broadcast(end, t))
    requires p in cfg.participants(t) && (p, t, d) in end.facts.dependsOn
    ensures (p, d) in end.facts.applied
    ensures cfg.n > 0 && cfg.PrimaryCoordinator(d) in end.coordinators
    ensures
      var results := end.coordinators[cfg.PrimaryCoordinator(d)].commitResults;
      d in results && results[d].faultTolerant && results[d].state != ABORT
  {
    LastHasSameCoordinator(cfg, end, c, t, p);
    OrderlyInv(cfg, end);
    Th.LeaderIs(cfg, end, p);
    NotedAt(cfg, end, p);
    hide DepInv, OrderlyReachable, LeaderOk, PendingOk, Backed, OfLast, Noted;
    ClearIsApplied(cfg, end.facts, p, t);
    hide Inv;
    assert Announced(cfg, end.facts, d);
    RecordedByPrimary(cfg, end, d);
  }

  lemma RecordedByPrimary(cfg: Config, end: System, d: nat)
    requires Inv(cfg, end) && Announced(cfg, end.facts, d)
    ensures cfg.PrimaryCoordinator(d) in end.coordinators
    ensures
      var results := end.coordinators[cfg.PrimaryCoordinator(d)].commitResults;
      d in results && results[d].faultTolerant && results[d].state != ABORT
  {
    assert CoordinatorOk(cfg, end.facts, end.coordinators[cfg.PrimaryCoordinator(d)]);
  }

  lemma ClearIsApplied(cfg: Config, f: Facts, s: nat, t: nat)
    requires cfg.n > 0 && Noted(cfg, f, s) && ((s, t) in f.free || OfLast(cfg, f, s, cfg.PrimaryCoordinator(t), t))
    ensures DependenciesApplied(f, s, t)
  {
    if (s, t) !in f.free {
      var d :| Last(f, s, t, d);
      LastIsOne(f, s, t, d, d);
    }
  }

  /** What the state of a log entry says in an orderly run.  An entry whose position is its
      transaction's number is marked committed exactly if the transaction is; any other entry
      is marked only if another transaction is committed, the one with that number. */
  lemma EntryStates(cfg: Config, end: System, s: nat, l: nat, r: Replica)
    requires OrderlyReachable(cfg, end) && s < cfg.shards
    requires Leader(cfg, s) in end.replicas && r == end.replicas[Leader(cfg, s)] && l in r.log
    ensures r.log[l].txn == l ==> (l in r.marked <==> (s, l) in end.facts.applied)
    ensures r.log[l].txn != l ==> (l in r.marked ==> (s, l) in end.facts.applied)
  {
    OrderlyInv(cfg, end);
    Th.LeaderIs(cfg, end, s);
    assert DepOk(cfg, end.facts, s, r);
  }
}
