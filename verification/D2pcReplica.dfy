/** Every event at a shard's leader or at a follower keeps the invariant. */
module D2pcReplica {
  import opened CommitMessages
  import opened D2pcSystem
  import opened D2pcInvariant
  import opened LrReplicaSpec

  ghost predicate LogGrows(a: map<nat, Entry>, b: map<nat, Entry>) {
    forall l :: l in a ==> l in b && b[l] == a[l]
  }

  /** Replication requests carry entries of this log. */
  ghost predicate SentFromLog(s: nat, log: map<nat, Entry>, sends: seq<Message>) {
    forall m :: m in sends && m.ReplicateTxn? ==>
      m.shard == s && m.entry.lsn in log && log[m.entry.lsn] == m.entry
  }

  /** The facts after an event at `x`, given those its cause establishes. */
  ghost function Grown(x: Node, g: Facts, sends: seq<Message>): Facts {
    g.(free := g.free + Freed(x.shard, sends),
       noticed := g.noticed + Notices(x.shard, sends),
       stored := g.stored + Deposits(x.shard, x.replica, sends))
  }

  /** What an event at the leader of shard `s` leaves: `g` are the facts afterwards. */
  ghost predicate LeaderStep(cfg: Config, f: Facts, g: Facts, s: nat, r: Replica, out: (Replica, seq<Message>))
    requires cfg.n > 0
  {
    && Later(f, g) && g.stored == f.stored && g.announced == f.announced
    && (forall p, t :: (p, t) in g.validated && p != s ==> (p, t) in f.validated)
    && FactsOk(cfg, g)
    && LeaderOk(cfg, g, s, out.0)
    && LogGrows(r.log, out.0.log)
    && AllOk(cfg, g, out.1) && SentFromLog(s, out.0.log, out.1)
  }

  // ----- Facts -----

  /** Facts that grow at the leader of `s` stay consistent. */
  lemma FactsGrow(cfg: Config, f: Facts, g: Facts)
    requires cfg.n > 0 && FactsOk(cfg, f) && Later(f, g) && g.stored == f.stored && g.announced == f.announced
    requires forall s, t :: (s, t) in g.validated ==> s in cfg.participants(t)
    requires forall s, t :: (s, t) in g.free ==> s in cfg.participants(t)
    requires forall s, c, t :: (s, c, t) in g.noticed ==> s in cfg.participants(t)
    requires forall s, t :: (s, t) in g.applied ==> Announced(cfg, g, t)
    ensures FactsOk(cfg, g)
  {
    forall c, t | (c, t) in g.announced ensures c == cfg.PrimaryCoordinator(t) && Backed(cfg, g, t) {
      BackedLater(cfg, f, g, t);
    }
  }

  lemma LeaderLater(cfg: Config, f: Facts, g: Facts, s: nat, r: Replica)
    requires Later(f, g) && LeaderOk(cfg, f, s, r)
    requires forall t :: (s, t) in g.validated ==> (s, t) in f.validated
    ensures LeaderOk(cfg, g, s, r)
  {
  }

  // ----- HandlePrepareTxn -----

  lemma AdmitOk(cfg: Config, f: Facts, g: Facts, s: nat, r: Replica, tid: nat, writes: map<string, string>,
                incoming: nat)
    requires LeaderOk(cfg, f, s, r) && s in cfg.participants(tid)
    requires g == f.(validated := f.validated + {(s, tid)}, handled := g.handled)
    ensures
      var a := Admit(r, tid, writes, cfg.participants(tid), cfg.primary(tid), incoming);
      && LeaderOk(cfg, g, s, a) && LogGrows(r.log, a.log) && r.last in a.log && a.log[r.last].txn == tid
  {
    var a := Admit(r, tid, writes, cfg.participants(tid), cfg.primary(tid), incoming);
    assert a.log[r.last].txn == tid;
    forall t | (s, t) in g.validated ensures Logged(a, t) {
      if t != tid {
        var l :| l in r.log && r.log[l].txn == t;
        assert l in a.log && a.log[l].txn == t;
      }
    }
    forall t | t in a.pendingTxns ensures PendingTxnOk(cfg, g, s, a, t) {
      assert PendingTxnOk(cfg, f, s, r, t);
    }
  }

  lemma ReplicateMessageOk(cfg: Config, f: Facts, s: nat, r: Replica, t: nat)
    requires cfg.Valid() && s < cfg.shards && r.shard == s && r.n == cfg.n
    requires LeaderOk(cfg, f, s, r) && t in r.pendingTxns
    ensures
      var m := ReplicateMessage(r, r.pendingTxns[t]);
      && m.ReplicateTxn? && MessageOk(cfg, f, m) && SentFromLog(s, r.log, [m])
      && m.entry.txn == t && (!m.hasPreCommit ==> (s, t) in f.free)
  {
    assert PendingTxnOk(cfg, f, s, r, t);
  }

  /** A prepared transaction that is not being replicated yet. */
  lemma FirstReplicateOk(cfg: Config, f: Facts, g: Facts, s: nat, r: Replica, lsn: nat, tid: nat, pre: bool)
    requires cfg.Valid() && s < cfg.shards && r.shard == s && r.n == cfg.n
    requires LeaderOk(cfg, f, s, r) && tid !in r.pendingTxns
    requires tid in r.activeTxns && lsn in r.log && r.log[lsn].txn == tid
    requires OfTxn(cfg, tid, r.activeTxns[tid].participants, r.activeTxns[tid].primaryShard)
    requires g == f.(free := if pre then f.free else f.free + {(s, tid)})
    ensures
      var out := InvokeReplicate(r, lsn, tid, pre);
      && LeaderOk(cfg, g, s, out.0) && out.0.log == r.log
      && AllOk(cfg, g, out.1) && SentFromLog(s, r.log, out.1)
  {
    var out := InvokeReplicate(r, lsn, tid, pre);
    forall t | t in out.0.pendingTxns ensures PendingTxnOk(cfg, g, s, out.0, t) {
      if t != tid {
        assert PendingTxnOk(cfg, f, s, r, t);
      }
    }
    assert LeaderOk(cfg, g, s, out.0);
    ReplicateMessageOk(cfg, g, s, out.0, tid);
    assert out.1 == [ReplicateMessage(out.0, out.0.pendingTxns[tid])];
  }

  lemma FreedByOne(s: nat, m: Message)
    requires m.ReplicateTxn?
    ensures Freed(s, [m]) == if m.hasPreCommit then {} else {(s, m.entry.txn)}
    ensures Notices(s, [m]) == {} && Deposits(s, 0, [m]) == {}
  {
    assert m in [m];
  }

  lemma NoDeposits(s: nat, r: nat, sends: seq<Message>)
    requires forall m :: m in sends ==> !m.ReplyAndVote?
    ensures Deposits(s, r, sends) == {}
  {
  }

  lemma NoClearances(s: nat, sends: seq<Message>)
    requires forall m :: m in sends ==> !m.ReplicateTxn? && !m.DependenciesCleared?
    ensures Freed(s, sends) == {} && Notices(s, sends) == {}
  {
  }

  lemma GrownByOne(x: Node, h: Facts, m: Message)
    requires m.ReplicateTxn?
    ensures Grown(x, h, [m]) ==
              h.(free := if m.hasPreCommit then h.free else h.free + {(x.shard, m.entry.txn)})
  {
    FreedByOne(x.shard, m);
    NoDeposits(x.shard, x.replica, [m]);
  }

  lemma GrownByNothing(x: Node, h: Facts)
    ensures Grown(x, h, []) == h
  {
    NoDeposits(x.shard, x.replica, []);
    NoClearances(x.shard, []);
  }

  /** A prepare request that is known already, or fails concurrency control. */
  lemma PrepareNothing(cfg: Config, f: Facts, x: Node, r: Replica, tid: nat, writes: map<string, string>, passes: bool)
    requires cfg.Valid() && FactsOk(cfg, f)
    requires LeaderOk(cfg, f, x.shard, r) && r.n == cfg.n && (AlreadyKnown(r, tid) || !passes)
    ensures
      var e := Prepare(x.shard, tid, writes, passes);
      var out := React(cfg, r, e);
      LeaderStep(cfg, f, Grown(x, Record(f, r, e), out.1), x.shard, r, out)
  {
    var e := Prepare(x.shard, tid, writes, passes);
    var out := React(cfg, r, e);
    assert out.1 == [] && out.0 == r.(inDependency := out.0.inDependency);
    var g := Record(f, r, e);
    assert g == f.(handled := g.handled) && f.handled <= g.handled;
    hide React, Record;
    GrownByNothing(x, g);
    hide Grown;
    assert LeaderOk(cfg, f, x.shard, out.0);
    FactsGrow(cfg, f, g);
    LeaderLater(cfg, f, g, x.shard, out.0);
  }

  lemma PrepareOk(cfg: Config, f: Facts, x: Node, r: Replica, tid: nat, writes: map<string, string>, passes: bool)
    requires cfg.Valid() && FactsOk(cfg, f) && x.shard in cfg.participants(tid)
    requires LeaderOk(cfg, f, x.shard, r) && r.shard == x.shard && r.n == cfg.n
    ensures
      var e := Prepare(x.shard, tid, writes, passes);
      var out := React(cfg, r, e);
      LeaderStep(cfg, f, Grown(x, Record(f, r, e), out.1), x.shard, r, out)
  {
    if AlreadyKnown(r, tid) || !passes {
      PrepareNothing(cfg, f, x, r, tid, writes, passes);
    } else {
      var s := x.shard;
      var h := Record(f, r, Prepare(s, tid, writes, passes));
      var incoming := Unsigned(Waiting(r, tid));
      var started := r.(inDependency := r.inDependency - {tid});
      assert LeaderOk(cfg, f, s, started);
      AdmitOk(cfg, f, h, s, started, tid, writes, incoming);
      var a := Admit(started, tid, writes, cfg.participants(tid), cfg.primary(tid), incoming);
      hide LeaderStep, Grown, LeaderOk, FactsOk, InvokeReplicate;
      PreparedOk(cfg, f, h, x, r, a, tid, incoming > 0);
    }
  }

  lemma PreparedOk(cfg: Config, f: Facts, h: Facts, x: Node, r: Replica, a: Replica, tid: nat, pre: bool)
    requires cfg.Valid() && FactsOk(cfg, f) && x.shard in cfg.participants(tid)
    requires h == f.(validated := f.validated + {(x.shard, tid)}, handled := h.handled) && f.handled <= h.handled
    requires LeaderOk(cfg, h, x.shard, a) && LogGrows(r.log, a.log) && a.shard == x.shard && a.n == cfg.n
    requires tid in a.activeTxns && r.last in a.log && a.log[r.last].txn == tid
    requires OfTxn(cfg, tid, a.activeTxns[tid].participants, a.activeTxns[tid].primaryShard)
    ensures
      var out := InvokeReplicate(a, r.last, tid, pre);
      LeaderStep(cfg, f, Grown(x, h, out.1), x.shard, r, out)
  {
    hide LeaderOk, FactsOk, MessageOk;
    var out := InvokeReplicate(a, r.last, tid, pre);
    var m := out.1[0];
    assert out.1 == [m];
    GrownByOne(x, h, m);
    var g := Grown(x, h, [m]);
    hide Grown;
    if tid in a.pendingTxns {
      ReplicateMessageOk(cfg, h, x.shard, a, tid);
      assert g.free == h.free;
      assert g == h;
    } else {
      FirstReplicateOk(cfg, h, g, x.shard, a, r.last, tid, pre);
    }
    hide InvokeReplicate, LeaderOk, MessageOk;
    PreparedFacts(cfg, f, h, g, x.shard, tid);
  }

  lemma PreparedFacts(cfg: Config, f: Facts, h: Facts, g: Facts, s: nat, tid: nat)
    requires cfg.Valid() && FactsOk(cfg, f) && s in cfg.participants(tid)
    requires h == f.(validated := f.validated + {(s, tid)}, handled := h.handled) && f.handled <= h.handled
    requires g == h || g == h.(free := h.free + {(s, tid)})
    ensures Later(f, g) && g.stored == f.stored && g.announced == f.announced && FactsOk(cfg, g)
    ensures forall p, t :: (p, t) in g.validated && p != s ==> (p, t) in f.validated
  {
    FactsGrow(cfg, f, g);
  }

  // ----- Reads, timers, replies, the pre-commit decision -----

  lemma CountersOk(cfg: Config, f: Facts, s: nat, r: Replica, r': Replica)
    requires LeaderOk(cfg, f, s, r) && SameButCounters(r, r')
    ensures LeaderOk(cfg, f, s, r')
  {
    assert r'.log == r.log && r'.pendingTxns == r.pendingTxns;
    forall t | (s, t) in f.validated ensures Logged(r', t) {
      assert Logged(r, t);
    }
    forall t | t in r'.pendingTxns ensures PendingTxnOk(cfg, f, s, r', t) {
      assert PendingTxnOk(cfg, f, s, r, t);
    }
  }

  /** An event that only changes what no fact speaks of, and sends nothing. */
  lemma QuietOk(cfg: Config, f: Facts, h: Facts, x: Node, r: Replica, r': Replica)
    requires cfg.n > 0 && FactsOk(cfg, f) && LeaderOk(cfg, f, x.shard, r') && r'.log == r.log
    requires h == f.(dependsOn := h.dependsOn) && f.dependsOn <= h.dependsOn
    ensures LeaderStep(cfg, f, Grown(x, h, []), x.shard, r, (r', []))
  {
    NoDeposits(x.shard, x.replica, []);
    NoClearances(x.shard, []);
    var g := Grown(x, h, []);
    assert g == h;
    FactsGrow(cfg, f, g);
    LeaderLater(cfg, f, g, x.shard, r');
  }

  lemma ReadOk(cfg: Config, f: Facts, x: Node, r: Replica, tid: nat, dependencies: seq<nat>)
    requires cfg.Valid() && FactsOk(cfg, f) && LeaderOk(cfg, f, x.shard, r) && r.n == cfg.n
    ensures
      var e := Read(x.shard, tid, dependencies);
      var out := React(cfg, r, e);
      LeaderStep(cfg, f, Grown(x, Record(f, r, e), out.1), x.shard, r, out)
  {
    var e := Read(x.shard, tid, dependencies);
    var r' := HandleRead(r, tid, dependencies);
    CountersOk(cfg, f, x.shard, r, r');
    QuietOk(cfg, f, Record(f, r, e), x, r, r');
  }

  lemma ReplicateReplyOk(cfg: Config, f: Facts, s: nat, r: Replica, tid: nat, replica: nat)
    requires LeaderOk(cfg, f, s, r)
    ensures LeaderOk(cfg, f, s, HandleReplicateReply(r, tid, replica))
    ensures HandleReplicateReply(r, tid, replica).log == r.log
  {
    var r' := HandleReplicateReply(r, tid, replica);
    forall t | t in r'.pendingTxns ensures PendingTxnOk(cfg, f, s, r', t) {
      assert PendingTxnOk(cfg, f, s, r, t);
    }
  }

  lemma PreCommitOk(cfg: Config, f: Facts, s: nat, r: Replica, tid: nat)
    requires LeaderOk(cfg, f, s, r)
    ensures LeaderOk(cfg, f, s, HandleDecision(r, tid)) && HandleDecision(r, tid).log == r.log
  {
  }

  lemma TimeoutOk(cfg: Config, f: Facts, x: Node, r: Replica, tid: nat)
    requires cfg.Valid() && FactsOk(cfg, f) && LeaderOk(cfg, f, x.shard, r)
    requires x.shard < cfg.shards && r.shard == x.shard && r.n == cfg.n
    ensures LeaderStep(cfg, f, Grown(x, f, Resend(r, tid)), x.shard, r, (r, Resend(r, tid)))
  {
    hide Grown, MessageOk, LeaderOk, FactsOk, ReplicateMessage, LeaderStep;
    if tid !in r.pendingTxns {
      QuietOk(cfg, f, f, x, r, r);
    } else {
      ReplicateMessageOk(cfg, f, x.shard, r, tid);
      var m := ReplicateMessage(r, r.pendingTxns[tid]);
      GrownByOne(x, f, m);
      assert Grown(x, f, [m]).free == f.free;
      assert Grown(x, f, [m]) == f;
      SentAgain(cfg, f, x.shard, r, m);
    }
  }

  lemma SentAgain(cfg: Config, f: Facts, s: nat, r: Replica, m: Message)
    requires cfg.n > 0 && FactsOk(cfg, f) && LeaderOk(cfg, f, s, r)
    requires MessageOk(cfg, f, m) && SentFromLog(s, r.log, [m])
    ensures LeaderStep(cfg, f, f, s, r, (r, [m]))
  {
    hide MessageOk, LeaderOk, FactsOk;
  }

  // ----- HandleCommit -----

  lemma {:induction false} ReleaseAllSends(r: Replica, waiters: seq<nat>, coordinator: nat)
    ensures forall m :: m in ReleaseAll(r, waiters, coordinator).1 ==>
              m.DependenciesCleared? && m.shard == r.shard && m.tid in r.activeTxns
    decreases |waiters|
  {
    if waiters != [] {
      ReleaseAllSends(Release(r, waiters[0], coordinator).0, waiters[1..], coordinator);
    }
  }

  lemma CommittedOk(cfg: Config, f: Facts, s: nat, r: Replica, released: Replica, tid: nat)
    requires LeaderOk(cfg, f, s, r)
    requires SameButCounters(Mark(r, tid).(precommitted := r.precommitted - {tid}), released)
    ensures LeaderOk(cfg, f, s,
              released.(pendingTxns := released.pendingTxns - {tid}, activeTxns := released.activeTxns - {tid},
                        committedTxns := released.committedTxns + {tid}))
    ensures released.log == r.log
  {
    var a := Mark(r, tid).(precommitted := r.precommitted - {tid});
    assert released.log == r.log && released.pendingTxns == r.pendingTxns;
    var z := released.(pendingTxns := released.pendingTxns - {tid}, activeTxns := released.activeTxns - {tid},
                       committedTxns := released.committedTxns + {tid});
    forall t | (s, t) in f.validated ensures Logged(z, t) {
      assert Logged(r, t);
    }
    forall t | t in z.pendingTxns ensures PendingTxnOk(cfg, f, s, z, t) {
      assert PendingTxnOk(cfg, f, s, r, t);
    }
  }

  lemma CommitFacts(cfg: Config, f: Facts, g: Facts, s: nat, tid: nat, r: Replica, sends: seq<Message>)
    requires cfg.n > 0 && FactsOk(cfg, f) && LeaderOk(cfg, f, s, r) && Announced(cfg, f, tid)
    requires forall m :: m in sends ==>
      m.ReplicateCommit? || (m.DependenciesCleared? && m.shard == s && m.tid in r.activeTxns)
    requires g == f.(applied := f.applied + [(s, tid)], noticed := f.noticed + Notices(s, sends))
    ensures FactsOk(cfg, g)
    ensures forall m :: m in sends && m.DependenciesCleared? ==> MessageOk(cfg, g, m)
  {
    FactsGrow(cfg, f, g);
  }

  lemma CommitOk(cfg: Config, f: Facts, x: Node, r: Replica, tid: nat)
    requires cfg.Valid() && FactsOk(cfg, f) && LeaderOk(cfg, f, x.shard, r)
    requires r.shard == x.shard && r.n == cfg.n && Announced(cfg, f, tid)
    ensures
      var h := if Commits(r, tid) then f.(applied := f.applied + [(x.shard, tid)]) else f;
      var out := HandleCommit(r, tid, 0);
      LeaderStep(cfg, f, Grown(x, h, out.1), x.shard, r, out)
  {
    var out := HandleCommit(r, tid, 0);
    if !Commits(r, tid) {
      QuietOk(cfg, f, f, x, r, r);
    } else {
      var applied := Mark(r, tid).(precommitted := r.precommitted - {tid});
      var coordinator := r.pendingTxns[tid].primaryShard % r.n;
      var waiters := r.activeTxns[tid].out;
      ReleaseAllSends(applied, waiters, coordinator);
      var (released, sends) := ReleaseAll(applied, waiters, coordinator);
      CommittedOk(cfg, f, x.shard, r, released, tid);
      hide ReleaseAll, LeaderOk, FactsOk;
      CommitStep(cfg, f, x, r, out, tid);
    }
  }

  lemma CommitStep(cfg: Config, f: Facts, x: Node, r: Replica, out: (Replica, seq<Message>), tid: nat)
    requires cfg.n > 0 && FactsOk(cfg, f) && Announced(cfg, f, tid)
    requires LeaderOk(cfg, f, x.shard, r) && LeaderOk(cfg, f, x.shard, out.0) && out.0.log == r.log
    requires forall m :: m in out.1 ==>
      || (m.ReplicateCommit? && m.timestamp == 0)
      || (m.DependenciesCleared? && m.shard == x.shard && m.tid in r.activeTxns)
    ensures LeaderStep(cfg, f, Grown(x, f.(applied := f.applied + [(x.shard, tid)]), out.1), x.shard, r, out)
  {
    var h := f.(applied := f.applied + [(x.shard, tid)]);
    NoDeposits(x.shard, x.replica, out.1);
    assert Freed(x.shard, out.1) == {};
    var g := Grown(x, h, out.1);
    assert g == f.(applied := f.applied + [(x.shard, tid)], noticed := f.noticed + Notices(x.shard, out.1));
    hide Grown;
    CommitFacts(cfg, f, g, x.shard, tid, r, out.1);
    LeaderLater(cfg, f, g, x.shard, out.0);
    hide FactsOk, LeaderOk;
  }

  // ----- Followers -----

  ghost predicate FollowerStep(cfg: Config, f: Facts, g: Facts, x: Node, out: (Replica, seq<Message>), leader: Replica)
    requires cfg.n > 0
  {
    && Later(f, g) && g == f.(stored := g.stored)
    && (forall s, r, t :: (s, r, t) in g.stored && Node(s, r) != x ==> (s, r, t) in f.stored)
    && FactsOk(cfg, g)
    && FollowerOk(g, x, out.0, leader)
    && AllOk(cfg, g, out.1) && (forall m :: m in out.1 ==> !m.ReplicateTxn?)
  }

  lemma StoredFacts(cfg: Config, f: Facts, g: Facts, s: nat, r: nat, t: nat)
    requires cfg.n > 0 && FactsOk(cfg, f) && (s, t) in f.validated && r < cfg.n && Reports(cfg, s, r)
    requires g == f.(stored := f.stored + {(s, r, t)})
    ensures FactsOk(cfg, g)
  {
    forall c, u | (c, u) in g.announced ensures c == cfg.PrimaryCoordinator(u) && Backed(cfg, g, u) {
      BackedLater(cfg, f, g, u);
    }
  }

  lemma FollowerLogs(f: Facts, g: Facts, x: Node, r: Replica, r': Replica, leader: Replica, e: Entry)
    requires FollowerOk(f, x, r, leader) && e.lsn in leader.log && leader.log[e.lsn] == e
    requires r'.log == if e.lsn in r.log then r.log else r.log[e.lsn := e]
    requires g == f.(stored := f.stored + {(x.shard, x.replica, e.txn)})
    ensures FollowerOk(g, x, r', leader)
  {
    assert e.lsn in r'.log && r'.log[e.lsn].txn == e.txn;
    forall t | (x.shard, x.replica, t) in g.stored ensures Logged(r', t) {
      if t != e.txn {
        var l :| l in r.log && r.log[l].txn == t;
        assert l in r'.log && r'.log[l].txn == t;
      }
    }
  }

  lemma DepositOfReply(cfg: Config, x: Node, f: Facts, r: Replica, m: Message)
    requires m.ReplicateTxn?
    ensures Grown(x, f, HandleReplicate(r, m).1) ==
              f.(stored := f.stored + {(x.shard, x.replica, m.entry.txn)})
  {
    var out := HandleReplicate(r, m);
    NoClearances(x.shard, out.1);
    assert out.1[1].ReplyAndVote? && out.1[1].tid == m.entry.txn && !out.1[0].ReplyAndVote?;
    assert Deposits(x.shard, x.replica, out.1) == {(x.shard, x.replica, m.entry.txn)};
  }

  lemma ReplyOk(cfg: Config, f: Facts, g: Facts, r: Replica, m: Message)
    requires cfg.n > 0 && m.ReplicateTxn? && MessageOk(cfg, f, m)
    requires g == f.(stored := f.stored + {(r.shard, r.id, m.entry.txn)}) && m.shard == r.shard
    ensures AllOk(cfg, g, HandleReplicate(r, m).1)
    ensures forall y :: y in HandleReplicate(r, m).1 ==> !y.ReplicateTxn?
  {
  }

  lemma ReplicateOk(cfg: Config, f: Facts, x: Node, r: Replica, leader: Replica, m: Message)
    requires cfg.Valid() && FactsOk(cfg, f) && FollowerOk(f, x, r, leader)
    requires r.shard == x.shard && r.id == x.replica && x.replica < cfg.n && x.replica != cfg.leader(x.shard)
    requires m.ReplicateTxn? && MessageOk(cfg, f, m) && m.shard == x.shard
    requires m.entry.lsn in leader.log && leader.log[m.entry.lsn] == m.entry
    ensures
      var out := HandleReplicate(r, m);
      FollowerStep(cfg, f, Grown(x, f, out.1), x, out, leader)
  {
    var out := HandleReplicate(r, m);
    DepositOfReply(cfg, x, f, r, m);
    var g := Grown(x, f, out.1);
    assert (x.shard, m.entry.txn) in f.validated;
    hide Grown, MessageOk, AllOk, FactsOk, FollowerOk;
    ReplyOk(cfg, f, g, r, m);
    StoredFacts(cfg, f, g, x.shard, x.replica, m.entry.txn);
    FollowerLogs(f, g, x, r, out.0, leader, m.entry);
  }

  /** A leader's own request, looped back to it, finds the entry and is answered. */
  lemma SelfReplicateOk(cfg: Config, f: Facts, x: Node, r: Replica, m: Message)
    requires cfg.Valid() && FactsOk(cfg, f) && LeaderOk(cfg, f, x.shard, r) && cfg.loopback
    requires r.shard == x.shard && r.id == x.replica && x.replica < cfg.n
    requires m.ReplicateTxn? && MessageOk(cfg, f, m) && m.shard == x.shard && m.entry.lsn in r.log
    ensures
      var out := HandleReplicate(r, m);
      var g := Grown(x, f, out.1);
      && out.0 == r
      && g == f.(stored := f.stored + {(x.shard, x.replica, m.entry.txn)})
      && FactsOk(cfg, g) && LeaderOk(cfg, g, x.shard, r)
      && AllOk(cfg, g, out.1) && (forall x :: x in out.1 ==> !x.ReplicateTxn?)
  {
    var out := HandleReplicate(r, m);
    DepositOfReply(cfg, x, f, r, m);
    var g := Grown(x, f, out.1);
    hide Grown;
    StoredFacts(cfg, f, g, x.shard, x.replica, m.entry.txn);
    LeaderLater(cfg, f, g, x.shard, r);
  }
}
