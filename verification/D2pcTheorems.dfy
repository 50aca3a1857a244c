/** Whole runs of the parallel commit protocol. */
module D2pcTheorems {
  import opened CommitMessages
  import opened Counting
  import opened D2pcSystem
  import opened D2pcInvariant
  import C = CoordinatorSpec
  import R = LrReplicaSpec
  import Co = D2pcCoordinator
  import Re = D2pcReplica
  import CoordinatorAlone

  // ----- One node moves, the others stay as they are -----

  lemma MessagesStay(cfg: Config, f: Facts, g: Facts, net: set<Message>, sends: seq<Message>)
    requires cfg.n > 0 && Later(f, g) && MessagesOk(cfg, f, net)
    requires forall m :: m in sends ==> MessageOk(cfg, g, m)
    ensures MessagesOk(cfg, g, net + ToSet(sends))
  {
    forall m | m in net + ToSet(sends) ensures MessageOk(cfg, g, m) {
      if m in net {
        MessageLater(cfg, f, g, m);
      }
    }
  }

  lemma CoordinatorsStay(cfg: Config, f: Facts, g: Facts, coordinators: map<nat, C.Coordinator>)
    requires cfg.n > 0 && Later(f, g) && g.announced == f.announced && CoordinatorsOk(cfg, f, coordinators)
    ensures CoordinatorsOk(cfg, g, coordinators)
  {
    forall c | c in coordinators ensures CoordinatorOk(cfg, g, coordinators[c]) {
      CoordinatorLater(cfg, f, g, coordinators[c]);
    }
  }

  lemma RequestsStay(cfg: Config, sys: System, next: System, x: Node, sends: seq<Message>)
    requires Shaped(cfg, sys) && Shaped(cfg, next) && RequestsOk(cfg, sys) && x in sys.replicas
    requires next.net == sys.net + ToSet(sends)
    requires next.replicas == sys.replicas[x := next.replicas[x]]
    requires Re.LogGrows(sys.replicas[x].log, next.replicas[x].log)
    requires Re.SentFromLog(x.shard, next.replicas[x].log, sends)
    requires x == Leader(cfg, x.shard) || forall m :: m in sends ==> !m.ReplicateTxn?
    ensures RequestsOk(cfg, next)
  {
    forall m | m in next.net ensures FromLog(cfg, next, m) {
      if m in sys.net {
        assert FromLog(cfg, sys, m);
      }
    }
  }

  lemma LeadersStay(cfg: Config, sys: System, next: System, s: nat)
    requires Shaped(cfg, sys) && Shaped(cfg, next) && LeadersOk(cfg, sys) && s < cfg.shards
    requires next.replicas == sys.replicas[Leader(cfg, s) := next.replicas[Leader(cfg, s)]]
    requires Later(sys.facts, next.facts)
    requires forall p, t :: (p, t) in next.facts.validated && p != s ==> (p, t) in sys.facts.validated
    requires LeaderOk(cfg, next.facts, s, next.replicas[Leader(cfg, s)])
    ensures LeadersOk(cfg, next)
  {
    forall p: nat | p < cfg.shards ensures LeaderOk(cfg, next.facts, p, next.replicas[Leader(cfg, p)]) {
      if p != s {
        assert next.replicas[Leader(cfg, p)] == sys.replicas[Leader(cfg, p)];
        Re.LeaderLater(cfg, sys.facts, next.facts, p, sys.replicas[Leader(cfg, p)]);
      }
    }
  }

  /** Followers do not mind that their leader's log grows. */
  lemma FollowersStay(cfg: Config, sys: System, next: System, s: nat)
    requires Shaped(cfg, sys) && Shaped(cfg, next) && FollowersOk(cfg, sys) && s < cfg.shards
    requires next.replicas == sys.replicas[Leader(cfg, s) := next.replicas[Leader(cfg, s)]]
    requires next.facts.stored == sys.facts.stored
    requires Re.LogGrows(sys.replicas[Leader(cfg, s)].log, next.replicas[Leader(cfg, s)].log)
    ensures FollowersOk(cfg, next)
  {
    forall y | y in next.replicas && y.replica != cfg.leader(y.shard)
      ensures FollowerOk(next.facts, y, next.replicas[y], next.replicas[Leader(cfg, y.shard)])
    {
      assert FollowerOk(sys.facts, y, sys.replicas[y], sys.replicas[Leader(cfg, y.shard)]);
      assert y != Leader(cfg, s);
    }
  }

  lemma LeaderMoves(cfg: Config, sys: System, s: nat, h: Facts, out: (R.Replica, seq<Message>))
    requires Inv(cfg, sys) && s < cfg.shards
    requires
      var x := Leader(cfg, s);
      && SameNode(sys.replicas[x], out.0)
      && Re.LeaderStep(cfg, sys.facts, Re.Grown(x, h, out.1), s, sys.replicas[x], out)
    ensures Inv(cfg, AtReplica(sys, Leader(cfg, s), out, h))
  {
    var x := Leader(cfg, s);
    var g := Re.Grown(x, h, out.1);
    var next := AtReplica(sys, x, out, h);
    assert next == System(sys.replicas[x := out.0], sys.coordinators, sys.net + ToSet(out.1), g);
    ReplacedReplica(cfg, sys, x, out, h);
    hide Re.Grown, AtReplica, MessageOk, FactsOk, LeaderOk, MessagesOk;
    hide CoordinatorsOk, LeadersOk, FollowersOk, RequestsOk, ToSet, Shaped;
    MessagesStay(cfg, sys.facts, g, sys.net, out.1);
    CoordinatorsStay(cfg, sys.facts, g, sys.coordinators);
    hide Re.LogGrows, Re.SentFromLog, Later;
    RequestsStay(cfg, sys, next, x, out.1);
    LeadersStay(cfg, sys, next, s);
    FollowersStay(cfg, sys, next, s);
  }

  lemma OtherFollowersStay(cfg: Config, sys: System, next: System, x: Node)
    requires Shaped(cfg, sys) && Shaped(cfg, next) && FollowersOk(cfg, sys) && x in sys.replicas
    requires x.replica != cfg.leader(x.shard)
    requires next.replicas == sys.replicas[x := next.replicas[x]]
    requires forall s, r, t :: (s, r, t) in next.facts.stored && Node(s, r) != x ==> (s, r, t) in sys.facts.stored
    requires FollowerOk(next.facts, x, next.replicas[x], sys.replicas[Leader(cfg, x.shard)])
    ensures FollowersOk(cfg, next)
  {
    forall y | y in next.replicas && y.replica != cfg.leader(y.shard)
      ensures FollowerOk(next.facts, y, next.replicas[y], next.replicas[Leader(cfg, y.shard)])
    {
      assert Leader(cfg, y.shard) != x;
      if y != x {
        assert FollowerOk(sys.facts, y, sys.replicas[y], sys.replicas[Leader(cfg, y.shard)]);
      }
    }
  }

  /** Leaders are untouched by what happens elsewhere. */
  lemma AllLeadersStay(cfg: Config, sys: System, next: System)
    requires Shaped(cfg, sys) && Shaped(cfg, next) && LeadersOk(cfg, sys)
    requires forall p: nat :: p < cfg.shards ==> next.replicas[Leader(cfg, p)] == sys.replicas[Leader(cfg, p)]
    requires Later(sys.facts, next.facts) && next.facts.validated == sys.facts.validated
    ensures LeadersOk(cfg, next)
  {
    forall p: nat | p < cfg.shards ensures LeaderOk(cfg, next.facts, p, next.replicas[Leader(cfg, p)]) {
      Re.LeaderLater(cfg, sys.facts, next.facts, p, sys.replicas[Leader(cfg, p)]);
    }
  }

  lemma FollowerMoves(cfg: Config, sys: System, x: Node, out: (R.Replica, seq<Message>))
    requires Inv(cfg, sys) && x in sys.replicas && x.replica != cfg.leader(x.shard)
    requires SameNode(sys.replicas[x], out.0) && Re.LogGrows(sys.replicas[x].log, out.0.log)
    requires Re.FollowerStep(cfg, sys.facts, Re.Grown(x, sys.facts, out.1), x, out, sys.replicas[Leader(cfg, x.shard)])
    ensures Inv(cfg, AtReplica(sys, x, out, sys.facts))
  {
    var f := sys.facts;
    var g := Re.Grown(x, f, out.1);
    var next := AtReplica(sys, x, out, f);
    assert next == System(sys.replicas[x := out.0], sys.coordinators, sys.net + ToSet(out.1), g);
    ReplacedReplica(cfg, sys, x, out, f);
    assert forall p :: Leader(cfg, p) != x;
    hide Re.Grown, AtReplica, MessageOk, FactsOk, FollowerOk;
    hide MessagesOk, CoordinatorsOk, LeadersOk, FollowersOk, RequestsOk, ToSet;
    MessagesStay(cfg, f, g, sys.net, out.1);
    CoordinatorsStay(cfg, f, g, sys.coordinators);
    hide Re.LogGrows, Later;
    RequestsStay(cfg, sys, next, x, out.1);
    AllLeadersStay(cfg, sys, next);
    OtherFollowersStay(cfg, sys, next, x);
  }

  lemma CoordinatorMoves(cfg: Config, sys: System, c: nat, out: (C.Coordinator, seq<Message>))
    requires Inv(cfg, sys) && c in sys.coordinators && out.0.n == cfg.n
    requires Co.StepOk(cfg, sys.facts, sys.coordinators[c], out)
    requires forall m :: m in out.1 ==> !m.ReplicateTxn?
    ensures Inv(cfg, AtCoordinator(sys, c, out))
  {
    var f := sys.facts;
    var g := Co.FactsAfter(f, c, out.1);
    var next := AtCoordinator(sys, c, out);
    AnnouncedHere(c, out.1);
    assert next == System(sys.replicas, sys.coordinators[c := out.0], sys.net + ToSet(out.1), g) && Later(f, g);
    ReplacedCoordinator(cfg, sys, c, out);
    hide Co.FactsAfter, AtCoordinator, MessageOk, FactsOk, FollowerOk, MessagesOk, LeadersOk, RequestsOk, ToSet;
    MessagesStay(cfg, f, g, sys.net, out.1);
    forall d | d in next.coordinators ensures CoordinatorOk(cfg, g, next.coordinators[d]) {
      if d != c {
        CoordinatorLater(cfg, f, g, sys.coordinators[d]);
      }
    }
    hide CoordinatorOk;
    RequestsStayHere(cfg, sys, next, out.1);
    AllLeadersStay(cfg, sys, next);
    FollowersStayHere(cfg, sys, next);
  }

  lemma RequestsStayHere(cfg: Config, sys: System, next: System, sends: seq<Message>)
    requires Shaped(cfg, sys) && Shaped(cfg, next) && RequestsOk(cfg, sys)
    requires next.net == sys.net + ToSet(sends) && next.replicas == sys.replicas
    requires forall m :: m in sends ==> !m.ReplicateTxn?
    ensures RequestsOk(cfg, next)
  {
    forall m | m in next.net ensures FromLog(cfg, next, m) {
      assert m in sys.net ==> FromLog(cfg, sys, m);
    }
  }

  lemma FollowersStayHere(cfg: Config, sys: System, next: System)
    requires Shaped(cfg, sys) && Shaped(cfg, next) && FollowersOk(cfg, sys)
    requires next.replicas == sys.replicas && next.facts.stored == sys.facts.stored
    ensures FollowersOk(cfg, next)
  {
    forall y | y in next.replicas && y.replica != cfg.leader(y.shard)
      ensures FollowerOk(next.facts, y, next.replicas[y], next.replicas[Leader(cfg, y.shard)])
    {
      assert FollowerOk(sys.facts, y, sys.replicas[y], sys.replicas[Leader(cfg, y.shard)]);
    }
  }

  lemma {:induction false} AnnouncedHere(c: nat, sends: seq<Message>)
    ensures forall d, t :: (d, t) in Announcements(c, sends) ==> d == c
    decreases |sends|
  {
    if sends != [] {
      AnnouncedHere(c, sends[1..]);
    }
  }

  lemma CoordinatorSends(c: C.Coordinator, m: Message)
    requires c.n > 0
    ensures forall x :: x in C.Handle(c, m).1 ==> !x.ReplicateTxn?
  {
    hide C.ReachConsensus, C.NoDependency, C.ReachFaultTolerance, C.AddReplies, C.AddReply;
    if m.ReplyAndVote? {
      var voted := C.Voted(c, m);
      var req := voted.(votes := C.ReachConsensus(voted).0, state := PREPARED, reachConsensus := true);
      Co.NotifyLeadersSends(c, m.tid, req, req.participants);
      var refused := C.Joined(c, m).(state := ABORT, reachConsensus := true);
      Co.NotifyLeadersSends(c, m.tid, refused, refused.participants);
      hide C.NotifyLeaders, C.Voted, C.Joined;
    }
  }

  // ----- Every event -----

  lemma LeaderEvents(cfg: Config, sys: System, e: Event)
    requires Inv(cfg, sys) && Enabled(cfg, sys, e)
    requires e.Prepare? || e.Read? || e.Timeout? || e.ClientCommit?
    ensures Inv(cfg, Apply(cfg, sys, e))
  {
    var s := e.shard;
    var x := Leader(cfg, s);
    var r := sys.replicas[x];
    var f := sys.facts;
    assert LeaderOk(cfg, f, s, r);
    ReplicaStays(cfg, r, e);
    match e {
      case Prepare(_, tid, writes, passes) => Re.PrepareOk(cfg, f, x, r, tid, writes, passes);
      case Read(_, tid, dependencies) => Re.ReadOk(cfg, f, x, r, tid, dependencies);
      case Timeout(_, tid) => Re.TimeoutOk(cfg, f, x, r, tid);
      case ClientCommit(_, tid, timestamp) =>
        DecisionWasAnnounced(cfg, sys, tid, timestamp);
        Re.CommitOk(cfg, f, x, r, tid);
    }
    hide Inv, Re.LeaderStep, Re.Grown, AtReplica, React, Record;
    assert Re.LeaderStep(cfg, f, Re.Grown(x, Record(f, r, e), React(cfg, r, e).1), s, r, React(cfg, r, e));
    LeaderMoves(cfg, sys, s, Record(f, r, e), React(cfg, r, e));
  }

  lemma DecisionWasAnnounced(cfg: Config, sys: System, tid: nat, timestamp: nat)
    requires Inv(cfg, sys)
    requires exists p, c :: NotifyReplicateResult(p, c, tid, timestamp) in sys.net
    ensures timestamp == 0 && Announced(cfg, sys.facts, tid)
  {
    var p, c :| NotifyReplicateResult(p, c, tid, timestamp) in sys.net;
    assert MessageOk(cfg, sys.facts, NotifyReplicateResult(p, c, tid, timestamp));
  }

  lemma LeaderIs(cfg: Config, sys: System, s: nat)
    requires Inv(cfg, sys) && s < cfg.shards
    ensures
      var x := Leader(cfg, s);
      && cfg.Valid() && FactsOk(cfg, sys.facts)
      && x in sys.replicas && sys.replicas[x].shard == s && sys.replicas[x].n == cfg.n
      && LeaderOk(cfg, sys.facts, s, sys.replicas[x])
  {
  }

  lemma FollowerIs(cfg: Config, sys: System, x: Node)
    requires Inv(cfg, sys) && x.shard < cfg.shards && x.replica < cfg.n && x.replica != cfg.leader(x.shard)
    ensures
      && cfg.Valid() && FactsOk(cfg, sys.facts)
      && x in sys.replicas && Leader(cfg, x.shard) in sys.replicas
      && sys.replicas[x].shard == x.shard && sys.replicas[x].id == x.replica && sys.replicas[x].n == cfg.n
      && FollowerOk(sys.facts, x, sys.replicas[x], sys.replicas[Leader(cfg, x.shard)])
  {
  }

  lemma LeaderMessages(cfg: Config, sys: System, m: Message, at: nat)
    requires Inv(cfg, sys) && Enabled(cfg, sys, ToReplica(m, at))
    requires m.ReplicateReply? || m.NotifyDecision? || m.NotifyReplicateResult?
    ensures Inv(cfg, Apply(cfg, sys, ToReplica(m, at)))
  {
    LeaderIs(cfg, sys, m.shard);
    var e := ToReplica(m, at);
    var x := Leader(cfg, m.shard);
    var r := sys.replicas[x];
    var f := sys.facts;
    ApplyIs(cfg, sys, e);
    if m.NotifyReplicateResult? {
      DecisionWasAnnounced(cfg, sys, m.tid, m.timestamp);
    }
    hide Inv, Re.LeaderStep, Re.Grown, FactsOk, LeaderOk, R.HandleCommit, AtReplica, Apply;
    if m.NotifyReplicateResult? {
      Re.CommitOk(cfg, f, x, r, m.tid);
    } else {
      QuietMessage(cfg, f, x, r, m);
    }
    assert Re.LeaderStep(cfg, f, Re.Grown(x, Record(f, r, e), React(cfg, r, e).1), m.shard, r, React(cfg, r, e));
    hide React, Record;
    LeaderMoves(cfg, sys, m.shard, Record(f, r, e), React(cfg, r, e));
  }

  lemma QuietMessage(cfg: Config, f: Facts, x: Node, r: R.Replica, m: Message)
    requires cfg.Valid() && FactsOk(cfg, f) && LeaderOk(cfg, f, x.shard, r) && r.n == cfg.n
    requires m.ReplicateReply? || m.NotifyDecision?
    ensures Re.LeaderStep(cfg, f, Re.Grown(x, f, []), x.shard, r, (HandleAtReplica(r, m).0, []))
  {
    if m.ReplicateReply? {
      Re.ReplicateReplyOk(cfg, f, x.shard, r, m.tid, m.replica);
    } else {
      Re.PreCommitOk(cfg, f, x.shard, r, m.tid);
    }
    hide LeaderOk, FactsOk, Re.LeaderStep, Re.Grown, R.HandleReplicateReply, R.HandleDecision;
    Re.QuietOk(cfg, f, f, x, r, HandleAtReplica(r, m).0);
  }

  lemma ApplyIs(cfg: Config, sys: System, e: Event)
    requires Shaped(cfg, sys) && Enabled(cfg, sys, e) && !e.ToCoordinator?
    ensures
      var x := Where(cfg, e);
      && x in sys.replicas && sys.replicas[x].n == cfg.n
      && SameNode(sys.replicas[x], React(cfg, sys.replicas[x], e).0)
      && Apply(cfg, sys, e) == AtReplica(sys, x, React(cfg, sys.replicas[x], e), Record(sys.facts, sys.replicas[x], e))
  {
    ReplicaStays(cfg, sys.replicas[Where(cfg, e)], e);
    hide React, Record, AtReplica, SameNode;
  }

  lemma FollowerMessages(cfg: Config, sys: System, m: Message, at: nat)
    requires Inv(cfg, sys) && Enabled(cfg, sys, ToReplica(m, at))
    requires (m.ReplicateTxn? || m.ReplicateCommit?) && at != cfg.leader(m.shard)
    ensures Inv(cfg, Apply(cfg, sys, ToReplica(m, at)))
  {
    var e := ToReplica(m, at);
    var x := Node(m.shard, at);
    FollowerIs(cfg, sys, x);
    ApplyIs(cfg, sys, e);
    assert m.ReplicateTxn? ==> MessageOk(cfg, sys.facts, m) && FromLog(cfg, sys, m);
    hide Inv, AtReplica, FactsOk, FollowerOk, MessageOk, Re.Grown, Re.FollowerStep, Apply;
    FollowerReacts(cfg, sys, x, m);
    hide React;
    FollowerMoves(cfg, sys, x, React(cfg, sys.replicas[x], e));
  }

  lemma FollowerReacts(cfg: Config, sys: System, x: Node, m: Message)
    requires cfg.Valid() && FactsOk(cfg, sys.facts) && Shaped(cfg, sys)
    requires x in sys.replicas && x.replica != cfg.leader(x.shard) && Leader(cfg, x.shard) in sys.replicas
    requires FollowerOk(sys.facts, x, sys.replicas[x], sys.replicas[Leader(cfg, x.shard)])
    requires m.ReplicateTxn? || m.ReplicateCommit?
    requires m.shard == x.shard && (m.ReplicateTxn? ==> MessageOk(cfg, sys.facts, m) && FromLog(cfg, sys, m))
    ensures
      var out := HandleAtReplica(sys.replicas[x], m);
      && Re.FollowerStep(cfg, sys.facts, Re.Grown(x, sys.facts, out.1), x, out, sys.replicas[Leader(cfg, x.shard)])
      && Re.LogGrows(sys.replicas[x].log, out.0.log)
  {
    var r, leader := sys.replicas[x], sys.replicas[Leader(cfg, x.shard)];
    hide Re.Grown, Re.FollowerStep, FactsOk, FollowerOk, MessageOk;
    if m.ReplicateTxn? {
      Re.ReplicateOk(cfg, sys.facts, x, r, leader, m);
    } else {
      ReplicateCommitOk(cfg, sys.facts, x, r, leader, m.tid);
    }
  }

  /** A leader hears its own request. */
  lemma SelfMessage(cfg: Config, sys: System, m: Message, at: nat)
    requires Inv(cfg, sys) && Enabled(cfg, sys, ToReplica(m, at))
    requires m.ReplicateTxn? && at == cfg.leader(m.shard)
    ensures Inv(cfg, Apply(cfg, sys, ToReplica(m, at)))
  {
    var e := ToReplica(m, at);
    var x := Leader(cfg, m.shard);
    var f := sys.facts;
    LeaderIs(cfg, sys, m.shard);
    ApplyIs(cfg, sys, e);
    var r := sys.replicas[x];
    assert MessageOk(cfg, f, m) && FromLog(cfg, sys, m);
    hide FactsOk, LeaderOk, MessageOk, Re.Grown, Apply;
    Re.SelfReplicateOk(cfg, f, x, r, m);
    var out := R.HandleReplicate(r, m);
    var g := Re.Grown(x, f, out.1);
    var next := AtReplica(sys, x, out, f);
    SelfShape(cfg, sys, x, out, g);
    hide R.HandleReplicate, AtReplica, MessagesOk, CoordinatorsOk, LeadersOk, FollowersOk, RequestsOk, ToSet;
    MessagesStay(cfg, f, g, sys.net, out.1);
    CoordinatorsStay(cfg, f, g, sys.coordinators);
    RequestsStayHere(cfg, sys, next, out.1);
    AllLeadersStay(cfg, sys, next);
    FollowersIgnore(cfg, sys, next, x);
  }

  lemma SelfShape(cfg: Config, sys: System, x: Node, out: (R.Replica, seq<Message>), g: Facts)
    requires Shaped(cfg, sys) && x in sys.replicas && out.0 == sys.replicas[x] && g == Re.Grown(x, sys.facts, out.1)
    ensures AtReplica(sys, x, out, sys.facts) == System(sys.replicas, sys.coordinators, sys.net + ToSet(out.1), g)
    ensures Shaped(cfg, AtReplica(sys, x, out, sys.facts))
  {
    assert sys.replicas[x := out.0] == sys.replicas;
  }

  lemma FollowersIgnore(cfg: Config, sys: System, next: System, x: Node)
    requires Shaped(cfg, sys) && Shaped(cfg, next) && FollowersOk(cfg, sys) && x == Leader(cfg, x.shard)
    requires next.replicas == sys.replicas
    requires forall s, r, t :: (s, r, t) in next.facts.stored && Node(s, r) != x ==> (s, r, t) in sys.facts.stored
    ensures FollowersOk(cfg, next)
  {
    forall y | y in next.replicas && y.replica != cfg.leader(y.shard)
      ensures FollowerOk(next.facts, y, next.replicas[y], next.replicas[Leader(cfg, y.shard)])
    {
      assert FollowerOk(sys.facts, y, sys.replicas[y], sys.replicas[Leader(cfg, y.shard)]);
      assert y != x;
    }
  }

  lemma ReplicateCommitOk(cfg: Config, f: Facts, x: Node, r: R.Replica, leader: R.Replica, tid: nat)
    requires cfg.n > 0 && FactsOk(cfg, f) && FollowerOk(f, x, r, leader)
    ensures
      var out := (R.HandleReplicateCommit(r, tid), []);
      && Re.FollowerStep(cfg, f, Re.Grown(x, f, []), x, out, leader)
      && Re.LogGrows(r.log, out.0.log)
  {
    Re.GrownByNothing(x, f);
    hide Re.Grown, FactsOk;
    assert FollowerOk(f, x, R.HandleReplicateCommit(r, tid), leader);
  }

  lemma CoordinatorEvents(cfg: Config, sys: System, m: Message, at: nat)
    requires Inv(cfg, sys) && Enabled(cfg, sys, ToCoordinator(m, at))
    ensures Inv(cfg, Apply(cfg, sys, ToCoordinator(m, at)))
  {
    var c := sys.coordinators[at];
    Co.HandleOk(cfg, sys.facts, c, m);
    CoordinatorStays(c, m);
    CoordinatorSends(c, m);
    hide Inv, Co.StepOk, AtCoordinator, C.Handle;
    CoordinatorMoves(cfg, sys, at, C.Handle(c, m));
  }

  lemma StepInv(cfg: Config, sys: System, e: Event)
    requires Inv(cfg, sys)
    ensures Inv(cfg, Step(cfg, sys, e))
  {
    if Enabled(cfg, sys, e) {
      match e
      case ToReplica(m, at) =>
        if m.ReplicateTxn? && at == cfg.leader(m.shard) {
          SelfMessage(cfg, sys, m, at);
        } else if m.ReplicateTxn? || m.ReplicateCommit? {
          FollowerMessages(cfg, sys, m, at);
        } else {
          LeaderMessages(cfg, sys, m, at);
        }
      case ToCoordinator(m, at) => CoordinatorEvents(cfg, sys, m, at);
      case _ => LeaderEvents(cfg, sys, e);
    }
  }

  lemma {:induction false} RunInv(cfg: Config, sys: System, events: seq<Event>)
    requires Inv(cfg, sys)
    ensures Inv(cfg, Run(cfg, sys, events))
    decreases |events|
  {
    if events != [] {
      StepInv(cfg, sys, events[0]);
      RunInv(cfg, Step(cfg, sys, events[0]), events[1..]);
    }
  }

  lemma InitialInv(cfg: Config, sys: System)
    requires Initial(cfg, sys)
    ensures Inv(cfg, sys)
  {
  }

  // ----- The theorems -----

  /** A state that some sequence of events leads to. */
  ghost predicate Reachable(cfg: Config, end: System) {
    exists sys, events :: Initial(cfg, sys) && end == Run(cfg, sys, events)
  }

  lemma ReachableInv(cfg: Config, end: System)
    requires Reachable(cfg, end)
    ensures Inv(cfg, end)
  {
    var sys, events :| Initial(cfg, sys) && end == Run(cfg, sys, events);
    InitialInv(cfg, sys);
    hide Inv, Run;
    RunInv(cfg, sys, events);
  }

  /** Coordinator `c` has decided to commit the transaction: it has told its leader, or has
      recorded a fault tolerant result. */
  ghost predicate DecidedAt(sys: System, c: nat, t: nat) {
    || (exists s, ts :: NotifyReplicateResult(s, c, t, ts) in sys.net)
    || (c in sys.coordinators && t in sys.coordinators[c].commitResults
        && sys.coordinators[c].commitResults[t].faultTolerant)
  }

  /** The decision to commit is on its way to the other coordinators. */
  ghost predicate Broadcast(sys: System, t: nat) {
    exists state, ts :: ReplicateDecision(t, state, ts) in sys.net
  }

  lemma DecidedIsAnnounced(cfg: Config, sys: System, c: nat, t: nat)
    requires Inv(cfg, sys) && (DecidedAt(sys, c, t) || Broadcast(sys, t))
    ensures Announced(cfg, sys.facts, t)
  {
    if s, ts :| NotifyReplicateResult(s, c, t, ts) in sys.net {
      assert MessageOk(cfg, sys.facts, NotifyReplicateResult(s, c, t, ts));
    } else if state, ts :| ReplicateDecision(t, state, ts) in sys.net {
      assert MessageOk(cfg, sys.facts, ReplicateDecision(t, state, ts));
    } else {
      assert CoordinatorOk(cfg, sys.facts, sys.coordinators[c]);
    }
  }

  /** The log of replica `r` has an entry of the transaction, the very entry the leader has at
      that position.  Where leaders do not hear themselves, `r` is a follower. */
  ghost predicate HeldBy(cfg: Config, sys: System, p: nat, r: nat, t: nat) {
    && r < cfg.n && (r == cfg.leader(p) ==> cfg.loopback)
    && Node(p, r) in sys.replicas && Leader(cfg, p) in sys.replicas
    && var log, leader := sys.replicas[Node(p, r)].log, sys.replicas[Leader(cfg, p)].log;
       exists l :: l in log && log[l].txn == t && l in leader && leader[l] == log[l]
  }

  ghost predicate AllHold(cfg: Config, sys: System, p: nat, replicas: set<nat>, t: nat) {
    forall r :: r in replicas ==> HeldBy(cfg, sys, p, r, t)
  }

  /** The leader of `p` has passed the transaction and has it in its log, and so have n/2+1
      distinct replicas. */
  ghost predicate DurableAt(cfg: Config, sys: System, p: nat, t: nat) {
    && (p, t) in sys.facts.validated
    && Leader(cfg, p) in sys.replicas && Logged(sys.replicas[Leader(cfg, p)], t)
    && exists replicas: set<nat> :: |replicas| >= cfg.n / 2 + 1 && AllHold(cfg, sys, p, replicas, t)
  }

  lemma StoredIsHeld(cfg: Config, sys: System, p: nat, r: nat, t: nat)
    requires Inv(cfg, sys) && p < cfg.shards && (p, r, t) in sys.facts.stored
    ensures HeldBy(cfg, sys, p, r, t)
  {
    LeaderIs(cfg, sys, p);
    if r != cfg.leader(p) {
      FollowerIs(cfg, sys, Node(p, r));
    }
    assert Logged(sys.replicas[Node(p, r)], t);
  }

  lemma BackedIsDurable(cfg: Config, sys: System, p: nat, t: nat)
    requires Inv(cfg, sys) && Backed(cfg, sys.facts, t) && p in cfg.participants(t)
    ensures DurableAt(cfg, sys, p, t)
  {
    LeaderIs(cfg, sys, p);
    var list :| Replicated(sys.facts, p, t, list) && |list| >= C.Majority(cfg.n);
    ElementsSize(list);
    forall r | r in Elements(list) ensures HeldBy(cfg, sys, p, r, t) {
      StoredIsHeld(cfg, sys, p, r, t);
    }
    assert AllHold(cfg, sys, p, Elements(list), t);
  }

  /** Commit durability.  Whenever a coordinator has decided to commit, or the decision is
      on its way to the others, the leader of every
      participant has validated the transaction and has it in its log, and at least n/2+1
      distinct replicas of every participant hold the leader's log entry. */
  lemma CommitIsDurable(cfg: Config, end: System, c: nat, t: nat)
    requires Reachable(cfg, end) && (DecidedAt(end, c, t) || Broadcast(end, t))
    ensures cfg.participants(t) != []
    ensures forall p :: p in cfg.participants(t) ==> DurableAt(cfg, end, p, t)
  {
    ReachableInv(cfg, end);
    DecidedIsAnnounced(cfg, end, c, t);
    forall p | p in cfg.participants(t) ensures DurableAt(cfg, end, p, t) {
      BackedIsDurable(cfg, end, p, t);
    }
  }

  /** A transaction can commit at all: the leaders hear themselves, or there are enough
      followers for a majority and the primary coordinator is beside no participant's leader,
      whose vote it would never get. */
  ghost predicate CanCommit(cfg: Config, t: nat)
    requires cfg.n > 0
  {
    && cfg.participants(t) != []
    && (cfg.loopback
        || (cfg.n >= 3 && forall p :: p in cfg.participants(t) ==> cfg.leader(p) != cfg.PrimaryCoordinator(t)))
  }

  /** Followers alone are a majority only of three replicas or more. */
  lemma FollowersSuffice(cfg: Config, f: Facts, p: nat, t: nat)
    requires cfg.Valid() && FactsOk(cfg, f) && OnMajority(cfg, f, p, t) && !cfg.loopback
    ensures cfg.n >= 3
  {
    var list :| Replicated(f, p, t, list) && |list| >= C.Majority(cfg.n);
    ElementsSize(list);
    forall r | r in Elements(list) ensures r < cfg.n && r != cfg.leader(p) {
      assert (p, r, t) in f.stored;
    }
    var all := Elements(list) + {cfg.leader(p)};
    RangeSize(all, cfg.n);
    assert |all| == |list| + 1;
  }

  /** Nothing else is ever committed. */
  lemma CommitNeeds(cfg: Config, end: System, c: nat, t: nat)
    requires Reachable(cfg, end) && (DecidedAt(end, c, t) || Broadcast(end, t))
    ensures cfg.n > 0 && CanCommit(cfg, t)
  {
    ReachableInv(cfg, end);
    DecidedIsAnnounced(cfg, end, c, t);
    assert Backed(cfg, end.facts, t);
    if !cfg.loopback {
      FollowersSuffice(cfg, end.facts, cfg.participants(t)[0], t);
      forall p | p in cfg.participants(t) ensures cfg.leader(p) != cfg.PrimaryCoordinator(t) {
        assert (p, cfg.PrimaryCoordinator(t), t) in end.facts.stored;
      }
    }
  }

  /** Pre-commit soundness.  The decision that coordinators send to leaders is always to
      commit, and is sent only when every participant's leader has passed the transaction and
      logged it. */
  lemma PreCommitIsSound(cfg: Config, end: System, s: nat, r: nat, t: nat, state: CommitResult, ts: nat)
    requires Reachable(cfg, end) && NotifyDecision(s, r, t, state, ts) in end.net
    ensures state == PREPARED
    ensures forall p :: p in cfg.participants(t) ==>
              && (p, t) in end.facts.validated
              && Leader(cfg, p) in end.replicas && Logged(end.replicas[Leader(cfg, p)], t)
  {
    ReachableInv(cfg, end);
    assert MessageOk(cfg, end.facts, NotifyDecision(s, r, t, state, ts));
    forall p | p in cfg.participants(t)
      ensures Leader(cfg, p) in end.replicas && Logged(end.replicas[Leader(cfg, p)], t)
    {
      LeaderIs(cfg, end, p);
    }
  }

  /** Decided once.  At no coordinator is a transaction both pending and decided; each commit
      decision is announced at most once in the whole run, and only by the transaction's
      primary coordinator. */
  lemma DecidedOnce(cfg: Config, end: System)
    requires Reachable(cfg, end)
    ensures cfg.n > 0
    ensures forall c :: c in end.coordinators ==>
              end.coordinators[c].pendingCommits.Keys !! end.coordinators[c].commitResults.Keys
    ensures forall i :: 0 <= i < |end.facts.announced| ==>
              end.facts.announced[i].0 == cfg.PrimaryCoordinator(end.facts.announced[i].1)
    ensures forall i, j :: 0 <= i < j < |end.facts.announced| ==>
              end.facts.announced[i].1 != end.facts.announced[j].1
  {
    ReachableInv(cfg, end);
    forall c | c in end.coordinators
      ensures end.coordinators[c].pendingCommits.Keys !! end.coordinators[c].commitResults.Keys
    {
      assert CoordinatorOk(cfg, end.facts, end.coordinators[c]);
    }
    var all := end.facts.announced;
    forall i | 0 <= i < |all| ensures all[i].0 == cfg.PrimaryCoordinator(all[i].1) {
      assert (all[i].0, all[i].1) in all;
    }
  }

  /** A recorded result is never overwritten or dropped. */
  lemma ResultStays(cfg: Config, sys: System, e: Event, c: nat, t: nat)
    requires Inv(cfg, sys) && c in sys.coordinators && t in sys.coordinators[c].commitResults
    ensures
      var next := Step(cfg, sys, e);
      && c in next.coordinators && t in next.coordinators[c].commitResults
      && next.coordinators[c].commitResults[t] == sys.coordinators[c].commitResults[t]
  {
    if Enabled(cfg, sys, e) && e.ToCoordinator? && e.at == c {
      assert CoordinatorOk(cfg, sys.facts, sys.coordinators[c]);
      CoordinatorAlone.HandleTouches(sys.coordinators[c], e.m);
    }
    hide Inv, React, Record, C.Handle;
  }

  /** `end` is reached from `mid` by some events. */
  ghost predicate LeadsTo(cfg: Config, mid: System, end: System)
    requires Shaped(cfg, mid)
  {
    exists events :: end == Run(cfg, mid, events)
  }

  ghost predicate Keeps(mid: System, end: System, c: nat, t: nat) {
    c in mid.coordinators && t in mid.coordinators[c].commitResults ==>
      && c in end.coordinators && t in end.coordinators[c].commitResults
      && end.coordinators[c].commitResults[t] == mid.coordinators[c].commitResults[t]
  }

  lemma {:induction false} RunKeepsResults(cfg: Config, sys: System, events: seq<Event>, c: nat, t: nat)
    requires Inv(cfg, sys)
    ensures Keeps(sys, Run(cfg, sys, events), c, t)
    decreases |events|
  {
    if events != [] && c in sys.coordinators && t in sys.coordinators[c].commitResults {
      StepInv(cfg, sys, events[0]);
      ResultStays(cfg, sys, events[0], c, t);
      hide Step;
      RunKeepsResults(cfg, Step(cfg, sys, events[0]), events[1..], c, t);
    }
  }

  lemma ResultsStay(cfg: Config, mid: System, end: System, c: nat, t: nat)
    requires Reachable(cfg, mid) && Shaped(cfg, mid) && LeadsTo(cfg, mid, end)
    ensures Keeps(mid, end, c, t)
  {
    ReachableInv(cfg, mid);
    var events :| end == Run(cfg, mid, events);
    RunKeepsResults(cfg, mid, events, c, t);
  }

  /** What the coordinators' records come to: the primary coordinator's say that the
      transaction committed, every other coordinator's say that it aborted. */
  lemma OthersFileAbort(cfg: Config, end: System, c: nat, t: nat)
    requires Reachable(cfg, end)
    requires c in end.coordinators && t in end.coordinators[c].commitResults
    ensures cfg.n > 0
    ensures end.coordinators[c].commitResults[t].state == ABORT <==> c != cfg.PrimaryCoordinator(t)
  {
    ReachableInv(cfg, end);
    assert CoordinatorOk(cfg, end.facts, end.coordinators[c]);
  }

  /** The votes carry no timestamp, so every decision is to commit at time 0. */
  lemma CommitsAtTimeZero(cfg: Config, end: System, m: Message)
    requires Reachable(cfg, end) && m in end.net
    ensures m.NotifyReplicateResult? || m.NotifyDecision? || m.ReplicateDecision? || m.ReplicateCommit? ==>
              m.timestamp == 0
  {
    ReachableInv(cfg, end);
    assert MessageOk(cfg, end.facts, m);
  }
}
