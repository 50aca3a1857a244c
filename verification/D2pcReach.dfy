/** What the parallel commit protocol can do: exactly which transactions can be committed, and
    runs that reach the states in which the code falls short. */
module D2pcReach {
  import opened CommitMessages
  import opened D2pcSystem
  import opened D2pcInvariant
  import opened Recoverability
  import opened CoordinatorProgress
  import opened D2pcRuns
  import C = CoordinatorSpec
  import Co = D2pcCoordinator
  import Th = D2pcTheorems

  // ----- What is announced has been sent -----

  ghost predicate BothIn(net: set<Message>, c: nat, t: nat) {
    && (exists s, ts :: NotifyReplicateResult(s, c, t, ts) in net)
    && (exists state, ts :: ReplicateDecision(t, state, ts) in net)
  }

  ghost predicate AnnouncementsSent(sys: System) {
    forall c, t :: (c, t) in sys.facts.announced ==> BothIn(sys.net, c, t)
  }

  lemma BothStay(net: set<Message>, more: set<Message>, c: nat, t: nat)
    requires BothIn(net, c, t) && net <= more
    ensures BothIn(more, c, t)
  {
  }

  /** A coordinator sends its two announcements together. */
  ghost predicate Paired(c: nat, sends: seq<Message>) {
    forall t :: (c, t) in Announcements(c, sends) ==> BothIn(ToSet(sends), c, t)
  }

  lemma PairIsPaired(c: C.Coordinator, t: nat, req: C.Pending, before: seq<Message>, after: seq<Message>)
    requires forall m :: m in before + after ==> !m.NotifyReplicateResult?
    ensures Paired(c.id, before + C.AnnounceCommit(c, t, req) + after)
  {
    var pair := C.AnnounceCommit(c, t, req);
    Co.DecideAnnounces(c, t, req, before);
    Co.AnnouncementsConcat(c.id, before + pair, after);
    Co.NoAnnouncement(c.id, after);
    var sends := before + pair + after;
    assert pair[0] in sends && pair[1] in sends;
    assert NotifyReplicateResult(req.primaryShard, c.id, t, req.timestamp) in ToSet(sends);
    assert ReplicateDecision(t, req.state, req.timestamp) in ToSet(sends);
  }

  lemma NothingIsPaired(c: nat, sends: seq<Message>)
    requires forall m :: m in sends ==> !m.NotifyReplicateResult?
    ensures Paired(c, sends)
  {
    Co.NoAnnouncement(c, sends);
  }

  lemma DecidePairs(c: C.Coordinator, t: nat, req: C.Pending)
    ensures Paired(c.id, C.AnnounceCommit(c, t, req))
  {
    PairIsPaired(c, t, req, [], []);
    assert [] + C.AnnounceCommit(c, t, req) + [] == C.AnnounceCommit(c, t, req);
  }

  lemma VotePairs(c: C.Coordinator, m: Message)
    requires c.n > 0 && m.ReplyAndVote?
    ensures Paired(c.id, C.HandleReplyAndVote(c, m).1)
  {
    hide C.ReachConsensus, C.NoDependency, Paired;
    var (c', sends) := C.HandleReplyAndVote(c, m);
    var bypass := BypassReply(m.primaryCoordinator, m.tid, m.shard, m.replica);
    var voted := C.Voted(c, m);
    var req := voted.(votes := C.ReachConsensus(voted).0, state := PREPARED, reachConsensus := true);
    var refused := C.Joined(c, m).(state := ABORT, reachConsensus := true);
    Co.NotifyLeadersSends(c, m.tid, req, req.participants);
    Co.NotifyLeadersSends(c, m.tid, refused, refused.participants);
    var notify := C.NotifyLeaders(c, m.tid, req, req.participants);
    hide C.Voted, C.Joined, C.NotifyLeaders;
    if sends == notify + C.AnnounceCommit(c, m.tid, req) + [bypass] {
      PairIsPaired(c, m.tid, req, notify, [bypass]);
    } else {
      NothingIsPaired(c.id, sends);
    }
  }

  lemma HandlePairs(c: C.Coordinator, m: Message)
    requires c.n > 0
    ensures Paired(c.id, C.Handle(c, m).1)
  {
    hide C.ReachFaultTolerance, C.NoDependency, C.AddReplies;
    hide C.AddReply, C.HandleReplyAndVote, C.AnnounceCommit, Paired;
    match m
    case ReplyAndVote(_, _, _, _, _, _, _, _, _, _) => VotePairs(c, m);
    case BypassReply(_, tid, shard, replica) =>
      NothingIsPaired(c.id, []);
      DecidePairs(c, tid, C.AddReply(c, C.PendingFor(c, tid), shard, replica).0);
    case BypassReplyUnion(_, tid, shards, replica) =>
      NothingIsPaired(c.id, []);
      DecidePairs(c, tid, C.AddReplies(c, C.PendingFor(c, tid), shards, replica, false).0);
    case DependenciesCleared(_, tid, shard) =>
      NothingIsPaired(c.id, []);
      if tid in c.pendingCommits {
        var was := c.pendingCommits[tid];
        DecidePairs(c, tid, was.(dependencies := was.dependencies[shard := false]));
      }
    case _ => NothingIsPaired(c.id, C.Handle(c, m).1);
  }

  lemma StepSends(cfg: Config, sys: System, e: Event)
    requires Shaped(cfg, sys) && AnnouncementsSent(sys)
    ensures AnnouncementsSent(Step(cfg, sys, e))
  {
    var next := Step(cfg, sys, e);
    if Enabled(cfg, sys, e) {
      hide BothIn, C.Handle, React;
      if e.ToCoordinator? {
        var sends := C.Handle(sys.coordinators[e.at], e.m).1;
        HandlePairs(sys.coordinators[e.at], e.m);
        Th.AnnouncedHere(e.at, sends);
        forall c, t | (c, t) in next.facts.announced ensures BothIn(next.net, c, t) {
          if (c, t) in sys.facts.announced {
            BothStay(sys.net, next.net, c, t);
          } else {
            assert (c, t) in Announcements(e.at, sends);
            BothStay(ToSet(sends), next.net, c, t);
          }
        }
      } else {
        Th.ApplyIs(cfg, sys, e);
        hide Step, Apply;
        forall c, t | (c, t) in next.facts.announced ensures BothIn(next.net, c, t) {
          BothStay(sys.net, next.net, c, t);
        }
      }
    }
  }

  lemma {:induction false} RunSends(cfg: Config, sys: System, events: seq<Event>)
    requires Shaped(cfg, sys) && AnnouncementsSent(sys)
    ensures AnnouncementsSent(Run(cfg, sys, events))
    decreases |events|
  {
    hide Step, AnnouncementsSent;
    if events != [] {
      StepSends(cfg, sys, events[0]);
      RunSends(cfg, Step(cfg, sys, events[0]), events[1..]);
    }
  }

  /** The primary coordinator has decided to commit. */
  ghost predicate Decided(cfg: Config, sys: System, t: nat)
    requires cfg.n > 0
  {
    cfg.PrimaryCoordinator(t) in sys.coordinators && t in sys.coordinators[cfg.PrimaryCoordinator(t)].commitResults
  }

  /** A decided transaction's messages are on the network. */
  lemma DecisionIsOut(cfg: Config, sys: System, t: nat)
    requires OrderlyReachable(cfg, sys) && cfg.n > 0 && Decided(cfg, sys, t)
    ensures NotifyReplicateResult(cfg.primary(t), cfg.PrimaryCoordinator(t), t, 0) in sys.net
    ensures ReplicateDecision(t, PREPARED, 0) in sys.net
    ensures Th.DecidedAt(sys, cfg.PrimaryCoordinator(t), t)
  {
    OrderlyInv(cfg, sys);
    var c := cfg.PrimaryCoordinator(t);
    assert CoordinatorOk(cfg, sys.facts, sys.coordinators[c]);
    assert Announced(cfg, sys.facts, t);
    hide Inv, DepInv, PendingOk, CoordinatorOk;
    SentInRuns(cfg, sys);
    assert BothIn(sys.net, c, t);
    hide OrderlyReachable;
    var s, ts :| NotifyReplicateResult(s, c, t, ts) in sys.net;
    var state, tr :| ReplicateDecision(t, state, tr) in sys.net;
    MessageIs(cfg, sys, NotifyReplicateResult(s, c, t, ts));
    MessageIs(cfg, sys, ReplicateDecision(t, state, tr));
  }

  lemma SentInRuns(cfg: Config, sys: System)
    requires OrderlyReachable(cfg, sys)
    ensures AnnouncementsSent(sys)
  {
    var first, events :| Initial(cfg, first) && OrderlyRun(cfg, first, events) && sys == Run(cfg, first, events);
    hide Run, OrderlyRun;
    RunSends(cfg, first, events);
  }

  lemma MessageIs(cfg: Config, sys: System, m: Message)
    requires Inv(cfg, sys) && m in sys.net
    ensures MessageOk(cfg, sys.facts, m)
  {
  }

  // ----- From a fresh transaction to its commit -----

  /** Every participant has logged the transaction at its next position. */
  ghost predicate LoggedNext(cfg: Config, sys: System, next: System, t: nat) {
    forall p :: p in cfg.participants(t) ==> LogsNext(cfg, sys, next, p, t) && (p, t) in next.facts.validated
  }

  /** The votes of all answering replicas are out. */
  lemma ToVotes(cfg: Config, sys: System, t: nat) returns (next: System)
    requires OrderlyReachable(cfg, sys)
    requires forall p :: p in cfg.participants(t) ==> NewAt(sys.facts, p, t)
    ensures cfg.Valid() && Onward(cfg, sys, next, t) && next.coordinators == sys.coordinators
    ensures VotesOut(cfg, next.net, t, Grid(cfg, t)) && LoggedNext(cfg, sys, next, t)
  {
    hide OrderlyReachable, Onward, Requested, LogsNext, NewAt;
    var parts := cfg.participants(t);
    var mid := PrepareAll(cfg, sys, t, |parts|);
    OnwardIsOrderly(cfg, sys, mid, t);
    forall p | p in parts
      ensures Requested(cfg, mid.net, p, t) && LogsNext(cfg, sys, mid, p, t) && (p, t) in mid.facts.validated
    {
      var i :| 0 <= i < |parts| && parts[i] == p;
    }
    next := ReplicateAll(cfg, mid, t, Grid(cfg, t));
    OnwardTwice(cfg, sys, mid, next, t);
    OnwardIsOrderly(cfg, mid, next, t);
    hide PreparedAt, VotesOut;
    forall p | p in parts ensures LogsNext(cfg, sys, next, p, t) && (p, t) in next.facts.validated {
      OrderlyShape(cfg, sys);
      SameLogs(cfg, sys, mid, next, p, t);
      ValidatedStays(cfg, mid, next, p, t);
    }
  }

  lemma SameLogs(cfg: Config, sys: System, mid: System, next: System, p: nat, t: nat)
    requires LogsNext(cfg, sys, mid, p, t) && SameLeaders(cfg, mid, next) && p < cfg.shards
    ensures LogsNext(cfg, sys, next, p, t)
  {
  }

  /** A transaction stays validated while its leader stays as it is. */
  lemma ValidatedStays(cfg: Config, mid: System, next: System, p: nat, t: nat)
    requires OrderlyReachable(cfg, mid) && OrderlyReachable(cfg, next) && SameLeaders(cfg, mid, next)
    requires (p, t) in mid.facts.validated
    ensures (p, t) in next.facts.validated
  {
    OrderlyInv(cfg, mid);
    OrderlyInv(cfg, next);
    hide OrderlyReachable, DepInv;
    assert p in cfg.participants(t);
    assert LeaderOk(cfg, mid.facts, p, mid.replicas[Leader(cfg, p)]);
    assert LeaderOk(cfg, next.facts, p, next.replicas[Leader(cfg, p)]);
    hide Inv;
  }

  /** All replicas report to the primary coordinator once it has everybody's vote. */
  lemma Complete(cfg: Config, sys: System, t: nat) returns (next: System)
    requires OrderlyReachable(cfg, sys) && cfg.Valid() && Th.CanCommit(cfg, t)
    requires VotesOut(cfg, sys.net, t, Grid(cfg, t))
    requires
      var c := cfg.PrimaryCoordinator(t);
      && c in sys.coordinators && Collected(cfg, sys.coordinators[c], t, |cfg.participants(t)|)
      && forall p :: p in cfg.participants(t) ==> Bypass(cfg, p, c, t) in sys.net
    ensures Onward(cfg, sys, next, t) && SameLeaders(cfg, sys, next) && Decided(cfg, next, t)
    ensures Knows(next, t, set x | x in Grid(cfg, t) && x.1 != cfg.PrimaryCoordinator(t))
  {
    hide OrderlyReachable, Onward, SameLeaders, Awaits, HasReply, Counted, Reporting;
    var c := cfg.PrimaryCoordinator(t);
    var others := set x | x in Grid(cfg, t) && x.1 != c;
    CollectedAwaits(cfg, sys.coordinators[c], t);
    GridIsBelow(cfg, t);
    var mid := ForwardAll(cfg, sys, t, others);
    OnwardIsOrderly(cfg, sys, mid, t);
    forall x | x in Grid(cfg, t) ensures Bypass(cfg, x.0, x.1, t) in mid.net {
      if x.1 != c {
        assert x in others;
      }
    }
    next := ReplyAll(cfg, mid, t, Grid(cfg, t));
    OnwardMoves(cfg, sys, mid, next, t);
    RepliedDecides(cfg, next, t);
  }

  lemma GridIsBelow(cfg: Config, t: nat)
    ensures forall x :: x in Grid(cfg, t) ==> x.1 < cfg.n
  {
  }

  lemma RepliedDecides(cfg: Config, sys: System, t: nat)
    requires OrderlyReachable(cfg, sys) && cfg.Valid() && Th.CanCommit(cfg, t)
    requires
      var c := cfg.PrimaryCoordinator(t);
      c in sys.coordinators && Awaits(cfg, sys.coordinators[c], t) && Replied(sys.coordinators[c], t, Grid(cfg, t))
    ensures Decided(cfg, sys, t)
  {
    hide OrderlyReachable, DepInv, Awaits, HasReply, Reporting, Inv, CoordinatorOk;
    OrderlyInv(cfg, sys);
    var c := sys.coordinators[cfg.PrimaryCoordinator(t)];
    CoordinatorIs(cfg, sys, cfg.PrimaryCoordinator(t));
    forall p, r | p in cfg.participants(t) && r in Reporting(cfg, p) ensures HasReply(c, t, p, r) {
      assert (p, r) in Grid(cfg, t);
    }
    AllRepliesDecide(cfg, sys.facts, c, t);
  }

  lemma CoordinatorIs(cfg: Config, sys: System, c: nat)
    requires Inv(cfg, sys) && c in sys.coordinators
    ensures CoordinatorOk(cfg, sys.facts, sys.coordinators[c]) && sys.coordinators[c].n == cfg.n
  {
  }

  /** The primary coordinator gets everybody's vote. */
  lemma Agree(cfg: Config, sys: System, c: nat, t: nat) returns (next: System)
    requires OrderlyReachable(cfg, sys) && cfg.Valid() && cfg.participants(t) != [] && c < cfg.n && NewTo(sys, c, t)
    requires VotesOut(cfg, sys.net, t, Grid(cfg, t))
    requires forall p :: p in cfg.participants(t) ==> Reports(cfg, p, c)
    ensures Onward(cfg, sys, next, t) && SameLeaders(cfg, sys, next)
    ensures c in next.coordinators && next.coordinators == sys.coordinators[c := next.coordinators[c]]
    ensures Collected(cfg, next.coordinators[c], t, |cfg.participants(t)|)
    ensures forall p :: p in cfg.participants(t) ==> Bypass(cfg, p, c, t) in next.net
    ensures forall q :: q in cfg.participants(t) && q % cfg.n == c ==> NotifyDecision(q, c, t, PREPARED, 0) in next.net
    ensures VotesOut(cfg, next.net, t, Grid(cfg, t))
  {
    hide OrderlyReachable, Onward, SameLeaders, Collected;
    var parts := cfg.participants(t);
    forall p | p in parts ensures Vote(cfg, p, c, t) in sys.net {
      assert (p, c) in Grid(cfg, t);
    }
    next := VoteAll(cfg, sys, c, t, |parts|);
    assert parts[..|parts|] == parts;
    OnwardIsOrderly(cfg, sys, next, t);
  }

  /** From any orderly state in which it is new, a transaction that can commit at all can be
      carried to its commit. */
  lemma AlwaysCommits(cfg: Config, sys: System, t: nat) returns (next: System)
    requires OrderlyReachable(cfg, sys) && Fresh(cfg, sys, t) && cfg.n > 0 && Th.CanCommit(cfg, t)
    ensures Onward(cfg, sys, next, t) && Decided(cfg, next, t) && LoggedNext(cfg, sys, next, t)
    ensures Knows(next, t, set x | x in Grid(cfg, t) && x.1 != cfg.PrimaryCoordinator(t))
  {
    hide OrderlyReachable, Onward, LogsNext, Collected, NewAt;
    var c := cfg.PrimaryCoordinator(t);
    var s1 := ToVotes(cfg, sys, t);
    OnwardIsOrderly(cfg, sys, s1, t);
    assert NewTo(s1, c, t) by { assert NewTo(sys, c, t); }
    var s2 := Agree(cfg, s1, c, t);
    OnwardIsOrderly(cfg, s1, s2, t);
    next := Complete(cfg, s2, t);
    OnwardIsOrderly(cfg, s2, next, t);
    hide SameLeaders, Knows, Grid, Fresh, VotesOut, Decided;
    OnwardTwice(cfg, sys, s1, s2, t);
    OnwardTwice(cfg, sys, s2, next, t);
    OrderlyShape(cfg, sys);
    forall p | p in cfg.participants(t) ensures LogsNext(cfg, sys, next, p, t) && (p, t) in next.facts.validated {
      SameLogs(cfg, sys, s1, s2, p, t);
      SameLogs(cfg, sys, s2, next, p, t);
      ValidatedStays(cfg, s1, s2, p, t);
      ValidatedStays(cfg, s2, next, p, t);
    }
  }

  /** Exactly which transactions can be committed. */
  lemma CommitExactly(cfg: Config, t: nat)
    requires cfg.Valid()
    ensures (exists end, c :: Th.Reachable(cfg, end) && Th.DecidedAt(end, c, t)) <==>
              && cfg.participants(t) != []
              && (cfg.loopback
                  || (cfg.n >= 3 &&
                      forall p :: p in cfg.participants(t) ==> cfg.leader(p) != cfg.PrimaryCoordinator(t)))
  {
    hide Th.Reachable, Th.DecidedAt, OrderlyReachable;
    if end, c :| Th.Reachable(cfg, end) && Th.DecidedAt(end, c, t) {
      Th.CommitNeeds(cfg, end, c, t);
    }
    if Th.CanCommit(cfg, t) {
      InitialExists(cfg);
      var sys := InitialSystem(cfg);
      var end := AlwaysCommits(cfg, sys, t);
      OnwardIsOrderly(cfg, sys, end, t);
      OrderlyIsReachable(cfg, end);
      DecisionIsOut(cfg, end, t);
    }
  }

  /** In the layout the code is written for, the leader of a shard has the shard's number modulo
      n and the primary shard is a participant: then a transaction can be committed exactly if
      leaders hear themselves. */
  lemma DefaultLayout(cfg: Config, t: nat)
    requires cfg.Valid() && (forall s: nat :: cfg.leader(s) == s % cfg.n) && cfg.primary(t) in cfg.participants(t)
    ensures (exists end, c :: Th.Reachable(cfg, end) && Th.DecidedAt(end, c, t)) <==> cfg.loopback
  {
    hide Th.Reachable, Th.DecidedAt;
    CommitExactly(cfg, t);
    var p := cfg.primary(t);
    assert p in cfg.participants(t) && cfg.leader(p) == p % cfg.n == cfg.PrimaryCoordinator(t);
  }
}
