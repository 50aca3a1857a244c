/** Every message a coordinator handles keeps the invariant, and a commit decision is made
    only for a transaction that is validated, replicated and free of dependencies. */
module D2pcCoordinator {
  import opened CommitMessages
  import opened Counting
  import opened D2pcSystem
  import opened D2pcInvariant
  import opened CoordinatorSpec

  ghost function FactsAfter(f: Facts, id: nat, sends: seq<Message>): Facts {
    f.(announced := f.announced + Announcements(id, sends))
  }

  ghost predicate StepOk(cfg: Config, f: Facts, c: Coordinator, out: (Coordinator, seq<Message>))
    requires cfg.n > 0
  {
    var g := FactsAfter(f, c.id, out.1);
    && out.0.id == c.id
    && CoordinatorOk(cfg, g, out.0) && FactsOk(cfg, g) && AllOk(cfg, g, out.1)
  }

  // ----- Counting -----

  /** As many keys as participants, and no others: then exactly the participants. */
  lemma KeysAreParticipants(keys: set<nat>, participants: seq<nat>)
    requires Distinct(participants) && |keys| == |participants|
    requires forall k :: k in keys ==> k in participants
    ensures forall p :: p in participants ==> p in keys
  {
    ElementsSize(participants);
    SubsetOfSameSize(keys, Elements(participants));
  }

  lemma MapSize<T>(m: map<nat, T>)
    ensures |m.Keys| == |m|
  {
  }

  /** The consensus check reports that every participant has voted PREPARED. */
  lemma {:induction false} AllPreparedSays(votes: map<nat, CommitResult>, participants: seq<nat>)
    ensures AllPrepared(votes, participants).1 <==>
              forall p :: p in participants ==> p in votes && votes[p] == PREPARED
    ensures AllPrepared(votes, participants).1 ==> AllPrepared(votes, participants).0 == votes
    ensures (forall p :: p in participants ==> p in votes) ==> AllPrepared(votes, participants).0 == votes
    decreases |participants|
  {
    if participants != [] {
      AllPreparedSays(votes, participants[1..]);
      assert forall p :: p in participants <==> p == participants[0] || p in participants[1..];
    }
  }

  /** In a run, the check never inserts a vote, and succeeds on exactly the votes of all
      participants. */
  lemma ConsensusSays(cfg: Config, f: Facts, id: nat, t: nat, req: Pending)
    requires cfg.Valid() && VotesOk(cfg, f, id, t, req.votes) && req.participants == cfg.participants(t)
    ensures ReachConsensus(req).0 == req.votes
    ensures ReachConsensus(req).1 ==> AllValidated(cfg, f, t) && AllBeside(cfg, f, id, t)
  {
    MapSize(req.votes);
    if |req.votes| == |req.participants| {
      KeysAreParticipants(req.votes.Keys, req.participants);
      AllPreparedSays(req.votes, req.participants);
    }
  }

  lemma NoDependencySays(cfg: Config, f: Facts, id: nat, t: nat, req: Pending)
    requires cfg.Valid() && DependenciesOk(cfg, f, id, t, req.dependencies)
    requires req.participants == cfg.participants(t) && NoDependency(req)
    ensures forall p :: p in cfg.participants(t) ==> Cleared(f, p, id, t)
  {
    MapSize(req.dependencies);
    KeysAreParticipants(req.dependencies.Keys, req.participants);
  }

  lemma FaultToleranceSays(cfg: Config, f: Facts, t: nat, req: Pending)
    requires cfg.Valid() && ResultsOk(cfg, f, t, req.replicateResults)
    requires req.participants == [] || req.participants == cfg.participants(t)
    requires ReachFaultTolerance(req, cfg.n)
    ensures req.participants == cfg.participants(t) && AllReplicated(cfg, t, req.replicateResults)
  {
    MapSize(req.replicateResults);
    KeysAreParticipants(req.replicateResults.Keys, req.participants);
  }

  // ----- What is sent -----

  lemma {:induction false} AnnouncementsConcat(id: nat, a: seq<Message>, b: seq<Message>)
    ensures Announcements(id, a + b) == Announcements(id, a) + Announcements(id, b)
    decreases |a|
  {
    if a == [] {
      assert a + b == b;
    } else {
      var first := if a[0].NotifyReplicateResult? then [(id, a[0].tid)] else [];
      assert (a + b)[1..] == a[1..] + b;
      AnnouncementsConcat(id, a[1..], b);
      assert Announcements(id, a) == first + Announcements(id, a[1..]);
      assert Announcements(id, a + b) == first + Announcements(id, (a + b)[1..]);
      hide Announcements;
    }
  }

  lemma {:induction false} NoAnnouncement(id: nat, sends: seq<Message>)
    requires forall m :: m in sends ==> !m.NotifyReplicateResult?
    ensures Announcements(id, sends) == []
    decreases |sends|
  {
    if sends != [] {
      assert sends[0] in sends;
      NoAnnouncement(id, sends[1..]);
    }
  }

  lemma {:induction false} NotifyLeadersSends(c: Coordinator, tid: nat, req: Pending, participants: seq<nat>)
    requires c.n > 0
    ensures forall m :: m in NotifyLeaders(c, tid, req, participants) ==>
              && m.NotifyDecision? && m.tid == tid && m.state == req.state && m.timestamp == req.timestamp
              && m.shard in participants && m.replica == c.id == m.shard % c.n
    decreases |participants|
  {
    if participants != [] {
      NotifyLeadersSends(c, tid, req, participants[1..]);
    }
  }

  // ----- The two ways a handler ends -----

  lemma KeepOk(cfg: Config, f: Facts, c: Coordinator, t: nat, req: Pending, sends: seq<Message>)
    requires cfg.n > 0 && CoordinatorOk(cfg, f, c) && FactsOk(cfg, f)
    requires t !in c.commitResults && PendingOk(cfg, f, c.id, t, req)
    requires AllOk(cfg, f, sends) && forall m :: m in sends ==> !m.NotifyReplicateResult?
    ensures StepOk(cfg, f, c, (Keep(c, t, req), sends))
  {
    NoAnnouncement(c.id, sends);
    assert FactsAfter(f, c.id, sends) == f;
    hide MessageOk, PendingOk, ResultOk, FactsOk;
  }

  ghost predicate Ready(cfg: Config, f: Facts, id: nat, t: nat, req: Pending)
    requires cfg.n > 0
  {
    PendingOk(cfg, f, id, t, req) && req.reachConsensus && req.reachFaultTolerance && NoDependency(req)
  }

  lemma ReadyIsBacked(cfg: Config, f: Facts, id: nat, t: nat, req: Pending)
    requires cfg.Valid() && Ready(cfg, f, id, t, req)
    ensures Backed(cfg, f, t) && id == cfg.PrimaryCoordinator(t)
  {
    NoDependencySays(cfg, f, id, t, req);
    forall p | p in cfg.participants(t) ensures OnMajority(cfg, f, p, t) {
      assert Replicated(f, p, t, req.replicateResults[p]);
    }
  }

  lemma AnnounceFacts(cfg: Config, f: Facts, g: Facts, id: nat, t: nat)
    requires cfg.n > 0 && FactsOk(cfg, f) && Backed(cfg, f, t) && id == cfg.PrimaryCoordinator(t)
    requires (id, t) !in f.announced && g == f.(announced := f.announced + [(id, t)])
    ensures FactsOk(cfg, g) && Later(f, g) && Announced(cfg, g, t)
  {
    forall c, u | (c, u) in g.announced ensures c == cfg.PrimaryCoordinator(u) && Backed(cfg, g, u) {
      BackedLater(cfg, f, g, u);
    }
  }

  lemma DecideOk(cfg: Config, f: Facts, c: Coordinator, t: nat, req: Pending, state: CommitResult, notify: seq<Message>)
    requires cfg.Valid() && CoordinatorOk(cfg, f, c) && FactsOk(cfg, f)
    requires t !in c.commitResults && Ready(cfg, f, c.id, t, req) && (state == PREPARED || state == COMMIT)
    requires AllOk(cfg, f, notify) && forall m :: m in notify ==> !m.NotifyReplicateResult?
    ensures
      var (c', sends) := Decide(c, t, req, state);
      StepOk(cfg, f, c, (c', notify + sends))
  {
    ReadyIsBacked(cfg, f, c.id, t, req);
    var (c', sends) := Decide(c, t, req, state);
    DecideAnnounces(c, t, req, notify);
    var g := FactsAfter(f, c.id, notify + sends);
    assert (c.id, t) !in f.announced;
    AnnounceFacts(cfg, f, g, c.id, t);
    forall m | m in notify ensures MessageOk(cfg, g, m) {
      MessageLater(cfg, f, g, m);
    }
    DecidedCoordinator(cfg, f, g, c, t, req, state);
    AnnounceCommitOk(cfg, f, g, c, t, req);
    hide MessageOk, CoordinatorOk, FactsOk, AnnounceCommit;
  }

  lemma DecideAlone(cfg: Config, f: Facts, c: Coordinator, t: nat, req: Pending, state: CommitResult)
    requires cfg.Valid() && CoordinatorOk(cfg, f, c) && FactsOk(cfg, f)
    requires t !in c.commitResults && Ready(cfg, f, c.id, t, req) && (state == PREPARED || state == COMMIT)
    ensures StepOk(cfg, f, c, Decide(c, t, req, state))
  {
    hide MessageOk, CoordinatorOk, FactsOk, StepOk, Ready, Decide;
    DecideOk(cfg, f, c, t, req, state, []);
    var out := Decide(c, t, req, state);
    assert [] + out.1 == out.1;
    assert StepOk(cfg, f, c, (out.0, [] + out.1));
  }

  lemma UnchangedOk(cfg: Config, f: Facts, c: Coordinator)
    requires cfg.n > 0 && CoordinatorOk(cfg, f, c) && FactsOk(cfg, f)
    ensures StepOk(cfg, f, c, (c, []))
  {
    assert FactsAfter(f, c.id, []) == f;
  }

  lemma DecideAnnounces(c: Coordinator, t: nat, req: Pending, notify: seq<Message>)
    requires forall m :: m in notify ==> !m.NotifyReplicateResult?
    ensures Announcements(c.id, notify + AnnounceCommit(c, t, req)) == [(c.id, t)]
  {
    var sends := AnnounceCommit(c, t, req);
    AnnouncementsConcat(c.id, notify, sends);
    NoAnnouncement(c.id, notify);
    NoAnnouncement(c.id, sends[1..]);
  }

  lemma AnnounceCommitOk(cfg: Config, f: Facts, g: Facts, c: Coordinator, t: nat, req: Pending)
    requires cfg.n > 0 && Ready(cfg, f, c.id, t, req)
    requires c.id == cfg.PrimaryCoordinator(t) && (c.id, t) in g.announced
    ensures AllOk(cfg, g, AnnounceCommit(c, t, req))
  {
  }

  lemma DecidedCoordinator(cfg: Config, f: Facts, g: Facts, c: Coordinator, t: nat, req: Pending, state: CommitResult)
    requires cfg.n > 0 && CoordinatorOk(cfg, f, c) && t !in c.commitResults
    requires g == f.(announced := f.announced + [(c.id, t)]) && c.id == cfg.PrimaryCoordinator(t)
    requires state == PREPARED || state == COMMIT
    ensures CoordinatorOk(cfg, g, Decide(c, t, req, state).0)
  {
    var c' := Decide(c, t, req, state).0;
    forall u | u in c'.pendingCommits ensures PendingOk(cfg, g, c.id, u, c'.pendingCommits[u]) {
      PendingLater(cfg, f, g, c.id, u, c.pendingCommits[u]);
    }
    hide PendingOk;
    forall u | u in c'.commitResults ensures ResultOk(cfg, g, c.id, u, c'.commitResults[u]) {
    }
  }

  // ----- HandleReplicateReplyAndVote -----

  lemma JoinedOk(cfg: Config, f: Facts, c: Coordinator, m: Message)
    requires cfg.Valid() && CoordinatorOk(cfg, f, c)
    requires m.ReplyAndVote? && MessageOk(cfg, f, m)
    ensures
      var req := Joined(c, m);
      && PendingOk(cfg, f, c.id, m.tid, req) && OfTxn(cfg, m.tid, req.participants, req.primaryShard)
  {
    assert m.tid in c.pendingCommits ==> PendingOk(cfg, f, c.id, m.tid, c.pendingCommits[m.tid]);
    hide CoordinatorOk;
  }

  lemma VotedOk(cfg: Config, f: Facts, id: nat, t: nat, s: nat, pre: bool, req: Pending)
    requires cfg.Valid() && PendingOk(cfg, f, id, t, req)
    requires (s, t) in f.validated && s in cfg.participants(t) && (!pre ==> (s, t) in f.free)
    requires (s, id, t) in f.stored
    ensures PendingOk(cfg, f, id, t,
              req.(votes := req.votes[s := PREPARED], dependencies := req.dependencies[s := pre]))
  {
  }

  ghost function Bypass(m: Message): Message
    requires m.ReplyAndVote?
  {
    BypassReply(m.primaryCoordinator, m.tid, m.shard, m.replica)
  }

  ghost function Agreed(c: Coordinator, m: Message): Pending
    requires m.ReplyAndVote?
  {
    Voted(c, m).(state := PREPARED, reachConsensus := true)
  }

  /** The three outcomes of a vote, when the consensus check inserts nothing. */
  lemma VoteShape(c: Coordinator, m: Message)
    requires m.ReplyAndVote? && c.n > 0 && m.vote == PREPARED && m.tid !in c.commitResults
    requires ReachConsensus(Voted(c, m)).0 == Voted(c, m).votes
    ensures
      var req := Agreed(c, m);
      var notify := NotifyLeaders(c, m.tid, req, req.participants);
      HandleReplyAndVote(c, m) ==
        if !ReachConsensus(Voted(c, m)).1 then (Keep(c, m.tid, Voted(c, m)), [Bypass(m)])
        else if req.primaryCoordinator == c.id && req.reachFaultTolerance && NoDependency(req)
        then var (c', sends) := Decide(c, m.tid, req, PREPARED); (c', notify + sends + [Bypass(m)])
        else (Keep(c, m.tid, req), notify + [Bypass(m)])
  {
    var voted := Voted(c, m);
    assert voted.(votes := voted.votes) == voted;
    assert voted.(votes := voted.votes, state := PREPARED, reachConsensus := true) == Agreed(c, m);
    assert [] + [Bypass(m)] == [Bypass(m)];
    hide ReachConsensus, Voted, NotifyLeaders, NoDependency, Keep, Decide;
  }

  lemma VoteOk(cfg: Config, f: Facts, c: Coordinator, m: Message)
    requires cfg.Valid() && CoordinatorOk(cfg, f, c) && FactsOk(cfg, f)
    requires m.ReplyAndVote? && MessageOk(cfg, f, m) && m.to == c.id
    ensures c.n > 0 && StepOk(cfg, f, c, HandleReplyAndVote(c, m))
  {
    if m.tid in c.commitResults {
      assert FactsAfter(f, c.id, []) == f;
    } else {
      JoinedOk(cfg, f, c, m);
      VotedOk(cfg, f, c.id, m.tid, m.shard, m.hasPreCommit, Joined(c, m));
      var voted := Voted(c, m);
      assert MessageOk(cfg, f, Bypass(m));
      ConsensusSays(cfg, f, c.id, m.tid, voted);
      VoteShape(c, m);
      hide HandleReplyAndVote, Voted, Joined, CoordinatorOk, FactsOk, MessageOk, StepOk;
      if !ReachConsensus(voted).1 {
        KeepOk(cfg, f, c, m.tid, voted, [Bypass(m)]);
      } else {
        AgreedOk(cfg, f, c, m, voted);
      }
    }
  }

  lemma AgreedOk(cfg: Config, f: Facts, c: Coordinator, m: Message, voted: Pending)
    requires cfg.Valid() && CoordinatorOk(cfg, f, c) && FactsOk(cfg, f)
    requires m.ReplyAndVote? && MessageOk(cfg, f, Bypass(m)) && m.tid !in c.commitResults
    requires voted == Voted(c, m)
    requires PendingOk(cfg, f, c.id, m.tid, voted) && OfTxn(cfg, m.tid, voted.participants, voted.primaryShard)
    requires AllValidated(cfg, f, m.tid) && AllBeside(cfg, f, c.id, m.tid)
    ensures
      var req := Agreed(c, m);
      var notify := NotifyLeaders(c, m.tid, req, req.participants);
      if req.primaryCoordinator == c.id && req.reachFaultTolerance && NoDependency(req)
      then var (c', sends) := Decide(c, m.tid, req, PREPARED);
           StepOk(cfg, f, c, (c', notify + sends + [Bypass(m)]))
      else StepOk(cfg, f, c, (Keep(c, m.tid, req), notify + [Bypass(m)]))
  {
    var t := m.tid;
    var req := Agreed(c, m);
    assert PendingOk(cfg, f, c.id, t, req);
    var notify := NotifyLeaders(c, t, req, req.participants);
    NotifyLeadersSends(c, t, req, req.participants);
    assert AllOk(cfg, f, notify);
    hide MessageOk, CoordinatorOk, FactsOk, StepOk, NotifyLeaders, Voted, PendingOk;
    if req.primaryCoordinator == c.id && req.reachFaultTolerance && NoDependency(req) {
      var (c', sends) := Decide(c, t, req, PREPARED);
      DecideOk(cfg, f, c, t, req, PREPARED, notify);
      SendMore(cfg, f, c, (c', notify + sends), Bypass(m));
    } else {
      KeepOk(cfg, f, c, t, req, notify + [Bypass(m)]);
    }
  }

  lemma SendMore(cfg: Config, f: Facts, c: Coordinator, out: (Coordinator, seq<Message>), m: Message)
    requires cfg.n > 0 && StepOk(cfg, f, c, out) && MessageOk(cfg, f, m) && !m.NotifyReplicateResult?
    ensures StepOk(cfg, f, c, (out.0, out.1 + [m]))
  {
    AnnouncementsConcat(c.id, out.1, [m]);
    NoAnnouncement(c.id, [m]);
    assert Announcements(c.id, out.1 + [m]) == Announcements(c.id, out.1);
    MessageLater(cfg, f, FactsAfter(f, c.id, out.1), m);
    hide MessageOk, CoordinatorOk, FactsOk;
  }

  // ----- HandleBypassLeaderReply -----

  lemma AddedOk(cfg: Config, f: Facts, id: nat, c: Coordinator, t: nat, req: Pending, s: nat, r: nat)
    requires cfg.Valid() && FactsOk(cfg, f) && PendingOk(cfg, f, id, t, req) && c.n == cfg.n
    requires id == cfg.PrimaryCoordinator(t) && (s, r, t) in f.stored && r !in RepliesOf(req, s)
    ensures
      var (added, commit) := AddReply(c, req, s, r);
      PendingOk(cfg, f, id, t, added) && (commit ==> Ready(cfg, f, id, t, added))
  {
    var results := req.replicateResults[s := RepliesOf(req, s) + [r]];
    assert (s, t) in f.validated && s in cfg.participants(t);
    assert Replicated(f, s, t, RepliesOf(req, s) + [r]);
    assert ResultsOk(cfg, f, t, results);
    var added := req.(replicateResults := results);
    hide FactsOk;
    if ReachFaultTolerance(added, c.n) {
      FaultToleranceSays(cfg, f, t, added);
    }
  }

  lemma PendingForOk(cfg: Config, f: Facts, c: Coordinator, t: nat)
    requires cfg.Valid() && CoordinatorOk(cfg, f, c) && c.id == cfg.PrimaryCoordinator(t)
    ensures PendingOk(cfg, f, c.id, t, PendingFor(c, t))
  {
  }

  lemma BypassOk(cfg: Config, f: Facts, c: Coordinator, t: nat, s: nat, r: nat)
    requires cfg.Valid() && CoordinatorOk(cfg, f, c) && FactsOk(cfg, f)
    requires c.id == cfg.PrimaryCoordinator(t) && (s, r, t) in f.stored
    ensures StepOk(cfg, f, c, HandleBypassReply(c, t, s, r))
  {
    if t in c.commitResults {
      UnchangedOk(cfg, f, c);
    } else {
      PendingForOk(cfg, f, c, t);
      hide MessageOk, CoordinatorOk, FactsOk, StepOk, PendingFor;
      var req := PendingFor(c, t);
      if r in RepliesOf(req, s) {
        KeepOk(cfg, f, c, t, req, []);
      } else {
        AddedOk(cfg, f, c.id, c, t, req, s, r);
        hide AddReply, PendingOk, NoDependency, Decide, Keep;
        var (added, commit) := AddReply(c, req, s, r);
        if commit {
          DecideAlone(cfg, f, c, t, added, COMMIT);
        } else {
          KeepOk(cfg, f, c, t, added, []);
        }
      }
    }
  }

  // ----- The remaining handlers -----

  lemma ClearedOk(cfg: Config, f: Facts, c: Coordinator, t: nat, s: nat)
    requires cfg.Valid() && CoordinatorOk(cfg, f, c) && FactsOk(cfg, f) && (s, c.id, t) in f.noticed
    ensures StepOk(cfg, f, c, HandleDependenciesCleared(c, t, s))
  {
    if t !in c.pendingCommits {
      UnchangedOk(cfg, f, c);
    } else {
      var was := c.pendingCommits[t];
      var req := was.(dependencies := was.dependencies[s := false]);
      assert PendingOk(cfg, f, c.id, t, was) && s in cfg.participants(t) && t !in c.commitResults;
      hide MessageOk, CoordinatorOk, FactsOk, StepOk;
      assert PendingOk(cfg, f, c.id, t, req);
      if NoDependency(req) && req.reachConsensus && req.reachFaultTolerance {
        DecideAlone(cfg, f, c, t, req, req.state);
      } else {
        KeepOk(cfg, f, c, t, req, []);
      }
    }
  }

  /** A decision reaches no coordinator that could be the primary one: that one has recorded
      its result already. */
  lemma DecisionOk(cfg: Config, f: Facts, c: Coordinator, t: nat)
    requires cfg.Valid() && CoordinatorOk(cfg, f, c) && FactsOk(cfg, f) && Announced(cfg, f, t)
    ensures c.n > 0 && StepOk(cfg, f, c, HandleReplicateDecision(c, t, PREPARED))
  {
    assert FactsAfter(f, c.id, []) == f;
    if t in c.pendingCommits {
      assert c.id != cfg.PrimaryCoordinator(t);
      var req := c.pendingCommits[t];
      assert PendingOk(cfg, f, c.id, t, req);
      var out := HandleReplicateDecision(c, t, PREPARED);
      NoAnnouncement(c.id, out.1);
      assert FactsAfter(f, c.id, out.1) == f;
      assert out.0 == c.(commitResults := c.commitResults[t := CommitState(ABORT, false)],
                         pendingCommits := c.pendingCommits - {t});
      assert AllOk(cfg, f, out.1);
      hide PendingOk, FactsOk, MessageOk, HandleReplicateDecision;
    }
  }

  lemma ReplyDecisionOk(cfg: Config, f: Facts, c: Coordinator, t: nat, from: nat)
    requires cfg.Valid() && CoordinatorOk(cfg, f, c) && FactsOk(cfg, f) && Announced(cfg, f, t)
    requires c.id == cfg.PrimaryCoordinator(t)
    ensures StepOk(cfg, f, c, (HandleReplyDecision(c, t, from), []))
  {
    assert FactsAfter(f, c.id, []) == f;
  }

  /** Every message a coordinator may receive. */
  lemma HandleOk(cfg: Config, f: Facts, c: Coordinator, m: Message)
    requires cfg.Valid() && CoordinatorOk(cfg, f, c) && FactsOk(cfg, f)
    requires MessageOk(cfg, f, m) && ForCoordinator(m, c.id)
    ensures c.n > 0 && StepOk(cfg, f, c, Handle(c, m))
  {
    hide StepOk, FactsOk, HandleReplyAndVote, HandleBypassReply, HandleDependenciesCleared, HandleReplicateDecision;
    match m
    case ReplyAndVote(_, _, _, _, _, _, _, _, _, _) => VoteOk(cfg, f, c, m);
    case BypassReply(_, tid, shard, replica) => BypassOk(cfg, f, c, tid, shard, replica);
    case DependenciesCleared(_, tid, shard) => ClearedOk(cfg, f, c, tid, shard);
    case ReplicateDecision(tid, state, _) => DecisionOk(cfg, f, c, tid);
    case ReplyDecision(_, tid, coordinator, _) => ReplyDecisionOk(cfg, f, c, tid, coordinator);
  }
}
