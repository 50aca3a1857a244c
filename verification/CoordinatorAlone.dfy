/** One coordinator and whatever messages reach it, in any number and order: results are
    recorded once, and a commit is announced at most once. */
module CoordinatorAlone {
  import opened CommitMessages
  import opened CoordinatorSpec
  import D2pcSystem
  import D2pcCoordinator

  ghost predicate Disjoint(c: Coordinator) {
    c.pendingCommits.Keys !! c.commitResults.Keys
  }

  /** A decision of another coordinator on a transaction that is pending here, and whose
      primary coordinator this is. */
  ghost predicate Foreign(c: Coordinator, m: Message)
    requires c.n > 0
  {
    && m.ReplicateDecision? && m.tid in c.pendingCommits
    && c.pendingCommits[m.tid].primaryShard % c.n == c.id
  }

  /** What a message may do to the coordinator: nothing about transactions other than its own,
      and nothing at all about decided ones. */
  lemma HandleTouches(c: Coordinator, m: Message)
    requires c.n > 0 && Disjoint(c)
    ensures
      var (c', sends) := Handle(c, m);
      && c'.id == c.id && c'.n == c.n
      && (forall t :: t in c.commitResults ==> t in c'.commitResults && c'.commitResults[t] == c.commitResults[t])
      && (Disjoint(c') <==> !Foreign(c, m))
  {
    hide ReachConsensus, NoDependency, ReachFaultTolerance, AddReplies, AddReply, NotifyLeaders;
    match m
    case ReplyAndVote(_, _, _, _, _, _, _, _, _, _) =>
      var c' := HandleReplyAndVote(c, m).0;
      assert m.tid !in c.commitResults ==>
          c'.commitResults == c.commitResults || c'.pendingCommits == c.pendingCommits - {m.tid};
    case ReplicateDecision(tid, state, _) =>
      var c' := HandleReplicateDecision(c, tid, state).0;
      if Foreign(c, m) {
        assert tid in c'.pendingCommits && tid in c'.commitResults;
      } else {
        assert tid !in c.pendingCommits || c'.pendingCommits == c.pendingCommits - {tid};
      }
    case _ =>
  }

  /** A commit is announced only as its result is recorded. */
  lemma HandleAnnounces(c: Coordinator, m: Message)
    requires c.n > 0 && Disjoint(c)
    ensures
      var (c', sends) := Handle(c, m);
      var all := D2pcSystem.Announcements(c.id, sends);
      || all == []
      || (exists t :: all == [(c.id, t)] && t !in c.commitResults && t in c'.commitResults)
  {
    hide ReachFaultTolerance, NoDependency, AddReplies, AddReply, HandleReplyAndVote;
    match m
    case ReplyAndVote(_, _, _, _, _, _, _, _, _, _) =>
      VoteAnnounces(c, m);
    case BypassReply(_, tid, shard, replica) =>
      DecideAnnouncesOne(c, tid, AddReply(c, PendingFor(c, tid), shard, replica).0);
    case BypassReplyUnion(_, tid, shards, replica) =>
      DecideAnnouncesOne(c, tid, AddReplies(c, PendingFor(c, tid), shards, replica, false).0);
    case DependenciesCleared(_, tid, shard) =>
      if tid in c.pendingCommits {
        var was := c.pendingCommits[tid];
        DecideAnnouncesOne(c, tid, was.(dependencies := was.dependencies[shard := false]));
      }
    case _ =>
      D2pcCoordinator.NoAnnouncement(c.id, Handle(c, m).1);
  }

  lemma DecideAnnouncesOne(c: Coordinator, tid: nat, req: Pending)
    ensures D2pcSystem.Announcements(c.id, AnnounceCommit(c, tid, req)) == [(c.id, tid)]
  {
    D2pcCoordinator.DecideAnnounces(c, tid, req, []);
    assert [] + AnnounceCommit(c, tid, req) == AnnounceCommit(c, tid, req);
  }

  lemma VoteAnnounces(c: Coordinator, m: Message)
    requires c.n > 0 && Disjoint(c) && m.ReplyAndVote?
    ensures
      var (c', sends) := HandleReplyAndVote(c, m);
      var all := D2pcSystem.Announcements(c.id, sends);
      all == [] || (all == [(c.id, m.tid)] && m.tid !in c.commitResults && m.tid in c'.commitResults)
  {
    var (c', sends) := HandleReplyAndVote(c, m);
    if m.tid in c.commitResults {
    } else if m.vote != PREPARED {
      var req := Joined(c, m).(state := ABORT, reachConsensus := true);
      D2pcCoordinator.NotifyLeadersSends(c, m.tid, req, req.participants);
      D2pcCoordinator.NoAnnouncement(c.id, sends);
    } else {
      CountAnnounces(c, m);
      var bypass := BypassReply(m.primaryCoordinator, m.tid, m.shard, m.replica);
      D2pcCoordinator.AnnouncementsConcat(c.id, CountVote(c, m).1, [bypass]);
      D2pcCoordinator.NoAnnouncement(c.id, [bypass]);
      hide CountVote;
    }
  }

  lemma CountAnnounces(c: Coordinator, m: Message)
    requires c.n > 0 && m.ReplyAndVote?
    ensures
      var (c', sends) := CountVote(c, m);
      var all := D2pcSystem.Announcements(c.id, sends);
      all == [] || (all == [(c.id, m.tid)] && m.tid in c'.commitResults)
  {
    hide ReachConsensus, NoDependency, Voted;
    var voted := Voted(c, m);
    var (votes, agreed) := ReachConsensus(voted);
    if agreed {
      var req := voted.(votes := votes, state := PREPARED, reachConsensus := true);
      var notify := NotifyLeaders(c, m.tid, req, req.participants);
      D2pcCoordinator.NotifyLeadersSends(c, m.tid, req, req.participants);
      D2pcCoordinator.NoAnnouncement(c.id, notify);
      D2pcCoordinator.DecideAnnounces(c, m.tid, req, notify);
      hide NotifyLeaders;
    }
  }

  // ----- Any number of messages -----

  ghost function HandleAll(c: Coordinator, messages: seq<Message>): (out: (Coordinator, seq<(nat, nat)>))
    requires c.n > 0
    ensures out.0.n > 0
    decreases |messages|
  {
    if messages == [] then (c, [])
    else
      var (c1, sends) := Handle(c, messages[0]);
      D2pcSystem.CoordinatorStays(c, messages[0]);
      var (c2, rest) := HandleAll(c1, messages[1..]);
      (c2, D2pcSystem.Announcements(c.id, sends) + rest)
  }

  ghost predicate NoneForeign(c: Coordinator, messages: seq<Message>)
    requires c.n > 0
    decreases |messages|
  {
    messages == [] ||
    (!Foreign(c, messages[0]) &&
     var c1 := Handle(c, messages[0]).0;
     D2pcSystem.CoordinatorStays(c, messages[0]);
     NoneForeign(c1, messages[1..]))
  }

  /** Whatever messages arrive, results once recorded stay, nothing decided is pending, and no
      transaction's commit is announced twice, nor after its result is recorded. */
  lemma {:induction false} RecordedOnce(c: Coordinator, messages: seq<Message>)
    requires c.n > 0 && Disjoint(c) && NoneForeign(c, messages)
    ensures
      var (c', all) := HandleAll(c, messages);
      && Disjoint(c')
      && (forall t :: t in c.commitResults ==> t in c'.commitResults && c'.commitResults[t] == c.commitResults[t])
      && (forall i :: 0 <= i < |all| ==> all[i].1 in c'.commitResults && all[i].1 !in c.commitResults)
      && (forall i, j :: 0 <= i < j < |all| ==> all[i].1 != all[j].1)
    decreases |messages|
  {
    if messages != [] {
      HandleTouches(c, messages[0]);
      HandleAnnounces(c, messages[0]);
      hide Handle;
      RecordedOnce(Handle(c, messages[0]).0, messages[1..]);
    }
  }

  /** Once all participants have voted, every further PREPARED vote notifies the leaders
      again. */
  lemma RepeatedVoteNotifiesAgain(c: Coordinator, m: Message, p: nat)
    requires c.n > 0 && m.ReplyAndVote? && m.vote == PREPARED && m.tid in c.pendingCommits && m.tid !in c.commitResults
    requires
      var req := c.pendingCommits[m.tid];
      && req.participants != [] && |req.votes| == |req.participants| && m.shard in req.votes
      && (forall q :: q in req.participants ==> q in req.votes && req.votes[q] == PREPARED)
      && p in req.participants && p % c.n == c.id
    ensures exists ts :: NotifyDecision(p, c.id, m.tid, PREPARED, ts) in HandleReplyAndVote(c, m).1
  {
    var voted := Voted(c, m);
    assert voted.votes.Keys == c.pendingCommits[m.tid].votes.Keys;
    assert |voted.votes.Keys| == |voted.votes|;
    assert |c.pendingCommits[m.tid].votes.Keys| == |c.pendingCommits[m.tid].votes|;
    D2pcCoordinator.AllPreparedSays(voted.votes, voted.participants);
    var req := voted.(votes := voted.votes, state := PREPARED, reachConsensus := true);
    LeaderIsNotified(c, m.tid, req, req.participants, p);
    var notice := NotifyDecision(p, c.id, m.tid, PREPARED, req.timestamp);
    assert notice in NotifyLeaders(c, m.tid, req, req.participants);
    hide NotifyLeaders, NoDependency;
    assert notice in CountVote(c, m).1;
  }

  lemma {:induction false} LeaderIsNotified(c: Coordinator, tid: nat, req: Pending, participants: seq<nat>, p: nat)
    requires c.n > 0 && p in participants && p % c.n == c.id
    ensures NotifyDecision(p, c.id, tid, req.state, req.timestamp) in NotifyLeaders(c, tid, req, participants)
    decreases |participants|
  {
    if participants[0] != p {
      LeaderIsNotified(c, tid, req, participants[1..], p);
    }
  }
}
