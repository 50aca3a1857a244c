/** What single messages, and sequences of them, get done at a coordinator in any state. */
module CoordinatorSteps {
  import opened CommitMessages
  import opened Counting
  import opened CoordinatorSpec
  import Co = D2pcCoordinator
  import P = CoordinatorProgress

  /** The commit decision has just been made: recorded, announced, and no longer pending. */
  ghost predicate DecidesNow(c: Coordinator, tid: nat, req: Pending, out: (Coordinator, seq<Message>)) {
    && tid in out.0.commitResults && out.0.commitResults[tid].faultTolerant && out.0.commitResults[tid].state != ABORT
    && tid !in out.0.pendingCommits
    && NotifyReplicateResult(req.primaryShard, c.id, tid, req.timestamp) in out.1
    && ReplicateDecision(tid, req.state, req.timestamp) in out.1
  }

  // ----- The vote that is last -----

  /** All that is missing is the vote of `shard`, and that it depends on nothing. */
  ghost predicate NeedsVote(req: Pending, shard: nat) {
    && shard in req.participants && Distinct(req.participants) && req.reachFaultTolerance
    && req.votes.Keys + {shard} == Elements(req.participants)
    && req.dependencies.Keys + {shard} == Elements(req.participants)
    && (forall p :: p in req.votes && p != shard ==> req.votes[p] == PREPARED)
    && (forall p :: p in req.dependencies && p != shard ==> !req.dependencies[p])
  }

  /** Where enough replicas have reported already, the last vote commits the transaction. */
  lemma LastVoteDecides(c: Coordinator, m: Message)
    requires c.n > 0 && m.ReplyAndVote? && m.vote == PREPARED && !m.hasPreCommit
    requires m.tid in c.pendingCommits && m.tid !in c.commitResults && NeedsVote(c.pendingCommits[m.tid], m.shard)
    ensures
      var req := Voted(c, m).(state := PREPARED, reachConsensus := true);
      && req.primaryShard == m.primaryShard && DecidesNow(c, m.tid, req, Handle(c, m))
      && P.OnlyTxn(c, Handle(c, m).0, m.tid)
  {
    LastVoteIsReady(c, m);
    Co.VoteShape(c, m);
    hide Voted, HandleReplyAndVote, ReachConsensus, NoDependency, NotifyLeaders, NeedsVote;
    var req := Voted(c, m).(state := PREPARED, reachConsensus := true);
    var notify := NotifyLeaders(c, m.tid, req, req.participants);
    var pair := AnnounceCommit(c, m.tid, req);
    assert pair[0] in notify + pair + [Co.Bypass(m)] && pair[1] in notify + pair + [Co.Bypass(m)];
  }

  lemma LastVoteIsReady(c: Coordinator, m: Message)
    requires m.ReplyAndVote? && m.tid in c.pendingCommits && NeedsVote(c.pendingCommits[m.tid], m.shard)
    requires m.vote == PREPARED && !m.hasPreCommit
    ensures
      var voted := Voted(c, m);
      && ReachConsensus(voted) == (voted.votes, true)
      && NoDependency(voted.(state := PREPARED, reachConsensus := true))
      && voted.reachFaultTolerance && voted.primaryCoordinator == c.id && voted.primaryShard == m.primaryShard
  {
    VotedKeys(c, m);
    hide Voted, NeedsVote;
    var voted := Voted(c, m);
    ElementsSize(voted.participants);
    Co.MapSize(voted.votes);
    Co.MapSize(voted.dependencies);
    P.AllVotesPrepare(voted.votes, voted.participants);
  }

  lemma VotedKeys(c: Coordinator, m: Message)
    requires m.ReplyAndVote? && m.tid in c.pendingCommits && NeedsVote(c.pendingCommits[m.tid], m.shard)
    requires m.vote == PREPARED && !m.hasPreCommit
    ensures
      var voted := Voted(c, m);
      && voted.participants == c.pendingCommits[m.tid].participants && Distinct(voted.participants)
      && voted.reachFaultTolerance && voted.participants != []
      && voted.primaryCoordinator == c.id && voted.primaryShard == m.primaryShard
      && voted.votes.Keys == Elements(voted.participants) && voted.dependencies.Keys == Elements(voted.participants)
      && (forall p :: p in voted.votes ==> voted.votes[p] == PREPARED)
      && (forall p :: p in voted.dependencies ==> !voted.dependencies[p])
  {
    var was := c.pendingCommits[m.tid];
    assert m.shard in was.participants && |was.participants| > 0;
  }

  // ----- The notice that is last -----

  /** A notice that the dependencies at `shard` are cleared commits the transaction exactly if
      everything else is there: consensus, enough replicas, and no dependency elsewhere.  If not,
      it is noted and nothing else happens. */
  lemma NoticeDecidesExactly(c: Coordinator, tid: nat, shard: nat)
    requires c.n > 0 && tid in c.pendingCommits && tid !in c.commitResults && c.pendingCommits[tid].state == PREPARED
    ensures
      var was := c.pendingCommits[tid];
      var req := was.(dependencies := was.dependencies[shard := false]);
      var out := Handle(c, DependenciesCleared(c.id, tid, shard));
      var ready := && was.reachConsensus && was.reachFaultTolerance
                   && |was.dependencies.Keys + {shard}| == |was.participants|
                   && forall p :: p in was.participants && p in was.dependencies && p != shard ==> !was.dependencies[p];
      if ready then DecidesNow(c, tid, req, out) && P.OnlyTxn(c, out.0, tid)
      else out == (c.(pendingCommits := c.pendingCommits[tid := req]), [])
  {
    var was := c.pendingCommits[tid];
    var req := was.(dependencies := was.dependencies[shard := false]);
    assert req.dependencies.Keys == was.dependencies.Keys + {shard};
    Co.MapSize(req.dependencies);
    var pair := AnnounceCommit(c, tid, req);
    assert pair[0] in pair && pair[1] in pair;
  }

  // ----- A vote to abort -----

  /** A vote that is not PREPARED aborts the transaction here, and the leaders with this index are
      told. */
  lemma RefusalAborts(c: Coordinator, m: Message)
    requires c.n > 0 && m.ReplyAndVote? && m.vote != PREPARED && m.tid !in c.commitResults
    ensures
      var out := Handle(c, m);
      && out.0 == c.(commitResults := c.commitResults[m.tid := CommitState(ABORT, false)],
                     pendingCommits := c.pendingCommits - {m.tid})
      && forall p :: p in Joined(c, m).participants && p % c.n == c.id ==>
           NotifyDecision(p, c.id, m.tid, ABORT, Joined(c, m).timestamp) in out.1
  {
    var req := Joined(c, m).(state := ABORT, reachConsensus := true);
    P.NotifyReaches(c, m.tid, req, req.participants);
    hide NotifyLeaders, Joined;
  }

  // ----- Replies in one message -----

  /** The replies of a union as messages of their own. */
  function Singles(c: Coordinator, tid: nat, shards: seq<nat>, replica: nat): (Coordinator, seq<Message>)
    decreases |shards|
  {
    if shards == [] then (c, [])
    else
      var (c1, m1) := HandleBypassReply(c, tid, shards[0], replica);
      var (c2, m2) := Singles(c1, tid, shards[1..], replica);
      (c2, m1 + m2)
  }

  lemma {:induction false} SinglesDecided(c: Coordinator, tid: nat, shards: seq<nat>, replica: nat)
    requires tid in c.commitResults
    ensures Singles(c, tid, shards, replica) == (c, [])
    decreases |shards|
  {
    if shards != [] {
      SinglesDecided(c, tid, shards[1..], replica);
      var none: seq<Message> := [];
      assert none + none == none;
      assert HandleBypassReply(c, tid, shards[0], replica) == (c, none);
    }
  }

  /** From a state in which the transaction is pending, the loop is one message after another. */
  lemma {:induction false} UnionFromPending(c: Coordinator, tid: nat, shards: seq<nat>, replica: nat)
    requires tid in c.pendingCommits && tid !in c.commitResults && Distinct(shards)
    requires forall s :: s in shards ==> replica !in RepliesOf(c.pendingCommits[tid], s)
    ensures HandleBypassReplyUnion(c, tid, shards, replica) == Singles(c, tid, shards, replica)
    decreases |shards|
  {
    var req := c.pendingCommits[tid];
    if shards == [] {
      assert c.pendingCommits[tid := req] == c.pendingCommits;
    } else {
      var (added, commit) := AddReply(c, req, shards[0], replica);
      if commit {
        SinglesDecided(Decide(c, tid, added, COMMIT).0, tid, shards[1..], replica);
        var pair := AnnounceCommit(c, tid, added);
        assert pair + [] == pair;
      } else {
        var c1 := Keep(c, tid, added);
        AddedElsewhere(c, req, shards, replica);
        SameLoop(c, c1, added, shards[1..], replica);
        UnionFromPending(c1, tid, shards[1..], replica);
        KeepTwice(c, tid, added, AddReplies(c, added, shards[1..], replica, false).0);
        var rest := Singles(c1, tid, shards[1..], replica);
        assert [] + rest.1 == rest.1;
        hide AddReply, AddReplies;
      }
    }
  }

  lemma AddedElsewhere(c: Coordinator, req: Pending, shards: seq<nat>, replica: nat)
    requires shards != [] && Distinct(shards) && forall s :: s in shards ==> replica !in RepliesOf(req, s)
    ensures
      var added := AddReply(c, req, shards[0], replica).0;
      Distinct(shards[1..]) && forall s :: s in shards[1..] ==> replica !in RepliesOf(added, s)
  {
    hide ReachFaultTolerance, NoDependency;
    var rest := shards[1..];
    var added := AddReply(c, req, shards[0], replica).0;
    forall i, j | 0 <= i < j < |rest| ensures rest[i] != rest[j] {
      assert rest[i] == shards[i + 1] && rest[j] == shards[j + 1];
    }
    forall s | s in rest ensures replica !in RepliesOf(added, s) {
      var i :| 0 <= i < |rest| && rest[i] == s;
      assert s == shards[i + 1] && s != shards[0];
      assert RepliesOf(added, s) == RepliesOf(req, s);
    }
  }

  /** The loop does not look at what is pending. */
  lemma {:induction false} SameLoop(a: Coordinator, b: Coordinator, req: Pending, shards: seq<nat>, replica: nat)
    requires a.n == b.n
    ensures AddReplies(a, req, shards, replica, false) == AddReplies(b, req, shards, replica, false)
    ensures AddReplies(a, req, shards, replica, true) == AddReplies(b, req, shards, replica, true)
    decreases |shards|
  {
    if shards != [] {
      hide ReachFaultTolerance, NoDependency;
      var known := RepliesOf(req, shards[0]);
      SameLoop(a, b, req.(replicateResults := req.replicateResults[shards[0] := known]), shards[1..], replica);
      SameLoop(a, b, AddReply(a, req, shards[0], replica).0, shards[1..], replica);
    }
  }

  lemma KeepTwice(c: Coordinator, tid: nat, a: Pending, b: Pending)
    requires tid !in c.commitResults
    ensures Keep(Keep(c, tid, a), tid, b) == Keep(c, tid, b)
    ensures Decide(Keep(c, tid, a), tid, b, COMMIT) == Decide(c, tid, b, COMMIT)
  {
    assert c.pendingCommits[tid := a] - {tid} == c.pendingCommits - {tid};
  }

  /** A union of replies none of which is known does what the replies would do one by one. */
  lemma UnionIsSingles(c: Coordinator, tid: nat, shards: seq<nat>, replica: nat)
    requires tid !in c.commitResults && Distinct(shards) && shards != []
    requires forall s :: s in shards ==> replica !in RepliesOf(PendingFor(c, tid), s)
    ensures HandleBypassReplyUnion(c, tid, shards, replica) == Singles(c, tid, shards, replica)
  {
    var req := PendingFor(c, tid);
    var c1 := Keep(c, tid, req);
    UnionFromPending(c1, tid, shards, replica);
    SameLoop(c, c1, req, shards, replica);
    KeepTwice(c, tid, req, AddReplies(c, req, shards, replica, false).0);
    SingleAfterKeep(c, c1, tid, shards[0], replica);
    hide AddReplies, AddReply;
  }

  lemma SingleAfterKeep(c: Coordinator, c1: Coordinator, tid: nat, shard: nat, replica: nat)
    requires tid !in c.commitResults && c1 == Keep(c, tid, PendingFor(c, tid))
    ensures HandleBypassReply(c, tid, shard, replica) == HandleBypassReply(c1, tid, shard, replica)
  {
    var req := PendingFor(c, tid);
    var added := AddReply(c, req, shard, replica).0;
    KeepTwice(c, tid, req, req);
    KeepTwice(c, tid, req, added);
    hide ReachFaultTolerance, NoDependency;
  }

  /** But once one of them is known, the remaining ones are dropped. */
  lemma {:induction false} UnionDropsRest(c: Coordinator, req: Pending, shards: seq<nat>, replica: nat, s: nat)
    ensures
      var out := AddReplies(c, req, shards, replica, true);
      !out.1 && RepliesOf(out.0, s) == RepliesOf(req, s)
    decreases |shards|
  {
    if shards != [] {
      var known := RepliesOf(req, shards[0]);
      UnionDropsRest(c, req.(replicateResults := req.replicateResults[shards[0] := known]), shards[1..], replica, s);
    }
  }

  lemma KnownReplyDropsRest(c: Coordinator, tid: nat, shards: seq<nat>, replica: nat, s: nat)
    requires tid !in c.commitResults && shards != [] && replica in RepliesOf(PendingFor(c, tid), shards[0])
    ensures
      var out := HandleBypassReplyUnion(c, tid, shards, replica);
      && tid in out.0.pendingCommits && out.1 == []
      && RepliesOf(out.0.pendingCommits[tid], s) == RepliesOf(PendingFor(c, tid), s)
  {
    var req := PendingFor(c, tid);
    var known := RepliesOf(req, shards[0]);
    UnionDropsRest(c, req.(replicateResults := req.replicateResults[shards[0] := known]), shards[1..], replica, s);
  }

  // ----- Decisions of another coordinator, and replies to one's own -----

  /** A decision on a pending transaction is answered to the transaction's primary coordinator. */
  lemma DecisionIsAnswered(c: Coordinator, tid: nat, state: CommitResult, timestamp: nat)
    requires c.n > 0 && tid in c.pendingCommits
    ensures
      var req := c.pendingCommits[tid];
      var out := Handle(c, ReplicateDecision(tid, state, timestamp));
      && out.1 == [ReplyDecision(req.primaryShard % c.n, tid, c.id, req.timestamp)]
      && tid in out.0.commitResults && (out.0.commitResults[tid].state == ABORT <==> state != COMMIT)
      && (tid in out.0.pendingCommits <==> req.primaryShard % c.n == c.id)
  {
  }

  function HandleReplies(c: Coordinator, tid: nat, coordinators: seq<nat>): Coordinator
    decreases |coordinators|
  {
    if coordinators == [] then c
    else HandleReplyDecision(HandleReplies(c, tid, coordinators[..|coordinators| - 1]), tid,
                             coordinators[|coordinators| - 1])
  }

  /** Replies to a decision end the transaction exactly when a majority of distinct coordinators
      has answered. */
  lemma {:induction false} MajorityEnds(c: Coordinator, tid: nat, coordinators: seq<nat>)
    requires tid in c.pendingCommits && c.pendingCommits[tid].decisionReplies == {}
    ensures
      var c' := HandleReplies(c, tid, coordinators);
      && (tid in c'.pendingCommits <==> |Elements(coordinators)| < Majority(c.n))
      && (tid in c'.pendingCommits ==> c'.pendingCommits[tid].decisionReplies == Elements(coordinators))
      && c' == c.(pendingCommits := c'.pendingCommits) && P.OnlyTxn(c, c', tid)
    decreases |coordinators|
  {
    if coordinators == [] {
      assert Elements(coordinators) == {};
    } else {
      var init, last := coordinators[..|coordinators| - 1], coordinators[|coordinators| - 1];
      MajorityEnds(c, tid, init);
      assert Elements(coordinators) == Elements(init) + {last};
      SubsetSize(Elements(init), Elements(coordinators));
    }
  }
}
