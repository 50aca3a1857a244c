/** The coordinator updated in place, each handler proved against its function. */
module CoordinatorReplica {
  import opened CommitMessages
  import opened CoordinatorSpec
  import D2pcCoordinator

  /** The loop of ReachConsensus; looking a vote up inserts it. */
  method CheckConsensus(req: Pending) returns (votes: map<nat, CommitResult>, ok: bool)
    ensures (votes, ok) == ReachConsensus(req)
    ensures ok ==> votes == req.votes && forall p :: p in req.participants ==> p in votes && votes[p] == PREPARED
  {
    votes := req.votes;
    if |req.votes| != |req.participants| {
      return votes, false;
    }
    D2pcCoordinator.AllPreparedSays(req.votes, req.participants);
    var i := 0;
    while i < |req.participants|
      invariant 0 <= i <= |req.participants| && votes == req.votes
      invariant AllPrepared(req.votes, req.participants) == AllPrepared(votes, req.participants[i..])
    {
      var p := req.participants[i];
      assert req.participants[i..][0] == p && req.participants[i..][1..] == req.participants[i + 1..];
      if p !in votes {
        votes := votes[p := COMMIT];
      }
      if votes[p] != PREPARED {
        return votes, false;
      }
      i := i + 1;
    }
    return votes, true;
  }

  method CheckNoDependency(req: Pending) returns (ok: bool)
    ensures ok == NoDependency(req)
  {
    if |req.dependencies| != |req.participants| {
      return false;
    }
    var i := 0;
    while i < |req.participants|
      invariant 0 <= i <= |req.participants|
      invariant forall j :: 0 <= j < i && req.participants[j] in req.dependencies ==>
                  !req.dependencies[req.participants[j]]
    {
      var p := req.participants[i];
      if p in req.dependencies && req.dependencies[p] {
        return false;
      }
      i := i + 1;
    }
    return true;
  }

  method CheckFaultTolerance(req: Pending, n: nat) returns (ok: bool)
    ensures ok == ReachFaultTolerance(req, n)
  {
    if |req.participants| <= 0 {
      return false;
    }
    if |req.replicateResults| != |req.participants| {
      return false;
    }
    var todo := req.replicateResults.Keys;
    while todo != {}
      invariant todo <= req.replicateResults.Keys
      invariant forall p :: p in req.replicateResults && p !in todo ==> |req.replicateResults[p]| >= Majority(n)
      decreases |todo|
    {
      var p :| p in todo;
      if |req.replicateResults[p]| < Majority(n) {
        return false;
      }
      todo := todo - {p};
    }
    return true;
  }

  /** Class CoordinatorReplica of replication/commit/coordinator.h. */
  class Replica {
    const id: nat
    const n: nat
    const unset: nat
    var pendingCommits: map<nat, Pending>
    var commitResults: map<nat, CommitState>

    function State(): Coordinator
      reads this
    {
      Coordinator(id, n, unset, pendingCommits, commitResults)
    }

    constructor (id: nat, n: nat, unset: nat)
      ensures State() == Coordinator(id, n, unset, map[], map[])
    {
      this.id := id;
      this.n := n;
      this.unset := unset;
      pendingCommits := map[];
      commitResults := map[];
    }

    /** NotifyCommitDecision. */
    method NotifyCommitDecision(tid: nat, req: Pending) returns (sends: seq<Message>)
      requires n > 0
      ensures sends == NotifyLeaders(State(), tid, req, req.participants)
      ensures forall m :: m in sends ==> m.NotifyDecision? && m.tid == tid && m.shard in req.participants
    {
      sends := [];
      D2pcCoordinator.NotifyLeadersSends(State(), tid, req, req.participants);
      var i := 0;
      while i < |req.participants|
        invariant 0 <= i <= |req.participants|
        invariant NotifyLeaders(State(), tid, req, req.participants)
                  == sends + NotifyLeaders(State(), tid, req, req.participants[i..])
      {
        var p := req.participants[i];
        assert req.participants[i..][0] == p && req.participants[i..][1..] == req.participants[i + 1..];
        if p % n == id {
          sends := sends + [NotifyDecision(p, id, tid, req.state, req.timestamp)];
        }
        i := i + 1;
      }
    }

    /** Records a commit decision and announces it. */
    method Commit(tid: nat, req: Pending, state: CommitResult) returns (sends: seq<Message>)
      modifies this`pendingCommits, this`commitResults
      ensures (State(), sends) == Decide(old(State()), tid, req, state)
    {
      commitResults := commitResults[tid := CommitState(state, true)];
      sends := [NotifyReplicateResult(req.primaryShard, id, tid, req.timestamp),
                ReplicateDecision(tid, req.state, req.timestamp)];
      pendingCommits := pendingCommits - {tid};
    }

    method Join(m: Message) returns (req: Pending)
      requires m.ReplyAndVote?
      ensures req == Joined(State(), m)
    {
      if m.tid !in pendingCommits {
        req := Pending(m.participants, map[], map[], map[], {}, m.primaryShard, m.primaryCoordinator,
                       m.timestamp, COMMIT, false, false);
      } else {
        req := pendingCommits[m.tid];
        if |req.participants| == 0 {
          req := req.(participants := m.participants);
        }
        req := req.(primaryShard := m.primaryShard, primaryCoordinator := id);
        if m.timestamp > req.timestamp {
          req := req.(timestamp := m.timestamp);
        }
      }
    }

    method AcceptVote(m: Message) returns (sends: seq<Message>)
      requires m.ReplyAndVote? && n > 0
      modifies this`pendingCommits, this`commitResults
      ensures (State(), sends) == CountVote(old(State()), m)
    {
      var req := Join(m);
      req := req.(votes := req.votes[m.shard := m.vote],
                  dependencies := req.dependencies[m.shard := m.hasPreCommit]);
      var votes, agreed := CheckConsensus(req);
      req := req.(votes := votes);
      sends := [];
      if agreed {
        req := req.(state := PREPARED, reachConsensus := true);
        sends := NotifyCommitDecision(m.tid, req);
        var free := CheckNoDependency(req);
        if req.primaryCoordinator == id && req.reachFaultTolerance && free {
          var more := Commit(m.tid, req, req.state);
          sends := sends + more;
          return;
        }
      }
      pendingCommits := pendingCommits[m.tid := req];
    }

    method HandleReplicateReplyAndVote(m: Message) returns (sends: seq<Message>)
      requires m.ReplyAndVote? && n > 0
      modifies this`pendingCommits, this`commitResults
      ensures (State(), sends) == HandleReplyAndVote(old(State()), m)
    {
      if m.tid in commitResults {
        return [];
      }
      if m.vote == PREPARED {
        sends := AcceptVote(m);
        sends := sends + [BypassReply(m.primaryCoordinator, m.tid, m.shard, m.replica)];
      } else {
        var req := Join(m);
        req := req.(state := ABORT, reachConsensus := true);
        commitResults := commitResults[m.tid := CommitState(ABORT, false)];
        sends := NotifyCommitDecision(m.tid, req);
        assert sends == NotifyLeaders(old(State()), m.tid, req, req.participants) by {
          NotifyIgnoresState(State(), old(State()), m.tid, req, req.participants);
        }
        pendingCommits := pendingCommits - {m.tid};
      }
    }

    method HandleBypassLeaderReply(tid: nat, shard: nat, replica: nat) returns (sends: seq<Message>)
      modifies this`pendingCommits, this`commitResults
      ensures (State(), sends) == HandleBypassReply(old(State()), tid, shard, replica)
    {
      sends := [];
      if tid in commitResults {
        return;
      }
      var req := if tid in pendingCommits then pendingCommits[tid]
                 else Pending([], map[], map[], map[], {}, unset, unset, 0, COMMIT, false, false);
      var known := if shard in req.replicateResults then req.replicateResults[shard] else [];
      var received := Contains(known, replica);
      if !received {
        req := req.(replicateResults := req.replicateResults[shard := known + [replica]]);
        var tolerant := CheckFaultTolerance(req, n);
        if tolerant {
          req := req.(reachFaultTolerance := true);
          var free := CheckNoDependency(req);
          if req.reachConsensus && free {
            sends := Commit(tid, req, COMMIT);
            return;
          }
        }
      }
      pendingCommits := pendingCommits[tid := req];
    }

    method HandleBypassLeaderReplyUnion(tid: nat, shards: seq<nat>, replica: nat) returns (sends: seq<Message>)
      modifies this`pendingCommits, this`commitResults
      ensures (State(), sends) == HandleBypassReplyUnion(old(State()), tid, shards, replica)
    {
      sends := [];
      if tid in commitResults {
        return;
      }
      var req := if tid in pendingCommits then pendingCommits[tid]
                 else Pending([], map[], map[], map[], {}, unset, unset, 0, COMMIT, false, false);
      var already := false;
      ghost var first := req;
      var i := 0;
      while i < |shards|
        invariant 0 <= i <= |shards| && State() == old(State())
        invariant AddReplies(State(), first, shards, replica, false)
                  == AddReplies(State(), req, shards[i..], replica, already)
      {
        var q := shards[i];
        assert shards[i..][0] == q && shards[i..][1..] == shards[i + 1..];
        var known := if q in req.replicateResults then req.replicateResults[q] else [];
        var received := Contains(known, replica);
        already := already || received;
        if !already {
          req := req.(replicateResults := req.replicateResults[q := known + [replica]]);
          var tolerant := CheckFaultTolerance(req, n);
          if tolerant {
            req := req.(reachFaultTolerance := true);
            var free := CheckNoDependency(req);
            if req.reachConsensus && free {
              sends := Commit(tid, req, COMMIT);
              return;
            }
          }
        } else {
          req := req.(replicateResults := req.replicateResults[q := known]);
        }
        i := i + 1;
      }
      pendingCommits := pendingCommits[tid := req];
    }

    method HandleNotifyDependenciesAreCleared(tid: nat, shard: nat) returns (sends: seq<Message>)
      modifies this`pendingCommits, this`commitResults
      ensures (State(), sends) == HandleDependenciesCleared(old(State()), tid, shard)
    {
      sends := [];
      if tid !in pendingCommits {
        return;
      }
      var req := pendingCommits[tid];
      req := req.(dependencies := req.dependencies[shard := false]);
      var free := CheckNoDependency(req);
      if free && req.reachConsensus && req.reachFaultTolerance {
        sends := Commit(tid, req, req.state);
      } else {
        pendingCommits := pendingCommits[tid := req];
      }
    }

    method HandleDecision(tid: nat, state: CommitResult) returns (sends: seq<Message>)
      requires n > 0
      modifies this`pendingCommits, this`commitResults
      ensures (State(), sends) == HandleReplicateDecision(old(State()), tid, state)
    {
      sends := [];
      if tid !in pendingCommits {
        return;
      }
      var req := pendingCommits[tid].(state := state);
      var primary := req.primaryShard % n;
      sends := [ReplyDecision(primary, tid, id, req.timestamp)];
      if state == COMMIT {
        commitResults := commitResults[tid := CommitState(COMMIT, false)];
      } else {
        commitResults := commitResults[tid := CommitState(ABORT, false)];
      }
      if primary != id {
        pendingCommits := pendingCommits - {tid};
      } else {
        pendingCommits := pendingCommits[tid := req];
      }
    }

    method HandleDecisionReply(tid: nat, coordinator: nat)
      modifies this`pendingCommits
      ensures State() == HandleReplyDecision(old(State()), tid, coordinator)
    {
      if tid !in pendingCommits {
        return;
      }
      var req := pendingCommits[tid];
      if coordinator !in req.decisionReplies {
        req := req.(decisionReplies := req.decisionReplies + {coordinator});
        if |req.decisionReplies| >= Majority(n) {
          pendingCommits := pendingCommits - {tid};
        } else {
          pendingCommits := pendingCommits[tid := req];
        }
      }
    }
  }

  /** Has this replica been heard from already? */
  method Contains(known: seq<nat>, replica: nat) returns (received: bool)
    ensures received <==> replica in known
  {
    received := false;
    var i := 0;
    while i < |known|
      invariant 0 <= i <= |known| && !received
      invariant forall j :: 0 <= j < i ==> known[j] != replica
    {
      if known[i] == replica {
        received := true;
        break;
      }
      i := i + 1;
    }
  }

  lemma {:induction false} NotifyIgnoresState(a: Coordinator, b: Coordinator, tid: nat, req: Pending,
                                              participants: seq<nat>)
    requires a.n == b.n > 0 && a.id == b.id
    ensures NotifyLeaders(a, tid, req, participants) == NotifyLeaders(b, tid, req, participants)
    decreases |participants|
  {
    if participants != [] {
      NotifyIgnoresState(a, b, tid, req, participants[1..]);
    }
  }
}
