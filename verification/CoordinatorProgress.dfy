/** What brings a transaction forward at a coordinator: the votes of all participants make it
    agreed, and the replies of enough replicas then commit it. */
module CoordinatorProgress {
  import opened CommitMessages
  import opened Counting
  import opened D2pcSystem
  import opened D2pcInvariant
  import opened CoordinatorSpec
  import Co = D2pcCoordinator

  /** The vote of replica `r` of shard `p`, for a transaction that depends on nothing there. */
  ghost function Vote(cfg: Config, p: nat, r: nat, t: nat): Message
    requires cfg.n > 0
  {
    ReplyAndVote(r, t, p, r, PREPARED, cfg.participants(t), cfg.primary(t), cfg.PrimaryCoordinator(t), 0, false)
  }

  ghost function Bypass(cfg: Config, p: nat, r: nat, t: nat): Message
    requires cfg.n > 0
  {
    BypassReply(cfg.PrimaryCoordinator(t), t, p, r)
  }

  /** Nothing but `t` has changed. */
  ghost predicate OnlyTxn(c: Coordinator, c': Coordinator, t: nat) {
    && (forall u :: u != t ==> (u in c'.pendingCommits <==> u in c.pendingCommits))
    && (forall u :: u != t ==> (u in c'.commitResults <==> u in c.commitResults))
  }

  // ----- Votes -----

  /** The votes of the first `k` participants, all without dependencies, have been counted. */
  ghost predicate Counted(cfg: Config, t: nat, req: Pending, k: nat)
    requires k <= |cfg.participants(t)|
  {
    && OfTxn(cfg, t, req.participants, req.primaryShard) && req.timestamp == 0
    && req.replicateResults == map[] && !req.reachFaultTolerance
    && Tallied(cfg, t, req.votes, req.dependencies, k)
    && (k == |cfg.participants(t)| ==> req.reachConsensus && req.state == PREPARED)
  }

  ghost predicate Collected(cfg: Config, c: Coordinator, t: nat, k: nat)
    requires k <= |cfg.participants(t)|
  {
    && t !in c.commitResults
    && if k == 0 then t !in c.pendingCommits
       else t in c.pendingCommits && Counted(cfg, t, c.pendingCommits[t], k)
  }

  /** The votes and dependencies of the first `k` participants. */
  ghost predicate Tallied(cfg: Config, t: nat, votes: map<nat, CommitResult>, dependencies: map<nat, bool>, k: nat)
    requires k <= |cfg.participants(t)|
  {
    && votes.Keys == Elements(cfg.participants(t)[..k]) && dependencies.Keys == votes.Keys
    && (forall p :: p in votes ==> votes[p] == PREPARED)
    && (forall p :: p in dependencies ==> !dependencies[p])
  }

  lemma TallyOne(cfg: Config, t: nat, votes: map<nat, CommitResult>, dependencies: map<nat, bool>, k: nat)
    requires k < |cfg.participants(t)| && Tallied(cfg, t, votes, dependencies, k)
    ensures
      var p := cfg.participants(t)[k];
      Tallied(cfg, t, votes[p := PREPARED], dependencies[p := false], k + 1)
  {
    var parts := cfg.participants(t);
    assert parts[..k + 1] == parts[..k] + [parts[k]];
    assert Elements(parts[..k + 1]) == Elements(parts[..k]) + {parts[k]};
  }

  lemma TallySize(cfg: Config, t: nat, votes: map<nat, CommitResult>, dependencies: map<nat, bool>, k: nat)
    requires cfg.Valid() && k <= |cfg.participants(t)| && Tallied(cfg, t, votes, dependencies, k)
    ensures |votes| == k && |dependencies| == k
  {
    ElementsSize(cfg.participants(t)[..k]);
    Co.MapSize(votes);
    Co.MapSize(dependencies);
  }

  lemma JoinTally(cfg: Config, c: Coordinator, t: nat, k: nat)
    requires cfg.n > 0 && c.n == cfg.n && k < |cfg.participants(t)| && Collected(cfg, c, t, k)
    ensures
      var req := Joined(c, Vote(cfg, cfg.participants(t)[k], c.id, t));
      && OfTxn(cfg, t, req.participants, req.primaryShard) && req.timestamp == 0
      && req.replicateResults == map[] && !req.reachFaultTolerance && Tallied(cfg, t, req.votes, req.dependencies, k)
  {
    if k == 0 {
      assert Elements(cfg.participants(t)[..0]) == {};
    }
  }

  lemma VoteJoins(cfg: Config, c: Coordinator, t: nat, k: nat)
    requires cfg.Valid() && c.n == cfg.n && k < |cfg.participants(t)| && Collected(cfg, c, t, k)
    ensures
      var req := Voted(c, Vote(cfg, cfg.participants(t)[k], c.id, t));
      && Counted(cfg, t, req.(state := PREPARED, reachConsensus := true), k + 1)
      && |req.votes| == k + 1 && |req.dependencies| == k + 1
  {
    JoinTally(cfg, c, t, k);
    var p := cfg.participants(t)[k];
    var m := Vote(cfg, p, c.id, t);
    var joined := Joined(c, m);
    var req := Voted(c, m);
    hide Joined, Collected, Tallied;
    TallyOne(cfg, t, joined.votes, joined.dependencies, k);
    TallySize(cfg, t, req.votes, req.dependencies, k + 1);
  }

  lemma {:induction false} AllVotesPrepare(votes: map<nat, CommitResult>, participants: seq<nat>)
    requires forall p :: p in participants ==> p in votes && votes[p] == PREPARED
    ensures AllPrepared(votes, participants) == (votes, true)
    decreases |participants|
  {
    if participants != [] {
      AllVotesPrepare(votes, participants[1..]);
    }
  }

  /** One more vote is counted, and passed on to the primary coordinator.  The last one makes
      the coordinator tell the leaders that have its index. */
  lemma VoteCounts(cfg: Config, c: Coordinator, t: nat, k: nat)
    requires cfg.Valid() && c.n == cfg.n && k < |cfg.participants(t)| && Collected(cfg, c, t, k)
    ensures
      var p := cfg.participants(t)[k];
      var (c', sends) := Handle(c, Vote(cfg, p, c.id, t));
      && Collected(cfg, c', t, k + 1) && OnlyTxn(c, c', t) && Bypass(cfg, p, c.id, t) in sends
      && (k + 1 == |cfg.participants(t)| ==>
            forall q :: q in cfg.participants(t) && q % cfg.n == c.id ==>
              NotifyDecision(q, c.id, t, PREPARED, 0) in sends)
  {
    VoteJoins(cfg, c, t, k);
    var m := Vote(cfg, cfg.participants(t)[k], c.id, t);
    hide Handle, Voted, Counted, OnlyTxn;
    if k + 1 < |cfg.participants(t)| {
      FewVotes(cfg, c, t, k, m);
    } else {
      LastVote(cfg, c, t, k, m);
    }
  }

  lemma FewVotes(cfg: Config, c: Coordinator, t: nat, k: nat, m: Message)
    requires cfg.Valid() && c.n == cfg.n && k + 1 < |cfg.participants(t)| && t !in c.commitResults
    requires m == Vote(cfg, cfg.participants(t)[k], c.id, t) && |Voted(c, m).votes| == k + 1
    requires Counted(cfg, t, Voted(c, m).(state := PREPARED, reachConsensus := true), k + 1)
    ensures
      var (c', sends) := Handle(c, m);
      Collected(cfg, c', t, k + 1) && OnlyTxn(c, c', t) && Bypass(cfg, m.shard, c.id, t) in sends
  {
    var voted := Voted(c, m);
    assert Counted(cfg, t, voted, k + 1);
    hide Voted, Tallied, NotifyLeaders, AllPrepared, Counted;
    assert ReachConsensus(voted) == (voted.votes, false);
    Co.VoteShape(c, m);
    hide HandleReplyAndVote, ReachConsensus;
    assert Handle(c, m) == (Keep(c, t, voted), [Bypass(cfg, m.shard, c.id, t)]);
    hide Handle;
    KeptOnly(c, t, voted);
  }

  lemma KeptOnly(c: Coordinator, t: nat, req: Pending)
    ensures OnlyTxn(c, Keep(c, t, req), t)
  {
  }

  lemma AllVoted(cfg: Config, t: nat, voted: Pending)
    requires |voted.votes| == |cfg.participants(t)|
    requires Counted(cfg, t, voted.(state := PREPARED, reachConsensus := true), |cfg.participants(t)|)
    ensures ReachConsensus(voted) == (voted.votes, true)
  {
    var parts := cfg.participants(t);
    assert parts[..|parts|] == parts;
    AllVotesPrepare(voted.votes, parts);
  }

  lemma LastVote(cfg: Config, c: Coordinator, t: nat, k: nat, m: Message)
    requires cfg.Valid() && c.n == cfg.n && k + 1 == |cfg.participants(t)| && t !in c.commitResults
    requires m == Vote(cfg, cfg.participants(t)[k], c.id, t) && |Voted(c, m).votes| == k + 1
    requires Counted(cfg, t, Voted(c, m).(state := PREPARED, reachConsensus := true), k + 1)
    ensures
      var (c', sends) := Handle(c, m);
      && Collected(cfg, c', t, k + 1) && OnlyTxn(c, c', t) && Bypass(cfg, m.shard, c.id, t) in sends
      && forall q :: q in cfg.participants(t) && q % cfg.n == c.id ==> NotifyDecision(q, c.id, t, PREPARED, 0) in sends
  {
    var parts := cfg.participants(t);
    var voted := Voted(c, m);
    var req := voted.(state := PREPARED, reachConsensus := true);
    hide Voted, Tallied, HandleReplyAndVote, ReachConsensus, NotifyLeaders, NoDependency;
    AllVoted(cfg, t, voted);
    NotifyReaches(c, t, req, parts);
    Co.VoteShape(c, m);
    assert Handle(c, m) == (Keep(c, t, req), NotifyLeaders(c, t, req, parts) + [Bypass(cfg, m.shard, c.id, t)]);
    hide Handle, Counted;
    KeptOnly(c, t, req);
  }

  lemma {:induction false} NotifyReaches(c: Coordinator, t: nat, req: Pending, participants: seq<nat>)
    requires c.n > 0
    ensures forall p :: p in participants && p % c.n == c.id ==>
              NotifyDecision(p, c.id, t, req.state, req.timestamp) in NotifyLeaders(c, t, req, participants)
    decreases |participants|
  {
    if participants != [] {
      NotifyReaches(c, t, req, participants[1..]);
    }
  }

  /** Any vote for an undecided transaction is passed on, and leaves it known. */
  lemma VotePasses(cfg: Config, c: Coordinator, p: nat, t: nat)
    requires cfg.n > 0 && c.n == cfg.n && t !in c.commitResults
    ensures
      var (c', sends) := Handle(c, Vote(cfg, p, c.id, t));
      && OnlyTxn(c, c', t) && Bypass(cfg, p, c.id, t) in sends
      && (t in c'.pendingCommits || t in c'.commitResults)
  {
    hide ReachConsensus, NoDependency, NotifyLeaders, Voted;
  }

  // ----- Replies -----

  /** All that is missing is replies, or nothing is. */
  ghost predicate Awaits(cfg: Config, c: Coordinator, t: nat) {
    || t in c.commitResults
    || (t in c.pendingCommits
        && c.pendingCommits[t].reachConsensus && NoDependency(c.pendingCommits[t])
        && c.pendingCommits[t].participants == cfg.participants(t)
        && !ReachFaultTolerance(c.pendingCommits[t], c.n))
  }

  ghost predicate HasReply(c: Coordinator, t: nat, p: nat, r: nat) {
    t in c.commitResults || (t in c.pendingCommits && r in RepliesOf(c.pendingCommits[t], p))
  }

  lemma CollectedAwaits(cfg: Config, c: Coordinator, t: nat)
    requires cfg.Valid() && cfg.participants(t) != [] && Collected(cfg, c, t, |cfg.participants(t)|)
    ensures Awaits(cfg, c, t)
  {
    var parts := cfg.participants(t);
    assert parts[..|parts|] == parts;
    ElementsSize(parts);
    Co.MapSize(c.pendingCommits[t].dependencies);
  }

  lemma ReplyCounts(cfg: Config, c: Coordinator, t: nat, p: nat, r: nat)
    requires c.n > 0 && Awaits(cfg, c, t)
    ensures
      var (c', sends) := HandleBypassReply(c, t, p, r);
      && Awaits(cfg, c', t) && OnlyTxn(c, c', t) && HasReply(c', t, p, r) && c'.n == c.n
      && forall q, s: nat :: HasReply(c, t, q, s) ==> HasReply(c', t, q, s)
  {
    hide NoDependency, ReachFaultTolerance;
    if t !in c.commitResults && r !in RepliesOf(c.pendingCommits[t], p) {
      var req := c.pendingCommits[t];
      var added := req.(replicateResults := req.replicateResults[p := RepliesOf(req, p) + [r]]);
      SameDependencies(req, added);
      SameDependencies(req, added.(reachFaultTolerance := true));
      forall q, s: nat | s in RepliesOf(req, q) ensures s in RepliesOf(added, q) {
      }
      assert r in RepliesOf(added, p);
    }
  }

  lemma SameDependencies(a: Pending, b: Pending)
    requires a.dependencies == b.dependencies && a.participants == b.participants
    ensures NoDependency(a) == NoDependency(b)
  {
  }

  /** The replicas of a shard that answer. */
  ghost function Reporting(cfg: Config, p: nat): set<nat> {
    set r | r in Below(cfg.n) && Reports(cfg, p, r)
  }

  /** There are enough of them. */
  lemma EnoughReport(cfg: Config, p: nat)
    requires cfg.Valid() && (cfg.loopback || cfg.n >= 3)
    ensures |Reporting(cfg, p)| >= Majority(cfg.n)
  {
    if cfg.loopback {
      assert Reporting(cfg, p) == Below(cfg.n);
    } else {
      assert Reporting(cfg, p) == Below(cfg.n) - {cfg.leader(p)};
    }
  }

  /** With the replies of all of them the transaction is decided. */
  lemma AllRepliesDecide(cfg: Config, f: Facts, c: Coordinator, t: nat)
    requires cfg.Valid() && CoordinatorOk(cfg, f, c) && c.n == cfg.n && Awaits(cfg, c, t)
    requires cfg.participants(t) != [] && (cfg.loopback || cfg.n >= 3)
    requires forall p, r :: p in cfg.participants(t) && r in Reporting(cfg, p) ==> HasReply(c, t, p, r)
    ensures t in c.commitResults
  {
    if t !in c.commitResults {
      var req := c.pendingCommits[t];
      assert PendingOk(cfg, f, c.id, t, req);
      RepliesSuffice(cfg, f, req, t);
    }
  }

  lemma RepliesSuffice(cfg: Config, f: Facts, req: Pending, t: nat)
    requires cfg.Valid() && ResultsOk(cfg, f, t, req.replicateResults) && req.participants == cfg.participants(t)
    requires cfg.participants(t) != [] && (cfg.loopback || cfg.n >= 3)
    requires forall p, r :: p in cfg.participants(t) && r in Reporting(cfg, p) ==> r in RepliesOf(req, p)
    ensures ReachFaultTolerance(req, cfg.n)
  {
    var parts := cfg.participants(t);
    forall p | p in parts ensures p in req.replicateResults && |req.replicateResults[p]| >= Majority(cfg.n) {
      EnoughReport(cfg, p);
      var list := RepliesOf(req, p);
      assert Reporting(cfg, p) <= Elements(list);
      SubsetSize(Reporting(cfg, p), Elements(list));
      ElementsAtMost(list);
      assert |list| > 0;
    }
    assert req.replicateResults.Keys == Elements(parts);
    ElementsSize(parts);
    Co.MapSize(req.replicateResults);
  }
}
