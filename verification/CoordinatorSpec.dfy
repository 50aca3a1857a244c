/** The coordinator of replication/commit/coordinator.cc: what each message does to its
    state, and what it sends. */
module CoordinatorSpec {
  import opened CommitMessages

  /** struct PendingCommit.  A shard's replicate results are the replicas they came from. */
  datatype Pending = Pending(
    participants: seq<nat>,
    votes: map<nat, CommitResult>,
    dependencies: map<nat, bool>,
    replicateResults: map<nat, seq<nat>>,
    decisionReplies: set<nat>,
    primaryShard: nat,
    primaryCoordinator: nat,
    timestamp: nat,
    state: CommitResult,
    reachConsensus: bool,
    reachFaultTolerance: bool)

  datatype CommitState = CommitState(state: CommitResult, faultTolerant: bool)

  /** `unset` is what the fields that PendingCommit's constructor leaves alone happen to
      hold. */
  datatype Coordinator = Coordinator(
    id: nat,
    n: nat,
    unset: nat,
    pendingCommits: map<nat, Pending>,
    commitResults: map<nat, CommitState>)

  function Majority(n: nat): nat {
    n / 2 + 1
  }

  function NewPending(c: Coordinator): Pending {
    Pending([], map[], map[], map[], {}, c.unset, c.unset, 0, COMMIT, false, false)
  }

  /** The loop of ReachConsensus over the participants: a missing vote is inserted as
      COMMIT, the enumeration's zero, and refuses. */
  function AllPrepared(votes: map<nat, CommitResult>, participants: seq<nat>): (map<nat, CommitResult>, bool)
    decreases |participants|
  {
    if participants == [] then (votes, true)
    else
      var p := participants[0];
      if p !in votes then (votes[p := COMMIT], false)
      else if votes[p] != PREPARED then (votes, false)
      else AllPrepared(votes, participants[1..])
  }

  function ReachConsensus(req: Pending): (map<nat, CommitResult>, bool) {
    if |req.votes| != |req.participants| then (req.votes, false)
    else AllPrepared(req.votes, req.participants)
  }

  predicate NoDependency(req: Pending) {
    && |req.dependencies| == |req.participants|
    && forall p :: p in req.participants && p in req.dependencies ==> !req.dependencies[p]
  }

  predicate ReachFaultTolerance(req: Pending, n: nat) {
    && |req.participants| > 0
    && |req.replicateResults| == |req.participants|
    && forall p :: p in req.replicateResults ==> |req.replicateResults[p]| >= Majority(n)
  }

  /** NotifyCommitDecision: the pre-commit decision goes to the participants whose leader has
      this coordinator's index. */
  function NotifyLeaders(c: Coordinator, tid: nat, req: Pending, participants: seq<nat>): seq<Message>
    requires c.n > 0
    decreases |participants|
  {
    if participants == [] then []
    else
      var rest := NotifyLeaders(c, tid, req, participants[1..]);
      if participants[0] % c.n == c.id
      then [NotifyDecision(participants[0], c.id, tid, req.state, req.timestamp)] + rest
      else rest
  }

  /** NotifyReplicateResult: the commit decision, to the primary leader and to every other
      coordinator. */
  function AnnounceCommit(c: Coordinator, tid: nat, req: Pending): seq<Message> {
    [NotifyReplicateResult(req.primaryShard, c.id, tid, req.timestamp),
     ReplicateDecision(tid, req.state, req.timestamp)]
  }

  /** A commit decision is recorded, announced, and the transaction is no longer pending. */
  function Decide(c: Coordinator, tid: nat, req: Pending, state: CommitResult): (Coordinator, seq<Message>) {
    (c.(commitResults := c.commitResults[tid := CommitState(state, true)],
        pendingCommits := c.pendingCommits - {tid}),
     AnnounceCommit(c, tid, req))
  }

  function Keep(c: Coordinator, tid: nat, req: Pending): Coordinator {
    c.(pendingCommits := c.pendingCommits[tid := req])
  }

  // ----- HandleReplicateReplyAndVote -----

  /** The pending commit a vote goes to. */
  function Joined(c: Coordinator, m: Message): Pending
    requires m.ReplyAndVote?
  {
    if m.tid !in c.pendingCommits then
      NewPending(c).(primaryShard := m.primaryShard, primaryCoordinator := m.primaryCoordinator,
                     participants := m.participants, timestamp := m.timestamp)
    else
      var req := c.pendingCommits[m.tid];
      req.(participants := if |req.participants| == 0 then m.participants else req.participants,
           primaryShard := m.primaryShard,
           primaryCoordinator := c.id,
           timestamp := if m.timestamp > req.timestamp then m.timestamp else req.timestamp)
  }

  /** The pending commit with the vote and the dependency flag recorded. */
  function Voted(c: Coordinator, m: Message): Pending
    requires m.ReplyAndVote?
  {
    var req := Joined(c, m);
    req.(votes := req.votes[m.shard := m.vote], dependencies := req.dependencies[m.shard := m.hasPreCommit])
  }

  /** What a PREPARED vote does, before the reply is passed on. */
  function CountVote(c: Coordinator, m: Message): (Coordinator, seq<Message>)
    requires m.ReplyAndVote? && c.n > 0
  {
    var voted := Voted(c, m);
    var (votes, agreed) := ReachConsensus(voted);
    if !agreed then (Keep(c, m.tid, voted.(votes := votes)), [])
    else
      var req := voted.(votes := votes, state := PREPARED, reachConsensus := true);
      var notify := NotifyLeaders(c, m.tid, req, req.participants);
      if req.primaryCoordinator == c.id && req.reachFaultTolerance && NoDependency(req) then
        var (c', sends) := Decide(c, m.tid, req, req.state);
        (c', notify + sends)
      else (Keep(c, m.tid, req), notify)
  }

  function RefuseVote(c: Coordinator, m: Message): (Coordinator, seq<Message>)
    requires m.ReplyAndVote? && c.n > 0
  {
    var req := Joined(c, m).(state := ABORT, reachConsensus := true);
    (c.(commitResults := c.commitResults[m.tid := CommitState(ABORT, false)],
        pendingCommits := c.pendingCommits - {m.tid}),
     NotifyLeaders(c, m.tid, req, req.participants))
  }

  function HandleReplyAndVote(c: Coordinator, m: Message): (Coordinator, seq<Message>)
    requires m.ReplyAndVote? && c.n > 0
  {
    if m.tid in c.commitResults then (c, [])
    else if m.vote != PREPARED then RefuseVote(c, m)
    else
      var (c', sends) := CountVote(c, m);
      (c', sends + [BypassReply(m.primaryCoordinator, m.tid, m.shard, m.replica)])
  }

  // ----- HandleBypassLeaderReply and its union form -----

  function PendingFor(c: Coordinator, tid: nat): Pending {
    if tid in c.pendingCommits then c.pendingCommits[tid] else NewPending(c)
  }

  function RepliesOf(req: Pending, shard: nat): seq<nat> {
    if shard in req.replicateResults then req.replicateResults[shard] else []
  }

  /** A replica's first reply for a shard; true if it completes the commit. */
  function AddReply(c: Coordinator, req: Pending, shard: nat, replica: nat): (Pending, bool) {
    var added := req.(replicateResults := req.replicateResults[shard := RepliesOf(req, shard) + [replica]]);
    if ReachFaultTolerance(added, c.n) then
      var reached := added.(reachFaultTolerance := true);
      (reached, reached.reachConsensus && NoDependency(reached))
    else (added, false)
  }

  function HandleBypassReply(c: Coordinator, tid: nat, shard: nat, replica: nat): (Coordinator, seq<Message>) {
    if tid in c.commitResults then (c, [])
    else
      var req := PendingFor(c, tid);
      if replica in RepliesOf(req, shard) then (Keep(c, tid, req), [])
      else
        var (added, commit) := AddReply(c, req, shard, replica);
        if commit then Decide(c, tid, added, COMMIT) else (Keep(c, tid, added), [])
  }

  /** The loop over the shards of a union.  `received` is never reset, so after one shard
      whose reply is known the remaining ones are only touched: looking a shard up creates
      its empty list. */
  function AddReplies(c: Coordinator, req: Pending, shards: seq<nat>, replica: nat, received: bool): (Pending, bool)
    decreases |shards|
  {
    if shards == [] then (req, false)
    else
      var known := RepliesOf(req, shards[0]);
      var touched := req.(replicateResults := req.replicateResults[shards[0] := known]);
      if received || replica in known then AddReplies(c, touched, shards[1..], replica, true)
      else
        var (added, commit) := AddReply(c, req, shards[0], replica);
        if commit then (added, true) else AddReplies(c, added, shards[1..], replica, false)
  }

  function HandleBypassReplyUnion(c: Coordinator, tid: nat, shards: seq<nat>, replica: nat): (Coordinator,
                                  seq<Message>) {
    if tid in c.commitResults then (c, [])
    else
      var (req, commit) := AddReplies(c, PendingFor(c, tid), shards, replica, false);
      if commit then Decide(c, tid, req, COMMIT) else (Keep(c, tid, req), [])
  }

  // ----- HandleNotifyDependenciesAreCleared, HandleReplicateDecision, HandleReplyDecision -----

  function HandleDependenciesCleared(c: Coordinator, tid: nat, shard: nat): (Coordinator, seq<Message>) {
    if tid !in c.pendingCommits then (c, [])
    else
      var was := c.pendingCommits[tid];
      var req := was.(dependencies := was.dependencies[shard := false]);
      if NoDependency(req) && req.reachConsensus && req.reachFaultTolerance
      then Decide(c, tid, req, req.state)
      else (Keep(c, tid, req), [])
  }

  /** Whatever is not COMMIT is filed as ABORT; the transaction stays pending at its own
      primary coordinator. */
  function HandleReplicateDecision(c: Coordinator, tid: nat, state: CommitResult): (Coordinator, seq<Message>)
    requires c.n > 0
  {
    if tid !in c.pendingCommits then (c, [])
    else
      var req := c.pendingCommits[tid].(state := state);
      var primary := req.primaryShard % c.n;
      var filed := CommitState(if state == COMMIT then COMMIT else ABORT, false);
      (c.(commitResults := c.commitResults[tid := filed],
          pendingCommits := if primary != c.id then c.pendingCommits - {tid} else c.pendingCommits[tid := req]),
       [ReplyDecision(primary, tid, c.id, req.timestamp)])
  }

  function HandleReplyDecision(c: Coordinator, tid: nat, coordinator: nat): Coordinator {
    if tid !in c.pendingCommits then c
    else
      var req := c.pendingCommits[tid];
      if coordinator in req.decisionReplies then c
      else
        var replies := req.decisionReplies + {coordinator};
        if |replies| >= Majority(c.n) then c.(pendingCommits := c.pendingCommits - {tid})
        else Keep(c, tid, req.(decisionReplies := replies))
  }

  /** HandleMessage, for the messages of the parallel protocol. */
  function Handle(c: Coordinator, m: Message): (Coordinator, seq<Message>)
    requires c.n > 0
  {
    match m
    case ReplyAndVote(_, _, _, _, _, _, _, _, _, _) => HandleReplyAndVote(c, m)
    case BypassReply(_, tid, shard, replica) => HandleBypassReply(c, tid, shard, replica)
    case BypassReplyUnion(_, tid, shards, replica) => HandleBypassReplyUnion(c, tid, shards, replica)
    case DependenciesCleared(_, tid, shard) => HandleDependenciesCleared(c, tid, shard)
    case ReplicateDecision(tid, state, _) => HandleReplicateDecision(c, tid, state)
    case ReplyDecision(_, tid, coordinator, _) => (HandleReplyDecision(c, tid, coordinator), [])
    case _ => (c, [])
  }
}
