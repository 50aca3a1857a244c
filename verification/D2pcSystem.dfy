/** Runs of the parallel commit protocol: shards of replicas with a fixed leader each, one
    coordinator beside every replica index, and a network that never forgets a message, so
    that messages may be lost, duplicated and reordered. */
module D2pcSystem {
  import opened CommitMessages
  import opened Counting
  import C = CoordinatorSpec
  import R = LrReplicaSpec

  datatype Node = Node(shard: nat, replica: nat)

  /** `n` replicas per shard, of which `f` may fail, and `n` coordinators.  Every message of a
      transaction names the same participants and the same primary shard.  `loopback` tells
      whether what a leader sends to all replicas reaches itself: a transport that knows its own
      address skips it. */
  datatype Config = Config(n: nat, f: nat, shards: nat, leader: nat -> nat,
                           participants: nat -> seq<nat>, primary: nat -> nat, loopback: bool)
  {
    ghost predicate Valid() {
      && n > 0
      && (forall s :: leader(s) < n)
      && (forall t :: Distinct(participants(t)) && forall p :: p in participants(t) ==> p < shards)
    }

    function PrimaryCoordinator(tid: nat): nat
      requires n > 0
    {
      primary(tid) % n
    }
  }

  /** What has happened so far; no code reads it.
      `validated`: (shard, txn) that passed concurrency control at the leader;
      `handled`: (shard, txn) whose prepare request a leader has taken up;
      `stored`: (shard, replica, txn) for each replica that has reported the transaction logged;
      `free`: (shard, txn) that a leader has replicated as free of dependencies;
      `noticed`: (shard, coordinator, txn) for each notice, and its addressee, that dependencies
      are cleared;
      `applied`: (shard, txn) committed by a leader, in order;
      `dependsOn`: (shard, reader, writer) for each read of a pre-committed write;
      `announced`: (coordinator, txn) for each announced commit decision, in order. */
  datatype Facts = Facts(
    validated: set<(nat, nat)>,
    handled: set<(nat, nat)>,
    stored: set<(nat, nat, nat)>,
    free: set<(nat, nat)>,
    noticed: set<(nat, nat, nat)>,
    applied: seq<(nat, nat)>,
    dependsOn: set<(nat, nat, nat)>,
    announced: seq<(nat, nat)>)

  datatype System = System(
    replicas: map<Node, R.Replica>,
    coordinators: map<nat, C.Coordinator>,
    net: set<Message>,
    facts: Facts)

  ghost predicate Shaped(cfg: Config, sys: System) {
    && cfg.Valid()
    && (forall x :: x in sys.replicas <==> x.shard < cfg.shards && x.replica < cfg.n)
    && (forall x :: x in sys.replicas ==>
          && sys.replicas[x].shard == x.shard && sys.replicas[x].id == x.replica
          && sys.replicas[x].n == cfg.n && sys.replicas[x].f == cfg.f)
    && (forall c: nat :: c in sys.coordinators <==> c < cfg.n)
    && (forall c :: c in sys.coordinators ==> sys.coordinators[c].id == c && sys.coordinators[c].n == cfg.n)
  }

  function FreshReplica(cfg: Config, x: Node): R.Replica {
    R.Replica(x.shard, x.replica, cfg.n, cfg.f, map[], 0, {}, map[], map[], {}, map[], {})
  }

  ghost predicate Initial(cfg: Config, sys: System) {
    && Shaped(cfg, sys)
    && (forall x :: x in sys.replicas ==> sys.replicas[x] == FreshReplica(cfg, x))
    && (forall c :: c in sys.coordinators ==>
          sys.coordinators[c].pendingCommits == map[] && sys.coordinators[c].commitResults == map[])
    && sys.net == {}
    && sys.facts == Facts({}, {}, {}, {}, {}, [], {}, [])
  }

  datatype Event =
      /** A client's prepare request reaches a leader, whose store accepts it or not. */
    | Prepare(shard: nat, tid: nat, writes: map<string, string>, passes: bool)
      /** A client's read reaches a leader; the store reports a dependency per key, or 0. */
    | Read(shard: nat, tid: nat, dependencies: seq<nat>)
      /** The retransmission timer of a leader. */
    | Timeout(shard: nat, tid: nat)
      /** A message reaches replica `at` of its shard. */
    | ToReplica(m: Message, at: nat)
      /** A message reaches coordinator `at`. */
    | ToCoordinator(m: Message, at: nat)
      /** The client, told of the decision by the primary leader, passes it to a leader. */
    | ClientCommit(shard: nat, tid: nat, timestamp: nat)

  ghost predicate Enabled(cfg: Config, sys: System, e: Event) {
    match e
    case Prepare(s, tid, _, _) => s in cfg.participants(tid)
    case Read(s, tid, dependencies) =>
      && s in cfg.participants(tid)
      && Leader(cfg, s) in sys.replicas
      && forall d :: d in dependencies ==> d == 0 || d in sys.replicas[Leader(cfg, s)].precommitted
    case Timeout(s, _) => s < cfg.shards
    case ToReplica(m, at) => m in sys.net && at < cfg.n && ForReplica(cfg, m, at)
    case ToCoordinator(m, at) => m in sys.net && at < cfg.n && ForCoordinator(m, at)
    case ClientCommit(s, tid, timestamp) =>
      s < cfg.shards && exists p, c :: NotifyReplicateResult(p, c, tid, timestamp) in sys.net
  }

  function Leader(cfg: Config, s: nat): Node {
    Node(s, cfg.leader(s))
  }

  /** Replication goes to the followers, and to the leader itself if the transport loops it
      back; everything else to the leader.  A decision addressed to a replica that does not
      lead reaches no one, and a leader ignores its own commit. */
  predicate ForReplica(cfg: Config, m: Message, at: nat) {
    match m
    case ReplicateTxn(s, _, _, _, _, _) => s < cfg.shards && (cfg.loopback || at != cfg.leader(s))
    case ReplicateCommit(s, _, _, _) => s < cfg.shards && at != cfg.leader(s)
    case ReplicateReply(s, _, _, _) => s < cfg.shards && at == cfg.leader(s)
    case NotifyDecision(s, r, _, _, _) => s < cfg.shards && at == r == cfg.leader(s)
    case NotifyReplicateResult(s, r, _, _) => s < cfg.shards && at == r == cfg.leader(s)
    case _ => false
  }

  predicate ForCoordinator(m: Message, at: nat) {
    match m
    case ReplyAndVote(to, _, _, _, _, _, _, _, _, _) => at == to
    case BypassReply(to, _, _, _) => at == to
    case BypassReplyUnion(to, _, _, _) => at == to
    case DependenciesCleared(to, _, _) => at == to
    case ReplicateDecision(_, _, _) => true
    case ReplyDecision(to, _, _, _) => at == to
    case _ => false
  }

  // ----- Steps -----

  function HandleAtReplica(r: R.Replica, m: Message): (R.Replica, seq<Message>)
    requires r.n > 0
  {
    match m
    case ReplicateTxn(_, _, _, _, _, _) => R.HandleReplicate(r, m)
    case ReplicateReply(_, _, tid, replica) => (R.HandleReplicateReply(r, tid, replica), [])
    case NotifyDecision(_, _, tid, state, _) =>
      (if state == PREPARED then R.HandleDecision(r, tid) else r, [])
    case NotifyReplicateResult(_, _, tid, timestamp) => R.HandleCommit(r, tid, timestamp)
    case ReplicateCommit(_, _, tid, _) => (R.HandleReplicateCommit(r, tid), [])
    case _ => (r, [])
  }

  function ToSet(s: seq<Message>): set<Message> {
    set m | m in s
  }

  /** The transactions that messages of a leader replicate as free of dependencies. */
  function Freed(s: nat, sends: seq<Message>): set<(nat, nat)> {
    set m | m in sends && m.ReplicateTxn? && !m.hasPreCommit :: (s, m.entry.txn)
  }

  /** The notices among messages of a leader. */
  function Notices(s: nat, sends: seq<Message>): set<(nat, nat, nat)> {
    set m | m in sends && m.DependenciesCleared? :: (s, m.to, m.tid)
  }

  /** The log entries that messages of a replica bear witness to. */
  function Deposits(s: nat, r: nat, sends: seq<Message>): set<(nat, nat, nat)> {
    set m | m in sends && m.ReplyAndVote? :: (s, r, m.tid)
  }

  function Announcements(c: nat, sends: seq<Message>): seq<(nat, nat)> {
    if sends == [] then []
    else (if sends[0].NotifyReplicateResult? then [(c, sends[0].tid)] else []) + Announcements(c, sends[1..])
  }

  function Commits(r: R.Replica, tid: nat): bool {
    tid in r.pendingTxns && tid in r.activeTxns
  }

  /** A step of a replica: its new state, what it sends, and what has happened. */
  function AtReplica(sys: System, x: Node, out: (R.Replica, seq<Message>), facts: Facts): System {
    System(sys.replicas[x := out.0], sys.coordinators, sys.net + ToSet(out.1),
           facts.(free := facts.free + Freed(x.shard, out.1),
                  noticed := facts.noticed + Notices(x.shard, out.1),
                  stored := facts.stored + Deposits(x.shard, x.replica, out.1)))
  }

  function AtCoordinator(sys: System, c: nat, out: (C.Coordinator, seq<Message>)): System {
    System(sys.replicas, sys.coordinators[c := out.0], sys.net + ToSet(out.1),
           sys.facts.(announced := sys.facts.announced + Announcements(c, out.1)))
  }

  /** The node at which an event happens, for the events of replicas. */
  function Where(cfg: Config, e: Event): Node
    requires e.ToReplica? ==> ForReplica(cfg, e.m, e.at)
  {
    match e
    case ToReplica(m, at) => Node(m.shard, at)
    case ToCoordinator(_, at) => Node(0, at)
    case _ => Leader(cfg, e.shard)
  }

  /** What a replica does on an event. */
  function React(cfg: Config, r: R.Replica, e: Event): (R.Replica, seq<Message>)
    requires r.n > 0
  {
    match e
    case Prepare(s, tid, writes, passes) =>
      R.HandlePrepare(r, tid, writes, cfg.participants(tid), cfg.primary(tid), passes)
    case Read(s, tid, dependencies) => (R.HandleRead(r, tid, dependencies), [])
    case Timeout(s, tid) => (r, R.Resend(r, tid))
    case ToReplica(m, at) => HandleAtReplica(r, m)
    case ToCoordinator(_, _) => (r, [])
    case ClientCommit(s, tid, timestamp) => R.HandleCommit(r, tid, timestamp)
  }

  /** What has happened after an event at replica `r`, before what it sends is counted in. */
  function Record(f: Facts, r: R.Replica, e: Event): Facts {
    match e
    case Prepare(s, tid, _, passes) =>
      f.(handled := f.handled + {(s, tid)},
         validated := if passes && !R.AlreadyKnown(r, tid) then f.validated + {(s, tid)} else f.validated)
    case Read(s, tid, dependencies) =>
      f.(dependsOn := f.dependsOn + set d | d in dependencies && d != 0 :: (s, tid, d))
    case ToReplica(m, at) =>
      if m.NotifyReplicateResult? && Commits(r, m.tid)
      then f.(applied := f.applied + [(m.shard, m.tid)]) else f
    case ClientCommit(s, tid, _) =>
      if Commits(r, tid) then f.(applied := f.applied + [(s, tid)]) else f
    case _ => f
  }

  function Apply(cfg: Config, sys: System, e: Event): System
    requires Shaped(cfg, sys)
    requires Enabled(cfg, sys, e)
  {
    if e.ToCoordinator? then AtCoordinator(sys, e.at, C.Handle(sys.coordinators[e.at], e.m))
    else
      var x := Where(cfg, e);
      var r := sys.replicas[x];
      AtReplica(sys, x, React(cfg, r, e), Record(sys.facts, r, e))
  }

  // Handlers stay who they are.

  ghost predicate SameNode(r: R.Replica, r': R.Replica) {
    r'.shard == r.shard && r'.id == r.id && r'.n == r.n && r'.f == r.f
  }

  lemma ReplicaStays(cfg: Config, r: R.Replica, e: Event)
    requires r.n > 0
    ensures SameNode(r, React(cfg, r, e).0)
  {
  }

  lemma CoordinatorStays(c: C.Coordinator, m: Message)
    requires c.n > 0
    ensures C.Handle(c, m).0.id == c.id && C.Handle(c, m).0.n == c.n
  {
    hide C.ReachConsensus, C.NoDependency, C.ReachFaultTolerance, C.AddReplies, C.NotifyLeaders;
  }

  lemma ReplacedReplica(cfg: Config, sys: System, x: Node, out: (R.Replica, seq<Message>), facts: Facts)
    requires Shaped(cfg, sys) && x in sys.replicas && SameNode(sys.replicas[x], out.0)
    ensures Shaped(cfg, AtReplica(sys, x, out, facts))
  {
  }

  lemma ReplacedCoordinator(cfg: Config, sys: System, c: nat, out: (C.Coordinator, seq<Message>))
    requires Shaped(cfg, sys) && c in sys.coordinators
    requires out.0.id == sys.coordinators[c].id && out.0.n == sys.coordinators[c].n
    ensures Shaped(cfg, AtCoordinator(sys, c, out))
  {
  }

  lemma ApplyShaped(cfg: Config, sys: System, e: Event)
    requires Shaped(cfg, sys) && Enabled(cfg, sys, e)
    ensures Shaped(cfg, Apply(cfg, sys, e))
  {
    if e.ToCoordinator? {
      CoordinatorStays(sys.coordinators[e.at], e.m);
      hide C.Handle;
      ReplacedCoordinator(cfg, sys, e.at, C.Handle(sys.coordinators[e.at], e.m));
    } else {
      var x := Where(cfg, e);
      var r := sys.replicas[x];
      ReplicaStays(cfg, r, e);
      hide React, AtReplica, Record;
      ReplacedReplica(cfg, sys, x, React(cfg, r, e), Record(sys.facts, r, e));
    }
  }

  /** A step, or nothing if the event cannot happen. */
  ghost function Step(cfg: Config, sys: System, e: Event): System
    requires Shaped(cfg, sys)
    ensures Shaped(cfg, Step(cfg, sys, e))
  {
    if Enabled(cfg, sys, e) then (ApplyShaped(cfg, sys, e); Apply(cfg, sys, e)) else sys
  }

  /** Any number of steps. */
  ghost function Run(cfg: Config, sys: System, events: seq<Event>): System
    requires Shaped(cfg, sys)
    ensures Shaped(cfg, Run(cfg, sys, events))
    decreases |events|
  {
    if events == [] then sys else Run(cfg, Step(cfg, sys, events[0]), events[1..])
  }
}
