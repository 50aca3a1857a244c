/** How a transaction is carried to its commit: from any orderly state in which it is new, step
    by step, with any number of replicas and participants. */
module D2pcRuns {
  import opened CommitMessages
  import opened Counting
  import opened D2pcSystem
  import opened D2pcInvariant
  import opened Recoverability
  import opened CoordinatorProgress
  import C = CoordinatorSpec
  import R = LrReplicaSpec
  import Re = D2pcReplica
  import D = Dependencies
  import Th = D2pcTheorems

  // ----- One more event -----

  lemma {:induction false} RunOneMore(cfg: Config, sys: System, events: seq<Event>, e: Event)
    requires Shaped(cfg, sys)
    ensures Run(cfg, sys, events + [e]) == Step(cfg, Run(cfg, sys, events), e)
    ensures OrderlyRun(cfg, sys, events) && Orderly(Run(cfg, sys, events), e) ==> OrderlyRun(cfg, sys, events + [e])
    decreases |events|
  {
    hide Step;
    if events == [] {
      assert events + [e] == [e] && [e][1..] == [];
      RunNothing(cfg, Step(cfg, sys, e));
    } else {
      assert (events + [e])[1..] == events[1..] + [e];
      RunOneMore(cfg, Step(cfg, sys, events[0]), events[1..], e);
    }
  }

  lemma RunNothing(cfg: Config, sys: System)
    requires Shaped(cfg, sys)
    ensures Run(cfg, sys, []) == sys && OrderlyRun(cfg, sys, [])
  {
  }

  lemma OrderlyStep(cfg: Config, sys: System, e: Event)
    requires OrderlyReachable(cfg, sys) && Shaped(cfg, sys) && Orderly(sys, e)
    ensures OrderlyReachable(cfg, Step(cfg, sys, e))
  {
    hide Run, OrderlyRun, Step;
    var first, events :| Initial(cfg, first) && OrderlyRun(cfg, first, events) && sys == Run(cfg, first, events);
    RunOneMore(cfg, first, events, e);
    assert OrderlyRun(cfg, first, events + [e]);
  }

  lemma ReachableStep(cfg: Config, sys: System, e: Event)
    requires Th.Reachable(cfg, sys) && Shaped(cfg, sys)
    ensures Th.Reachable(cfg, Step(cfg, sys, e))
  {
    hide Run, OrderlyRun, Step;
    var first, events :| Initial(cfg, first) && sys == Run(cfg, first, events);
    RunOneMore(cfg, first, events, e);
    assert Run(cfg, first, events + [e]) == Step(cfg, sys, e);
  }

  lemma OrderlyIsReachable(cfg: Config, sys: System)
    requires OrderlyReachable(cfg, sys)
    ensures Th.Reachable(cfg, sys)
  {
    var first, events :| Initial(cfg, first) && OrderlyRun(cfg, first, events) && sys == Run(cfg, first, events);
  }

  // ----- The beginning -----

  ghost function Nodes(cfg: Config): set<Node> {
    set s, r | 0 <= s < cfg.shards && 0 <= r < cfg.n :: Node(s, r)
  }

  ghost function InitialSystem(cfg: Config): System {
    System(map x | x in Nodes(cfg) :: FreshReplica(cfg, x),
           map c: nat | c in Below(cfg.n) :: C.Coordinator(c, cfg.n, 0, map[], map[]),
           {}, Facts({}, {}, {}, {}, {}, [], {}, []))
  }

  lemma InitialExists(cfg: Config)
    requires cfg.Valid()
    ensures Initial(cfg, InitialSystem(cfg)) && OrderlyReachable(cfg, InitialSystem(cfg))
  {
    var sys := InitialSystem(cfg);
    assert Initial(cfg, sys);
    RunNothing(cfg, sys);
  }

  // ----- What a phase leaves alone -----

  /** Coordinator `c` has not heard of the transaction. */
  ghost predicate NewTo(sys: System, c: nat, t: nat) {
    c in sys.coordinators && t !in sys.coordinators[c].pendingCommits && t !in sys.coordinators[c].commitResults
  }

  /** Shard `s` has not heard of the transaction. */
  ghost predicate NewAt(f: Facts, s: nat, t: nat) {
    (s, t) !in f.handled && forall d :: (s, t, d) !in f.dependsOn
  }

  ghost predicate Fresh(cfg: Config, sys: System, t: nat) {
    (forall p :: p in cfg.participants(t) ==> NewAt(sys.facts, p, t))
    && (forall c: nat :: c < cfg.n ==> NewTo(sys, c, t))
  }

  ghost predicate SameRecords(f: Facts, g: Facts, t: nat) {
    && g.applied == f.applied && g.dependsOn == f.dependsOn && g.noticed == f.noticed
    && (forall s, u :: u != t ==>
          && ((s, u) in g.handled <==> (s, u) in f.handled)
          && ((s, u) in g.validated <==> (s, u) in f.validated)
          && ((s, u) in g.free <==> (s, u) in f.free))
  }

  /** From `sys` to `next` only transaction `t` has moved on. */
  ghost predicate Apart(sys: System, next: System, t: nat) {
    && sys.net <= next.net
    && SameRecords(sys.facts, next.facts, t)
    && (forall c, u :: u != t && NewTo(sys, c, u) ==> NewTo(next, c, u))
  }

  ghost predicate SameLeaders(cfg: Config, sys: System, next: System) {
    forall s: nat :: s < cfg.shards ==>
      && Leader(cfg, s) in sys.replicas && Leader(cfg, s) in next.replicas
      && next.replicas[Leader(cfg, s)] == sys.replicas[Leader(cfg, s)]
  }

  /** An orderly way from `sys` to `next`. */
  ghost predicate Onward(cfg: Config, sys: System, next: System, t: nat) {
    OrderlyReachable(cfg, next) && Apart(sys, next, t)
  }

  lemma OnwardTwice(cfg: Config, a: System, b: System, c: System, t: nat)
    requires Onward(cfg, a, b, t) && Onward(cfg, b, c, t)
    ensures Onward(cfg, a, c, t)
  {
    hide NewTo, OrderlyReachable;
  }

  lemma OnwardStays(cfg: Config, a: System, t: nat)
    requires OrderlyReachable(cfg, a)
    ensures Onward(cfg, a, a, t)
  {
  }

  // ----- Prepare -----

  /** The replication request of a transaction that depends on nothing is out. */
  ghost predicate Requested(cfg: Config, net: set<Message>, p: nat, t: nat)
    requires cfg.n > 0
  {
    exists e: Entry :: e.txn == t &&
      ReplicateTxn(p, e, cfg.PrimaryCoordinator(t), cfg.primary(t), cfg.participants(t), false) in net
  }

  lemma NewWaitsForNothing(cfg: Config, f: Facts, s: nat, r: R.Replica, t: nat)
    requires cfg.n > 0 && D.DepOk(cfg, f, s, r) && NewAt(f, s, t)
    ensures R.Waiting(r, t) == 0 && !R.AlreadyKnown(r, t) && t !in r.pendingTxns && t !in r.activeTxns
  {
    if D.Occurrences(r.activeTxns, t) > 0 {
      D.OccursWhere(r.activeTxns, t);
    }
  }

  /** What a prepare request does to a leader that has not heard of the transaction. */
  lemma PrepareReacts(cfg: Config, r: R.Replica, s: nat, t: nat)
    requires cfg.n > 0 && r.n == cfg.n && r.shard == s && R.Waiting(r, t) == 0
    requires !R.AlreadyKnown(r, t) && t !in r.pendingTxns
    ensures
      var out := React(cfg, r, Prepare(s, t, map[], true));
      var entry := Entry(r.last, t, map[]);
      && out.1 == [ReplicateTxn(s, entry, cfg.PrimaryCoordinator(t), cfg.primary(t), cfg.participants(t), false)]
      && out.0.log == r.log[r.last := entry] && out.0.last == r.last + 1
  {
  }

  /** The leader of shard `s` has logged the transaction at its next position. */
  ghost predicate LogsNext(cfg: Config, sys: System, next: System, s: nat, t: nat) {
    && Leader(cfg, s) in sys.replicas && Leader(cfg, s) in next.replicas
    && var r, r' := sys.replicas[Leader(cfg, s)], next.replicas[Leader(cfg, s)];
       r'.last == r.last + 1 && r'.log == r.log[r.last := Entry(r.last, t, map[])]
  }

  lemma PrepareOne(cfg: Config, sys: System, p: nat, t: nat) returns (next: System)
    requires OrderlyReachable(cfg, sys) && p in cfg.participants(t) && NewAt(sys.facts, p, t)
    ensures cfg.n > 0 && Onward(cfg, sys, next, t) && Requested(cfg, next.net, p, t)
    ensures next.coordinators == sys.coordinators && LogsNext(cfg, sys, next, p, t)
    ensures next.facts == sys.facts.(handled := sys.facts.handled + {(p, t)},
                                     validated := sys.facts.validated + {(p, t)}, free := sys.facts.free + {(p, t)})
    ensures forall x :: x != Leader(cfg, p) && x in sys.replicas ==>
              x in next.replicas && next.replicas[x] == sys.replicas[x]
  {
    hide OrderlyReachable, Shaped, Inv, DepInv, D.DepOk, Step, Requested, LogsNext;
    OrderlyShape(cfg, sys);
    LeaderBooks(cfg, sys, p);
    NewWaitsForNothing(cfg, sys.facts, p, sys.replicas[Leader(cfg, p)], t);
    var e := Prepare(p, t, map[], true);
    next := Step(cfg, sys, e);
    OrderlyStep(cfg, sys, e);
    PrepareStep(cfg, sys, p, t);
    assert SameRecords(sys.facts, next.facts, t);
  }

  lemma OrderlyShape(cfg: Config, sys: System)
    requires OrderlyReachable(cfg, sys)
    ensures Shaped(cfg, sys) && cfg.Valid() && cfg.n > 0
    ensures forall t, p :: p in cfg.participants(t) ==> p < cfg.shards
  {
    OrderlyInv(cfg, sys);
    hide OrderlyReachable;
  }

  lemma LeaderBooks(cfg: Config, sys: System, s: nat)
    requires OrderlyReachable(cfg, sys) && s < cfg.shards
    ensures cfg.n > 0 && Leader(cfg, s) in sys.replicas
    ensures
      var r := sys.replicas[Leader(cfg, s)];
      r.n == cfg.n && r.shard == s && D.DepOk(cfg, sys.facts, s, r) && LeaderOk(cfg, sys.facts, s, r)
  {
    OrderlyInv(cfg, sys);
    Th.LeaderIs(cfg, sys, s);
    assert D.DepOk(cfg, sys.facts, s, sys.replicas[Leader(cfg, s)]);
    hide OrderlyReachable, D.DepOk, LeaderOk;
  }

  lemma PrepareStep(cfg: Config, sys: System, p: nat, t: nat)
    requires Shaped(cfg, sys) && p in cfg.participants(t) && Leader(cfg, p) in sys.replicas
    requires var r := sys.replicas[Leader(cfg, p)];
             R.Waiting(r, t) == 0 && !R.AlreadyKnown(r, t) && t !in r.pendingTxns
    ensures
      var next := Step(cfg, sys, Prepare(p, t, map[], true));
      && Requested(cfg, next.net, p, t) && sys.net <= next.net
      && next.coordinators == sys.coordinators && LogsNext(cfg, sys, next, p, t)
      && next.facts == sys.facts.(handled := sys.facts.handled + {(p, t)},
                                  validated := sys.facts.validated + {(p, t)}, free := sys.facts.free + {(p, t)})
      && next.replicas == sys.replicas[Leader(cfg, p) := next.replicas[Leader(cfg, p)]]
  {
    var x := Leader(cfg, p);
    var r := sys.replicas[x];
    var e := Prepare(p, t, map[], true);
    PrepareReacts(cfg, r, p, t);
    Th.ApplyIs(cfg, sys, e);
    var next := Step(cfg, sys, e);
    var out := React(cfg, r, e);
    var h := Record(sys.facts, r, e);
    assert h == sys.facts.(handled := sys.facts.handled + {(p, t)}, validated := sys.facts.validated + {(p, t)});
    Re.GrownByOne(x, h, out.1[0]);
    assert next == AtReplica(sys, x, out, h);
    hide React, Record, Step, Shaped;
    assert next.facts == Re.Grown(x, h, out.1);
    hide Re.Grown, Freed, Notices, Deposits;
    assert out.1[0] in next.net;
  }

  /** The first `k` participants have taken the transaction up. */
  ghost predicate PreparedAt(cfg: Config, sys: System, next: System, t: nat, k: nat)
    requires cfg.n > 0 && k <= |cfg.participants(t)|
  {
    && (forall i :: 0 <= i < k ==>
          var p := cfg.participants(t)[i];
          Requested(cfg, next.net, p, t) && LogsNext(cfg, sys, next, p, t) && (p, t) in next.facts.validated)
    && (forall i :: k <= i < |cfg.participants(t)| ==> NewAt(next.facts, cfg.participants(t)[i], t))
    && (forall s: nat :: s < cfg.shards && s !in cfg.participants(t)[..k] ==>
          && Leader(cfg, s) in sys.replicas && Leader(cfg, s) in next.replicas
          && next.replicas[Leader(cfg, s)] == sys.replicas[Leader(cfg, s)])
  }

  lemma {:induction false} PrepareAll(cfg: Config, sys: System, t: nat, k: nat) returns (next: System)
    requires OrderlyReachable(cfg, sys) && k <= |cfg.participants(t)|
    requires forall p :: p in cfg.participants(t) ==> NewAt(sys.facts, p, t)
    ensures cfg.Valid() && Onward(cfg, sys, next, t) && PreparedAt(cfg, sys, next, t, k)
    ensures next.coordinators == sys.coordinators
  {
    hide OrderlyReachable, Onward, Requested, LogsNext;
    OrderlyShape(cfg, sys);
    var parts := cfg.participants(t);
    if k == 0 {
      next := sys;
      OnwardStays(cfg, sys, t);
      assert forall s: nat :: s < cfg.shards ==> Leader(cfg, s) in sys.replicas;
    } else {
      var mid := PrepareAll(cfg, sys, t, k - 1);
      var p := parts[k - 1];
      OnwardIsOrderly(cfg, sys, mid, t);
      assert p in parts && NewAt(mid.facts, p, t);
      next := PrepareOne(cfg, mid, p, t);
      OnwardTwice(cfg, sys, mid, next, t);
      OnwardIsOrderly(cfg, mid, next, t);
      hide PreparedAt;
      PreparedOneMore(cfg, sys, mid, next, t, k);
    }
  }

  lemma OnwardIsOrderly(cfg: Config, sys: System, next: System, t: nat)
    requires Onward(cfg, sys, next, t)
    ensures OrderlyReachable(cfg, next) && sys.net <= next.net
  {
    hide OrderlyReachable;
  }

  lemma PreparedOneMore(cfg: Config, sys: System, mid: System, next: System, t: nat, k: nat)
    requires cfg.Valid() && 0 < k <= |cfg.participants(t)| && PreparedAt(cfg, sys, mid, t, k - 1)
    requires var p := cfg.participants(t)[k - 1];
             && Requested(cfg, next.net, p, t) && LogsNext(cfg, mid, next, p, t)
             && next.facts == mid.facts.(handled := mid.facts.handled + {(p, t)},
                                         validated := mid.facts.validated + {(p, t)}, free := mid.facts.free + {(p, t)})
             && forall x :: x != Leader(cfg, p) && x in mid.replicas ==>
                  x in next.replicas && next.replicas[x] == mid.replicas[x]
    requires mid.net <= next.net
    ensures PreparedAt(cfg, sys, next, t, k)
  {
    var parts := cfg.participants(t);
    var p := parts[k - 1];
    assert p in parts && p < cfg.shards && p !in parts[..k - 1];
    assert LogsNext(cfg, sys, next, p, t);
    forall i | 0 <= i < k - 1
      ensures Requested(cfg, next.net, parts[i], t) && LogsNext(cfg, sys, next, parts[i], t)
    {
      assert Requested(cfg, mid.net, parts[i], t) && LogsNext(cfg, sys, mid, parts[i], t);
      assert parts[i] != p;
    }
    forall s: nat | s < cfg.shards && s !in parts[..k]
      ensures && Leader(cfg, s) in sys.replicas && Leader(cfg, s) in next.replicas
              && next.replicas[Leader(cfg, s)] == sys.replicas[Leader(cfg, s)]
    {
      assert parts[..k] == parts[..k - 1] + [p];
    }
  }

  // ----- Replication -----

  /** The participants' replicas that answer. */
  ghost function Grid(cfg: Config, t: nat): set<(nat, nat)> {
    set p, r | p in cfg.participants(t) && r in Reporting(cfg, p) :: (p, r)
  }

  ghost predicate AllRequested(cfg: Config, net: set<Message>, t: nat)
    requires cfg.n > 0
  {
    forall p :: p in cfg.participants(t) ==> Requested(cfg, net, p, t)
  }

  ghost predicate VotesOut(cfg: Config, net: set<Message>, t: nat, cells: set<(nat, nat)>)
    requires cfg.n > 0
  {
    forall x :: x in cells ==> Vote(cfg, x.0, x.1, t) in net
  }

  ghost predicate BypassesOut(cfg: Config, net: set<Message>, t: nat, cells: set<(nat, nat)>)
    requires cfg.n > 0
  {
    forall x :: x in cells ==> Bypass(cfg, x.0, x.1, t) in net
  }

  lemma ReplicateOne(cfg: Config, sys: System, p: nat, r: nat, t: nat) returns (next: System)
    requires OrderlyReachable(cfg, sys) && cfg.n > 0 && (p, r) in Grid(cfg, t) && Requested(cfg, sys.net, p, t)
    ensures Onward(cfg, sys, next, t) && SameLeaders(cfg, sys, next)
    ensures next.coordinators == sys.coordinators && Vote(cfg, p, r, t) in next.net
  {
    hide OrderlyReachable, Inv, DepInv, Shaped;
    OrderlyShape(cfg, sys);
    OrderlyInv(cfg, sys);
    var e: Entry :| e.txn == t &&
      ReplicateTxn(p, e, cfg.PrimaryCoordinator(t), cfg.primary(t), cfg.participants(t), false) in sys.net;
    var m := ReplicateTxn(p, e, cfg.PrimaryCoordinator(t), cfg.primary(t), cfg.participants(t), false);
    var event := ToReplica(m, r);
    assert Enabled(cfg, sys, event);
    OrderlyStep(cfg, sys, event);
    ReplicationShape(cfg, sys, m, r);
    next := Step(cfg, sys, event);
    ReplicateSends(cfg, sys, m, r);
    SomeLeaders(cfg, sys);
    SomeLeaders(cfg, next);
    hide Step, Apply;
    assert SameRecords(sys.facts, next.facts, t);
  }

  lemma SomeLeaders(cfg: Config, sys: System)
    requires Shaped(cfg, sys)
    ensures forall s: nat :: s < cfg.shards ==> Leader(cfg, s) in sys.replicas
  {
  }

  lemma ReplicateSends(cfg: Config, sys: System, m: Message, r: nat)
    requires Shaped(cfg, sys) && Enabled(cfg, sys, ToReplica(m, r)) && m.ReplicateTxn?
    ensures
      var next := Apply(cfg, sys, ToReplica(m, r));
      && sys.net <= next.net && next.coordinators == sys.coordinators
      && ReplyAndVote(r, m.entry.txn, m.shard, r, PREPARED, m.participants, m.primaryShard,
                      m.primaryCoordinator, 0, m.hasPreCommit) in next.net
  {
    var e := ToReplica(m, r);
    Th.ApplyIs(cfg, sys, e);
    var x := Where(cfg, e);
    var out := R.HandleReplicate(sys.replicas[x], m);
    assert out.1[1] in out.1;
    hide Apply, R.HandleReplicate, Freed, Notices, Deposits;
  }

  lemma {:induction false} ReplicateAll(cfg: Config, sys: System, t: nat, todo: set<(nat, nat)>) returns (next: System)
    requires OrderlyReachable(cfg, sys) && cfg.n > 0 && todo <= Grid(cfg, t) && AllRequested(cfg, sys.net, t)
    ensures Onward(cfg, sys, next, t) && SameLeaders(cfg, sys, next)
    ensures next.coordinators == sys.coordinators && VotesOut(cfg, next.net, t, todo)
    decreases |todo|
  {
    hide OrderlyReachable, Onward, Requested;
    if todo == {} {
      next := sys;
      OnwardStays(cfg, sys, t);
      OrderlyShape(cfg, sys);
      SomeLeaders(cfg, sys);
    } else {
      var x :| x in todo;
      var mid := ReplicateAll(cfg, sys, t, todo - {x});
      OnwardIsOrderly(cfg, sys, mid, t);
      StillRequested(cfg, sys.net, mid.net, x.0, t);
      next := ReplicateOne(cfg, mid, x.0, x.1, t);
      OnwardIsOrderly(cfg, mid, next, t);
      OnwardTwice(cfg, sys, mid, next, t);
      assert todo == (todo - {x}) + {x};
    }
  }

  lemma StillRequested(cfg: Config, net: set<Message>, more: set<Message>, p: nat, t: nat)
    requires cfg.n > 0 && Requested(cfg, net, p, t) && net <= more
    ensures Requested(cfg, more, p, t)
  {
  }

  // ----- Steps of coordinators -----

  lemma CoordinatorMoves(cfg: Config, sys: System, c: nat, m: Message, t: nat) returns (next: System)
    requires OrderlyReachable(cfg, sys) && m in sys.net && c < cfg.n && ForCoordinator(m, c)
    requires c in sys.coordinators ==>
      sys.coordinators[c].n > 0 && OnlyTxn(sys.coordinators[c], C.Handle(sys.coordinators[c], m).0, t)
    ensures c in sys.coordinators && sys.coordinators[c].id == c && sys.coordinators[c].n == cfg.n > 0
    ensures Onward(cfg, sys, next, t) && SameLeaders(cfg, sys, next)
    ensures next.replicas == sys.replicas && next.facts == sys.facts.(announced := next.facts.announced)
    ensures next.coordinators == sys.coordinators[c := C.Handle(sys.coordinators[c], m).0]
    ensures forall x :: x in C.Handle(sys.coordinators[c], m).1 ==> x in next.net
  {
    hide OrderlyReachable, C.Handle;
    OrderlyShape(cfg, sys);
    SomeLeaders(cfg, sys);
    var e := ToCoordinator(m, c);
    OrderlyStep(cfg, sys, e);
    next := Step(cfg, sys, e);
    hide Step;
    assert next == AtCoordinator(sys, c, C.Handle(sys.coordinators[c], m));
    hide Shaped, SameLeaders;
    assert SameLeaders(cfg, sys, next) by { SameReplicasSameLeaders(cfg, sys, next); }
    assert SameRecords(sys.facts, next.facts, t);
  }

  lemma SameReplicasSameLeaders(cfg: Config, sys: System, next: System)
    requires next.replicas == sys.replicas && forall s: nat :: s < cfg.shards ==> Leader(cfg, s) in sys.replicas
    ensures SameLeaders(cfg, sys, next)
  {
  }

  lemma OnwardMoves(cfg: Config, a: System, b: System, c: System, t: nat)
    requires Onward(cfg, a, b, t) && Onward(cfg, b, c, t) && SameLeaders(cfg, a, b) && SameLeaders(cfg, b, c)
    ensures Onward(cfg, a, c, t) && SameLeaders(cfg, a, c) && a.net <= b.net <= c.net
    ensures OrderlyReachable(cfg, b) && OrderlyReachable(cfg, c)
  {
    hide OrderlyReachable;
    OnwardTwice(cfg, a, b, c, t);
  }

  /** All participants' votes beside coordinator `c` reach it. */
  lemma {:induction false} VoteAll(cfg: Config, sys: System, c: nat, t: nat, k: nat) returns (next: System)
    requires OrderlyReachable(cfg, sys) && cfg.n > 0 && c < cfg.n && k <= |cfg.participants(t)| && NewTo(sys, c, t)
    requires forall p :: p in cfg.participants(t) ==> Vote(cfg, p, c, t) in sys.net
    ensures Onward(cfg, sys, next, t) && SameLeaders(cfg, sys, next)
    ensures c in next.coordinators && next.coordinators == sys.coordinators[c := next.coordinators[c]]
    ensures Collected(cfg, next.coordinators[c], t, k)
    ensures forall p :: p in cfg.participants(t)[..k] ==> Bypass(cfg, p, c, t) in next.net
    ensures 0 < k == |cfg.participants(t)| ==>
              forall q :: q in cfg.participants(t) && q % cfg.n == c ==>
                NotifyDecision(q, c, t, PREPARED, 0) in next.net
  {
    hide OrderlyReachable, Onward, SameLeaders, Counted;
    OrderlyShape(cfg, sys);
    if k == 0 {
      next := sys;
      OnwardStays(cfg, sys, t);
      SomeLeaders(cfg, sys);
      SameReplicasSameLeaders(cfg, sys, next);
    } else {
      var parts := cfg.participants(t);
      var mid := VoteAll(cfg, sys, c, t, k - 1);
      OnwardIsOrderly(cfg, sys, mid, t);
      next := VoteOne(cfg, mid, c, t, k - 1);
      OnwardMoves(cfg, sys, mid, next, t);
      assert parts[..k] == parts[..k - 1] + [parts[k - 1]];
    }
  }

  lemma VoteOne(cfg: Config, sys: System, c: nat, t: nat, k: nat) returns (next: System)
    requires OrderlyReachable(cfg, sys) && cfg.n > 0 && c < cfg.n && k < |cfg.participants(t)|
    requires c in sys.coordinators && Collected(cfg, sys.coordinators[c], t, k)
    requires Vote(cfg, cfg.participants(t)[k], c, t) in sys.net
    ensures Onward(cfg, sys, next, t) && SameLeaders(cfg, sys, next)
    ensures c in next.coordinators && next.coordinators == sys.coordinators[c := next.coordinators[c]]
    ensures Collected(cfg, next.coordinators[c], t, k + 1)
    ensures Bypass(cfg, cfg.participants(t)[k], c, t) in next.net
    ensures k + 1 == |cfg.participants(t)| ==>
              forall q :: q in cfg.participants(t) && q % cfg.n == c ==>
                NotifyDecision(q, c, t, PREPARED, 0) in next.net
  {
    OrderlyShape(cfg, sys);
    hide OrderlyReachable, Onward, SameLeaders, Collected, C.Handle, OnlyTxn;
    VoteCounts(cfg, sys.coordinators[c], t, k);
    next := CoordinatorMoves(cfg, sys, c, Vote(cfg, cfg.participants(t)[k], c, t), t);
  }

  // ----- The other coordinators pass votes on -----

  /** The coordinators that have passed a vote on know of the transaction. */
  ghost predicate Knows(sys: System, t: nat, cells: set<(nat, nat)>) {
    forall x :: x in cells ==> x.1 in sys.coordinators && t in sys.coordinators[x.1].pendingCommits
  }

  /** The primary coordinator has not decided. */
  ghost predicate Undecided(cfg: Config, sys: System, t: nat)
    requires cfg.n > 0
  {
    var c := cfg.PrimaryCoordinator(t);
    c in sys.coordinators && t !in sys.coordinators[c].commitResults
  }

  lemma UndecidedEverywhere(cfg: Config, sys: System, t: nat, c: nat)
    requires OrderlyReachable(cfg, sys) && cfg.n > 0 && Undecided(cfg, sys, t) && c in sys.coordinators
    ensures t !in sys.coordinators[c].commitResults
  {
    OrderlyInv(cfg, sys);
    assert CoordinatorOk(cfg, sys.facts, sys.coordinators[c]);
    assert CoordinatorOk(cfg, sys.facts, sys.coordinators[cfg.PrimaryCoordinator(t)]);
    hide OrderlyReachable, PendingOk, DepInv;
  }

  lemma ForwardOne(cfg: Config, sys: System, p: nat, c: nat, t: nat) returns (next: System)
    requires OrderlyReachable(cfg, sys) && cfg.n > 0 && c < cfg.n && c != cfg.PrimaryCoordinator(t)
    requires Undecided(cfg, sys, t) && Vote(cfg, p, c, t) in sys.net
    ensures Onward(cfg, sys, next, t) && SameLeaders(cfg, sys, next)
    ensures c in next.coordinators && next.coordinators == sys.coordinators[c := next.coordinators[c]]
    ensures t in next.coordinators[c].pendingCommits && Bypass(cfg, p, c, t) in next.net
  {
    OrderlyShape(cfg, sys);
    hide OrderlyReachable, Onward, SameLeaders, C.Handle, OnlyTxn;
    UndecidedEverywhere(cfg, sys, t, c);
    VotePasses(cfg, sys.coordinators[c], p, t);
    next := CoordinatorMoves(cfg, sys, c, Vote(cfg, p, c, t), t);
    OnwardIsOrderly(cfg, sys, next, t);
    UndecidedEverywhere(cfg, next, t, c);
  }

  lemma {:induction false} ForwardAll(cfg: Config, sys: System, t: nat, todo: set<(nat, nat)>) returns (next: System)
    requires OrderlyReachable(cfg, sys) && cfg.n > 0 && Undecided(cfg, sys, t) && VotesOut(cfg, sys.net, t, todo)
    requires forall x :: x in todo ==> x.1 < cfg.n && x.1 != cfg.PrimaryCoordinator(t)
    ensures Onward(cfg, sys, next, t) && SameLeaders(cfg, sys, next) && Undecided(cfg, next, t)
    ensures next.coordinators[cfg.PrimaryCoordinator(t)] == sys.coordinators[cfg.PrimaryCoordinator(t)]
    ensures BypassesOut(cfg, next.net, t, todo) && Knows(next, t, todo)
    decreases |todo|
  {
    hide OrderlyReachable, Onward, SameLeaders;
    if todo == {} {
      next := sys;
      OnwardStays(cfg, sys, t);
      OrderlyShape(cfg, sys);
      SomeLeaders(cfg, sys);
      SameReplicasSameLeaders(cfg, sys, next);
    } else {
      var x :| x in todo;
      var mid := ForwardAll(cfg, sys, t, todo - {x});
      OnwardIsOrderly(cfg, sys, mid, t);
      next := ForwardOne(cfg, mid, x.0, x.1, t);
      OnwardMoves(cfg, sys, mid, next, t);
      assert todo == (todo - {x}) + {x};
    }
  }

  // ----- Replies at the primary coordinator -----

  ghost predicate Replied(c: C.Coordinator, t: nat, cells: set<(nat, nat)>) {
    forall x :: x in cells ==> HasReply(c, t, x.0, x.1)
  }

  lemma {:induction false} ReplyAll(cfg: Config, sys: System, t: nat, todo: set<(nat, nat)>) returns (next: System)
    requires OrderlyReachable(cfg, sys) && cfg.n > 0 && BypassesOut(cfg, sys.net, t, todo)
    requires var c := cfg.PrimaryCoordinator(t); c in sys.coordinators && Awaits(cfg, sys.coordinators[c], t)
    ensures Onward(cfg, sys, next, t) && SameLeaders(cfg, sys, next)
    ensures
      var c := cfg.PrimaryCoordinator(t);
      && c in next.coordinators && next.coordinators == sys.coordinators[c := next.coordinators[c]]
      && Awaits(cfg, next.coordinators[c], t) && Replied(next.coordinators[c], t, todo)
    decreases |todo|
  {
    hide OrderlyReachable, Onward, SameLeaders, Awaits, HasReply;
    OrderlyShape(cfg, sys);
    if todo == {} {
      next := sys;
      OnwardStays(cfg, sys, t);
      SomeLeaders(cfg, sys);
      SameReplicasSameLeaders(cfg, sys, next);
    } else {
      var x :| x in todo;
      var mid := ReplyAll(cfg, sys, t, todo - {x});
      OnwardIsOrderly(cfg, sys, mid, t);
      next := ReplyOne(cfg, mid, x.0, x.1, t);
      OnwardMoves(cfg, sys, mid, next, t);
      assert todo == (todo - {x}) + {x};
    }
  }

  lemma ReplyOne(cfg: Config, sys: System, p: nat, r: nat, t: nat) returns (next: System)
    requires OrderlyReachable(cfg, sys) && cfg.n > 0 && Bypass(cfg, p, r, t) in sys.net
    requires var c := cfg.PrimaryCoordinator(t); c in sys.coordinators && Awaits(cfg, sys.coordinators[c], t)
    ensures Onward(cfg, sys, next, t) && SameLeaders(cfg, sys, next)
    ensures
      var c := cfg.PrimaryCoordinator(t);
      && c in next.coordinators && next.coordinators == sys.coordinators[c := next.coordinators[c]]
      && Awaits(cfg, next.coordinators[c], t) && HasReply(next.coordinators[c], t, p, r)
      && forall q, s: nat :: HasReply(sys.coordinators[c], t, q, s) ==> HasReply(next.coordinators[c], t, q, s)
  {
    OrderlyShape(cfg, sys);
    hide OrderlyReachable, Onward, SameLeaders, Awaits, HasReply, C.HandleBypassReply, OnlyTxn;
    var c := cfg.PrimaryCoordinator(t);
    ReplyCounts(cfg, sys.coordinators[c], t, p, r);
    next := CoordinatorMoves(cfg, sys, c, Bypass(cfg, p, r, t), t);
  }
}
