/** Runs that reach the states in which the parallel commit protocol falls short. */
module D2pcShortfalls {
  import opened CommitMessages
  import opened D2pcSystem
  import opened D2pcInvariant
  import opened Recoverability
  import opened CoordinatorProgress
  import opened D2pcRuns
  import opened D2pcReach
  import C = CoordinatorSpec
  import R = LrReplicaSpec
  import Re = D2pcReplica
  import D = Dependencies
  import Th = D2pcTheorems

  // ----- The other coordinators' records -----

  ghost predicate Records(sys: System, c: nat, t: nat, aborted: bool) {
    && c in sys.coordinators && t in sys.coordinators[c].commitResults
    && (sys.coordinators[c].commitResults[t].state == ABORT <==> aborted)
  }

  /** Every coordinator beside an answering replica of a participant can come to record as
      aborted a transaction that its primary coordinator records as committed. */
  lemma AbortIsRecorded(cfg: Config, t: nat, p: nat, c: nat)
    requires cfg.Valid() && Th.CanCommit(cfg, t) && c != cfg.PrimaryCoordinator(t)
    requires p in cfg.participants(t) && c in Reporting(cfg, p)
    ensures exists end :: Th.Reachable(cfg, end)
              && Records(end, cfg.PrimaryCoordinator(t), t, false) && Records(end, c, t, true)
  {
    hide OrderlyReachable, Th.Reachable, Initial, Fresh;
    InitialExists(cfg);
    var sys := InitialSystem(cfg);
    InitialIsFresh(cfg, t);
    var mid := AlwaysCommits(cfg, sys, t);
    OnwardIsOrderly(cfg, sys, mid, t);
    DecisionIsOut(cfg, mid, t);
    assert (p, c) in Grid(cfg, t);
    assert t in mid.coordinators[c].pendingCommits;
    var m := ReplicateDecision(t, PREPARED, 0);
    OrderlyShape(cfg, mid);
    FileAbort(mid.coordinators[c], t);
    hide C.HandleReplicateDecision, Onward, OnlyTxn;
    var end := CoordinatorMoves(cfg, mid, c, m, t);
    OnwardIsOrderly(cfg, mid, end, t);
    OrderlyIsReachable(cfg, end);
    assert Records(mid, cfg.PrimaryCoordinator(t), t, false) by {
      OrderlyIsReachable(cfg, mid);
      Th.OthersFileAbort(cfg, mid, cfg.PrimaryCoordinator(t), t);
    }
    assert Records(end, c, t, true);
  }

  lemma InitialIsFresh(cfg: Config, t: nat)
    requires cfg.Valid()
    ensures Fresh(cfg, InitialSystem(cfg), t)
  {
  }

  lemma FileAbort(c: C.Coordinator, t: nat)
    requires c.n > 0 && t in c.pendingCommits
    ensures
      var c' := C.HandleReplicateDecision(c, t, PREPARED).0;
      t in c'.commitResults && c'.commitResults[t].state == ABORT && OnlyTxn(c, c', t)
  {
  }

  // ----- Steps of a leader -----

  /** Leader `s` has seen no commit of the transaction and has it among its active ones. */
  lemma StillActive(cfg: Config, sys: System, s: nat, t: nat)
    requires OrderlyReachable(cfg, sys) && s < cfg.shards
    requires (s, t) in sys.facts.validated && (s, t) !in sys.facts.applied
    ensures cfg.n > 0 && Leader(cfg, s) in sys.replicas && Commits(sys.replicas[Leader(cfg, s)], t)
  {
    hide OrderlyReachable, LeaderOk;
    LeaderBooks(cfg, sys, s);
  }

  /** A leader commits a decided transaction. */
  lemma CommitAt(cfg: Config, sys: System, p: nat, t: nat) returns (next: System)
    requires OrderlyReachable(cfg, sys) && cfg.n > 0 && Decided(cfg, sys, t) && p in cfg.participants(t)
    requires (p, t) in sys.facts.validated && (p, t) !in sys.facts.applied
    ensures OrderlyReachable(cfg, next) && next == Step(cfg, sys, ClientCommit(p, t, 0))
    ensures next.facts == sys.facts.(applied := sys.facts.applied + [(p, t)], noticed := next.facts.noticed)
    ensures Leader(cfg, p) in sys.replicas && Leader(cfg, p) in next.replicas
    ensures next.replicas[Leader(cfg, p)].log == sys.replicas[Leader(cfg, p)].log
    ensures next.replicas[Leader(cfg, p)].marked ==
              sys.replicas[Leader(cfg, p)].marked + (if t in sys.replicas[Leader(cfg, p)].log then {t} else {})
  {
    hide OrderlyReachable, Shaped, Decided, Step;
    OrderlyShape(cfg, sys);
    DecisionIsOut(cfg, sys, t);
    StillActive(cfg, sys, p, t);
    var e := ClientCommit(p, t, 0);
    assert NotifyReplicateResult(cfg.primary(t), cfg.PrimaryCoordinator(t), t, 0) in sys.net;
    OrderlyStep(cfg, sys, e);
    next := Step(cfg, sys, e);
    CommitSteps(cfg, sys, p, t);
  }

  lemma CommitSteps(cfg: Config, sys: System, p: nat, t: nat)
    requires Shaped(cfg, sys) && p < cfg.shards && Leader(cfg, p) in sys.replicas
    requires Enabled(cfg, sys, ClientCommit(p, t, 0))
    requires Commits(sys.replicas[Leader(cfg, p)], t)
    ensures
      var next := Step(cfg, sys, ClientCommit(p, t, 0));
      var r := sys.replicas[Leader(cfg, p)];
      && r.n > 0 && Leader(cfg, p) in next.replicas && next.replicas[Leader(cfg, p)] == R.HandleCommit(r, t, 0).0
      && (forall m :: m in R.HandleCommit(r, t, 0).1 ==> m in next.net)
      && next.facts == sys.facts.(applied := sys.facts.applied + [(p, t)], noticed := next.facts.noticed)
      && next.replicas[Leader(cfg, p)].log == r.log
      && next.replicas[Leader(cfg, p)].marked == r.marked + (if t in r.log then {t} else {})
  {
    var e := ClientCommit(p, t, 0);
    var x := Leader(cfg, p);
    var r := sys.replicas[x];
    Th.ApplyIs(cfg, sys, e);
    D.CommitShape(r, t);
    var h := sys.facts.(applied := sys.facts.applied + [(p, t)]);
    CommitGrows(x, h, r, t);
    hide Shaped, R.HandleCommit, Freed, Notices, Deposits;
    assert Record(sys.facts, r, e) == h;
    assert React(cfg, r, e) == R.HandleCommit(r, t, 0);
    hide React, Record;
    var next := Step(cfg, sys, e);
    assert next == AtReplica(sys, x, R.HandleCommit(r, t, 0), h);
    hide Step;
    assert next.facts == Re.Grown(x, h, R.HandleCommit(r, t, 0).1);
    if t !in r.log {
      assert r.marked + {} == r.marked;
    }
  }

  // ----- The state of log entries -----

  /** Leader `p` has committed transaction `t`, has its entry at position `l`, and shows that
      entry as committed or not. */
  ghost predicate Shows(cfg: Config, sys: System, p: nat, l: nat, t: nat, applied: bool, marked: bool) {
    && Leader(cfg, p) in sys.replicas
    && var r := sys.replicas[Leader(cfg, p)];
       && l in r.log && r.log[l].txn == t
       && ((p, t) in sys.facts.applied <==> applied) && (l in r.marked <==> marked)
  }

  /** A shard's first transaction is logged at position 0.  Once committed, its entry shows it
      exactly if the transaction's number is 0. */
  lemma FirstEntry(cfg: Config, p: nat, t: nat)
    requires cfg.Valid() && Th.CanCommit(cfg, t) && p in cfg.participants(t)
    ensures exists end :: OrderlyReachable(cfg, end) && Shows(cfg, end, p, 0, t, true, t == 0)
  {
    hide OrderlyReachable, Fresh, Onward;
    InitialExists(cfg);
    var sys := InitialSystem(cfg);
    InitialIsFresh(cfg, t);
    var mid := AlwaysCommits(cfg, sys, t);
    OnwardIsOrderly(cfg, sys, mid, t);
    assert LogsNext(cfg, sys, mid, p, t);
    OnwardFacts(cfg, sys, mid, t);
    var end := CommitAt(cfg, mid, p, t);
    LeaderBooks(cfg, end, p);
    hide Decided, Knows, LoggedNext, Th.CanCommit;
    assert end.facts.applied == [(p, t)];
    assert Shows(cfg, end, p, 0, t, true, t == 0);
  }

  lemma OnwardFacts(cfg: Config, sys: System, next: System, t: nat)
    requires Onward(cfg, sys, next, t)
    ensures SameRecords(sys.facts, next.facts, t) && sys.net <= next.net
    ensures forall c, u :: u != t && NewTo(sys, c, u) ==> NewTo(next, c, u)
  {
    hide OrderlyReachable;
  }

  /** Transaction 0, committed after another one has been logged, marks the other's entry as
      committed. */
  lemma WrongEntry(cfg: Config, p: nat, u: nat)
    requires cfg.Valid() && Th.CanCommit(cfg, 0) && p in cfg.participants(0) && p in cfg.participants(u) && u != 0
    ensures exists end :: OrderlyReachable(cfg, end) && Shows(cfg, end, p, 0, u, false, true)
  {
    hide OrderlyReachable, Onward;
    InitialExists(cfg);
    var sys := InitialSystem(cfg);
    InitialIsFresh(cfg, u);
    InitialIsFresh(cfg, 0);
    var s1 := PrepareOne(cfg, sys, p, u);
    OnwardIsOrderly(cfg, sys, s1, u);
    assert Fresh(cfg, s1, 0);
    hide Fresh;
    var s2 := AlwaysCommits(cfg, s1, 0);
    OnwardIsOrderly(cfg, s1, s2, 0);
    assert LogsNext(cfg, sys, s1, p, u) && LogsNext(cfg, s1, s2, p, 0);
    OnwardFacts(cfg, s1, s2, 0);
    hide Decided, Knows, Th.CanCommit;
    var end := CommitAt(cfg, s2, p, 0);
    assert end.facts.applied == [(p, 0)];
    assert Shows(cfg, end, p, 0, u, false, true);
  }

  // ----- Pre-commit, reads, and prepare requests that wait -----

  /** The vote of every participant reaches the coordinator beside the leader of `p`, which
      tells that leader, and the transaction is decided. */
  lemma DecideAndNotify(cfg: Config, sys: System, p: nat, d: nat) returns (next: System)
    requires OrderlyReachable(cfg, sys) && cfg.Valid() && cfg.loopback && p in cfg.participants(d)
    requires (forall c: nat :: c < cfg.n ==> NewTo(sys, c, d)) && VotesOut(cfg, sys.net, d, Grid(cfg, d))
    ensures Onward(cfg, sys, next, d) && SameLeaders(cfg, sys, next) && Decided(cfg, next, d)
    ensures NotifyDecision(p, p % cfg.n, d, PREPARED, 0) in next.net
  {
    hide OrderlyReachable, Onward, SameLeaders, Collected, Decided, Knows;
    var q, c := p % cfg.n, cfg.PrimaryCoordinator(d);
    var s1 := Agree(cfg, sys, q, d);
    OnwardIsOrderly(cfg, sys, s1, d);
    if q == c {
      next := Complete(cfg, s1, d);
      OnwardMoves(cfg, sys, s1, next, d);
    } else {
      assert NewTo(s1, c, d) by { assert NewTo(sys, c, d); }
      var s2 := Agree(cfg, s1, c, d);
      OnwardMoves(cfg, sys, s1, s2, d);
      next := Complete(cfg, s2, d);
      OnwardMoves(cfg, sys, s2, next, d);
    }
  }

  /** The leader pre-commits what it is told. */
  lemma PreCommitOne(cfg: Config, sys: System, p: nat, d: nat) returns (next: System)
    requires OrderlyReachable(cfg, sys) && cfg.n > 0 && p < cfg.shards && cfg.leader(p) == p % cfg.n
    requires NotifyDecision(p, p % cfg.n, d, PREPARED, 0) in sys.net
    requires (p, d) in sys.facts.validated && (p, d) !in sys.facts.applied
    ensures OrderlyReachable(cfg, next) && next.facts == sys.facts
    ensures next.coordinators == sys.coordinators && next.net == sys.net
    ensures Leader(cfg, p) in sys.replicas && Leader(cfg, p) in next.replicas
    ensures next.replicas[Leader(cfg, p)].precommitted == sys.replicas[Leader(cfg, p)].precommitted + {d}
  {
    hide OrderlyReachable;
    StillActive(cfg, sys, p, d);
    OrderlyShape(cfg, sys);
    var e := ToReplica(NotifyDecision(p, p % cfg.n, d, PREPARED, 0), p % cfg.n);
    assert Enabled(cfg, sys, e);
    OrderlyStep(cfg, sys, e);
    Th.ApplyIs(cfg, sys, e);
    next := Step(cfg, sys, e);
    var x := Leader(cfg, p);
    hide Shaped;
    assert React(cfg, sys.replicas[x], e) == (R.HandleDecision(sys.replicas[x], d), []);
    hide React;
    Re.GrownByNothing(x, sys.facts);
    assert next == AtReplica(sys, x, (R.HandleDecision(sys.replicas[x], d), []), sys.facts);
    hide Step;
    assert next.facts == Re.Grown(x, sys.facts, []);
    assert ToSet([]) == {};
  }

  /** A transaction reads pre-committed writes at a leader. */
  lemma ReadOne(cfg: Config, sys: System, p: nat, t: nat, dependencies: seq<nat>) returns (next: System)
    requires OrderlyReachable(cfg, sys) && p in cfg.participants(t) && (p, t) !in sys.facts.handled
    requires Leader(cfg, p) in sys.replicas
    requires forall d :: d in dependencies ==> d in sys.replicas[Leader(cfg, p)].precommitted
    ensures OrderlyReachable(cfg, next) && next.coordinators == sys.coordinators && next.net == sys.net
    ensures next.facts == sys.facts.(dependsOn := sys.facts.dependsOn + D.ReadsFrom(p, t, dependencies))
  {
    hide OrderlyReachable;
    OrderlyShape(cfg, sys);
    var e := Read(p, t, dependencies);
    assert Enabled(cfg, sys, e);
    OrderlyStep(cfg, sys, e);
    Th.ApplyIs(cfg, sys, e);
    next := Step(cfg, sys, e);
    var x := Leader(cfg, p);
    var r' := R.HandleRead(sys.replicas[x], t, dependencies);
    var h := sys.facts.(dependsOn := sys.facts.dependsOn + D.ReadsFrom(p, t, dependencies));
    hide Shaped;
    assert Record(sys.facts, sys.replicas[x], e) == h;
    assert next == AtReplica(sys, x, (r', []), h);
    hide Step, React, Record, R.HandleRead;
    Re.GrownByNothing(x, h);
    assert next.facts == Re.Grown(x, h, []);
    assert ToSet([]) == {};
  }

  /** A transaction is prepared at a leader where it waits for another. */
  lemma PrepareWaiting(cfg: Config, sys: System, p: nat, t: nat, d: nat) returns (next: System)
    requires OrderlyReachable(cfg, sys) && p in cfg.participants(t) && (p, t) !in sys.facts.handled
    requires (p, t, d) in sys.facts.dependsOn && (p, d) !in sys.facts.applied
    ensures OrderlyReachable(cfg, next) && next.coordinators == sys.coordinators && sys.net <= next.net
    ensures next.facts == sys.facts.(handled := sys.facts.handled + {(p, t)},
                                   validated := sys.facts.validated + {(p, t)})
    ensures Leader(cfg, p) in next.replicas && !R.AlreadyKnown(next.replicas[Leader(cfg, p)], t)
  {
    hide OrderlyReachable, Shaped, D.DepOk, LeaderOk, Step;
    OrderlyShape(cfg, sys);
    LeaderBooks(cfg, sys, p);
    var r := sys.replicas[Leader(cfg, p)];
    WaitsForSomething(cfg, sys.facts, p, r, t, d);
    var e := Prepare(p, t, map[], true);
    OrderlyStep(cfg, sys, e);
    next := Step(cfg, sys, e);
    PrepareWaits(cfg, sys, p, t);
  }

  lemma WaitsForSomething(cfg: Config, f: Facts, s: nat, r: R.Replica, t: nat, d: nat)
    requires cfg.n > 0 && D.DepOk(cfg, f, s, r) && (s, t) !in f.handled
    requires (s, t, d) in f.dependsOn && (s, d) !in f.applied
    ensures R.Waiting(r, t) > 0 && !R.AlreadyKnown(r, t) && t !in r.pendingTxns && t !in r.committedTxns
  {
    D.OccursSomewhere(r.activeTxns, d, t);
  }

  lemma PrepareWaits(cfg: Config, sys: System, p: nat, t: nat)
    requires Shaped(cfg, sys) && p in cfg.participants(t) && Leader(cfg, p) in sys.replicas
    requires
      var r := sys.replicas[Leader(cfg, p)];
      R.Waiting(r, t) > 0 && !R.AlreadyKnown(r, t) && t !in r.pendingTxns && t !in r.committedTxns
    ensures
      var next := Step(cfg, sys, Prepare(p, t, map[], true));
      && next.coordinators == sys.coordinators && sys.net <= next.net
      && next.facts == sys.facts.(handled := sys.facts.handled + {(p, t)}, validated := sys.facts.validated + {(p, t)})
      && Leader(cfg, p) in next.replicas && !R.AlreadyKnown(next.replicas[Leader(cfg, p)], t)
  {
    var x := Leader(cfg, p);
    var r := sys.replicas[x];
    var e := Prepare(p, t, map[], true);
    Th.ApplyIs(cfg, sys, e);
    var out := React(cfg, r, e);
    assert |out.1| == 1 && out.1[0].ReplicateTxn? && out.1[0].hasPreCommit;
    assert !R.AlreadyKnown(out.0, t);
    var h := Record(sys.facts, r, e);
    Re.GrownByOne(x, h, out.1[0]);
    var next := Step(cfg, sys, e);
    assert next == AtReplica(sys, x, out, h);
    hide React, Step, Shaped, R.AlreadyKnown;
    assert out.1 == [out.1[0]];
    assert next.facts == Re.Grown(x, h, [out.1[0]]);
  }

  // ----- Notices that go astray -----

  /** A transaction that waits for one with another primary coordinator is stranded when that
      one commits, though nothing else is in its way. */
  lemma StrandedIsReachable(cfg: Config, p: nat, d: nat, t: nat)
    requires cfg.Valid() && cfg.loopback && cfg.leader(p) == p % cfg.n
    requires p in cfg.participants(d) && p in cfg.participants(t) && d != t && d != 0
    requires cfg.PrimaryCoordinator(d) != cfg.PrimaryCoordinator(t)
    ensures Th.CanCommit(cfg, t)
    ensures exists end :: OrderlyReachable(cfg, end) && Stranded(cfg, end, t)
  {
    hide OrderlyReachable, Onward, SameLeaders, Decided, Grid, InitialSystem;
    InitialExists(cfg);
    InitialIsFresh(cfg, d);
    InitialFacts(cfg);
    var sys := InitialSystem(cfg);
    var s1 := ToVotes(cfg, sys, d);
    OnwardIsOrderly(cfg, sys, s1, d);
    var s2 := DecideAndNotify(cfg, s1, p, d);
    OnwardIsOrderly(cfg, s1, s2, d);
    ValidatedStays(cfg, s1, s2, p, d);
    OnwardTwice(cfg, sys, s1, s2, d);
    OnwardFacts(cfg, sys, s2, d);
    var s3 := PreCommitOne(cfg, s2, p, d);
    var s4 := ReadOne(cfg, s3, p, t, [d]);
    assert s4.facts.dependsOn == {(p, t, d)} by { assert d in [d]; }
    var s5 := PrepareWaiting(cfg, s4, p, t, d);
    assert Decided(cfg, s5, d) by { DecidedSame(cfg, s2, s5, d); }
    var end := CommitAt(cfg, s5, p, d);
    hide Initial, Fresh, VotesOut, LoggedNext;
    NotedAt(cfg, end, p);
    AstrayNotice(cfg, end.facts, p, d, t);
  }

  lemma InitialFacts(cfg: Config)
    ensures InitialSystem(cfg).facts == Facts({}, {}, {}, {}, {}, [], {}, [])
  {
  }

  lemma DecidedSame(cfg: Config, sys: System, next: System, t: nat)
    requires cfg.n > 0 && Decided(cfg, sys, t) && next.coordinators == sys.coordinators
    ensures Decided(cfg, next, t)
  {
  }

  lemma AstrayNotice(cfg: Config, f: Facts, p: nat, d: nat, t: nat)
    requires cfg.n > 0 && D.Noted(cfg, f, p) && f.dependsOn == {(p, t, d)} && (p, d) in f.applied
    requires (p, t) in f.validated && (p, t) !in f.free
    ensures (p, cfg.PrimaryCoordinator(d), t) in f.noticed
  {
    hide D.Last, D.OfLast, D.SomeNotice;
    assert D.DependenciesApplied(f, p, t);
    hide D.DependenciesApplied;
    assert D.SomeNotice(f, p, t);
    NoticeOfLast(cfg, f, p, t, d);
  }

  lemma NoticeOfLast(cfg: Config, f: Facts, p: nat, t: nat, d: nat)
    requires cfg.n > 0 && D.Noted(cfg, f, p) && D.SomeNotice(f, p, t) && f.dependsOn == {(p, t, d)}
    ensures (p, cfg.PrimaryCoordinator(d), t) in f.noticed
  {
    hide D.Last, D.DependenciesApplied;
    var c :| (p, c, t) in f.noticed;
    assert D.OfLast(cfg, f, p, c, t);
    hide D.Noted;
    var e :| D.Last(f, p, t, e) && c == cfg.PrimaryCoordinator(e);
    D.LastIsOne(f, p, t, e, e);
  }

  // ----- A second prepare request -----

  /** The notice that a transaction's dependencies are cleared is out though it read from a
      transaction that has not been committed. */
  ghost predicate ClearedEarly(cfg: Config, sys: System, p: nat, t: nat) {
    exists c, b ::
      DependenciesCleared(c, t, p) in sys.net && (p, t, b) in sys.facts.dependsOn && (p, b) !in sys.facts.applied
  }

  /** The state in which transaction `t` waits for `a` and `b`, and `a` is decided. */
  lemma WaitsForTwo(cfg: Config, p: nat, a: nat, b: nat, t: nat) returns (next: System)
    requires cfg.Valid() && cfg.loopback && cfg.leader(p) == p % cfg.n && a != b && a != t && b != t && a != 0 && b != 0
    requires p in cfg.participants(a) && p in cfg.participants(b) && p in cfg.participants(t)
    ensures OrderlyReachable(cfg, next) && Decided(cfg, next, a) && next.facts.applied == []
    ensures (p, t, a) in next.facts.dependsOn && (p, t, b) in next.facts.dependsOn
    ensures (p, t) in next.facts.validated && (p, a) in next.facts.validated
    ensures Leader(cfg, p) in next.replicas && !R.AlreadyKnown(next.replicas[Leader(cfg, p)], t)
  {
    hide OrderlyReachable, Onward, SameLeaders, Decided, Grid, InitialSystem, Initial, R.AlreadyKnown;
    InitialExists(cfg);
    InitialIsFresh(cfg, a);
    InitialIsFresh(cfg, b);
    InitialFacts(cfg);
    var sys := InitialSystem(cfg);
    var s1 := ToVotes(cfg, sys, a);
    OnwardIsOrderly(cfg, sys, s1, a);
    OnwardFacts(cfg, sys, s1, a);
    var s2 := ToVotes(cfg, s1, b);
    OnwardIsOrderly(cfg, s1, s2, b);
    OnwardFacts(cfg, s1, s2, b);
    forall c: nat | c < cfg.n ensures NewTo(s2, c, a) && NewTo(s2, c, b) {
      assert NewTo(sys, c, a) && NewTo(sys, c, b);
    }
    var s3 := BothDecided(cfg, s2, p, a, b);
    var s4 := PreCommitOne(cfg, s3, p, a);
    var s5 := PreCommitOne(cfg, s4, p, b);
    var s6 := ReadOne(cfg, s5, p, t, [a, b]);
    assert a in [a, b] && b in [a, b];
    next := PrepareWaiting(cfg, s6, p, t, a);
    DecidedSame(cfg, s3, next, a);
  }

  lemma BothDecided(cfg: Config, sys: System, p: nat, a: nat, b: nat) returns (next: System)
    requires OrderlyReachable(cfg, sys) && cfg.Valid() && cfg.loopback && a != b
    requires p in cfg.participants(a) && p in cfg.participants(b)
    requires forall c: nat :: c < cfg.n ==> NewTo(sys, c, a) && NewTo(sys, c, b)
    requires VotesOut(cfg, sys.net, a, Grid(cfg, a)) && VotesOut(cfg, sys.net, b, Grid(cfg, b))
    requires (p, a) in sys.facts.validated && (p, b) in sys.facts.validated
    ensures OrderlyReachable(cfg, next) && Decided(cfg, next, a)
    ensures NotifyDecision(p, p % cfg.n, a, PREPARED, 0) in next.net
    ensures NotifyDecision(p, p % cfg.n, b, PREPARED, 0) in next.net
    ensures next.facts.applied == sys.facts.applied && next.facts.dependsOn == sys.facts.dependsOn
    ensures forall s, u :: u != a && u != b ==> ((s, u) in next.facts.handled <==> (s, u) in sys.facts.handled)
    ensures (p, a) in next.facts.validated && (p, b) in next.facts.validated
  {
    hide OrderlyReachable, Onward, Decided, Grid;
    var s1 := DecideAndNotify(cfg, sys, p, b);
    OnwardIsOrderly(cfg, sys, s1, b);
    OnwardFacts(cfg, sys, s1, b);
    next := DecideAndNotify(cfg, s1, p, a);
    OnwardIsOrderly(cfg, s1, next, a);
    OnwardFacts(cfg, s1, next, a);
    hide NewTo, VotesOut;
    ValidatedStays(cfg, sys, s1, p, b);
    ValidatedStays(cfg, s1, next, p, a);
  }

  /** Outside orderly runs: a second prepare request, and the commit of one of two transactions
      waited for clears the transaction. */
  lemma ClearedEarlyIsReachable(cfg: Config, p: nat, a: nat, b: nat, t: nat)
    requires cfg.Valid() && cfg.loopback && cfg.leader(p) == p % cfg.n && a != b && a != t && b != t && a != 0 && b != 0
    requires p in cfg.participants(a) && p in cfg.participants(b) && p in cfg.participants(t)
    ensures exists end :: Th.Reachable(cfg, end) && ClearedEarly(cfg, end, p, t)
  {
    hide OrderlyReachable, Decided, R.AlreadyKnown, Shaped, Step, ClearedEarly, Th.Reachable;
    var s1 := WaitsForTwo(cfg, p, a, b, t);
    OrderlyShape(cfg, s1);
    OrderlyIsReachable(cfg, s1);
    DecisionIsOut(cfg, s1, a);
    var s2 := Step(cfg, s1, Prepare(p, t, map[], true));
    ReachableStep(cfg, s1, Prepare(p, t, map[], true));
    var end := Step(cfg, s2, ClientCommit(p, a, 0));
    ReachableStep(cfg, s2, ClientCommit(p, a, 0));
    ClearsEarly(cfg, s1, p, a, b, t);
  }

  lemma ClearsEarly(cfg: Config, sys: System, p: nat, a: nat, b: nat, t: nat)
    requires OrderlyReachable(cfg, sys) && Shaped(cfg, sys)
    requires p in cfg.participants(t) && p < cfg.shards && sys.facts.applied == []
    requires NotifyReplicateResult(cfg.primary(a), cfg.PrimaryCoordinator(a), a, 0) in sys.net && a != b
    requires (p, t, a) in sys.facts.dependsOn && (p, t, b) in sys.facts.dependsOn
    requires (p, t) in sys.facts.validated && (p, a) in sys.facts.validated
    requires Leader(cfg, p) in sys.replicas && !R.AlreadyKnown(sys.replicas[Leader(cfg, p)], t)
    ensures ClearedEarly(cfg, Step(cfg, Step(cfg, sys, Prepare(p, t, map[], true)), ClientCommit(p, a, 0)), p, t)
  {
    hide OrderlyReachable, R.AlreadyKnown, Shaped, Step, D.DepOk;
    hide LeaderOk, R.HandlePrepare, R.HandleCommit, D.Occurrences, D.Count;
    LeaderBooks(cfg, sys, p);
    var r := sys.replicas[Leader(cfg, p)];
    TwoWaitedFor(cfg, sys.facts, p, r, a, t);
    D.SecondPrepareReplaces(cfg, sys.facts, p, r, t, map[]);
    D.SecondPrepareClearsEarly(cfg, sys.facts, p, r, t, map[], a);
    var mid := Step(cfg, sys, Prepare(p, t, map[], true));
    PrepareAgain(cfg, sys, p, t);
    assert a != t;
    var end := Step(cfg, mid, ClientCommit(p, a, 0));
    CommitSteps(cfg, mid, p, a);
    assert DependenciesCleared(r.pendingTxns[a].primaryShard % r.n, t, p) in end.net;
    assert (p, b) !in end.facts.applied;
  }

  lemma TwoWaitedFor(cfg: Config, f: Facts, s: nat, r: R.Replica, a: nat, t: nat)
    requires cfg.n > 0 && D.DepOk(cfg, f, s, r) && f.applied == []
    requires (s, t, a) in f.dependsOn && (s, t) in f.validated && (s, a) in f.validated
    ensures t in r.activeTxns && Commits(r, a) && t in r.activeTxns[a].out && a != t
  {
    hide D.Occurrences;
  }

  lemma PrepareAgain(cfg: Config, sys: System, p: nat, t: nat)
    requires Shaped(cfg, sys) && p in cfg.participants(t) && Leader(cfg, p) in sys.replicas
    ensures
      var next := Step(cfg, sys, Prepare(p, t, map[], true));
      var r := sys.replicas[Leader(cfg, p)];
      && r.n > 0 && Leader(cfg, p) in next.replicas && sys.net <= next.net
      && next.replicas[Leader(cfg, p)] == R.HandlePrepare(r, t, map[], cfg.participants(t), cfg.primary(t), true).0
      && next.facts.applied == sys.facts.applied && next.facts.dependsOn == sys.facts.dependsOn
  {
    var e := Prepare(p, t, map[], true);
    Th.ApplyIs(cfg, sys, e);
    hide R.HandlePrepare;
  }
}
