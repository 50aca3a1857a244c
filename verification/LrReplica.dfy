/** A shard's replica updated in place, each handler proved against its function. */
module LrReplica {
  import opened CommitMessages
  import S = LrReplicaSpec

  /** Class LRReplica of replication/lr/replica.h, as far as MODE_PARALLEL uses it. */
  class LRReplica {
    const shard: nat
    const id: nat
    const n: nat
    const f: nat
    var log: map<nat, Entry>
    var last: nat
    var marked: set<nat>
    var pendingTxns: map<nat, S.PendingTxn>
    var activeTxns: map<nat, S.Txn>
    var committedTxns: set<nat>
    var inDependency: map<nat, int>
    var precommitted: set<nat>

    function State(): S.Replica
      reads this
    {
      S.Replica(shard, id, n, f, log, last, marked, pendingTxns, activeTxns, committedTxns, inDependency, precommitted)
    }

    constructor (shard: nat, id: nat, n: nat, f: nat)
      ensures State() == S.Replica(shard, id, n, f, map[], 0, {}, map[], map[], {}, map[], {})
    {
      this.shard := shard;
      this.id := id;
      this.n := n;
      this.f := f;
      log := map[];
      last := 0;
      marked := {};
      pendingTxns := map[];
      activeTxns := map[];
      committedTxns := {};
      inDependency := map[];
      precommitted := {};
    }

    /** Log::Add of the leader: the next lsn. */
    method AddToLog(tid: nat, writes: map<string, string>) returns (lsn: nat)
      modifies this`log, this`last
      ensures State() == S.AddToLog(old(State()), tid, writes) && lsn == old(last)
    {
      lsn := last;
      last := last + 1;
      log := log[lsn := Entry(lsn, tid, writes)];
    }

    method ReplicateTxn(req: S.PendingTxn) returns (m: Message)
      requires n > 0
      ensures m == S.ReplicateMessage(State(), req)
    {
      var entry := if req.lsn in log then log[req.lsn] else Entry(0, 0, map[]);
      m := Message.ReplicateTxn(shard, entry, req.primaryShard % n, req.primaryShard,
                              req.participants, req.hasPreCommit);
    }

    method InvokeReplicateTxn(lsn: nat, tid: nat, hasPreCommit: bool) returns (sends: seq<Message>)
      requires n > 0 && tid in activeTxns
      modifies this`pendingTxns
      ensures (State(), sends) == S.InvokeReplicate(old(State()), lsn, tid, hasPreCommit)
    {
      if tid !in pendingTxns {
        var txn := activeTxns[tid];
        var req := S.PendingTxn(lsn, txn.participants, txn.primaryShard, hasPreCommit, {}, false);
        pendingTxns := pendingTxns[tid := req];
        var m := ReplicateTxn(req);
        sends := [m];
      } else {
        sends := ResendReplicateTxn(tid);
      }
    }

    method ResendReplicateTxn(tid: nat) returns (sends: seq<Message>)
      requires n > 0
      ensures sends == S.Resend(State(), tid)
    {
      sends := [];
      if tid in pendingTxns {
        var m := ReplicateTxn(pendingTxns[tid]);
        sends := [m];
      }
    }

    /** The transaction's counter is taken over from its reads. */
    method TakeCounter(tid: nat) returns (incoming: nat)
      modifies this`inDependency
      ensures incoming == S.Unsigned(S.Waiting(old(State()), tid))
      ensures State() == old(State()).(inDependency := old(inDependency) - {tid})
    {
      incoming := S.Unsigned(if tid in inDependency then inDependency[tid] else 0);
      inDependency := inDependency - {tid};
    }

    method Admit(tid: nat, writes: map<string, string>, participants: seq<nat>, primaryShard: nat, incoming: nat)
      returns (lsn: nat)
      modifies this`activeTxns, this`log, this`last
      ensures State() == S.Admit(old(State()), tid, writes, participants, primaryShard, incoming) && lsn == old(last)
    {
      activeTxns := activeTxns[tid := S.Txn(writes, participants, primaryShard, [], incoming)];
      lsn := AddToLog(tid, writes);
    }

    method HandlePrepareTxn(tid: nat, writes: map<string, string>, participants: seq<nat>, primaryShard: nat,
                            passes: bool)
      returns (sends: seq<Message>)
      requires n > 0
      modifies this`inDependency, this`activeTxns, this`log, this`last, this`pendingTxns
      ensures (State(), sends) == S.HandlePrepare(old(State()), tid, writes, participants, primaryShard, passes)
    {
      sends := [];
      if tid in inDependency && inDependency[tid] == -1 {
        inDependency := inDependency - {tid};
        return;
      }
      if tid in committedTxns {
        return;
      }
      if tid in pendingTxns && pendingTxns[tid].reachConsensus {
        return;
      }
      var incoming := TakeCounter(tid);
      if passes {
        var lsn := Admit(tid, writes, participants, primaryShard, incoming);
        sends := InvokeReplicateTxn(lsn, tid, incoming > 0);
      }
    }

    method HandleReplicateTransactionReply(tid: nat, replica: nat)
      modifies this`pendingTxns
      ensures State() == S.HandleReplicateReply(old(State()), tid, replica)
    {
      if tid !in pendingTxns {
        return;
      }
      var req := pendingTxns[tid];
      if req.reachConsensus {
        return;
      }
      var quorum := req.quorum + {replica};
      pendingTxns := pendingTxns[tid := req.(quorum := quorum, reachConsensus := |quorum| >= f + 1)];
    }

    /** The keys of a read request; `dependencies` is what the store reports for each. */
    method HandleRead(tid: nat, dependencies: seq<nat>)
      modifies this`activeTxns, this`inDependency
      ensures State() == S.HandleRead(old(State()), tid, dependencies)
    {
      var i := 0;
      while i < |dependencies|
        invariant 0 <= i <= |dependencies|
        invariant S.HandleRead(old(State()), tid, dependencies) == S.HandleRead(State(), tid, dependencies[i..])
      {
        var d := dependencies[i];
        assert dependencies[i..][0] == d && dependencies[i..][1..] == dependencies[i + 1..];
        ReadKey(tid, d);
        i := i + 1;
      }
    }

    method ReadKey(tid: nat, dependency: nat)
      modifies this`activeTxns, this`inDependency
      ensures State() == S.ReadKey(old(State()), tid, dependency)
    {
      if dependency > 0 && dependency in activeTxns {
        var txn := activeTxns[dependency];
        activeTxns := activeTxns[dependency := txn.(out := txn.out + [tid])];
        inDependency := inDependency[tid := (if tid in inDependency then inDependency[tid] else 0) + 1];
      }
    }

    method HandleDecisionFromCoordinatorReplica(tid: nat)
      modifies this`precommitted, this`committedTxns
      ensures State() == S.HandleDecision(old(State()), tid)
    {
      if tid !in pendingTxns {
        return;
      }
      precommitted := precommitted + {tid};
      committedTxns := committedTxns + {tid};
    }

    method NotifyForFollowingDependencies(waiters: seq<nat>, coordinator: nat) returns (sends: seq<Message>)
      modifies this`activeTxns, this`inDependency
      ensures State() == S.ReleaseAll(old(State()), waiters, coordinator).0
      ensures sends == S.ReleaseAll(old(State()), waiters, coordinator).1
    {
      sends := [];
      var i := 0;
      assert waiters[0..] == waiters;
      ghost var all := S.ReleaseAll(State(), waiters, coordinator);
      hide S.Release, S.ReleaseAll, S.SameButCounters;
      while i < |waiters|
        invariant 0 <= i <= |waiters|
        invariant Continues(all, sends, S.ReleaseAll(State(), waiters[i..], coordinator))
      {
        ghost var r := State();
        var more := Release(waiters[i], coordinator);
        ReleaseFirst(r, waiters, i, coordinator);
        ContinuesFurther(all, sends, more, S.ReleaseAll(State(), waiters[i + 1..], coordinator));
        sends := sends + more;
        i := i + 1;
      }
      ReleaseNone(State(), waiters[i..], coordinator);
    }

    method Release(waiter: nat, coordinator: nat) returns (sends: seq<Message>)
      modifies this`activeTxns, this`inDependency
      ensures (State(), sends) == S.Release(old(State()), waiter, coordinator)
    {
      sends := [];
      if waiter in activeTxns {
        var txn := activeTxns[waiter];
        if txn.incoming > 0 {
          txn := txn.(incoming := txn.incoming - 1);
        }
        activeTxns := activeTxns[waiter := txn];
        if txn.incoming == 0 {
          sends := [DependenciesCleared(coordinator, waiter, shard)];
        }
      } else {
        inDependency := inDependency[waiter := (if waiter in inDependency then inDependency[waiter] else 0) - 1];
      }
    }

    method HandleCommit(tid: nat, timestamp: nat) returns (sends: seq<Message>)
      requires n > 0
      modifies this`precommitted, this`activeTxns, this`inDependency, this`pendingTxns, this`committedTxns, this`marked
      ensures (State(), sends) == S.HandleCommit(old(State()), tid, timestamp)
    {
      sends := [];
      if tid !in pendingTxns || tid !in activeTxns {
        return;
      }
      var req := pendingTxns[tid];
      var waiters := activeTxns[tid].out;
      precommitted := precommitted - {tid};
      SetStatus(tid);
      var more := NotifyForFollowingDependencies(waiters, req.primaryShard % n);
      sends := [ReplicateCommit(shard, req.lsn, tid, timestamp)] + more;
      Finish(tid);
    }

    /** Log::SetStatus with COMMIT. */
    method SetStatus(lsn: nat)
      modifies this`marked
      ensures State() == S.Mark(old(State()), lsn)
    {
      if lsn in log {
        marked := marked + {lsn};
      }
    }

    method Finish(tid: nat)
      modifies this`pendingTxns, this`activeTxns, this`committedTxns
      ensures State() == old(State()).(pendingTxns := old(pendingTxns) - {tid}, activeTxns := old(activeTxns) - {tid},
                                       committedTxns := old(committedTxns) + {tid})
    {
      pendingTxns := pendingTxns - {tid};
      activeTxns := activeTxns - {tid};
      committedTxns := committedTxns + {tid};
    }

    method HandleReplicateTransaction(m: Message) returns (sends: seq<Message>)
      requires m.ReplicateTxn?
      modifies this`log, this`activeTxns
      ensures (State(), sends) == S.HandleReplicate(old(State()), m)
    {
      var e := m.entry;
      if e.lsn !in log {
        log := log[e.lsn := e];
        activeTxns := activeTxns[e.txn := S.Txn(e.writes, m.participants, 0, [], 0)];
      }
      sends := [ReplicateReply(shard, e.lsn, e.txn, id),
                ReplyAndVote(id, e.txn, shard, id, PREPARED, m.participants, m.primaryShard,
                             m.primaryCoordinator, 0, m.hasPreCommit)];
    }

    method HandleReplicateCommit(tid: nat)
      modifies this`activeTxns
      ensures State() == S.HandleReplicateCommit(old(State()), tid)
    {
      activeTxns := activeTxns - {tid};
    }
  }

  /** `all` is what has been sent so far followed by the outcome of the rest. */
  ghost predicate Continues(all: (S.Replica, seq<Message>), sends: seq<Message>, rest: (S.Replica, seq<Message>)) {
    all.0 == rest.0 && all.1 == sends + rest.1
  }

  lemma ContinuesFurther(all: (S.Replica, seq<Message>), sends: seq<Message>, more: seq<Message>,
                         rest: (S.Replica, seq<Message>))
    requires Continues(all, sends, (rest.0, more + rest.1))
    ensures Continues(all, sends + more, rest)
  {
  }

  lemma ReleaseNone(r: S.Replica, waiters: seq<nat>, c: nat)
    requires waiters == []
    ensures S.ReleaseAll(r, waiters, c) == (r, [])
  {
  }

  lemma ReleaseFirst(r: S.Replica, waiters: seq<nat>, i: nat, c: nat)
    requires i < |waiters|
    ensures
      var (r1, m1) := S.Release(r, waiters[i], c);
      var (r2, m2) := S.ReleaseAll(r1, waiters[i + 1..], c);
      S.ReleaseAll(r, waiters[i..], c) == (r2, m1 + m2)
  {
    assert waiters[i..][0] == waiters[i] && waiters[i..][1..] == waiters[i + 1..];
  }
}
