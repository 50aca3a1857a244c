/** The theorems about every run of a VR group in its first view. */
module VrTheorems {
  import opened ReplicaLog
  import opened Counting
  import opened VrSpec
  import opened VrSystem
  import opened VrInvariant
  import opened VrAgreement
  import opened VrSteps

  lemma InitInv(c: Config)
    requires c.Valid()
    ensures Inv(c, InitSystem(c))
  {
    var y := InitSystem(c);
    assert forall i :: 0 <= i < c.n ==> y.replicas[i].log == Log(1, []) && Requests(y.replicas[i].log.entries) == [];
  }

  lemma ApplyInv(c: Config, y: System, e: Event)
    requires Inv(c, y)
    ensures Apply(c, y, e).Ok? && Inv(c, Apply(c, y, e).value)
  {
    if Enabled(c, y, e) {
      if Where(e) == 0 {
        LeaderReacts(c, y, e);
      } else {
        FollowerReacts(c, y, Where(e), e);
      }
    }
  }

  /** No RPanic and no ASSERT fires in any run, and every reached state satisfies Inv. */
  lemma {:induction false} RunInv(c: Config, events: seq<Event>)
    requires c.Valid()
    ensures Run(c, events).Ok? && Inv(c, Run(c, events).value)
  {
    if events == [] {
      InitInv(c);
    } else {
      RunInv(c, events[..|events| - 1]);
      ApplyInv(c, Run(c, events[..|events| - 1]).value, events[|events| - 1]);
    }
  }

  ghost predicate AllFollow(rs: seq<Replica>) {
    |rs| > 0 && forall k :: 0 <= k < |rs| ==>
      Follows(rs[k], Golden(rs)) && rs[k].lastCommitted <= rs[0].lastCommitted
  }

  lemma RunFollows(c: Config, events: seq<Event>)
    requires c.Valid()
    ensures Run(c, events).Ok?
    ensures
      var rs := Run(c, events).value.replicas;
      AllFollow(rs) && Durable(c, rs) && Increasing(Golden(rs))
  {
    RunInv(c, events);
    var rs := Run(c, events).value.replicas;
    assert forall k :: 0 < k < c.n ==> FollowerOk(rs[k], k, Golden(rs), rs[0].lastCommitted);
  }

  /** Who has all of `history` in its log. */
  ghost function Having(rs: seq<Replica>, history: seq<Request>): set<nat> {
    set k: nat | k < |rs| && history <= Requests(rs[k].log.entries)
  }

  lemma CommittedIsHeld(c: Config, rs: seq<Replica>, op: nat)
    requires AllFollow(rs) && Durable(c, rs) && 0 < op <= rs[0].lastCommitted
    ensures |Having(rs, Golden(rs)[..op])| >= c.f + 1
  {
    var history := Golden(rs)[..op];
    forall k | k in Holders(rs, rs[0].lastCommitted) ensures k in Having(rs, history) {
      assert Follows(rs[k], Golden(rs));
    }
    SubsetSize(Holders(rs, rs[0].lastCommitted), Having(rs, history));
  }

  /** Every replica's log is a prefix of the leader's; what any two replicas have executed
      is the same sequence up to the shorter of the two; whatever any replica has executed is
      in the logs of at least f + 1 replicas. */
  lemma Agreement(c: Config, events: seq<Event>, i: nat, j: nat)
    requires c.Valid() && i < c.n && j < c.n
    ensures Run(c, events).Ok?
    ensures
      var rs := Run(c, events).value.replicas;
      && Requests(rs[i].log.entries) <= Requests(rs[0].log.entries)
      && rs[i].executed <= Requests(rs[i].log.entries)
      && (rs[i].executed <= rs[j].executed || rs[j].executed <= rs[i].executed)
      && (rs[i].executed != [] ==> |Having(rs, rs[i].executed)| >= c.f + 1)
  {
    RunFollows(c, events);
    hide Run, Having, Durable, Increasing;
    var rs := Run(c, events).value.replicas;
    assert forall k :: 0 <= k < c.n ==> rs[k].executed == Golden(rs)[..rs[k].lastCommitted];
    if rs[i].executed != [] {
      CommittedIsHeld(c, rs, rs[i].lastCommitted);
    }
  }

  /** However often a client's request arrives, it is in a log, and executed, at most once,
      and each client's requests are logged in the order of their ids. */
  lemma AtMostOnce(c: Config, events: seq<Event>, i: nat, a: nat, b: nat)
    requires c.Valid() && i < c.n
    ensures Run(c, events).Ok?
    ensures
      var s := Run(c, events).value.replicas[i];
      var logged := Requests(s.log.entries);
      && s.executed <= logged
      && (a < b < |logged| && logged[a].clientid == logged[b].clientid
          ==> logged[a].clientreqid < logged[b].clientreqid)
  {
    RunFollows(c, events);
    var rs := Run(c, events).value.replicas;
    assert Follows(rs[i], Golden(rs));
    IncreasingPrefix(Golden(rs), Requests(rs[i].log.entries));
  }

  /** A reply that carries an opnum was computed by the application from exactly the
      leader's requests up to that opnum, the last of them being the client's, and those are
      in the logs of at least f + 1 replicas. */
  lemma RepliesAreDurable(c: Config, events: seq<Event>, p: Packet)
    requires c.Valid() && Run(c, events).Ok? && p in Run(c, events).value.network
    requires p.msg.ReplyMessage? && p.msg.answer.FromHistory?
    ensures
      var rs := Run(c, events).value.replicas;
      var logged := Requests(rs[0].log.entries);
      && 1 <= p.msg.opnum <= |logged|
      && p.msg.answer.executed == logged[..p.msg.opnum]
      && logged[p.msg.opnum - 1].clientreqid == p.msg.clientreqid
      && |Having(rs, p.msg.answer.executed)| >= c.f + 1
  {
    hide Run, Follows, LeaderOk, FollowersOk, VotesOk, Durable, Having, Increasing;
    RunInv(c, events);
    RunFollows(c, events);
    var rs := Run(c, events).value.replicas;
    assert PacketOk(c, rs, p);
    CommittedIsHeld(c, rs, p.msg.opnum);
  }

  lemma RunStep(c: Config, events: seq<Event>, e: Event)
    requires c.Valid() && Run(c, events).Ok?
    ensures Run(c, events + [e]) == Apply(c, Run(c, events).value, e)
  {
    assert (events + [e])[..|events|] == events;
  }

  /** The leader's answer to a state transfer request. */
  lemma LeaderAnswers(c: Config, y: System, i: nat, p: Packet)
    requires Inv(c, y) && p in y.network && p.msg.RequestStateTransferMessage?
    requires p.src == ReplicaAddress(i) && p.dst == ReplicaAddress(0)
    ensures Apply(c, y, Deliver(p)) == Ok(System(y.replicas, y.network + {AnswerTo(y.replicas[0], i, p.msg)}))
  {
    assert PacketOk(c, y.replicas, p);
    assert y.replicas[0 := y.replicas[0]] == y.replicas;
  }

  ghost function AnswerTo(leader: Replica, i: nat, m: Message): Packet
    requires m.RequestStateTransferMessage?
  {
    Packet(ReplicaAddress(0), ReplicaAddress(i),
           StateTransferMessage(0, leader.lastCommitted, leader.log.Dump(m.opnum + 1)))
  }

  lemma AnswerCatchesUp(c: Config, y: System, i: nat, m: Message, network: set<Packet>)
    requires Inv(c, y) && IsFollower(c, i)
    requires m.RequestStateTransferMessage? && m.opnum <= y.replicas[i].lastCommitted
    requires AnswerTo(y.replicas[0], i, m) in network
    ensures
      var after := Apply(c, System(y.replicas, network), Deliver(AnswerTo(y.replicas[0], i, m)));
      && after.Ok?
      && Requests(after.value.replicas[i].log.entries) == Golden(y.replicas)
      && after.value.replicas[i].executed == y.replicas[0].executed
  {
    InvSize(c, y);
    hide Inv, HandleStateTransfer, Matches, Dominates, TableRepliesOk;
    var leader, s := y.replicas[0], y.replicas[i];
    var golden := Golden(y.replicas);
    InvLeader(c, y);
    InvFollower(c, y, i);
    hide LeaderOk;
    var answer := AnswerTo(leader, i, m).msg;
    DumpIsSlice(leader, golden, m.opnum);
    var b := if answer.entries == [] then s.lastOp + 1 else m.opnum + 1;
    TransferEffect(c, s, i, golden, leader.lastCommitted, answer, b);
  }

  /** One exchange with the leader brings a follower fully up to date, however far behind
      it was and whenever it had asked. */
  lemma StateTransferCatchesUp(c: Config, events: seq<Event>, i: nat, p: Packet)
    requires c.Valid() && IsFollower(c, i) && Run(c, events).Ok?
    requires p in Run(c, events).value.network && p.msg.RequestStateTransferMessage?
    requires p.src == ReplicaAddress(i) && p.dst == ReplicaAddress(0)
    ensures
      var leader := Run(c, events).value.replicas[0];
      var after := Run(c, events + [Deliver(p)] + [Deliver(AnswerTo(leader, i, p.msg))]);
      && after.Ok?
      && Requests(after.value.replicas[i].log.entries) == Requests(leader.log.entries)
      && after.value.replicas[i].executed == leader.executed
  {
    RunInv(c, events);
    var y := Run(c, events).value;
    assert PacketOk(c, y.replicas, p);
    var answer := AnswerTo(y.replicas[0], i, p.msg);
    LeaderAnswers(c, y, i, p);
    RunStep(c, events, Deliver(p));
    RunStep(c, events + [Deliver(p)], Deliver(answer));
    AnswerCatchesUp(c, y, i, p.msg, y.network + {answer});
  }

  // ---- a round without loss commits ---------------------------------------------

  function ApplyAll(c: Config, y: System, events: seq<Event>): Outcome<System>
    requires c.Valid()
    decreases |events|
  {
    if events == [] then Ok(y)
    else
      var y1 :- Apply(c, y, events[0]);
      ApplyAll(c, y1, events[1..])
  }

  lemma {:induction false} RunAppend(c: Config, events: seq<Event>, more: seq<Event>)
    requires c.Valid() && Run(c, events).Ok?
    ensures Run(c, events + more) == ApplyAll(c, Run(c, events).value, more)
    decreases |more|
  {
    hide Apply;
    if more == [] {
      assert events + more == events;
    } else {
      var next := events + [more[0]];
      RunInv(c, next);
      RunStep(c, events, more[0]);
      RunAppend(c, next, more[1..]);
      assert events + more == next + more[1..];
    }
  }

  ghost function PrepareTo(m: Message, i: nat): Packet {
    Packet(ReplicaAddress(0), ReplicaAddress(i), m)
  }

  ghost function AckFrom(m: Message, i: nat): Packet
    requires m.PrepareMessage?
  {
    Packet(ReplicaAddress(i), ReplicaAddress(0), PrepareOKMessage(0, m.opnum, i))
  }

  ghost function Prepares(m: Message, fs: seq<nat>): seq<Event> {
    if fs == [] then [] else [Deliver(PrepareTo(m, fs[0]))] + Prepares(m, fs[1..])
  }

  ghost function Acks(m: Message, fs: seq<nat>): seq<Event>
    requires m.PrepareMessage?
  {
    if fs == [] then [] else [Deliver(AckFrom(m, fs[0]))] + Acks(m, fs[1..])
  }

  /** A follower that misses nothing before the batch accepts it. */
  lemma AcceptsPrepare(c: Config, y: System, m: Message, i: nat)
    requires Inv(c, y) && IsFollower(c, i) && PrepareOk(m, Golden(y.replicas))
    requires m.batchstart <= y.replicas[i].lastOp + 1
    ensures
      var r := HandlePrepare(c, y.replicas[i], ReplicaAddress(0), m);
      && r.Ok? && AckFrom(m, i) in r.value.sent
      && r.value.replica.lastOp == Max(y.replicas[i].lastOp, m.opnum)
  {
    FollowerIsNotLeader(c, y, i);
    var s := y.replicas[i];
    InvLeader(c, y);
    InvFollower(c, y, i);
    hide Inv, LeaderOk, Follows, Matches, AppendBatch;
    if m.opnum > s.lastOp {
      AppendBatchEffect(s, m.batchstart, m.requests, Golden(y.replicas));
    }
  }

  lemma AcceptOne(c: Config, y: System, m: Message, i: nat)
    requires Inv(c, y) && IsFollower(c, i) && m.PrepareMessage? && PrepareTo(m, i) in y.network
    requires m.batchstart <= y.replicas[i].lastOp + 1
    ensures
      var after := Apply(c, y, Deliver(PrepareTo(m, i)));
      && after.Ok? && Inv(c, after.value)
      && AckFrom(m, i) in after.value.network
      && (forall j :: 0 <= j < c.n ==> y.replicas[j].lastOp <= after.value.replicas[j].lastOp)
  {
    ApplyInv(c, y, Deliver(PrepareTo(m, i)));
    assert PacketOk(c, y.replicas, PrepareTo(m, i));
    AcceptsPrepare(c, y, m, i);
    hide HandlePrepare, Inv, PacketOk;
  }

  lemma {:induction false} AllAccept(c: Config, y: System, m: Message, fs: seq<nat>)
    requires Inv(c, y) && m.PrepareMessage?
    requires forall i :: i in fs ==> IsFollower(c, i) && PrepareTo(m, i) in y.network
                                     && m.batchstart <= y.replicas[i].lastOp + 1
    ensures
      var after := ApplyAll(c, y, Prepares(m, fs));
      && after.Ok? && Inv(c, after.value) && y.network <= after.value.network
      && (forall i :: i in fs ==> AckFrom(m, i) in after.value.network)
    decreases |fs|
  {
    hide Apply, Inv, PrepareTo, AckFrom;
    if fs != [] {
      InvSize(c, y);
      AcceptOne(c, y, m, fs[0]);
      var y1 := Apply(c, y, Deliver(PrepareTo(m, fs[0]))).value;
      AllAccept(c, y1, m, fs[1..]);
    }
  }

  ghost function Voters(s: Replica, op: nat): set<nat> {
    if Viewstamp(0, op) in s.prepareOKQuorum then s.prepareOKQuorum[Viewstamp(0, op)].Keys else {}
  }

  lemma CountsAck(c: Config, y: System, m: Message, i: nat)
    requires Inv(c, y) && m.PrepareMessage? && IsFollower(c, i) && m.opnum <= y.replicas[i].lastOp
    ensures
      var r := HandlePrepareOK(c, y.replicas[0], AckFrom(m, i).msg);
      && r.Ok?
      && Voters(r.value.replica, m.opnum) == Voters(y.replicas[0], m.opnum) + {i}
      && y.replicas[0].lastCommitted <= r.value.replica.lastCommitted
      && (|Voters(r.value.replica, m.opnum)| >= c.f ==> m.opnum <= r.value.replica.lastCommitted)
  {
    var s := y.replicas[0];
    InvLeader(c, y);
    InvFollower(c, y, i);
    hide Inv, CommitUpTo, Follows;
    assert c.LeaderIndex(0) == 0;
    var s1 := s.(prepareOKQuorum := AddPrepareOK(s.prepareOKQuorum, AckFrom(m, i).msg));
    assert Voters(s1, m.opnum) == Voters(s, m.opnum) + {i};
    CommitUpToEffect(s1, m.opnum);
  }

  lemma CountOne(c: Config, y: System, m: Message, i: nat)
    requires Inv(c, y) && m.PrepareMessage? && AckFrom(m, i) in y.network
    ensures
      var after := Apply(c, y, Deliver(AckFrom(m, i)));
      && after.Ok? && Inv(c, after.value)
      && Voters(after.value.replicas[0], m.opnum) == Voters(y.replicas[0], m.opnum) + {i}
      && y.replicas[0].lastCommitted <= after.value.replicas[0].lastCommitted
      && (|Voters(after.value.replicas[0], m.opnum)| >= c.f ==> m.opnum <= after.value.replicas[0].lastCommitted)
  {
    ApplyInv(c, y, Deliver(AckFrom(m, i)));
    assert PacketOk(c, y.replicas, AckFrom(m, i));
    CountsAck(c, y, m, i);
    hide HandlePrepareOK, Inv, PacketOk, Voters;
  }

  lemma {:induction false} AllCounted(c: Config, y: System, m: Message, fs: seq<nat>)
    requires Inv(c, y) && m.PrepareMessage?
    requires forall i :: i in fs ==> AckFrom(m, i) in y.network
    ensures
      var after := ApplyAll(c, y, Acks(m, fs));
      && after.Ok? && Inv(c, after.value) && y.network <= after.value.network
      && y.replicas[0].lastCommitted <= after.value.replicas[0].lastCommitted
      && (fs != [] && |Voters(y.replicas[0], m.opnum) + Elements(fs)| >= c.f
          ==> m.opnum <= after.value.replicas[0].lastCommitted)
    decreases |fs|
  {
    hide Apply, Inv, Voters, AckFrom;
    if fs != [] {
      InvSize(c, y);
      CountOne(c, y, m, fs[0]);
      var y1 := Apply(c, y, Deliver(AckFrom(m, fs[0]))).value;
      AllCounted(c, y1, m, fs[1..]);
      assert Voters(y.replicas[0], m.opnum) + Elements(fs) == Voters(y1.replicas[0], m.opnum) + Elements(fs[1..]);
    }
  }

  /** A prepare that reaches f followers none of which misses an earlier operation, and whose
      acknowledgements come back, makes the leader execute every request in it. */
  lemma RoundCommits(c: Config, events: seq<Event>, m: Message, fs: seq<nat>)
    requires c.Valid() && Run(c, events).Ok? && m.PrepareMessage?
    requires fs != [] && |fs| >= c.f && Distinct(fs)
    requires
      var y := Run(c, events).value;
      forall i :: i in fs ==> IsFollower(c, i) && PrepareTo(m, i) in y.network
                              && m.batchstart <= y.replicas[i].lastOp + 1
    ensures
      var after := Run(c, events + Prepares(m, fs) + Acks(m, fs));
      && after.Ok?
      && 1 <= m.batchstart <= m.opnum <= |after.value.replicas[0].executed|
      && after.value.replicas[0].executed[m.batchstart - 1..m.opnum] == m.requests
  {
    hide ApplyAll, Apply, Run;
    RunInv(c, events);
    var y := Run(c, events).value;
    RunAppend(c, events, Prepares(m, fs));
    AllAccept(c, y, m, fs);
    var y1 := Run(c, events + Prepares(m, fs)).value;
    RunAppend(c, events + Prepares(m, fs), Acks(m, fs));
    AllCounted(c, y1, m, fs);
    ElementsSize(fs);
    SubsetSize(Elements(fs), Voters(y1.replicas[0], m.opnum) + Elements(fs));
    var y2 := ApplyAll(c, y1, Acks(m, fs)).value;
    assert PrepareTo(m, fs[0]) in y2.network;
    ExecutedRequests(c, y2, m, fs[0]);
  }

  lemma ExecutedRequests(c: Config, y: System, m: Message, i: nat)
    requires Inv(c, y) && m.PrepareMessage? && PrepareTo(m, i) in y.network
    requires m.opnum <= y.replicas[0].lastCommitted
    ensures 1 <= m.batchstart <= m.opnum <= |y.replicas[0].executed|
    ensures y.replicas[0].executed[m.batchstart - 1..m.opnum] == m.requests
  {
    assert PacketOk(c, y.replicas, PrepareTo(m, i));
  }

  // ----- Entering a view -----

  /** No operation has more than `k` acknowledgements. */
  ghost predicate AtMostAcks(q: QuorumSet, k: nat) {
    forall vs :: vs in q ==> |q[vs]| <= k
  }

  /** PREPAREOKs, one after another. */
  function HandleAcks(c: Config, s: Replica, acks: seq<Message>): Outcome<Replica>
    requires c.Valid() && forall m :: m in acks ==> m.PrepareOKMessage?
    decreases |acks|
  {
    if acks == [] then Ok(s)
    else
      var step :- HandlePrepareOK(c, s, acks[0]);
      HandleAcks(c, step.replica, acks[1..])
  }

  /** What a replica has done for its clients. */
  ghost predicate SameWork(s: Replica, s': Replica) {
    && s'.log == s.log && s'.lastOp == s.lastOp && s'.lastCommitted == s.lastCommitted
    && s'.executed == s.executed && s'.clientTable == s.clientTable && s'.pendingPrepares == s.pendingPrepares
  }

  lemma OneMoreAck(q: QuorumSet, m: Message, k: nat)
    requires m.PrepareOKMessage? && AtMostAcks(q, k)
    ensures AtMostAcks(AddPrepareOK(q, m), k + 1) && AtMostAcks(q, k + 1)
    ensures Viewstamp(m.view, m.opnum) in AddPrepareOK(q, m)
    ensures |AddPrepareOK(q, m)[Viewstamp(m.view, m.opnum)]| <= k + 1
  {
    var vs := Viewstamp(m.view, m.opnum);
    var messages := if vs in q then q[vs] else map[];
    var more := messages[m.replicaidx := m];
    assert more.Keys == messages.Keys + {m.replicaidx};
    assert |more| == |more.Keys| && |messages| == |messages.Keys|;
  }

  /** What becomes of an acknowledgement that makes no quorum. */
  lemma TooFewAnswers(c: Config, s: Replica, m: Message)
    requires c.Valid() && m.PrepareOKMessage?
    requires Viewstamp(m.view, m.opnum) in AddPrepareOK(s.prepareOKQuorum, m)
    requires |AddPrepareOK(s.prepareOKQuorum, m)[Viewstamp(m.view, m.opnum)]| < c.f
    ensures
      var r := HandlePrepareOK(c, s, m);
      || r == Ok(Step(s, {})) || r == Ok(RequestStateTransfer(c, s))
      || r == Ok(Step(s.(prepareOKQuorum := AddPrepareOK(s.prepareOKQuorum, m)), {}))
  {
    hide AddPrepareOK, RequestStateTransfer, CommitUpTo;
  }

  lemma RequestKeepsWork(c: Config, s: Replica)
    ensures SameWork(s, RequestStateTransfer(c, s).replica)
    ensures RequestStateTransfer(c, s).replica.prepareOKQuorum == s.prepareOKQuorum
  {
  }

  lemma OneAck(c: Config, s: Replica, m: Message, k: nat)
    requires c.Valid() && m.PrepareOKMessage? && AtMostAcks(s.prepareOKQuorum, k) && k + 1 < c.f
    ensures
      var r := HandlePrepareOK(c, s, m);
      r.Ok? && SameWork(s, r.value.replica) && AtMostAcks(r.value.replica.prepareOKQuorum, k + 1)
  {
    hide HandlePrepareOK, RequestStateTransfer, AtMostAcks, AddPrepareOK;
    OneMoreAck(s.prepareOKQuorum, m, k);
    TooFewAnswers(c, s, m);
    RequestKeepsWork(c, s);
  }

  lemma {:induction false} TooFewAcks(c: Config, s: Replica, acks: seq<Message>, k: nat)
    requires c.Valid() && AtMostAcks(s.prepareOKQuorum, k) && k + |acks| < c.f
    requires forall m :: m in acks ==> m.PrepareOKMessage?
    ensures HandleAcks(c, s, acks).Ok? && SameWork(s, HandleAcks(c, s, acks).value)
    decreases |acks|
  {
    hide HandlePrepareOK, AtMostAcks;
    if acks != [] {
      OneAck(c, s, acks[0], k);
      TooFewAcks(c, HandlePrepareOK(c, s, acks[0]).value.replica, acks[1..], k + 1);
    }
  }

  /** Entering a view loses nothing of the log, of what has been executed or of the client table,
      and no acknowledgement of an earlier view counts in it: until f have come, nothing is
      executed.  Only a leader's timers go on, and all that is in the log counts as proposed. */
  lemma EnterViewStartsOver(c: Config, s: Replica, newview: nat, acks: seq<Message>)
    requires c.Valid() && |acks| < c.f && forall m :: m in acks ==> m.PrepareOKMessage?
    ensures
      var entered := EnterView(c, s, newview);
      && SameWork(s, entered) && entered.view == newview && entered.status == Normal
      && HandleAcks(c, entered, acks).Ok? && SameWork(s, HandleAcks(c, entered, acks).value)
      && (entered.nullCommitTimer <==> AmLeader(c, entered))
      && (entered.resendPrepareTimer || entered.closeBatchTimer ==> AmLeader(c, entered))
      && BatchRequests(entered, entered.lastBatchEnd + 1) == Ok([])
  {
    TooFewAcks(c, EnterView(c, s, newview), acks, 0);
  }
}
