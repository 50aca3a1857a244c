/** What the first view of a VR group gets done: a client's request is logged, proposed, executed
    and answered; what is committed is announced and executed by the followers; and whoever misses
    something asks for it. */
module VrProgress {
  import opened ReplicaLog
  import opened Counting
  import opened VrSpec
  import opened VrSystem
  import opened VrInvariant
  import opened VrAgreement
  import opened VrSteps
  import opened VrTheorems

  /** The prepare message that ends with the last logged request is on its way to everybody. */
  ghost predicate Proposed(c: Config, y: System, m: Message)
    requires |y.replicas| == c.n > 0
  {
    && PrepareOk(m, Golden(y.replicas)) && m.opnum == |Golden(y.replicas)|
    && forall i: nat :: IsFollower(c, i) ==> PrepareTo(m, i) in y.network
  }

  lemma SentToAll(c: Config, m: Message, i: nat)
    requires IsFollower(c, i)
    ensures Packet(ReplicaAddress(0), ReplicaAddress(i), m) in ToAll(c, 0, m)
  {
  }

  // ----- A request is logged and proposed -----

  /** What becomes of a request that the leader does not know and the application wants
      replicated. */
  ghost predicate LoggedAt(c: Config, s: Replica, client: nat, req: Request, t: Replica, sent: set<Packet>) {
    && Requests(t.log.entries) == Requests(s.log.entries) + [req]
    && t.lastCommitted == s.lastCommitted && t.executed == s.executed
    && t.clientAddresses == s.clientAddresses[req.clientid := ClientAddress(client)]
    && t.nullCommitTimer
    && if t.closeBatchTimer then t.lastBatchEnd == s.lastBatchEnd
       else && t.lastPrepare.PrepareMessage? && t.lastPrepare.opnum == s.lastOp + 1 && t.resendPrepareTimer
            && t.lastPrepare.batchstart == s.lastBatchEnd + 1 && sent == ToAll(c, 0, t.lastPrepare)
  }

  lemma AppendLogs(c: Config, s: Replica, req: Request)
    requires c.Valid() && s.myIdx == 0 && AppendRequest(c, s, req).Ok?
    ensures
      var r := AppendRequest(c, s, req).value;
      && Requests(r.replica.log.entries) == Requests(s.log.entries) + [req]
      && r.replica.lastCommitted == s.lastCommitted && r.replica.executed == s.executed
      && r.replica.clientAddresses == s.clientAddresses && r.replica.nullCommitTimer
      && if r.replica.closeBatchTimer then r.replica.lastBatchEnd == s.lastBatchEnd
         else && r.replica.lastPrepare.PrepareMessage? && r.replica.lastPrepare.opnum == s.lastOp + 1
              && r.replica.resendPrepareTimer
              && r.replica.lastPrepare.batchstart == s.lastBatchEnd + 1 && r.sent == ToAll(c, 0, r.replica.lastPrepare)
  {
    var s1 := s.(lastOp := s.lastOp + 1, log := s.log.Append(Viewstamp(s.view, s.lastOp + 1), req, Prepared));
    assert Requests(s1.log.entries) == Requests(s.log.entries) + [req];
    hide BatchRequests, ToAll;
  }

  lemma RequestLogs(c: Config, y: System, client: nat, req: Request, res: string)
    requires Inv(c, y) && !Known(y.replicas[0], req)
    ensures c.Valid()
    ensures
      var r := HandleRequest(c, y.replicas[0], ClientAddress(client), req, true, res);
      && r.Ok?
      && LoggedAt(c, y.replicas[0], client, Request(req.clientid, req.clientreqid, res), r.value.replica, r.value.sent)
  {
    var s := y.replicas[0];
    InvLeader(c, y);
    NewRequest(c, y, client, req, res);
    AddressKeepsLeaderOk(s, req.clientid, client);
    assert c.LeaderIndex(0) == 0;
    var s1 := s.(clientAddresses := s.clientAddresses[req.clientid := ClientAddress(client)]);
    var s2 := UpdateClientTable(s1, req).value;
    hide Inv, AppendRequest, Follows, Dominates, TableRepliesOk, Increasing;
    AppendLogs(c, s2, Request(req.clientid, req.clientreqid, res));
  }

  /** A new request is in the leader's log, and proposed or about to be. */
  lemma RequestIsLogged(c: Config, events: seq<Event>, client: nat, req: Request, res: string)
    requires c.Valid() && Run(c, events).Ok? && !Known(Run(c, events).value.replicas[0], req)
    ensures
      var y := Run(c, events).value;
      var after := Run(c, events + [ClientRequest(0, client, req, true, res)]);
      && after.Ok? && |after.value.replicas| == c.n
      && Golden(after.value.replicas) == Golden(y.replicas) + [Request(req.clientid, req.clientreqid, res)]
      && (after.value.replicas[0].closeBatchTimer || Proposed(c, after.value, after.value.replicas[0].lastPrepare))
      && forall i: nat :: IsFollower(c, i) ==> after.value.replicas[i] == y.replicas[i]
  {
    hide Run;
    RunInv(c, events);
    var y := Run(c, events).value;
    var e := ClientRequest(0, client, req, true, res);
    RunStep(c, events, e);
    RunInv(c, events + [e]);
    RequestLogs(c, y, client, req, res);
    InvSize(c, y);
    hide Inv, HandleRequest, LoggedAt, Proposed;
    var after := Run(c, events + [e]).value;
    assert after.replicas == y.replicas[0 := after.replicas[0]];
    LoggedSays(c, y.replicas[0], client, Request(req.clientid, req.clientreqid, res), after.replicas[0],
               HandleRequest(c, y.replicas[0], ClientAddress(client), req, true, res).value.sent);
    RequestProposed(c, y, after, client, Request(req.clientid, req.clientreqid, res),
                    HandleRequest(c, y.replicas[0], ClientAddress(client), req, true, res).value.sent);
  }

  lemma LoggedSays(c: Config, s: Replica, client: nat, req: Request, t: Replica, sent: set<Packet>)
    requires LoggedAt(c, s, client, req, t, sent)
    ensures Requests(t.log.entries) == Requests(s.log.entries) + [req]
    ensures t.lastCommitted == s.lastCommitted && req.clientid in t.clientAddresses
    ensures t.clientAddresses[req.clientid] == ClientAddress(client)
    ensures if t.closeBatchTimer then t.lastBatchEnd == s.lastBatchEnd
            else t.lastPrepare.PrepareMessage? && t.lastPrepare.batchstart == s.lastBatchEnd + 1
  {
  }

  lemma RequestProposed(c: Config, y: System, after: System, client: nat, req: Request, sent: set<Packet>)
    requires Inv(c, y) && Inv(c, after) && after.replicas == y.replicas[0 := after.replicas[0]]
    requires after.network == y.network + sent && LoggedAt(c, y.replicas[0], client, req, after.replicas[0], sent)
    ensures after.replicas[0].closeBatchTimer || Proposed(c, after, after.replicas[0].lastPrepare)
  {
    var t := after.replicas[0];
    InvLeader(c, y);
    InvLeader(c, after);
    if !t.closeBatchTimer {
      forall i: nat | IsFollower(c, i) ensures PrepareTo(t.lastPrepare, i) in after.network {
        SentToAll(c, t.lastPrepare, i);
      }
    }
    hide Inv, Follows, Dominates, TableRepliesOk, Increasing;
  }

  // ----- Timers -----

  /** The timer that closes a batch proposes all that has been logged since the last one. */
  lemma TimerProposes(c: Config, events: seq<Event>)
    requires c.Valid() && Run(c, events).Ok? && Run(c, events).value.replicas[0].closeBatchTimer
    ensures
      var y := Run(c, events).value;
      var after := Run(c, events + [CloseBatchTimeout(0)]);
      && after.Ok? && |after.value.replicas| == c.n && Golden(after.value.replicas) == Golden(y.replicas)
      && Proposed(c, after.value, after.value.replicas[0].lastPrepare)
      && after.value.replicas[0].lastPrepare.batchstart == y.replicas[0].lastBatchEnd + 1
      && after.value.replicas[0].resendPrepareTimer
      && after.value.replicas[0].clientAddresses == y.replicas[0].clientAddresses
      && after.value.replicas[0].lastCommitted == y.replicas[0].lastCommitted
      && forall i: nat :: IsFollower(c, i) ==> after.value.replicas[i] == y.replicas[i]
  {
    hide Run;
    RunInv(c, events);
    var y := Run(c, events).value;
    RunStep(c, events, CloseBatchTimeout(0));
    InvLeader(c, y);
    var s := y.replicas[0];
    CloseBatchEffect(c, s);
    hide Inv, Follows, Dominates, TableRepliesOk, Increasing, CloseBatch;
    var t := CloseBatch(c, s).value;
    forall i: nat | IsFollower(c, i) ensures PrepareTo(t.replica.lastPrepare, i) in t.sent {
      SentToAll(c, t.replica.lastPrepare, i);
    }
  }

  /** The resend timer repeats the last proposal, unless all is committed. */
  lemma TimerResends(c: Config, events: seq<Event>, i: nat)
    requires c.Valid() && Run(c, events).Ok? && IsFollower(c, i)
    requires Run(c, events).value.replicas[0].resendPrepareTimer
    requires Run(c, events).value.replicas[0].lastCommitted < Run(c, events).value.replicas[0].lastOp
    ensures
      var y := Run(c, events).value;
      var after := Run(c, events + [ResendPrepareTimeout(0)]);
      && after.Ok? && |after.value.replicas| == c.n && after.value.replicas == y.replicas
      && PrepareOk(y.replicas[0].lastPrepare, Golden(y.replicas))
      && y.replicas[0].lastPrepare.opnum == y.replicas[0].lastBatchEnd
      && PrepareTo(y.replicas[0].lastPrepare, i) in after.value.network
  {
    hide Run;
    RunInv(c, events);
    var y := Run(c, events).value;
    RunStep(c, events, ResendPrepareTimeout(0));
    InvLeader(c, y);
    assert c.LeaderIndex(0) == 0;
    hide Inv, Follows, Dominates, TableRepliesOk, Increasing;
    SentToAll(c, y.replicas[0].lastPrepare, i);
    assert y.replicas[0 := y.replicas[0]] == y.replicas;
  }

  /** The null commit timer tells every follower how far the leader has executed. */
  lemma TimerAnnounces(c: Config, events: seq<Event>, i: nat)
    requires c.Valid() && Run(c, events).Ok? && IsFollower(c, i)
    requires Run(c, events).value.replicas[0].nullCommitTimer
    ensures
      var y := Run(c, events).value;
      var after := Run(c, events + [NullCommitTimeout(0)]);
      && after.Ok? && after.value.replicas == y.replicas
      && Packet(ReplicaAddress(0), ReplicaAddress(i), CommitMessage(0, y.replicas[0].lastCommitted))
           in after.value.network
  {
    hide Run;
    RunInv(c, events);
    var y := Run(c, events).value;
    RunStep(c, events, NullCommitTimeout(0));
    InvLeader(c, y);
    assert c.LeaderIndex(0) == 0;
    hide Inv, Follows, Dominates, TableRepliesOk, Increasing;
    SentToAll(c, CommitMessage(0, y.replicas[0].lastCommitted), i);
    assert y.replicas[0 := y.replicas[0]] == y.replicas;
  }

  // ----- What is executed is answered -----

  ghost function Answer(golden: seq<Request>, op: nat): Message
    requires 1 <= op <= |golden|
  {
    ReplyMessage(0, op, golden[op - 1].clientreqid, FromHistory(golden[..op]))
  }

  lemma {:induction false} CommitUpToAnswers(s: Replica, upto: nat, op: nat)
    requires Coherent(s) && FirstViewLog(s.log) && AddressesAreClients(s) && s.lastCommitted < op <= upto <= s.lastOp
    requires Requests(s.log.entries)[op - 1].clientid in s.clientAddresses
    ensures CommitUpTo(s, upto).Ok?
    ensures
      var reqs := Requests(s.log.entries);
      Packet(ReplicaAddress(s.myIdx), s.clientAddresses[reqs[op - 1].clientid], Answer(reqs, op)) in
        CommitUpTo(s, upto).value.sent
    decreases upto - s.lastCommitted
  {
    CommitNextEffect(s);
    CommitUpToEffect(s, upto);
    var one := CommitNext(s).value;
    var k := s.lastCommitted;
    assert s.log.Find(k + 1) == Some(s.log.entries[k]);
    assert Requests(one.replica.log.entries) == Requests(s.log.entries);
    if op == k + 1 {
      assert Requests(s.log.entries)[..op] == s.executed + [s.log.entries[k].request];
    } else {
      CommitUpToAnswers(one.replica, upto, op);
    }
  }

  /** Operation `op` is of this client; once executed, it has been answered to this address. */
  ghost predicate Answered(y: System, op: nat, clientid: nat, client: nat) {
    && |y.replicas| > 0 && 1 <= op <= |Golden(y.replicas)|
    && var s, golden := y.replicas[0], Golden(y.replicas);
       && golden[op - 1].clientid == clientid
       && clientid in s.clientAddresses && s.clientAddresses[clientid] == ClientAddress(client)
       && (op <= s.lastCommitted ==>
             Packet(ReplicaAddress(0), ClientAddress(client), Answer(golden, op)) in y.network)
  }

  /** No request of the client comes from another address. */
  ghost predicate SameAddress(e: Event, clientid: nat, client: nat) {
    e.ClientRequest? && e.req.clientid == clientid ==> e.client == client
  }

  /** What an event other than an acknowledgement does to the leader. */
  ghost predicate Quiet(s: Replica, t: Replica, clientid: nat) {
    && Requests(s.log.entries) <= Requests(t.log.entries) && t.lastCommitted == s.lastCommitted
    && (clientid in s.clientAddresses ==>
          clientid in t.clientAddresses && t.clientAddresses[clientid] == s.clientAddresses[clientid])
  }

  lemma AnsweredStays(y: System, z: System, op: nat, clientid: nat, client: nat)
    requires Answered(y, op, clientid, client) && |z.replicas| > 0 && y.network <= z.network
    requires Quiet(y.replicas[0], z.replicas[0], clientid)
    ensures Answered(z, op, clientid, client)
  {
    SlicePrefix(Golden(y.replicas), Golden(z.replicas), 0, op);
  }

  ghost function WithVote(s: Replica, m: Message): Replica
    requires m.PrepareOKMessage?
  {
    s.(prepareOKQuorum := AddPrepareOK(s.prepareOKQuorum, m))
  }

  /** What an acknowledgement does to the leader: below a quorum it is counted; with a quorum all up
      to its opnum is executed and answered, and when the quorum is just complete the followers
      are told. */
  lemma AckEffect(c: Config, y: System, p: Packet)
    requires Inv(c, y) && PacketOk(c, y.replicas, p) && p.msg.PrepareOKMessage?
    ensures c.Valid()
    ensures
      var s, m := y.replicas[0], p.msg;
      var r := HandlePrepareOK(c, s, m);
      var votes := |Voters(WithVote(s, m), m.opnum)|;
      && r.Ok? && Requests(r.value.replica.log.entries) == Golden(y.replicas)
      && r.value.replica.clientAddresses == s.clientAddresses
      && (votes < c.f ==> r.value == Step(WithVote(s, m), {}))
      && (votes >= c.f ==>
            && CommitUpTo(WithVote(s, m), m.opnum).Ok?
            && r.value.replica.lastCommitted == Max(s.lastCommitted, m.opnum)
            && CommitUpTo(WithVote(s, m), m.opnum).value.sent <= r.value.sent)
      && (votes == c.f ==> ToAll(c, 0, CommitMessage(0, r.value.replica.lastCommitted)) <= r.value.sent)
  {
    VotedLeader(c, y, p);
    var s, m := y.replicas[0], p.msg;
    var s1 := WithVote(s, m);
    CommitUpToEffect(s1, m.opnum);
    var done := CommitUpTo(s1, m.opnum).value;
    assert Requests(done.replica.log.entries) == Requests(s.log.entries);
    assert |Voters(s1, m.opnum)| == |s1.prepareOKQuorum[Viewstamp(0, m.opnum)]|;
    hide CommitUpTo, Inv, LeaderOk, Coherent, AddPrepareOK, ToAll;
  }

  lemma AckAnswers(c: Config, y: System, p: Packet, op: nat, clientid: nat, client: nat)
    requires Inv(c, y) && Answered(y, op, clientid, client) && p in y.network && p.msg.PrepareOKMessage?
    requires p.dst == ReplicaAddress(0)
    ensures
      var z := Apply(c, y, Deliver(p));
      z.Ok? && Answered(z.value, op, clientid, client)
  {
    InvPacket(c, y, p);
    AckEffect(c, y, p);
    VotedLeader(c, y, p);
    var s, m := y.replicas[0], p.msg;
    if s.lastCommitted < op <= m.opnum {
      LeaderAnswersUpTo(WithVote(s, m), m.opnum, op);
    }
    hide CommitUpTo, LeaderOk, Inv, HandlePrepareOK, PacketOk, VotesOk, Durable, Voters, AddPrepareOK;
  }

  lemma LeaderAnswersUpTo(s: Replica, upto: nat, op: nat)
    requires LeaderOk(s) && s.lastCommitted < op <= upto <= s.lastOp
    requires Requests(s.log.entries)[op - 1].clientid in s.clientAddresses
    ensures CommitUpTo(s, upto).Ok?
    ensures
      var reqs := Requests(s.log.entries);
      Packet(ReplicaAddress(0), s.clientAddresses[reqs[op - 1].clientid], Answer(reqs, op)) in
        CommitUpTo(s, upto).value.sent
  {
    CommitUpToAnswers(s, upto, op);
  }

  lemma OtherEventsAreQuiet(c: Config, y: System, e: Event, clientid: nat, client: nat)
    requires Inv(c, y) && Enabled(c, y, e) && Where(e) == 0 && !(e.Deliver? && e.packet.msg.PrepareOKMessage?)
    requires SameAddress(e, clientid, client)
    requires clientid in y.replicas[0].clientAddresses
    requires y.replicas[0].clientAddresses[clientid] == ClientAddress(client)
    ensures
      var z := Apply(c, y, e);
      z.Ok? && Quiet(y.replicas[0], z.value.replicas[0], clientid)
  {
    var s := y.replicas[0];
    assert c.LeaderIndex(0) == 0;
    InvLeader(c, y);
    LeaderReacts(c, y, e);
    hide Inv, Follows, Dominates, TableRepliesOk, Increasing, HandlePrepareOK;
    match e
    case ClientRequest(_, from, req, replicate, res) =>
      RequestIsQuiet(c, y, from, req, replicate, res, clientid);
    case Deliver(p) =>
      InvPacket(c, y, p);
    case CloseBatchTimeout(_) =>
      CloseBatchEffect(c, s);
      hide CloseBatch;
    case _ =>
  }

  lemma RequestIsQuiet(c: Config, y: System, client: nat, req: Request, replicate: bool, res: string, clientid: nat)
    requires Inv(c, y)
    requires clientid == req.clientid && clientid in y.replicas[0].clientAddresses ==>
      y.replicas[0].clientAddresses[clientid] == ClientAddress(client)
    ensures c.Valid()
    ensures
      var r := HandleRequest(c, y.replicas[0], ClientAddress(client), req, replicate, res);
      r.Ok? && Quiet(y.replicas[0], r.value.replica, clientid)
  {
    hide Inv, HandleRequest, Keeps, Follows, Dominates, TableRepliesOk, Increasing;
    InvLeader(c, y);
    if replicate && !Known(y.replicas[0], req) {
      RequestLogs(c, y, client, req, res);
    } else {
      hide Known;
      NotLogged(c, y.replicas[0], client, req, replicate, res, clientid);
      LeaderRequest(c, y, client, req, replicate, res);
    }
  }

  lemma NotLogged(c: Config, s: Replica, client: nat, req: Request, replicate: bool, res: string, clientid: nat)
    requires c.Valid() && s.view == 0 && s.myIdx == 0 && (Known(s, req) || !replicate)
    requires clientid == req.clientid && clientid in s.clientAddresses ==>
      s.clientAddresses[clientid] == ClientAddress(client)
    ensures
      var r := HandleRequest(c, s, ClientAddress(client), req, replicate, res);
      r.Ok? && Quiet(s, r.value.replica, clientid)
  {
    hide AppendRequest;
  }

  lemma StepAnswers(c: Config, y: System, e: Event, op: nat, clientid: nat, client: nat)
    requires Inv(c, y) && Answered(y, op, clientid, client) && SameAddress(e, clientid, client)
    ensures Apply(c, y, e).Ok? && Answered(Apply(c, y, e).value, op, clientid, client)
  {
    ApplyInv(c, y, e);
    InvSize(c, y);
    var z := Apply(c, y, e).value;
    if Enabled(c, y, e) {
      if Where(e) != 0 {
        assert z.replicas[0] == y.replicas[0];
        hide Apply, Inv;
        AnsweredStays(y, z, op, clientid, client);
      } else if e.Deliver? && e.packet.msg.PrepareOKMessage? {
        hide Answered;
        AckAnswers(c, y, e.packet, op, clientid, client);
      } else {
        OtherEventsAreQuiet(c, y, e, clientid, client);
        hide Apply, Inv;
        AnsweredStays(y, z, op, clientid, client);
      }
    }
  }

  lemma {:induction false} ApplyAllAnswers(c: Config, y: System, events: seq<Event>, op: nat, clientid: nat,
                                           client: nat)
    requires Inv(c, y) && Answered(y, op, clientid, client)
    requires forall i :: 0 <= i < |events| ==> SameAddress(events[i], clientid, client)
    ensures
      var z := ApplyAll(c, y, events);
      z.Ok? && Inv(c, z.value) && Answered(z.value, op, clientid, client)
    decreases |events|
  {
    hide Inv, Answered, Apply, SameAddress;
    if events != [] {
      ApplyInv(c, y, events[0]);
      StepAnswers(c, y, events[0], op, clientid, client);
      ApplyAllAnswers(c, Apply(c, y, events[0]).value, events[1..], op, clientid, client);
    }
  }

  /** A request that was new to the leader is answered to its client as soon as the leader has
      executed it, whatever happens in between, unless the client turns up elsewhere. */
  lemma AnswerComes(c: Config, events: seq<Event>, client: nat, req: Request, res: string, more: seq<Event>)
    requires c.Valid() && Run(c, events).Ok? && !Known(Run(c, events).value.replicas[0], req)
    requires forall i :: 0 <= i < |more| ==> SameAddress(more[i], req.clientid, client)
    ensures
      var op := Run(c, events).value.replicas[0].lastOp + 1;
      var after := Run(c, events + [ClientRequest(0, client, req, true, res)] + more);
      && after.Ok? && |after.value.replicas| > 0 && 1 <= op <= |Golden(after.value.replicas)|
      && Golden(after.value.replicas)[op - 1] == Request(req.clientid, req.clientreqid, res)
      && (op <= after.value.replicas[0].lastCommitted ==>
            Packet(ReplicaAddress(0), ClientAddress(client), Answer(Golden(after.value.replicas), op))
                 in after.value.network)
  {
    hide Run, Inv;
    var e := ClientRequest(0, client, req, true, res);
    RunInv(c, events);
    RequestStarts(c, events, client, req, res);
    var y := Run(c, events + [e]).value;
    RunInv(c, events + [e]);
    var op := Run(c, events).value.replicas[0].lastOp + 1;
    RunAppend(c, events + [e], more);
    ApplyAllAnswers(c, y, more, op, req.clientid, client);
    RunInv(c, events + [e] + more);
    GoldenStays(c, events + [e], more);
  }

  lemma RequestStarts(c: Config, events: seq<Event>, client: nat, req: Request, res: string)
    requires c.Valid() && Run(c, events).Ok? && !Known(Run(c, events).value.replicas[0], req)
    ensures
      var y := Run(c, events).value;
      var after := Run(c, events + [ClientRequest(0, client, req, true, res)]);
      && after.Ok? && Answered(after.value, y.replicas[0].lastOp + 1, req.clientid, client)
      && Golden(after.value.replicas) == Golden(y.replicas) + [Request(req.clientid, req.clientreqid, res)]
      && y.replicas[0].lastOp == |Golden(y.replicas)|
      && after.value.replicas[0].lastCommitted == y.replicas[0].lastCommitted <= |Golden(y.replicas)|
      && if after.value.replicas[0].closeBatchTimer
         then after.value.replicas[0].lastBatchEnd == y.replicas[0].lastBatchEnd
         else && after.value.replicas[0].lastPrepare.PrepareMessage?
              && after.value.replicas[0].lastPrepare.batchstart == y.replicas[0].lastBatchEnd + 1
  {
    hide Run;
    RunInv(c, events);
    var y := Run(c, events).value;
    var e := ClientRequest(0, client, req, true, res);
    RunStep(c, events, e);
    InvLeader(c, y);
    RequestLogs(c, y, client, req, res);
    hide Inv, HandleRequest, LoggedAt;
    var r := HandleRequest(c, y.replicas[0], ClientAddress(client), req, true, res).value;
    LoggedSays(c, y.replicas[0], client, Request(req.clientid, req.clientreqid, res), r.replica, r.sent);
    hide Dominates, TableRepliesOk, Increasing;
  }

  /** What is logged stays logged. */
  lemma {:induction false} GoldenStays(c: Config, events: seq<Event>, more: seq<Event>)
    requires c.Valid()
    ensures Run(c, events).Ok? && Run(c, events + more).Ok?
    ensures |Run(c, events).value.replicas| > 0 && |Run(c, events + more).value.replicas| > 0
    ensures Golden(Run(c, events).value.replicas) <= Golden(Run(c, events + more).value.replicas)
    decreases |more|
  {
    hide Run, Inv, Apply;
    RunInv(c, events);
    RunInv(c, events + more);
    InvSize(c, Run(c, events).value);
    if more == [] {
      assert events + more == events;
    } else {
      var init, e := more[..|more| - 1], more[|more| - 1];
      GoldenStays(c, events, init);
      RunInv(c, events + init);
      RunStep(c, events + init, e);
      assert events + more == events + init + [e];
      GoldenGrows(c, Run(c, events + init).value, e);
    }
  }

  lemma GoldenGrows(c: Config, y: System, e: Event)
    requires Inv(c, y)
    ensures Apply(c, y, e).Ok? && |Apply(c, y, e).value.replicas| == |y.replicas| > 0
    ensures Golden(y.replicas) <= Golden(Apply(c, y, e).value.replicas)
  {
    ApplyInv(c, y, e);
    InvLeader(c, y);
    var s := y.replicas[0];
    if Enabled(c, y, e) && Where(e) == 0 {
      if e.Deliver? && e.packet.msg.PrepareOKMessage? {
        InvPacket(c, y, e.packet);
        AckEffect(c, y, e.packet);
        hide HandlePrepareOK, Inv, CommitUpTo;
      } else if e.ClientRequest? {
        RequestIsQuiet(c, y, e.client, e.req, e.replicate, e.res, e.req.clientid + 1);
        hide HandleRequest, Inv;
      } else {
        assert c.LeaderIndex(0) == 0;
        if e.Deliver? {
          InvPacket(c, y, e.packet);
        } else if e.CloseBatchTimeout? {
          CloseBatchEffect(c, s);
          hide CloseBatch;
        }
        hide Inv, Follows, Dominates, TableRepliesOk, Increasing, HandlePrepareOK;
      }
    }
  }

  // ----- From request to reply -----

  ghost predicate NoRequests(events: seq<Event>) {
    forall i :: 0 <= i < |events| ==> !events[i].ClientRequest?
  }

  lemma {:induction false} RoundHasNoRequests(m: Message, fs: seq<nat>)
    requires m.PrepareMessage?
    ensures NoRequests(Prepares(m, fs)) && NoRequests(Acks(m, fs))
  {
    if fs != [] {
      RoundHasNoRequests(m, fs[1..]);
    }
  }

  /** A state in which the leader's whole log is proposed, reached without further requests. */
  lemma ProposeAll(c: Config, events: seq<Event>) returns (more: seq<Event>)
    requires c.Valid() && Run(c, events).Ok? && |Run(c, events).value.replicas| == c.n
    requires
      var y := Run(c, events).value;
      y.replicas[0].closeBatchTimer || Proposed(c, y, y.replicas[0].lastPrepare)
    ensures NoRequests(more) && Run(c, events + more).Ok? && |Run(c, events + more).value.replicas| == c.n
    ensures
      var y, z := Run(c, events).value, Run(c, events + more).value;
      && Golden(z.replicas) == Golden(y.replicas) && Proposed(c, z, z.replicas[0].lastPrepare)
      && z.replicas[0].lastPrepare.batchstart
         == (if y.replicas[0].closeBatchTimer then y.replicas[0].lastBatchEnd + 1
             else y.replicas[0].lastPrepare.batchstart)
      && forall i: nat :: IsFollower(c, i) ==> z.replicas[i] == y.replicas[i]
  {
    hide Run;
    if Run(c, events).value.replicas[0].closeBatchTimer {
      TimerProposes(c, events);
      more := [CloseBatchTimeout(0)];
    } else {
      more := [];
      assert events + more == events;
    }
  }

  /** A client's request that is new to the leader can be brought to its execution and its reply: the
      batch it is in is closed, the proposal reaches `fs`, f followers that have accepted what was
      proposed before, and their acknowledgements return. */
  lemma RequestIsExecuted(c: Config, events: seq<Event>, client: nat, req: Request, res: string, fs: seq<nat>)
    returns (more: seq<Event>)
    requires c.Valid() && Run(c, events).Ok? && !Known(Run(c, events).value.replicas[0], req)
    requires fs != [] && |fs| >= c.f && Distinct(fs)
    requires
      var y := Run(c, events).value;
      forall i :: i in fs ==> IsFollower(c, i) && y.replicas[0].lastBatchEnd <= y.replicas[i].lastOp
    ensures NoRequests(more)
    ensures
      var op := Run(c, events).value.replicas[0].lastOp + 1;
      var after := Run(c, events + [ClientRequest(0, client, req, true, res)] + more);
      && after.Ok? && |after.value.replicas| > 0 && op <= |after.value.replicas[0].executed|
      && op <= |Golden(after.value.replicas)|
      && after.value.replicas[0].executed[op - 1] == Request(req.clientid, req.clientreqid, res)
      && Packet(ReplicaAddress(0), ClientAddress(client), Answer(Golden(after.value.replicas), op))
           in after.value.network
  {
    hide Run, Inv, Proposed, Answered;
    var e := ClientRequest(0, client, req, true, res);
    var first := events + [e];
    RequestIsLogged(c, events, client, req, res);
    RequestStarts(c, events, client, req, res);
    var closing := ProposeAll(c, first);
    var z := Run(c, first + closing).value;
    var m := z.replicas[0].lastPrepare;
    assert Proposed(c, z, m);
    ProposedSays(c, z, m);
    RoundHasNoRequests(m, fs);
    RoundCommits(c, first + closing, m, fs);
    more := closing + Prepares(m, fs) + Acks(m, fs);
    assert first + closing + Prepares(m, fs) + Acks(m, fs) == first + more;
    AnswerComes(c, events, client, req, res, more);
    RunInv(c, first + more);
    ExecutedIsCommitted(c, Run(c, first + more).value);
  }

  lemma ProposedSays(c: Config, y: System, m: Message)
    requires |y.replicas| == c.n > 0 && Proposed(c, y, m)
    ensures m.PrepareMessage? && m.opnum == |Golden(y.replicas)| && 1 <= m.batchstart <= m.opnum
    ensures forall i: nat :: IsFollower(c, i) ==> PrepareTo(m, i) in y.network
  {
  }

  lemma ExecutedIsCommitted(c: Config, y: System)
    requires Inv(c, y)
    ensures |y.replicas| == c.n > 0
    ensures y.replicas[0].executed == Golden(y.replicas)[..y.replicas[0].lastCommitted]
    ensures y.replicas[0].lastCommitted <= |Golden(y.replicas)|
  {
    InvLeader(c, y);
  }

  // ----- Requests that are not logged -----

  /** What the leader does with a request it knows, or that the application refuses: a stale one is
      dropped, a repeated one gets the stored reply once there is one, a refused one gets the
      application's answer; nothing is logged. */
  lemma OtherRequests(c: Config, events: seq<Event>, client: nat, req: Request, replicate: bool, res: string)
    requires c.Valid() && Run(c, events).Ok? && |Run(c, events).value.replicas| == c.n
    requires Known(Run(c, events).value.replicas[0], req) || !replicate
    ensures
      var y := Run(c, events).value;
      var s := y.replicas[0];
      var after := Run(c, events + [ClientRequest(0, client, req, replicate, res)]);
      && after.Ok? && |after.value.replicas| == c.n && Golden(after.value.replicas) == Golden(y.replicas)
      && (Known(s, req) ==>
            var e := s.clientTable[req.clientid];
            after.value.network ==
              y.network + (if req.clientreqid == e.lastReqId && e.replied && e.reply.Some?
                           then {Packet(ReplicaAddress(0), ClientAddress(client), e.reply.value)} else {}))
      && (!Known(s, req) ==>
            && after.value.network == y.network + {Refusal(client, req, res)}
            && Stored(after.value.replicas[0], req.clientid, Refusal(client, req, res).msg))
  {
    hide Run;
    RunInv(c, events);
    var y := Run(c, events).value;
    InvLeader(c, y);
    RunStep(c, events, ClientRequest(0, client, req, replicate, res));
    LeaderRequest(c, y, client, req, replicate, res);
    assert c.LeaderIndex(0) == 0;
    hide Inv, Follows, Dominates, TableRepliesOk, Increasing, AppendRequest;
  }

  ghost function Refusal(client: nat, req: Request, res: string): Packet {
    Packet(ReplicaAddress(0), ClientAddress(client), ReplyMessage(0, 0, req.clientreqid, FromUpcall(res)))
  }

  ghost predicate Stored(s: Replica, clientid: nat, reply: Message)
    requires reply.ReplyMessage?
  {
    clientid in s.clientTable && s.clientTable[clientid] == ClientEntry(reply.clientreqid, true, Some(reply))
  }

  /** Executing an operation stores its reply for the client, unless the client has a later request
      by now. */
  lemma {:induction false} CommitUpToStores(s: Replica, upto: nat, op: nat)
    requires Coherent(s) && FirstViewLog(s.log) && AddressesAreClients(s) && s.lastCommitted < op <= upto <= s.lastOp
    requires
      var reqs := Requests(s.log.entries);
      forall k :: op <= k < upto ==> reqs[k].clientid != reqs[op - 1].clientid
    requires
      var req := Requests(s.log.entries)[op - 1];
      req.clientid in s.clientTable && s.clientTable[req.clientid].lastReqId == req.clientreqid
    requires
      var reqs := Requests(s.log.entries);
      forall k :: 0 <= k < op - 1 && reqs[k].clientid == reqs[op - 1].clientid ==>
        reqs[k].clientreqid < reqs[op - 1].clientreqid
    ensures CommitUpTo(s, upto).Ok?
    ensures
      var reqs := Requests(s.log.entries);
      Stored(CommitUpTo(s, upto).value.replica, reqs[op - 1].clientid, Answer(reqs, op))
    decreases upto - s.lastCommitted
  {
    CommitNextEffect(s);
    CommitUpToEffect(s, upto);
    var one := CommitNext(s).value;
    var k := s.lastCommitted;
    var reqs := Requests(s.log.entries);
    assert s.log.Find(k + 1) == Some(s.log.entries[k]);
    assert Requests(one.replica.log.entries) == reqs;
    if op == k + 1 {
      assert reqs[..op] == s.executed + [s.log.entries[k].request];
      StaysStored(one.replica, upto, reqs[op - 1].clientid, Answer(reqs, op));
    } else {
      CommitUpToStores(one.replica, upto, op);
    }
  }

  lemma {:induction false} StaysStored(s: Replica, upto: nat, clientid: nat, reply: Message)
    requires Coherent(s) && AddressesAreClients(s) && upto <= s.lastOp && reply.ReplyMessage?
    requires Stored(s, clientid, reply)
    requires forall k :: s.lastCommitted <= k < upto ==> Requests(s.log.entries)[k].clientid != clientid
    ensures CommitUpTo(s, upto).Ok? && Stored(CommitUpTo(s, upto).value.replica, clientid, reply)
    decreases upto - s.lastCommitted
  {
    if s.lastCommitted < upto {
      CommitNextEffect(s);
      var one := CommitNext(s).value;
      var k := s.lastCommitted;
      assert s.log.Find(k + 1) == Some(s.log.entries[k]);
      assert Requests(one.replica.log.entries) == Requests(s.log.entries);
      StaysStored(one.replica, upto, clientid, reply);
    }
  }

  // ----- Followers -----

  /** A commit message makes a follower that has the operations execute them. */
  lemma FollowerExecutes(c: Config, events: seq<Event>, i: nat, p: Packet)
    requires c.Valid() && Run(c, events).Ok? && IsFollower(c, i) && |Run(c, events).value.replicas| == c.n
    requires p in Run(c, events).value.network && p.msg.CommitMessage? && p.dst == ReplicaAddress(i)
    requires p.msg.opnum <= Run(c, events).value.replicas[i].lastOp
    ensures
      var y := Run(c, events).value;
      var after := Run(c, events + [Deliver(p)]);
      && after.Ok? && |after.value.replicas| == c.n && p.msg.opnum <= |Golden(y.replicas)|
      && after.value.replicas[i].lastCommitted == Max(y.replicas[i].lastCommitted, p.msg.opnum)
      && Golden(y.replicas)[..p.msg.opnum] <= after.value.replicas[i].executed
  {
    hide Run;
    RunInv(c, events);
    var y := Run(c, events).value;
    RunStep(c, events, Deliver(p));
    InvPacket(c, y, p);
    FollowerIsNotLeader(c, y, i);
    InvFollower(c, y, i);
    var s := y.replicas[i];
    CommitUpToEffect(s, p.msg.opnum);
    var t := if p.msg.opnum <= s.lastCommitted then s else CommitUpTo(s, p.msg.opnum).value.replica;
    assert t.executed == Requests(t.log.entries)[..t.lastCommitted];
    assert Requests(t.log.entries) == Requests(s.log.entries);
    SlicePrefix(Requests(s.log.entries), Golden(y.replicas), 0, p.msg.opnum);
    hide Inv, CommitUpTo, Coherent, Matches;
  }

  /** The acknowledgement that completes a quorum makes the leader tell every follower. */
  lemma QuorumIsAnnounced(c: Config, events: seq<Event>, p: Packet, i: nat)
    requires c.Valid() && Run(c, events).Ok? && IsFollower(c, i) && |Run(c, events).value.replicas| == c.n
    requires p in Run(c, events).value.network && p.msg.PrepareOKMessage? && p.dst == ReplicaAddress(0)
    requires |Voters(WithVote(Run(c, events).value.replicas[0], p.msg), p.msg.opnum)| == c.f
    ensures
      var after := Run(c, events + [Deliver(p)]);
      && after.Ok? && |after.value.replicas| == c.n && p.msg.opnum <= after.value.replicas[0].lastCommitted
      && Packet(ReplicaAddress(0), ReplicaAddress(i), CommitMessage(0, after.value.replicas[0].lastCommitted))
           in after.value.network
  {
    hide Run;
    RunInv(c, events);
    var y := Run(c, events).value;
    RunStep(c, events, Deliver(p));
    InvPacket(c, y, p);
    AckEffect(c, y, p);
    hide Inv, HandlePrepareOK, CommitUpTo, Voters, WithVote;
    SentToAll(c, CommitMessage(0, Run(c, events + [Deliver(p)]).value.replicas[0].lastCommitted), i);
  }

  // ----- What is missing is asked for -----

  ghost function Ask(i: nat, op: nat): Packet {
    Packet(ReplicaAddress(i), ReplicaAddress(0), RequestStateTransferMessage(0, op))
  }

  /** A message that tells follower `i` of operations it does not have, and cannot take yet. */
  ghost predicate ShowsGap(s: Replica, m: Message) {
    || (m.PrepareMessage? && m.batchstart > s.lastOp + 1)
    || (m.CommitMessage? && m.opnum > s.lastOp)
  }

  lemma AskSends(c: Config, s: Replica, i: nat)
    requires IsFollower(c, i) && s.myIdx == i && s.view == 0 && s.lastRequestStateTransferOpnum == 0
    ensures Ask(i, s.lastCommitted) in RequestStateTransfer(c, s).sent
  {
  }

  lemma GapAsks(c: Config, y: System, i: nat, p: Packet)
    requires Inv(c, y) && IsFollower(c, i) && p in y.network && p.dst == ReplicaAddress(i)
    requires ShowsGap(y.replicas[i], p.msg) && y.replicas[i].lastRequestStateTransferOpnum == 0
    ensures
      var after := Apply(c, y, Deliver(p));
      after.Ok? && Ask(i, y.replicas[i].lastCommitted) in after.value.network
  {
    ApplyInv(c, y, Deliver(p));
    InvPacket(c, y, p);
    FollowerIsNotLeader(c, y, i);
    InvFollower(c, y, i);
    AskSends(c, y.replicas[i], i);
    hide Inv, Follows, Matches, RequestStateTransfer;
  }

  /** A follower that is told of operations it misses asks for them, and one exchange with the
      leader then brings it level: the state transfer timer, the message, the request and the
      answer. */
  lemma GapIsFilled(c: Config, events: seq<Event>, i: nat, p: Packet)
    requires c.Valid() && Run(c, events).Ok? && IsFollower(c, i) && |Run(c, events).value.replicas| == c.n
    requires p in Run(c, events).value.network && p.dst == ReplicaAddress(i)
    requires ShowsGap(Run(c, events).value.replicas[i], p.msg)
    ensures
      var y := Run(c, events).value;
      var asked := events + [StateTransferTimeout(i)] + [Deliver(p)];
      var q := Ask(i, y.replicas[i].lastCommitted);
      && Run(c, asked).Ok? && |Run(c, asked).value.replicas| == c.n && Run(c, asked).value.replicas[0] == y.replicas[0]
      && q in Run(c, asked).value.network
      && var after := Run(c, asked + [Deliver(q)] + [Deliver(AnswerTo(y.replicas[0], i, q.msg))]);
         && after.Ok? && Requests(after.value.replicas[i].log.entries) == Golden(y.replicas)
         && after.value.replicas[i].executed == y.replicas[0].executed
  {
    hide Run, Apply;
    RunInv(c, events);
    var y := Run(c, events).value;
    var reset := events + [StateTransferTimeout(i)];
    RunStep(c, events, StateTransferTimeout(i));
    ResetForgets(c, y, i);
    RunInv(c, reset);
    var z := Run(c, reset).value;
    GapAsks(c, z, i, p);
    RunStep(c, reset, Deliver(p));
    LeaderUntouched(c, z, i, p);
    StateTransferCatchesUp(c, reset + [Deliver(p)], i, Ask(i, y.replicas[i].lastCommitted));
  }

  lemma ResetForgets(c: Config, y: System, i: nat)
    requires Inv(c, y) && IsFollower(c, i)
    ensures
      var after := Apply(c, y, StateTransferTimeout(i));
      && after.Ok? && |after.value.replicas| == c.n && after.value.network == y.network
      && after.value.replicas[0] == y.replicas[0]
      && after.value.replicas[i] ==
           y.replicas[i].(lastRequestStateTransferView := 0, lastRequestStateTransferOpnum := 0)
  {
    hide Inv;
    InvSize(c, y);
  }

  lemma LeaderUntouched(c: Config, y: System, i: nat, p: Packet)
    requires Inv(c, y) && IsFollower(c, i) && p in y.network && p.dst == ReplicaAddress(i)
    ensures Apply(c, y, Deliver(p)).Ok? && |Apply(c, y, Deliver(p)).value.replicas| == c.n
    ensures Apply(c, y, Deliver(p)).value.replicas[0] == y.replicas[0]
  {
    ApplyInv(c, y, Deliver(p));
    InvSize(c, y);
    hide Inv, Receive;
  }

  // ----- A transfer is acknowledged -----

  lemma {:induction false} SendPrepareOKsAll(c: Config, s: Replica, op: nat, k: nat)
    requires c.Valid() && SendPrepareOKs(c, s, op).Ok? && op <= k <= s.lastOp && k > s.lastCommitted
    ensures Packet(ReplicaAddress(s.myIdx), ReplicaAddress(c.LeaderIndex(s.view)), PrepareOKMessage(s.view, k, s.myIdx))
              in SendPrepareOKs(c, s, op).value.sent
    decreases s.lastOp + 1 - op
  {
    if op <= s.lastCommitted {
      SendPrepareOKsAll(c, s, op + 1, k);
    } else if op < k {
      var found := s.log.Find(op);
      var s' := UpdateClientTable(s, found.value.request).value;
      SendPrepareOKsAll(c, s', op + 1, k);
    }
  }

  /** After a state transfer the follower has acknowledged every new operation that the transfer did
      not show as committed. */
  lemma TransferIsAcknowledged(c: Config, y: System, i: nat, p: Packet, k: nat)
    requires Inv(c, y) && IsFollower(c, i) && p in y.network && p.dst == ReplicaAddress(i)
    requires p.msg.StateTransferMessage?
    ensures c.Valid() && HandleStateTransfer(c, y.replicas[i], p.msg).Ok?
    ensures
      var t := HandleStateTransfer(c, y.replicas[i], p.msg).value;
      y.replicas[i].lastOp < k <= t.replica.lastOp && t.replica.lastCommitted < k ==>
        Packet(ReplicaAddress(i), ReplicaAddress(0), PrepareOKMessage(0, k, i)) in t.sent
  {
    InvSize(c, y);
    hide Inv, Dominates, TableRepliesOk, Matches, CommitUpTo, SendPrepareOKs, InstallEntries, HandleStateTransfer;
    InvPacket(c, y, p);
    InvLeader(c, y);
    InvFollower(c, y, i);
    var s, m := y.replicas[i], p.msg;
    var b := if m.entries == [] then s.lastOp + 1 else m.entries[0].viewstamp.opnum;
    TransferAcknowledges(c, s, i, Golden(y.replicas), y.replicas[0].lastCommitted, m, b, k);
  }

  lemma TransferAcknowledges(c: Config, s: Replica, i: nat, golden: seq<Request>, committed: nat, m: Message, b: nat,
                             k: nat)
    requires c.Valid() && FollowerOk(s, i, golden, committed) && Increasing(golden)
    requires m.StateTransferMessage? && m.view == 0 && m.opnum <= committed
    requires SliceFrom(m.entries, b, golden) && b - 1 <= s.lastOp
    requires m.opnum <= Max(s.lastOp, b + |m.entries| - 1)
    ensures HandleStateTransfer(c, s, m).Ok?
    ensures
      var t := HandleStateTransfer(c, s, m).value;
      s.lastOp < k <= t.replica.lastOp && t.replica.lastCommitted < k ==>
        Packet(ReplicaAddress(i), ReplicaAddress(0), PrepareOKMessage(0, k, i)) in t.sent
  {
    hide CommitUpTo, SendPrepareOKs, Matches, InstallEntries, HandleStateTransfer, Increasing;
    InstallEntriesEffect(s, s.lastOp, m.entries, b, golden);
    var s1 := InstallEntries(s, s.lastOp, m.entries).value.0;
    ExecuteAndAccept(c, s1, s.lastOp, golden, committed, m.opnum);
    CommitUpToEffect(s1, m.opnum);
    AcknowledgesAll(c, s, s1, CommitUpTo(s1, m.opnum).value.replica, i, m, k);
  }

  lemma AcknowledgesAll(c: Config, s: Replica, s1: Replica, d: Replica, i: nat, m: Message, k: nat)
    requires c.Valid() && m.StateTransferMessage? && m.view == s.view == 0 && s.myIdx == i
    requires InstallEntries(s, s.lastOp, m.entries) == Ok((s1, s.lastOp)) && m.opnum <= s1.lastOp
    requires CommitUpTo(s1, m.opnum).Ok? && d == CommitUpTo(s1, m.opnum).value.replica
    requires SendPrepareOKs(c, d, s.lastOp).Ok? && OnlyCommitted(s1, d) && s1.myIdx == i && s1.view == 0
    requires OnlyCommitted(s1, SendPrepareOKs(c, d, s.lastOp).value.replica)
    requires SendPrepareOKs(c, d, s.lastOp).value.replica.lastCommitted == d.lastCommitted
    ensures HandleStateTransfer(c, s, m).Ok?
    ensures
      var t := HandleStateTransfer(c, s, m).value;
      s.lastOp < k <= t.replica.lastOp && t.replica.lastCommitted < k ==>
        Packet(ReplicaAddress(i), ReplicaAddress(0), PrepareOKMessage(0, k, i)) in t.sent
  {
    hide InstallEntries, CommitUpTo, SendPrepareOKs;
    assert c.LeaderIndex(0) == 0;
    var t := HandleStateTransfer(c, s, m).value;
    if s.lastOp < k <= t.replica.lastOp && t.replica.lastCommitted < k {
      SendPrepareOKsAll(c, d, s.lastOp, k);
    }
  }
}
