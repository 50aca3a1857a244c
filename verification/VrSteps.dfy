/** Every handler keeps the invariant of VrAgreement. */
module VrSteps {
  import opened ReplicaLog
  import opened Counting
  import opened VrSpec
  import opened VrSystem
  import opened VrInvariant
  import opened VrAgreement

  ghost predicate Keeps(c: Config, y: System, i: nat, r: Outcome<Step>)
    requires |y.replicas| == c.n && i < c.n
  {
    r.Ok? && Inv(c, System(y.replicas[i := r.value.replica], y.network + r.value.sent))
  }

  // ---- followers ---------------------------------------------------------------

  lemma FollowerIsNotLeader(c: Config, y: System, i: nat)
    requires Inv(c, y) && IsFollower(c, i)
    ensures !AmLeader(c, y.replicas[i])
  {
    assert FollowerOk(y.replicas[i], i, Golden(y.replicas), y.replicas[0].lastCommitted);
  }

  lemma AskOk(c: Config, y: System, i: nat, pending: seq<Packet>)
    requires Inv(c, y) && IsFollower(c, i)
    ensures
      var asked := RequestStateTransfer(c, y.replicas[i]);
      && Keeps(c, y, i, Ok(asked))
      && Keeps(c, y, i, Ok(Step(asked.replica.(pendingPrepares := pending), asked.sent)))
  {
    var s := y.replicas[i];
    InvFollower(c, y, i);
    hide Inv, Follows, Matches;
    var asked := RequestStateTransfer(c, s);
    FollowerStep(c, y, i, asked.replica, asked.sent);
    FollowerStep(c, y, i, asked.replica.(pendingPrepares := pending), asked.sent);
  }

  lemma FollowerPrepare(c: Config, y: System, i: nat, remote: Address, m: Message)
    requires Inv(c, y) && IsFollower(c, i) && PrepareOk(m, Golden(y.replicas))
    ensures Keeps(c, y, i, HandlePrepare(c, y.replicas[i], remote, m))
  {
    var s := y.replicas[i];
    var golden := Golden(y.replicas);
    FollowerIsNotLeader(c, y, i);
    InvLeader(c, y);
    InvFollower(c, y, i);
    hide Inv, LeaderOk, Follows, Matches, Increasing, AppendBatch;
    if m.opnum <= s.lastOp {
      FollowerStep(c, y, i, s, ToLeader(c, s, PrepareOKMessage(m.view, m.opnum, s.myIdx)));
    } else if m.batchstart > s.lastOp + 1 {
      AskOk(c, y, i, s.pendingPrepares + [Packet(remote, ReplicaAddress(s.myIdx), m)]);
    } else {
      AppendBatchEffect(s, m.batchstart, m.requests, golden);
      var t := AppendBatch(s, 0, m.batchstart, m.requests).value;
      FollowerStep(c, y, i, t, ToLeader(c, t, PrepareOKMessage(m.view, m.opnum, s.myIdx)));
    }
  }

  lemma RepliesAreOk(c: Config, rs: seq<Replica>, sent: set<Packet>)
    requires |rs| == c.n > 0
    requires RepliesOk(sent, Golden(rs), rs[0].lastCommitted) && ToClients(sent)
    ensures NetworkOk(c, rs, sent)
  {
  }

  lemma CommittedFollower(s: Replica, i: nat, golden: seq<Request>, committed: nat, upto: nat)
    requires FollowerOk(s, i, golden, committed) && Increasing(golden)
    requires upto <= s.lastOp && upto <= committed
    ensures CommitUpTo(s, upto).Ok?
    ensures
      var t := CommitUpTo(s, upto).value;
      && FollowerOk(t.replica, i, golden, committed)
      && t.replica.lastOp == s.lastOp && t.replica.lastCommitted == Max(s.lastCommitted, upto)
      && RepliesOk(t.sent, golden, committed) && ToClients(t.sent)
  {
    hide CommitUpTo, Matches;
    var reqs := Requests(s.log.entries);
    assert reqs == golden[..s.lastOp];
    IncreasingPrefix(golden, reqs);
    CommitUpToEffect(s, upto);
    assert reqs[..Max(s.lastOp, s.lastCommitted)] == reqs;
    CommitUpToMatches(s, upto, reqs, s.lastOp);
    var t := CommitUpTo(s, upto).value;
    assert Requests(t.replica.log.entries) == reqs;
    assert reqs[..Max(s.lastOp, t.replica.lastCommitted)] == reqs;
    forall p | p in t.sent ensures ReplyOk(golden, committed, p.msg) {
      ReplyOkGrows(reqs, golden, t.replica.lastCommitted, committed, p.msg);
    }
  }

  lemma FollowerCommitsUpTo(c: Config, y: System, i: nat, upto: nat)
    requires Inv(c, y) && IsFollower(c, i)
    requires upto <= y.replicas[i].lastOp && upto <= y.replicas[0].lastCommitted
    ensures Keeps(c, y, i, CommitUpTo(y.replicas[i], upto))
  {
    InvLeader(c, y);
    InvFollower(c, y, i);
    hide Inv, LeaderOk, CommitUpTo;
    CommittedFollower(y.replicas[i], i, Golden(y.replicas), y.replicas[0].lastCommitted, upto);
    var t := CommitUpTo(y.replicas[i], upto).value;
    assert y.replicas[i := t.replica][0] == y.replicas[0];
    RepliesAreOk(c, y.replicas[i := t.replica], t.sent);
    FollowerStep(c, y, i, t.replica, t.sent);
  }

  lemma FollowerCommit(c: Config, y: System, i: nat, m: Message)
    requires Inv(c, y) && IsFollower(c, i)
    requires m.CommitMessage? && m.view == 0 && m.opnum <= y.replicas[0].lastCommitted
    ensures Keeps(c, y, i, HandleCommit(c, y.replicas[i], m))
  {
    var s := y.replicas[i];
    FollowerIsNotLeader(c, y, i);
    assert FollowerOk(s, i, Golden(y.replicas), y.replicas[0].lastCommitted);
    if m.opnum <= s.lastCommitted {
      FollowerStep(c, y, i, s, {});
    } else if m.opnum > s.lastOp {
      AskOk(c, y, i, []);
    } else {
      FollowerCommitsUpTo(c, y, i, m.opnum);
    }
  }

  /** What Dump cuts out of a log that follows the leader's. */
  lemma DumpIsSlice(s: Replica, golden: seq<Request>, from: nat)
    requires Follows(s, golden)
    ensures
      var es := s.log.Dump(from + 1);
      if es == [] then s.lastOp <= from
      else SliceFrom(es, from + 1, golden) && from + |es| == s.lastOp
  {
    var es := s.log.Dump(from + 1);
    forall k | 0 <= k < |es|
      ensures es[k].viewstamp == Viewstamp(0, from + 1 + k) && es[k].request == golden[from + k]
    {
      assert es[k] == s.log.entries[from + k];
      assert es[k].request == Requests(s.log.entries)[from + k];
    }
  }

  /** The answer to a state transfer request, whichever replica gives it. */
  lemma DumpOk(c: Config, rs: seq<Replica>, s: Replica, p: Packet)
    requires |rs| == c.n > 0 && PacketOk(c, rs, p) && p.msg.RequestStateTransferMessage?
    requires s.status == Normal && s.view == 0
    requires Follows(s, Golden(rs)) && s.lastCommitted <= rs[0].lastCommitted
    ensures
      var r := HandleRequestStateTransfer(c, s, p.src, p.msg);
      r.replica == s && NetworkOk(c, rs, r.sent)
  {
    DumpIsSlice(s, Golden(rs), p.msg.opnum);
    FollowsPrefix(s, Golden(rs));
    hide Follows;
    var es := s.log.Dump(p.msg.opnum + 1);
    var q := Packet(ReplicaAddress(s.myIdx), p.src, StateTransferMessage(0, s.lastCommitted, es));
    if es != [] {
      assert es[0].viewstamp.opnum == p.msg.opnum + 1;
    }
    assert PacketOk(c, rs, q);
  }

  lemma FollowerAnswers(c: Config, y: System, i: nat, p: Packet)
    requires Inv(c, y) && IsFollower(c, i) && PacketOk(c, y.replicas, p)
    requires p.msg.RequestStateTransferMessage?
    ensures Keeps(c, y, i, Ok(HandleRequestStateTransfer(c, y.replicas[i], p.src, p.msg)))
  {
    var r := HandleRequestStateTransfer(c, y.replicas[i], p.src, p.msg);
    assert FollowerOk(y.replicas[i], i, Golden(y.replicas), y.replicas[0].lastCommitted);
    DumpOk(c, y.replicas, y.replicas[i], p);
    assert y.replicas[i := r.replica] == y.replicas;
    FollowerStep(c, y, i, r.replica, r.sent);
  }

  ghost predicate TransferredPacket(p: Packet, i: nat, lastOp: nat, golden: seq<Request>, committed: nat) {
    || (ReplyOk(golden, committed, p.msg) && p.dst.ClientAddress?)
    || (p.msg.PrepareOKMessage? && p.msg.view == 0 && p.msg.replicaidx == i && p.msg.opnum <= lastOp)
  }

  /** The part of HandleStateTransfer after the new entries are in the log. */
  lemma ExecuteAndAccept(c: Config, s: Replica, base: nat, golden: seq<Request>, committed: nat, upto: nat)
    requires c.Valid() && Follows(s, golden) && Increasing(golden) && AddressesAreClients(s)
    requires s.lastCommitted <= base <= s.lastOp && Matches(s.clientTable, golden[..base])
    requires s.lastCommitted <= committed && upto <= committed && upto <= s.lastOp && s.view == 0
    ensures CommitUpTo(s, upto).Ok?
    ensures SendPrepareOKs(c, CommitUpTo(s, upto).value.replica, base).Ok?
    ensures
      var done := CommitUpTo(s, upto).value;
      var t := SendPrepareOKs(c, done.replica, base).value;
      && OnlyCommitted(s, t.replica) && Follows(t.replica, golden)
      && t.replica.lastCommitted == Max(s.lastCommitted, upto)
      && Matches(t.replica.clientTable, golden[..s.lastOp])
      && (forall p :: p in done.sent + t.sent ==> TransferredPacket(p, s.myIdx, s.lastOp, golden, committed))
  {
    hide CommitUpTo, SendPrepareOKs, Matches;
    var reqs := Requests(s.log.entries);
    assert reqs == golden[..s.lastOp];
    IncreasingPrefix(golden, reqs);
    assert reqs[..Max(base, s.lastCommitted)] == golden[..base];
    CommitUpToEffect(s, upto);
    CommitUpToMatches(s, upto, reqs, base);
    var done := CommitUpTo(s, upto).value;
    assert Requests(done.replica.log.entries) == reqs;
    SendPrepareOKsEffect(c, done.replica, base, Max(base, done.replica.lastCommitted), reqs);
    forall p | p in done.sent ensures ReplyOk(golden, committed, p.msg) {
      ReplyOkGrows(reqs, golden, done.replica.lastCommitted, committed, p.msg);
    }
  }

  /** HandleStateTransfer at a follower: what the transferred slice does to it. */
  lemma TransferEffect(c: Config, s: Replica, i: nat, golden: seq<Request>, committed: nat, m: Message, b: nat)
    requires c.Valid() && FollowerOk(s, i, golden, committed) && Increasing(golden)
    requires m.StateTransferMessage? && m.view == 0 && m.opnum <= committed
    requires SliceFrom(m.entries, b, golden) && b - 1 <= s.lastOp
    requires m.opnum <= Max(s.lastOp, b + |m.entries| - 1)
    ensures HandleStateTransfer(c, s, m).Ok?
    ensures
      var t := HandleStateTransfer(c, s, m).value;
      && FollowerOk(t.replica, i, golden, committed)
      && t.replica.lastOp == Max(s.lastOp, b + |m.entries| - 1)
      && t.replica.lastCommitted == Max(s.lastCommitted, m.opnum)
      && (forall p :: p in t.sent ==> TransferredPacket(p, i, t.replica.lastOp, golden, committed))
  {
    hide CommitUpTo, SendPrepareOKs, Matches;
    InstallEntriesEffect(s, s.lastOp, m.entries, b, golden);
    var s1 := InstallEntries(s, s.lastOp, m.entries).value.0;
    ExecuteAndAccept(c, s1, s.lastOp, golden, committed, m.opnum);
  }

  lemma FollowerTransfer(c: Config, y: System, i: nat, p: Packet)
    requires Inv(c, y) && IsFollower(c, i) && PacketOk(c, y.replicas, p)
    requires p.msg.StateTransferMessage? && p.dst == ReplicaAddress(i)
    ensures Keeps(c, y, i, HandleStateTransfer(c, y.replicas[i], p.msg))
  {
    var s := y.replicas[i];
    var golden := Golden(y.replicas);
    InvLeader(c, y);
    InvFollower(c, y, i);
    hide Inv, LeaderOk, HandleStateTransfer;
    var b := if p.msg.entries == [] then s.lastOp + 1 else p.msg.entries[0].viewstamp.opnum;
    TransferEffect(c, s, i, golden, y.replicas[0].lastCommitted, p.msg, b);
    var t := HandleStateTransfer(c, s, p.msg).value;
    FollowerStep(c, y, i, t.replica, t.sent);
  }

  lemma FollowerReacts(c: Config, y: System, i: nat, e: Event)
    requires Inv(c, y) && Enabled(c, y, e) && Where(e) == i && IsFollower(c, i)
    ensures Keeps(c, y, i, React(c, y.replicas[i], e))
  {
    var s := y.replicas[i];
    FollowerIsNotLeader(c, y, i);
    InvFollower(c, y, i);
    hide Inv, HandlePrepare, HandleCommit, HandleStateTransfer;
    match e
    case ClientRequest(_, _, _, _, _) =>
      FollowerStep(c, y, i, s, {});
    case Deliver(p) =>
      InvPacket(c, y, p);
      match p.msg {
        case PrepareMessage(_, _, _, _) => FollowerPrepare(c, y, i, p.src, p.msg);
        case PrepareOKMessage(_, _, _) => FollowerStep(c, y, i, s, {});
        case CommitMessage(_, _) => FollowerCommit(c, y, i, p.msg);
        case RequestStateTransferMessage(_, _) => FollowerAnswers(c, y, i, p);
        case StateTransferMessage(_, _, _) => FollowerTransfer(c, y, i, p);
        case ReplyMessage(_, _, _, _) =>
      }
    case NullCommitTimeout(_) =>
    case ResendPrepareTimeout(_) =>
    case CloseBatchTimeout(_) =>
    case StateTransferTimeout(_) =>
      var t := s.(lastRequestStateTransferView := 0, lastRequestStateTransferOpnum := 0);
      FollowerStep(c, y, i, t, {});
  }

  // ---- the leader --------------------------------------------------------------

  /** A leader step that commits nothing and touches no vote. */
  lemma LeaderMoves(c: Config, y: System, t: Replica, sent: set<Packet>)
    requires Inv(c, y) && LeaderOk(t)
    requires Golden(y.replicas) <= Requests(t.log.entries)
    requires t.lastCommitted == y.replicas[0].lastCommitted
    requires t.prepareOKQuorum == y.replicas[0].prepareOKQuorum
    requires NetworkOk(c, y.replicas[0 := t], sent)
    ensures Inv(c, System(y.replicas[0 := t], y.network + sent))
  {
    var rs, rs' := y.replicas, y.replicas[0 := t];
    assert Grows(rs, rs');
    HoldersGrow(rs, rs', t.lastCommitted);
    assert VotesOk(c, rs');
    LeaderStep(c, y, t, sent);
  }

  lemma {:induction false} BatchRequestsEffect(s: Replica, from: nat)
    requires Follows(s, Requests(s.log.entries)) && s.view == 0 && 1 <= from <= s.lastOp + 1
    ensures BatchRequests(s, from) == Ok(Requests(s.log.entries)[from - 1..])
    decreases s.lastOp + 1 - from
  {
    if from <= s.lastOp {
      assert s.log.Find(from) == Some(s.log.entries[from - 1]);
      BatchRequestsEffect(s, from + 1);
      var reqs := Requests(s.log.entries);
      assert reqs[from - 1..] == [reqs[from - 1]] + reqs[from..];
    }
  }

  /** CloseBatch sends exactly the requests that no earlier batch sent. */
  lemma CloseBatchEffect(c: Config, s: Replica)
    requires c.Valid() && LeaderOk(s) && s.lastBatchEnd < s.lastOp
    ensures CloseBatch(c, s).Ok?
    ensures
      var t := CloseBatch(c, s).value;
      && LeaderOk(t.replica)
      && t.replica == s.(lastPrepare := t.replica.lastPrepare, lastBatchEnd := s.lastOp,
                         resendPrepareTimer := true, closeBatchTimer := false)
      && PrepareOk(t.replica.lastPrepare, Requests(s.log.entries))
      && t.replica.lastPrepare.batchstart == s.lastBatchEnd + 1 && t.replica.lastPrepare.opnum == s.lastOp
      && t.sent == ToAll(c, 0, t.replica.lastPrepare)
  {
    assert c.LeaderIndex(0) == 0;
    BatchRequestsEffect(s, s.lastBatchEnd + 1);
    var reqs := Requests(s.log.entries);
    assert reqs[s.lastBatchEnd..] == reqs[s.lastBatchEnd..s.lastOp];
  }

  /** The request appended by the leader is new for its client. */
  lemma AppendKeepsLeaderOk(s: Replica, req: Request, table: map<nat, ClientEntry>)
    requires LeaderOk(s)
    requires req.clientid in s.clientTable ==> s.clientTable[req.clientid].lastReqId < req.clientreqid
    requires req.clientid in table && table[req.clientid].lastReqId == req.clientreqid
    requires table[req.clientid].reply.None?
    requires table == s.clientTable[req.clientid := table[req.clientid]]
    ensures s.log.CanAppend(Viewstamp(0, s.lastOp + 1))
    ensures
      var t := s.(lastOp := s.lastOp + 1, clientTable := table,
                  log := s.log.Append(Viewstamp(0, s.lastOp + 1), req, Prepared));
      LeaderOk(t) && Requests(s.log.entries) <= Requests(t.log.entries)
  {
    var golden := Requests(s.log.entries);
    var golden' := golden + [req];
    var t := s.(lastOp := s.lastOp + 1, clientTable := table,
                log := s.log.Append(Viewstamp(0, s.lastOp + 1), req, Prepared));
    assert Follows(s, golden');
    AppendFollows(s, golden');
    assert Requests(t.log.entries) == golden';
    assert Increasing(golden');
    assert s.resendPrepareTimer ==> PrepareOk(s.lastPrepare, golden') by {
      if s.resendPrepareTimer {
        SlicePrefix(golden, golden', s.lastPrepare.batchstart - 1, s.lastPrepare.opnum);
      }
    }
    assert TableRepliesOk(table, golden', s.lastCommitted) by {
      forall c | c in table && table[c].reply.Some?
        ensures ReplyOk(golden', s.lastCommitted, table[c].reply.value)
      {
        ReplyOkGrows(golden, golden', s.lastCommitted, s.lastCommitted, table[c].reply.value);
      }
    }
  }

  /** Replies that the leader has stored may be sent again. */
  lemma StoredReplyOk(c: Config, rs: seq<Replica>, s: Replica, client: nat, to: nat)
    requires |rs| == c.n > 0 && rs[0] == s && LeaderOk(s)
    requires client in s.clientTable && s.clientTable[client].reply.Some?
    ensures PacketOk(c, rs, Packet(ReplicaAddress(0), ClientAddress(to), s.clientTable[client].reply.value))
  {
  }

  /** The table after the upcall refused the request. */
  lemma RefuseRequest(s: Replica, req: Request, table: map<nat, ClientEntry>)
    requires LeaderOk(s)
    requires req.clientid in s.clientTable ==> s.clientTable[req.clientid].lastReqId < req.clientreqid
    requires req.clientid in table && table[req.clientid].lastReqId == req.clientreqid
    requires
      var reply := table[req.clientid].reply;
      reply.Some? && reply.value.ReplyMessage? && reply.value.view == 0 && reply.value.opnum == 0
      && reply.value.answer.FromUpcall?
    requires table == s.clientTable[req.clientid := table[req.clientid]]
    ensures LeaderOk(s.(clientTable := table))
  {
  }

  lemma AddressKeepsLeaderOk(s: Replica, client: nat, address: nat)
    requires LeaderOk(s)
    ensures LeaderOk(s.(clientAddresses := s.clientAddresses[client := ClientAddress(address)]))
    ensures s.view == 0 && s.status == Normal && s.myIdx == 0
  {
  }

  lemma LeaderRepeats(c: Config, y: System, s1: Replica, client: nat, to: nat, sent: set<Packet>)
    requires Inv(c, y) && LeaderOk(s1) && s1 == y.replicas[0].(clientAddresses := s1.clientAddresses)
    requires client in s1.clientTable
    requires forall p :: p in sent ==>
      s1.clientTable[client].reply.Some? &&
        p == Packet(ReplicaAddress(0), ClientAddress(to), s1.clientTable[client].reply.value)
    ensures Keeps(c, y, 0, Ok(Step(s1, sent)))
  {
    InvLeader(c, y);
    if s1.clientTable[client].reply.Some? {
      StoredReplyOk(c, y.replicas[0 := s1], s1, client, to);
    }
    hide Inv, LeaderOk, PacketOk;
    LeaderMoves(c, y, s1, sent);
  }

  lemma LeaderRefuses(c: Config, y: System, s1: Replica, to: nat, req: Request, table: map<nat, ClientEntry>)
    requires Inv(c, y) && LeaderOk(s1) && s1 == y.replicas[0].(clientAddresses := s1.clientAddresses)
    requires req.clientid in s1.clientTable ==> s1.clientTable[req.clientid].lastReqId < req.clientreqid
    requires req.clientid in table && table[req.clientid].lastReqId == req.clientreqid
    requires
      var reply := table[req.clientid].reply;
      reply.Some? && reply.value.ReplyMessage? && reply.value.view == 0 && reply.value.opnum == 0
      && reply.value.answer.FromUpcall?
    requires table == s1.clientTable[req.clientid := table[req.clientid]]
    ensures Keeps(c, y, 0, Ok(Step(s1.(clientTable := table),
      {Packet(ReplicaAddress(0), ClientAddress(to), table[req.clientid].reply.value)})))
  {
    InvLeader(c, y);
    RefuseRequest(s1, req, table);
    hide Inv, LeaderOk;
    LeaderMoves(c, y, s1.(clientTable := table),
                {Packet(ReplicaAddress(0), ClientAddress(to), table[req.clientid].reply.value)});
  }

  ghost predicate Known(s: Replica, req: Request) {
    req.clientid in s.clientTable && req.clientreqid <= s.clientTable[req.clientid].lastReqId
  }

  lemma KnownRequest(c: Config, y: System, client: nat, req: Request, replicate: bool, res: string)
    requires Inv(c, y) && Known(y.replicas[0], req)
    ensures Keeps(c, y, 0, HandleRequest(c, y.replicas[0], ClientAddress(client), req, replicate, res))
  {
    var s := y.replicas[0];
    InvLeader(c, y);
    AddressKeepsLeaderOk(s, req.clientid, client);
    assert c.LeaderIndex(0) == 0;
    hide Inv, LeaderOk, AppendRequest, Keeps, UpdateClientTable;
    var s1 := s.(clientAddresses := s.clientAddresses[req.clientid := ClientAddress(client)]);
    var r := HandleRequest(c, s, ClientAddress(client), req, replicate, res);
    LeaderRepeats(c, y, s1, req.clientid, client, r.value.sent);
  }

  lemma RefusedRequest(c: Config, y: System, client: nat, req: Request, res: string)
    requires Inv(c, y) && !Known(y.replicas[0], req)
    ensures Keeps(c, y, 0, HandleRequest(c, y.replicas[0], ClientAddress(client), req, false, res))
  {
    var s := y.replicas[0];
    InvLeader(c, y);
    AddressKeepsLeaderOk(s, req.clientid, client);
    assert c.LeaderIndex(0) == 0;
    hide Inv, LeaderOk, AppendRequest, Keeps;
    var s1 := s.(clientAddresses := s.clientAddresses[req.clientid := ClientAddress(client)]);
    var r := HandleRequest(c, s, ClientAddress(client), req, false, res);
    LeaderRefuses(c, y, s1, client, req, r.value.replica.clientTable);
  }

  lemma NewRequest(c: Config, y: System, client: nat, req: Request, res: string)
    requires Inv(c, y) && !Known(y.replicas[0], req)
    ensures Keeps(c, y, 0, HandleRequest(c, y.replicas[0], ClientAddress(client), req, true, res))
  {
    var s := y.replicas[0];
    InvLeader(c, y);
    AddressKeepsLeaderOk(s, req.clientid, client);
    assert c.LeaderIndex(0) == 0;
    hide Inv, LeaderOk, AppendRequest, Keeps;
    var s1 := s.(clientAddresses := s.clientAddresses[req.clientid := ClientAddress(client)]);
    var s2 := UpdateClientTable(s1, req).value;
    LeaderAppends(c, y, s1, s2, Request(req.clientid, req.clientreqid, res));
  }

  lemma LeaderRequest(c: Config, y: System, client: nat, req: Request, replicate: bool, res: string)
    requires Inv(c, y)
    ensures Keeps(c, y, 0, HandleRequest(c, y.replicas[0], ClientAddress(client), req, replicate, res))
  {
    InvSize(c, y);
    hide Inv, Keeps, Known, HandleRequest;
    if Known(y.replicas[0], req) {
      KnownRequest(c, y, client, req, replicate, res);
    } else if !replicate {
      RefusedRequest(c, y, client, req, res);
    } else {
      NewRequest(c, y, client, req, res);
    }
  }

  /** The tail of HandleRequest, from the append on. */
  lemma LeaderAppends(c: Config, y: System, s1: Replica, s2: Replica, req: Request)
    requires Inv(c, y) && LeaderOk(s1) && s1 == y.replicas[0].(clientAddresses := s1.clientAddresses)
    requires s2 == s1.(clientTable := s2.clientTable)
    requires req.clientid in s1.clientTable ==> s1.clientTable[req.clientid].lastReqId < req.clientreqid
    requires req.clientid in s2.clientTable && s2.clientTable[req.clientid] == ClientEntry(req.clientreqid, false, None)
    requires s2.clientTable == s1.clientTable[req.clientid := s2.clientTable[req.clientid]]
    ensures Keeps(c, y, 0, AppendRequest(c, s2, req))
  {
    var s3 := s2.(lastOp := s2.lastOp + 1, log := s2.log.Append(Viewstamp(0, s2.lastOp + 1), req, Prepared));
    InvSize(c, y);
    AppendKeepsLeaderOk(s1, req, s2.clientTable);
    LeaderBasics(s1);
    hide Inv, LeaderOk, CloseBatch, Keeps;
    assert s3 == s1.(lastOp := s1.lastOp + 1, clientTable := s2.clientTable,
                     log := s1.log.Append(Viewstamp(0, s1.lastOp + 1), req, Prepared));
    assert s2.log.CanAppend(Viewstamp(s2.view, s2.lastOp + 1));
    if s3.lastOp - s3.lastBatchEnd + 1 > c.batchSize {
      LeaderCloses(c, y, s3);
    } else {
      LeaderWaits(c, y, s3);
    }
  }

  lemma LeaderBasics(s: Replica)
    requires LeaderOk(s)
    ensures s.view == 0 && s.myIdx == 0 && s.lastBatchEnd <= s.lastOp
  {
  }

  lemma LeaderCloses(c: Config, y: System, s: Replica)
    requires Inv(c, y) && LeaderOk(s) && s.lastBatchEnd < s.lastOp
    requires Golden(y.replicas) <= Requests(s.log.entries)
    requires s.lastCommitted == y.replicas[0].lastCommitted && s.prepareOKQuorum == y.replicas[0].prepareOKQuorum
    ensures CloseBatch(c, s).Ok?
    ensures
      var closed := CloseBatch(c, s).value;
      Keeps(c, y, 0, Ok(Step(closed.replica.(nullCommitTimer := true), closed.sent)))
  {
    InvSize(c, y);
    CloseBatchEffect(c, s);
    var closed := CloseBatch(c, s).value;
    TimersKeepLeaderOk(closed.replica);
    hide Inv, LeaderOk, CloseBatch;
    LeaderMoves(c, y, closed.replica.(nullCommitTimer := true), closed.sent);
  }

  lemma LeaderWaits(c: Config, y: System, s: Replica)
    requires Inv(c, y) && LeaderOk(s) && s.lastBatchEnd < s.lastOp
    requires Golden(y.replicas) <= Requests(s.log.entries)
    requires s.lastCommitted == y.replicas[0].lastCommitted && s.prepareOKQuorum == y.replicas[0].prepareOKQuorum
    ensures Keeps(c, y, 0, Ok(Step(s.(closeBatchTimer := true, nullCommitTimer := true), {})))
  {
    InvSize(c, y);
    TimersKeepLeaderOk(s);
    hide Inv, LeaderOk;
    LeaderMoves(c, y, s.(closeBatchTimer := true, nullCommitTimer := true), {});
  }

  lemma TimersKeepLeaderOk(s: Replica)
    requires LeaderOk(s)
    ensures LeaderOk(s.(nullCommitTimer := true))
    ensures s.lastBatchEnd < s.lastOp ==> LeaderOk(s.(closeBatchTimer := true, nullCommitTimer := true))
  {
  }

  lemma VotesAreHolders(c: Config, rs: seq<Replica>, votes: set<nat>, op: nat)
    requires |rs| == c.n > 0 && op <= rs[0].lastOp
    requires forall r :: r in votes ==> IsFollower(c, r) && op <= rs[r].lastOp
    ensures |Holders(rs, op)| >= |votes| + 1
  {
    assert |votes + {0}| == |votes| + 1;
    SubsetSize(votes + {0}, Holders(rs, op));
  }

  lemma CommittedLeaderOk(s1: Replica, t: Replica)
    requires LeaderOk(s1) && Coherent(t) && OnlyCommitted(s1, t) && SameRequests(s1, t)
    requires Dominates(t.clientTable, Requests(s1.log.entries))
    requires TableRepliesOk(t.clientTable, Requests(s1.log.entries), t.lastCommitted)
    ensures LeaderOk(t) && Requests(t.log.entries) == Requests(s1.log.entries)
  {
    assert Requests(t.log.entries) == Requests(s1.log.entries);
  }

  /** The votes counted for `op` make everything the leader executes durable. */
  lemma CommittedIsDurable(c: Config, rs: seq<Replica>, t: Replica, op: nat, votes: set<nat>)
    requires |rs| == c.n > 0 && Durable(c, rs) && Golden(rs) == Requests(t.log.entries)
    requires t.lastOp == rs[0].lastOp && op <= t.lastOp && t.lastCommitted == Max(rs[0].lastCommitted, op)
    requires |votes| >= c.f
    requires forall r :: r in votes ==> IsFollower(c, r) && op <= rs[r].lastOp
    ensures Durable(c, rs[0 := t])
  {
    var rs' := rs[0 := t];
    if rs[0].lastCommitted < op {
      VotesAreHolders(c, rs', votes, op);
    } else {
      assert Grows(rs, rs');
      HoldersGrow(rs, rs', t.lastCommitted);
    }
  }

  /** A PREPAREOK is counted for a replica that holds the operation. */
  lemma AddVote(c: Config, rs: seq<Replica>, m: Message)
    requires |rs| == c.n > 0 && VotesOk(c, rs)
    requires m.PrepareOKMessage? && IsFollower(c, m.replicaidx) && m.opnum <= rs[m.replicaidx].lastOp
    ensures VotesOk(c, rs[0 := rs[0].(prepareOKQuorum := AddPrepareOK(rs[0].prepareOKQuorum, m))])
  {
  }

  lemma SameVotes(c: Config, rs: seq<Replica>, t: Replica)
    requires |rs| == c.n > 0 && VotesOk(c, rs) && t.prepareOKQuorum == rs[0].prepareOKQuorum
    ensures VotesOk(c, rs[0 := t])
  {
  }

  /** CommitUpTo at the leader, once the votes for `op` are in. */
  lemma LeaderCommits(c: Config, rs: seq<Replica>, s1: Replica, op: nat)
    requires |rs| == c.n > 0 && LeaderOk(s1) && Durable(c, rs)
    requires s1 == rs[0].(prepareOKQuorum := s1.prepareOKQuorum)
    requires VotesOk(c, rs[0 := s1]) && op <= s1.lastOp
    requires Viewstamp(0, op) in s1.prepareOKQuorum && |s1.prepareOKQuorum[Viewstamp(0, op)]| >= c.f
    ensures CommitUpTo(s1, op).Ok?
    ensures
      var done := CommitUpTo(s1, op).value;
      && LeaderOk(done.replica) && Requests(done.replica.log.entries) == Golden(rs)
      && done.replica.lastCommitted == Max(s1.lastCommitted, op)
      && VotesOk(c, rs[0 := done.replica]) && Durable(c, rs[0 := done.replica])
      && NetworkOk(c, rs[0 := done.replica], done.sent)
  {
    CommitUpToEffect(s1, op);
    CommitUpToDominates(s1, op, Golden(rs));
    hide LeaderOk, CommitUpTo, Coherent, Dominates, TableRepliesOk;
    var done := CommitUpTo(s1, op).value;
    CommittedLeaderOk(s1, done.replica);
    var votes := s1.prepareOKQuorum[Viewstamp(0, op)].Keys;
    assert forall r :: r in votes ==> IsFollower(c, r) && op <= rs[0 := s1][r].lastOp;
    CommittedIsDurable(c, rs, done.replica, op, votes);
    SameVotes(c, rs[0 := s1], done.replica);
    assert rs[0 := s1][0 := done.replica] == rs[0 := done.replica];
    RepliesAreOk(c, rs[0 := done.replica], done.sent);
  }

  /** After committing, with or without telling the others. */
  lemma LeaderNotifies(c: Config, y: System, done: Step, t: Replica)
    requires Inv(c, y) && LeaderOk(done.replica) && t == done.replica.(nullCommitTimer := true)
    requires Requests(done.replica.log.entries) == Golden(y.replicas)
    requires y.replicas[0].lastCommitted <= done.replica.lastCommitted
    requires VotesOk(c, y.replicas[0 := done.replica]) && Durable(c, y.replicas[0 := done.replica])
    requires NetworkOk(c, y.replicas[0 := done.replica], done.sent)
    ensures Keeps(c, y, 0, Ok(done))
    ensures Keeps(c, y, 0, Ok(Step(t, done.sent + ToAll(c, 0, CommitMessage(t.view, t.lastCommitted)))))
  {
    InvSize(c, y);
    TimersKeepLeaderOk(done.replica);
    hide Inv, LeaderOk;
    LeaderStep(c, y, done.replica, done.sent);
    var rs, rs' := y.replicas[0 := done.replica], y.replicas[0 := t];
    assert Grows(rs, rs');
    HoldersGrow(rs, rs', t.lastCommitted);
    var sent := done.sent + ToAll(c, 0, CommitMessage(t.view, t.lastCommitted));
    forall p | p in sent ensures PacketOk(c, rs', p) {
      if p in done.sent {
        PacketOkGrows(c, rs, rs', p);
      }
    }
    LeaderStep(c, y, t, sent);
  }

  lemma VoteKeepsLeaderOk(s: Replica, q: QuorumSet)
    requires LeaderOk(s)
    ensures LeaderOk(s.(prepareOKQuorum := q))
  {
  }

  /** A vote that does not complete a quorum. */
  lemma LeaderCounts(c: Config, y: System, s1: Replica)
    requires Inv(c, y) && LeaderOk(s1) && s1 == y.replicas[0].(prepareOKQuorum := s1.prepareOKQuorum)
    requires VotesOk(c, y.replicas[0 := s1])
    ensures Keeps(c, y, 0, Ok(Step(s1, {})))
  {
    InvLeader(c, y);
    var rs := y.replicas;
    assert Durable(c, rs);
    hide Inv, LeaderOk, VotesOk;
    assert Grows(rs, rs[0 := s1]);
    HoldersGrow(rs, rs[0 := s1], s1.lastCommitted);
    LeaderStep(c, y, s1, {});
  }

  /** The state of the leader once the vote is in the quorum set. */
  lemma VotedLeader(c: Config, y: System, p: Packet)
    requires Inv(c, y) && PacketOk(c, y.replicas, p) && p.msg.PrepareOKMessage?
    ensures
      var s := y.replicas[0];
      var s1 := s.(prepareOKQuorum := AddPrepareOK(s.prepareOKQuorum, p.msg));
      && LeaderOk(s1) && VotesOk(c, y.replicas[0 := s1]) && Durable(c, y.replicas)
      && p.msg.view == 0 && p.msg.opnum <= s.lastOp
      && s.status == Normal && s.view == 0 && s.myIdx == 0 && c.LeaderIndex(0) == 0
  {
    var s, m := y.replicas[0], p.msg;
    InvLeader(c, y);
    InvFollower(c, y, m.replicaidx);
    AddVote(c, y.replicas, m);
    VoteKeepsLeaderOk(s, AddPrepareOK(s.prepareOKQuorum, m));
    hide VotesOk, Follows;
  }

  lemma LeaderPrepareOK(c: Config, y: System, p: Packet)
    requires Inv(c, y) && PacketOk(c, y.replicas, p) && p.msg.PrepareOKMessage?
    ensures Keeps(c, y, 0, HandlePrepareOK(c, y.replicas[0], p.msg))
  {
    InvSize(c, y);
    VotedLeader(c, y, p);
    hide Inv, LeaderOk, VotesOk, Durable, PacketOk, CommitUpTo, Keeps;
    var s, m := y.replicas[0], p.msg;
    var s1 := s.(prepareOKQuorum := AddPrepareOK(s.prepareOKQuorum, m));
    if |s1.prepareOKQuorum[Viewstamp(0, m.opnum)]| < c.f {
      LeaderCounts(c, y, s1);
    } else {
      LeaderCommits(c, y.replicas, s1, m.opnum);
      var done := CommitUpTo(s1, m.opnum).value;
      LeaderNotifies(c, y, done, done.replica.(nullCommitTimer := true));
    }
  }

  lemma LeaderReacts(c: Config, y: System, e: Event)
    requires Inv(c, y) && Enabled(c, y, e) && Where(e) == 0
    ensures Keeps(c, y, 0, React(c, y.replicas[0], e))
  {
    var s := y.replicas[0];
    assert c.LeaderIndex(0) == 0;
    InvLeader(c, y);
    hide Inv, Follows, Dominates, TableRepliesOk, Increasing, HandlePrepareOK, HandleRequest;
    match e
    case ClientRequest(_, client, req, replicate, res) =>
      LeaderRequest(c, y, client, req, replicate, res);
    case Deliver(p) =>
      InvPacket(c, y, p);
      match p.msg {
        case PrepareMessage(_, _, _, _) =>
        case PrepareOKMessage(_, _, _) => LeaderPrepareOK(c, y, p);
        case CommitMessage(_, _) =>
        case RequestStateTransferMessage(_, _) =>
          DumpOk(c, y.replicas, s, p);
          assert y.replicas[0 := s] == y.replicas;
          LeaderMoves(c, y, s, HandleRequestStateTransfer(c, s, p.src, p.msg).sent);
        case StateTransferMessage(_, _, _) =>
        case ReplyMessage(_, _, _, _) =>
      }
    case NullCommitTimeout(_) =>
      LeaderMoves(c, y, s, ToAll(c, 0, CommitMessage(0, s.lastCommitted)));
    case ResendPrepareTimeout(_) =>
      LeaderMoves(c, y, s, {});
      LeaderMoves(c, y, s, ToAll(c, 0, s.lastPrepare));
    case CloseBatchTimeout(_) =>
      CloseBatchEffect(c, s);
      var t := CloseBatch(c, s).value;
      LeaderMoves(c, y, t.replica, t.sent);
    case StateTransferTimeout(_) =>
      var t := s.(lastRequestStateTransferView := 0, lastRequestStateTransferOpnum := 0);
      LeaderMoves(c, y, t, {});
  }
}
