/** The replica object of replication/vr/replica.cc: the fields that the handlers update in
    place, and each handler proved to do what the function of the same name in VrSpec says.

    A method that would panic returns `ok == false`; what it had changed by then is left
    open, since the process stops. */
module VrReplica {
  import opened ReplicaLog
  import opened VrSpec

  class VRReplica {
    const config: Config
    const myIdx: nat
    var view: nat
    var status: Status
    var lastOp: nat
    var lastCommitted: nat
    var lastRequestStateTransferView: nat
    var lastRequestStateTransferOpnum: nat
    var pendingPrepares: seq<Packet>
    var lastPrepare: Message
    var lastBatchEnd: nat
    var log: Log
    var clientAddresses: map<nat, Address>
    var clientTable: map<nat, ClientEntry>
    var prepareOKQuorum: QuorumSet
    var nullCommitTimer: bool
    var resendPrepareTimer: bool
    var closeBatchTimer: bool
    var executed: seq<Request>

    ghost function State(): Replica
      reads this
    {
      Replica(myIdx, view, status, lastOp, lastCommitted, lastRequestStateTransferView,
              lastRequestStateTransferOpnum, pendingPrepares, lastPrepare, lastBatchEnd, log,
              clientAddresses, clientTable, prepareOKQuorum, nullCommitTimer,
              resendPrepareTimer, closeBatchTimer, executed)
    }

    /** The outcome `r` is what happened. */
    ghost predicate Did(r: Outcome<Step>, ok: bool, sent: set<Packet>)
      reads this
    {
      if r.Panic? then !ok else ok && State() == r.value.replica && sent == r.value.sent
    }

    constructor (config: Config, myIdx: nat)
      requires config.Valid()
      ensures this.config == config && State() == InitReplica(config, myIdx)
    {
      this.config := config;
      this.myIdx := myIdx;
      view, status, lastOp, lastCommitted := 0, Normal, 0, 0;
      lastRequestStateTransferView, lastRequestStateTransferOpnum := 0, 0;
      pendingPrepares, lastPrepare, lastBatchEnd := [], PrepareMessage(0, 0, 0, []), 0;
      log := Log(1, []);
      clientAddresses, clientTable, prepareOKQuorum := map[], map[], map[];
      nullCommitTimer := config.LeaderIndex(0) == myIdx;
      resendPrepareTimer, closeBatchTimer, executed := false, false, [];
    }

    method UpdateClientTable(req: Request) returns (ok: bool)
      modifies this`clientTable
      ensures
        var r := VrSpec.UpdateClientTable(old(State()), req);
        ok == r.Ok? && (ok ==> State() == r.value)
    {
      var entry := TableEntry(clientTable, req.clientid);
      if entry.lastReqId > req.clientreqid {
        return false;
      }
      clientTable := clientTable[req.clientid := entry];
      if entry.lastReqId == req.clientreqid {
        return true;
      }
      clientTable := clientTable[req.clientid := ClientEntry(req.clientreqid, false, None)];
      return true;
    }

    /** One round of the loop of CommitUpTo. */
    method CommitNext() returns (ok: bool, sent: set<Packet>)
      modifies this`lastCommitted, this`log, this`clientTable, this`executed
      ensures Did(VrSpec.CommitNext(old(State())), ok, sent)
    {
      lastCommitted := lastCommitted + 1;
      var found := log.Find(lastCommitted);
      if found.None? {
        return false, {};
      }
      var entry := found.value;
      executed := executed + [entry.request];
      var reply := ReplyMessage(entry.viewstamp.view, entry.viewstamp.opnum,
                                entry.request.clientreqid, FromHistory(executed));
      log := log.SetStatus(lastCommitted, Committed);
      var cte := TableEntry(clientTable, entry.request.clientid);
      clientTable := clientTable[entry.request.clientid :=
        if cte.lastReqId <= entry.request.clientreqid
        then ClientEntry(entry.request.clientreqid, true, Some(reply)) else cte];
      sent := if entry.request.clientid in clientAddresses
              then {Packet(ReplicaAddress(myIdx), clientAddresses[entry.request.clientid], reply)}
              else {};
      ok := true;
    }

    method CommitUpTo(upto: nat) returns (ok: bool, sent: set<Packet>)
      modifies this`lastCommitted, this`log, this`clientTable, this`executed
      ensures Did(VrSpec.CommitUpTo(old(State()), upto), ok, sent)
    {
      hide VrSpec.CommitNext;
      sent := {};
      while lastCommitted < upto
        invariant
          var whole, rest := VrSpec.CommitUpTo(old(State()), upto), VrSpec.CommitUpTo(State(), upto);
          && whole.Ok? == rest.Ok?
          && (whole.Ok? ==> whole.value == Step(rest.value.replica, sent + rest.value.sent))
        decreases upto - lastCommitted
      {
        var more;
        ok, more := CommitNext();
        if !ok {
          return;
        }
        sent := sent + more;
      }
      ok := true;
    }

    method SendPrepareOKs(oldLastOp: nat) returns (ok: bool, sent: set<Packet>)
      requires config.Valid()
      modifies this`clientTable
      ensures Did(VrSpec.SendPrepareOKs(config, old(State()), oldLastOp), ok, sent)
    {
      sent := {};
      var i := oldLastOp;
      while i <= lastOp
        invariant
          var whole := VrSpec.SendPrepareOKs(config, old(State()), oldLastOp);
          var rest := VrSpec.SendPrepareOKs(config, State(), i);
          && whole.Ok? == rest.Ok?
          && (whole.Ok? ==> whole.value == Step(rest.value.replica, sent + rest.value.sent))
        decreases lastOp + 1 - i
      {
        if i > lastCommitted {
          var found := log.Find(i);
          if found.None? || found.value.state != Prepared {
            return false, sent;
          }
          ok := UpdateClientTable(found.value.request);
          if !ok {
            return;
          }
          sent := sent + {Packet(ReplicaAddress(myIdx), ReplicaAddress(config.LeaderIndex(view)),
                                 PrepareOKMessage(view, i, myIdx))};
        }
        i := i + 1;
      }
      ok := true;
    }

    method RequestStateTransfer() returns (sent: set<Packet>)
      modifies this`lastRequestStateTransferView, this`lastRequestStateTransferOpnum
      ensures Did(Ok(VrSpec.RequestStateTransfer(config, old(State()))), true, sent)
    {
      if lastRequestStateTransferOpnum != 0 && lastRequestStateTransferView == view
         && lastRequestStateTransferOpnum == lastCommitted {
        return {};
      }
      lastRequestStateTransferView := view;
      lastRequestStateTransferOpnum := lastCommitted;
      sent := ToAll(config, myIdx, RequestStateTransferMessage(view, lastCommitted));
    }

    method EnterView(newview: nat)
      requires config.Valid()
      modifies this`view, this`status, this`lastBatchEnd, this`prepareOKQuorum
      modifies this`nullCommitTimer, this`resendPrepareTimer, this`closeBatchTimer
      ensures State() == VrSpec.EnterView(config, old(State()), newview)
      ensures log == old(log) && lastOp == old(lastOp) && lastCommitted == old(lastCommitted)
      ensures executed == old(executed) && clientTable == old(clientTable)
      ensures view == newview && status == Normal && lastBatchEnd == lastOp && prepareOKQuorum == map[]
      ensures nullCommitTimer <==> config.LeaderIndex(newview) == myIdx
    {
      view := newview;
      status := Normal;
      lastBatchEnd := lastOp;
      prepareOKQuorum := map[];
      if config.LeaderIndex(view) == myIdx {
        nullCommitTimer := true;
      } else {
        StopLeaderTimers();
      }
    }

    method StopLeaderTimers()
      modifies this`nullCommitTimer, this`resendPrepareTimer, this`closeBatchTimer
      ensures State() == old(State()).(nullCommitTimer := false, resendPrepareTimer := false,
                                       closeBatchTimer := false)
    {
      nullCommitTimer, resendPrepareTimer, closeBatchTimer := false, false, false;
    }

    /** The loop of CloseBatch. */
    method CollectBatch(batchStart: nat) returns (ok: bool, requests: seq<Request>)
      ensures
        var r := BatchRequests(State(), batchStart);
        ok == r.Ok? && (ok ==> requests == r.value)
    {
      requests := [];
      var i := batchStart;
      ghost var whole := BatchRequests(State(), batchStart);
      while i <= lastOp
        invariant batchStart <= i
        invariant Continues(whole, requests, BatchRequests(State(), i))
      {
        var found := log.Find(i);
        if found.None? || found.value.viewstamp != Viewstamp(view, i) {
          return false, requests;
        }
        ContinuesOneMore(whole, requests, found.value.request, BatchRequests(State(), i + 1));
        requests := requests + [found.value.request];
        i := i + 1;
      }
      assert requests + [] == requests;
      ok := true;
    }

    method CloseBatch() returns (ok: bool, sent: set<Packet>)
      requires config.Valid()
      modifies this`lastPrepare, this`lastBatchEnd, this`resendPrepareTimer, this`closeBatchTimer
      ensures Did(VrSpec.CloseBatch(config, old(State())), ok, sent)
    {
      hide BatchRequests;
      if config.LeaderIndex(view) != myIdx || lastBatchEnd >= lastOp {
        return false, {};
      }
      var requests;
      ok, requests := CollectBatch(lastBatchEnd + 1);
      if !ok {
        return false, {};
      }
      lastPrepare := PrepareMessage(view, lastOp, lastBatchEnd + 1, requests);
      lastBatchEnd := lastOp;
      resendPrepareTimer, closeBatchTimer := true, false;
      sent := ToAll(config, myIdx, lastPrepare);
    }

    method HandleRequest(remote: Address, req: Request, replicate: bool, res: string)
      returns (ok: bool, sent: set<Packet>)
      requires config.Valid()
      modifies this`clientAddresses, this`clientTable, this`lastOp, this`log, this`lastPrepare
      modifies this`lastBatchEnd, this`nullCommitTimer, this`resendPrepareTimer, this`closeBatchTimer
      ensures Did(VrSpec.HandleRequest(config, old(State()), remote, req, replicate, res), ok, sent)
    {
      if status != Normal || config.LeaderIndex(view) != myIdx {
        return true, {};
      }
      clientAddresses := clientAddresses[req.clientid := remote];
      if req.clientid in clientTable {
        var entry := clientTable[req.clientid];
        if req.clientreqid < entry.lastReqId {
          return true, {};
        }
        if req.clientreqid == entry.lastReqId {
          if entry.replied && entry.reply.Some? {
            return true, {Packet(ReplicaAddress(myIdx), remote, entry.reply.value)};
          }
          return true, {};
        }
      }
      ok := UpdateClientTable(req);
      if !ok {
        return false, {};
      }
      if !replicate {
        var reply := ReplyMessage(0, 0, req.clientreqid, FromUpcall(res));
        var cte := clientTable[req.clientid];
        clientTable := clientTable[req.clientid := cte.(replied := true, reply := Some(reply))];
        return true, {Packet(ReplicaAddress(myIdx), remote, reply)};
      }
      ok, sent := AppendRequest(Request(req.clientid, req.clientreqid, res));
    }

    method AppendRequest(req: Request) returns (ok: bool, sent: set<Packet>)
      requires config.Valid()
      modifies this`lastOp, this`log, this`lastPrepare, this`lastBatchEnd
      modifies this`nullCommitTimer, this`resendPrepareTimer, this`closeBatchTimer
      ensures Did(VrSpec.AppendRequest(config, old(State()), req), ok, sent)
    {
      var vs := Viewstamp(view, lastOp + 1);
      if !log.CanAppend(vs) {
        return false, {};
      }
      hide VrSpec.CloseBatch;
      lastOp := lastOp + 1;
      log := log.Append(vs, req, Prepared);
      assert State() == old(State()).(lastOp := lastOp, log := log);
      if lastOp - lastBatchEnd + 1 > config.batchSize {
        ok, sent := CloseBatch();
        nullCommitTimer := true;
      } else {
        closeBatchTimer, nullCommitTimer := true, true;
        ok, sent := true, {};
      }
    }

    method HandlePrepare(remote: Address, m: Message) returns (ok: bool, sent: set<Packet>)
      requires config.Valid() && m.PrepareMessage?
      modifies this`lastOp, this`log, this`clientTable, this`pendingPrepares
      modifies this`lastRequestStateTransferView, this`lastRequestStateTransferOpnum
      ensures Did(VrSpec.HandlePrepare(config, old(State()), remote, m), ok, sent)
    {
      if status != Normal || m.view < view {
        return true, {};
      }
      if m.view > view {
        sent := RequestStateTransfer();
        pendingPrepares := pendingPrepares + [Packet(remote, ReplicaAddress(myIdx), m)];
        return true, sent;
      }
      if config.LeaderIndex(view) == myIdx || m.batchstart > m.opnum
         || m.opnum - m.batchstart + 1 != |m.requests| {
        return false, {};
      }
      var reply := PrepareOKMessage(m.view, m.opnum, myIdx);
      var leader := ReplicaAddress(config.LeaderIndex(view));
      if m.opnum <= lastOp {
        return true, {Packet(ReplicaAddress(myIdx), leader, reply)};
      }
      if m.batchstart > lastOp + 1 {
        sent := RequestStateTransfer();
        pendingPrepares := pendingPrepares + [Packet(remote, ReplicaAddress(myIdx), m)];
        return true, sent;
      }
      ok := AppendBatch(m.view, m.batchstart, m.requests);
      sent := {Packet(ReplicaAddress(myIdx), leader, reply)};
    }

    /** The loop of HandlePrepare. */
    method AppendBatch(v: nat, batchstart: nat, requests: seq<Request>) returns (ok: bool)
      modifies this`lastOp, this`log, this`clientTable
      ensures
        var r := VrSpec.AppendBatch(old(State()), v, batchstart, requests);
        ok == r.Ok? && (ok ==> State() == r.value)
    {
      hide VrSpec.UpdateClientTable;
      var k := 0;
      while k < |requests|
        invariant k <= |requests|
        invariant VrSpec.AppendBatch(old(State()), v, batchstart, requests)
               == VrSpec.AppendBatch(State(), v, batchstart + k, requests[k..])
      {
        var op := batchstart + k;
        assert requests[k..][0] == requests[k] && requests[k..][1..] == requests[k + 1..];
        if op > lastOp {
          if !log.CanAppend(Viewstamp(v, op)) {
            return false;
          }
          lastOp := lastOp + 1;
          log := log.Append(Viewstamp(v, op), requests[k], Prepared);
          ok := UpdateClientTable(requests[k]);
          if !ok {
            return;
          }
        }
        k := k + 1;
      }
      ok := true;
    }

    method HandlePrepareOK(m: Message) returns (ok: bool, sent: set<Packet>)
      requires config.Valid() && m.PrepareOKMessage?
      modifies this`lastCommitted, this`log, this`clientTable, this`executed, this`prepareOKQuorum
      modifies this`nullCommitTimer, this`lastRequestStateTransferView, this`lastRequestStateTransferOpnum
      ensures Did(VrSpec.HandlePrepareOK(config, old(State()), m), ok, sent)
    {
      hide VrSpec.CommitUpTo;
      if status != Normal || m.view < view {
        return true, {};
      }
      if m.view > view {
        sent := RequestStateTransfer();
        return true, sent;
      }
      if config.LeaderIndex(view) != myIdx {
        return true, {};
      }
      prepareOKQuorum := AddPrepareOK(prepareOKQuorum, m);
      var votes := |prepareOKQuorum[Viewstamp(m.view, m.opnum)]|;
      if votes < config.QuorumSize() - 1 {
        return true, {};
      }
      ok, sent := CommitUpTo(m.opnum);
      if !ok || votes >= config.QuorumSize() {
        return;
      }
      sent := sent + ToAll(config, myIdx, CommitMessage(view, lastCommitted));
      nullCommitTimer := true;
    }

    method HandleCommit(m: Message) returns (ok: bool, sent: set<Packet>)
      requires config.Valid() && m.CommitMessage?
      modifies this`lastCommitted, this`log, this`clientTable, this`executed
      modifies this`lastRequestStateTransferView, this`lastRequestStateTransferOpnum
      ensures Did(VrSpec.HandleCommit(config, old(State()), m), ok, sent)
    {
      if status != Normal || m.view < view {
        return true, {};
      }
      if m.view > view {
        sent := RequestStateTransfer();
        return true, sent;
      }
      if config.LeaderIndex(view) == myIdx {
        return false, {};
      }
      if m.opnum <= lastCommitted {
        return true, {};
      }
      if m.opnum > lastOp {
        sent := RequestStateTransfer();
        return true, sent;
      }
      ok, sent := CommitUpTo(m.opnum);
    }

    method HandleRequestStateTransfer(remote: Address, m: Message) returns (sent: set<Packet>)
      requires m.RequestStateTransferMessage?
      modifies this`lastRequestStateTransferView, this`lastRequestStateTransferOpnum
      ensures Did(Ok(VrSpec.HandleRequestStateTransfer(config, old(State()), remote, m)), true, sent)
    {
      if status != Normal {
        return {};
      }
      if m.view > view {
        sent := RequestStateTransfer();
        return;
      }
      sent := {Packet(ReplicaAddress(myIdx), remote,
                      StateTransferMessage(view, lastCommitted, log.Dump(m.opnum + 1)))};
    }

    /** The loop of HandleStateTransfer. */
    method InstallEntries(entries: seq<LogEntry>) returns (ok: bool, oldLastOp: nat)
      modifies this`lastOp, this`log
      ensures
        var r := VrSpec.InstallEntries(old(State()), old(lastOp), entries);
        ok == r.Ok? && (ok ==> (State(), oldLastOp) == r.value)
    {
      oldLastOp := lastOp;
      var k := 0;
      while k < |entries|
        invariant k <= |entries|
        invariant VrSpec.InstallEntries(old(State()), old(lastOp), entries)
               == VrSpec.InstallEntries(State(), oldLastOp, entries[k..])
      {
        var e := entries[k];
        assert entries[k..][0] == e && entries[k..][1..] == entries[k + 1..];
        var op := e.viewstamp.opnum;
        if op <= lastCommitted {
        } else if op <= lastOp {
          var found := log.Find(op);
          if found.None? || found.value.viewstamp.view > e.viewstamp.view {
            return false, oldLastOp;
          }
          if found.value.viewstamp.view == e.viewstamp.view {
            if found.value.state != Prepared {
              return false, oldLastOp;
            }
          } else {
            if found.value.state == Committed || !log.CanRemoveAfter(op) {
              return false, oldLastOp;
            }
            log := log.RemoveAfter(op);
            lastOp := op;
            oldLastOp := lastOp;
            if !log.CanAppend(e.viewstamp) {
              return false, oldLastOp;
            }
            log := log.Append(e.viewstamp, e.request, Prepared);
          }
        } else {
          if op != lastOp + 1 || !log.CanAppend(e.viewstamp) {
            return false, oldLastOp;
          }
          lastOp := lastOp + 1;
          log := log.Append(e.viewstamp, e.request, Prepared);
        }
        k := k + 1;
      }
      ok := true;
    }

    method HandleStateTransfer(m: Message) returns (ok: bool, sent: set<Packet>)
      requires config.Valid() && m.StateTransferMessage?
      modifies this
      ensures Did(VrSpec.HandleStateTransfer(config, old(State()), m), ok, sent)
    {
      hide VrSpec.CommitUpTo, VrSpec.SendPrepareOKs, VrSpec.InstallEntries, VrSpec.EnterView;
      if m.view < view {
        return true, {};
      }
      var oldLastOp;
      ok, oldLastOp := InstallEntries(m.entries);
      if !ok {
        return false, {};
      }
      if m.view > view {
        EnterView(m.view);
      }
      if m.opnum > lastOp {
        return false, {};
      }
      ok, sent := CommitUpTo(m.opnum);
      if !ok {
        return;
      }
      var accepted;
      ok, accepted := SendPrepareOKs(oldLastOp);
      sent := sent + accepted;
      pendingPrepares := [];
    }

    method SendNullCommit() returns (ok: bool, sent: set<Packet>)
      requires config.Valid()
      ensures Did(VrSpec.SendNullCommit(config, State()), ok, sent)
    {
      ok := config.LeaderIndex(view) == myIdx;
      sent := ToAll(config, myIdx, CommitMessage(view, lastCommitted));
    }

    method ResendPrepare() returns (ok: bool, sent: set<Packet>)
      requires config.Valid()
      ensures Did(VrSpec.ResendPrepare(config, State()), ok, sent)
    {
      ok := config.LeaderIndex(view) == myIdx;
      sent := if lastOp == lastCommitted then {} else ToAll(config, myIdx, lastPrepare);
    }
  }

  /** `whole` is the requests so far followed by those of the rest. */
  ghost predicate Continues(whole: Outcome<seq<Request>>, requests: seq<Request>, rest: Outcome<seq<Request>>) {
    whole.Ok? == rest.Ok? && (whole.Ok? ==> whole.value == requests + rest.value)
  }

  lemma ContinuesOneMore(whole: Outcome<seq<Request>>, requests: seq<Request>, req: Request,
                         rest: Outcome<seq<Request>>)
    ensures Continues(whole, requests, if rest.Ok? then Ok([req] + rest.value) else rest)
            <==> Continues(whole, requests + [req], rest)
  {
    if rest.Ok? {
      assert requests + ([req] + rest.value) == (requests + [req]) + rest.value;
    }
  }
}
