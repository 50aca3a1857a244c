/** The handlers of replication/vr/replica.cc as functions of a replica's state.

    A handler either yields the next state together with the packets it sends, or `Panic`,
    which stands for every RPanic and every failing ASSERT on its path.  The application is
    modelled by the history of requests it has executed: the answer of every deterministic
    application is a function of that history.  The verdict and the text that the leader
    upcall gives for a request are inputs of HandleRequest.  Times are not modelled; a timer
    is only on or off.
 */
module VrSpec {
  import opened ReplicaLog

  datatype Outcome<+T> = Ok(value: T) | Panic {
    predicate IsFailure() { Panic? }
    function PropagateFailure<U>(): Outcome<U> requires Panic? { Panic }
    function Extract(): T requires Ok? { value }
  }

  datatype Config = Config(n: nat, f: nat, batchSize: nat) {
    predicate Valid() { n > 0 }
    function LeaderIndex(view: nat): nat requires Valid() { view % n }
    function QuorumSize(): nat { f + 1 }
  }

  datatype Address = ReplicaAddress(index: nat) | ClientAddress(id: nat)

  datatype Answer = FromHistory(executed: seq<Request>) | FromUpcall(text: string)

  datatype Message =
    | PrepareMessage(view: nat, opnum: nat, batchstart: nat, requests: seq<Request>)
    | PrepareOKMessage(view: nat, opnum: nat, replicaidx: nat)
    | CommitMessage(view: nat, opnum: nat)
    | RequestStateTransferMessage(view: nat, opnum: nat)
    | StateTransferMessage(view: nat, opnum: nat, entries: seq<LogEntry>)
    | ReplyMessage(view: nat, opnum: nat, clientreqid: nat, answer: Answer)

  datatype Packet = Packet(src: Address, dst: Address, msg: Message)

  datatype Status = Normal | ViewChange

  datatype ClientEntry = ClientEntry(lastReqId: nat, replied: bool, reply: Option<Message>)

  type QuorumSet = map<Viewstamp, map<nat, Message>>

  datatype Replica = Replica(
    myIdx: nat,
    view: nat,
    status: Status,
    lastOp: nat,
    lastCommitted: nat,
    lastRequestStateTransferView: nat,
    lastRequestStateTransferOpnum: nat,
    pendingPrepares: seq<Packet>,
    lastPrepare: Message,
    lastBatchEnd: nat,
    log: Log,
    clientAddresses: map<nat, Address>,
    clientTable: map<nat, ClientEntry>,
    prepareOKQuorum: QuorumSet,
    nullCommitTimer: bool,
    resendPrepareTimer: bool,
    closeBatchTimer: bool,
    executed: seq<Request>)

  datatype Step = Step(replica: Replica, sent: set<Packet>)

  predicate AmLeader(c: Config, s: Replica)
    requires c.Valid()
  {
    c.LeaderIndex(s.view) == s.myIdx
  }

  function ToAll(c: Config, me: nat, m: Message): set<Packet> {
    set i | 0 <= i < c.n && i != me :: Packet(ReplicaAddress(me), ReplicaAddress(i), m)
  }

  function ToLeader(c: Config, s: Replica, m: Message): set<Packet>
    requires c.Valid()
  {
    {Packet(ReplicaAddress(s.myIdx), ReplicaAddress(c.LeaderIndex(s.view)), m)}
  }

  function InitReplica(c: Config, i: nat): Replica
    requires c.Valid()
  {
    var leading := c.LeaderIndex(0) == i;
    Replica(i, 0, Normal, 0, 0, 0, 0, [], PrepareMessage(0, 0, 0, []), 0, Log(1, []),
            map[], map[], map[], leading, false, false, [])
  }

  // ---- the client table --------------------------------------------------

  /** operator[] on the table: a missing entry reads as all zeros. */
  function TableEntry(table: map<nat, ClientEntry>, client: nat): ClientEntry {
    if client in table then table[client] else ClientEntry(0, false, None)
  }

  function UpdateClientTable(s: Replica, req: Request): Outcome<Replica> {
    var e := TableEntry(s.clientTable, req.clientid);
    if e.lastReqId > req.clientreqid then Panic
    else if e.lastReqId == req.clientreqid then
      Ok(s.(clientTable := s.clientTable[req.clientid := e]))
    else
      Ok(s.(clientTable := s.clientTable[req.clientid := ClientEntry(req.clientreqid, false, None)]))
  }

  // ---- executing ---------------------------------------------------------

  function CommitNext(s: Replica): (r: Outcome<Step>)
    ensures r.Ok? ==> r.value.replica.lastCommitted == s.lastCommitted + 1
  {
    var op := s.lastCommitted + 1;
    var found := s.log.Find(op);
    if found.None? then Panic
    else
      var req := found.value.request;
      var executed := s.executed + [req];
      var reply := ReplyMessage(found.value.viewstamp.view, found.value.viewstamp.opnum,
                                req.clientreqid, FromHistory(executed));
      var e := TableEntry(s.clientTable, req.clientid);
      var e' := if e.lastReqId <= req.clientreqid
                then ClientEntry(req.clientreqid, true, Some(reply)) else e;
      Ok(Step(s.(lastCommitted := op,
                 log := s.log.SetStatus(op, Committed),
                 clientTable := s.clientTable[req.clientid := e'],
                 executed := executed),
              if req.clientid in s.clientAddresses
              then {Packet(ReplicaAddress(s.myIdx), s.clientAddresses[req.clientid], reply)}
              else {}))
  }

  function CommitUpTo(s: Replica, upto: nat): Outcome<Step>
    decreases if s.lastCommitted < upto then upto - s.lastCommitted else 0
  {
    if s.lastCommitted >= upto then Ok(Step(s, {}))
    else
      var one :- CommitNext(s);
      var rest :- CommitUpTo(one.replica, upto);
      Ok(Step(rest.replica, one.sent + rest.sent))
  }

  // ---- sending -----------------------------------------------------------

  /** PREPAREOKs for the uncommitted operations from `op` up to lastOp. */
  function SendPrepareOKs(c: Config, s: Replica, op: nat): Outcome<Step>
    requires c.Valid()
    decreases if op <= s.lastOp then s.lastOp + 1 - op else 0
  {
    if op > s.lastOp then Ok(Step(s, {}))
    else if op <= s.lastCommitted then SendPrepareOKs(c, s, op + 1)
    else
      var found := s.log.Find(op);
      if found.None? || found.value.state != Prepared then Panic
      else
        var s' :- UpdateClientTable(s, found.value.request);
        var rest :- SendPrepareOKs(c, s', op + 1);
        Ok(Step(rest.replica,
                ToLeader(c, s, PrepareOKMessage(s.view, op, s.myIdx)) + rest.sent))
  }

  function RequestStateTransfer(c: Config, s: Replica): Step {
    if s.lastRequestStateTransferOpnum != 0
       && s.lastRequestStateTransferView == s.view
       && s.lastRequestStateTransferOpnum == s.lastCommitted
    then Step(s, {})
    else Step(s.(lastRequestStateTransferView := s.view,
                 lastRequestStateTransferOpnum := s.lastCommitted),
              ToAll(c, s.myIdx, RequestStateTransferMessage(s.view, s.lastCommitted)))
  }

  function EnterView(c: Config, s: Replica, newview: nat): Replica
    requires c.Valid()
  {
    var s1 := s.(view := newview, status := Normal, lastBatchEnd := s.lastOp,
                 prepareOKQuorum := map[]);
    if AmLeader(c, s1) then s1.(nullCommitTimer := true)
    else s1.(nullCommitTimer := false, resendPrepareTimer := false, closeBatchTimer := false)
  }

  /** The requests that CloseBatch copies out of the log, with its three assertions. */
  function BatchRequests(s: Replica, from: nat): Outcome<seq<Request>>
    decreases if from <= s.lastOp then s.lastOp + 1 - from else 0
  {
    if from > s.lastOp then Ok([])
    else
      var found := s.log.Find(from);
      if found.None? || found.value.viewstamp != Viewstamp(s.view, from) then Panic
      else
        var rest :- BatchRequests(s, from + 1);
        Ok([found.value.request] + rest)
  }

  function CloseBatch(c: Config, s: Replica): Outcome<Step>
    requires c.Valid()
  {
    if !AmLeader(c, s) || s.lastBatchEnd >= s.lastOp then Panic
    else
      var requests :- BatchRequests(s, s.lastBatchEnd + 1);
      var p := PrepareMessage(s.view, s.lastOp, s.lastBatchEnd + 1, requests);
      Ok(Step(s.(lastPrepare := p, lastBatchEnd := s.lastOp,
                 resendPrepareTimer := true, closeBatchTimer := false),
              ToAll(c, s.myIdx, p)))
  }

  function SendNullCommit(c: Config, s: Replica): Outcome<Step>
    requires c.Valid()
  {
    if !AmLeader(c, s) then Panic
    else Ok(Step(s, ToAll(c, s.myIdx, CommitMessage(s.view, s.lastCommitted))))
  }

  function ResendPrepare(c: Config, s: Replica): Outcome<Step>
    requires c.Valid()
  {
    if !AmLeader(c, s) then Panic
    else if s.lastOp == s.lastCommitted then Ok(Step(s, {}))
    else Ok(Step(s, ToAll(c, s.myIdx, s.lastPrepare)))
  }

  // ---- handlers ----------------------------------------------------------

  function HandleRequest(c: Config, s: Replica, remote: Address, req: Request,
                         replicate: bool, res: string): Outcome<Step>
    requires c.Valid()
  {
    if s.status != Normal || !AmLeader(c, s) then Ok(Step(s, {}))
    else
      var s1 := s.(clientAddresses := s.clientAddresses[req.clientid := remote]);
      if req.clientid in s.clientTable && req.clientreqid < s.clientTable[req.clientid].lastReqId then
        Ok(Step(s1, {}))
      else if req.clientid in s.clientTable && req.clientreqid == s.clientTable[req.clientid].lastReqId then
        var e := s.clientTable[req.clientid];
        Ok(Step(s1, if e.replied && e.reply.Some?
                    then {Packet(ReplicaAddress(s.myIdx), remote, e.reply.value)} else {}))
      else
        var s2 :- UpdateClientTable(s1, req);
        if !replicate then
          var reply := ReplyMessage(0, 0, req.clientreqid, FromUpcall(res));
          var e := s2.clientTable[req.clientid].(replied := true, reply := Some(reply));
          Ok(Step(s2.(clientTable := s2.clientTable[req.clientid := e]),
                  {Packet(ReplicaAddress(s.myIdx), remote, reply)}))
        else AppendRequest(c, s2, Request(req.clientid, req.clientreqid, res))
  }

  /** The part of HandleRequest that gives the request an opnum and a place in a batch. */
  function AppendRequest(c: Config, s: Replica, req: Request): Outcome<Step>
    requires c.Valid()
  {
    var vs := Viewstamp(s.view, s.lastOp + 1);
    if !s.log.CanAppend(vs) then Panic
    else
      var s1 := s.(lastOp := s.lastOp + 1, log := s.log.Append(vs, req, Prepared));
      if s1.lastOp - s1.lastBatchEnd + 1 > c.batchSize then
        var closed :- CloseBatch(c, s1);
        Ok(Step(closed.replica.(nullCommitTimer := true), closed.sent))
      else Ok(Step(s1.(closeBatchTimer := true, nullCommitTimer := true), {}))
  }

  /** The loop of HandlePrepare: `op` is the opnum of the first request of `requests`. */
  function AppendBatch(s: Replica, view: nat, op: nat, requests: seq<Request>): Outcome<Replica>
    decreases |requests|
  {
    if requests == [] then Ok(s)
    else if op <= s.lastOp then AppendBatch(s, view, op + 1, requests[1..])
    else
      var vs := Viewstamp(view, op);
      if !s.log.CanAppend(vs) then Panic
      else
        var s' :- UpdateClientTable(s.(lastOp := s.lastOp + 1,
                                       log := s.log.Append(vs, requests[0], Prepared)), requests[0]);
        AppendBatch(s', view, op + 1, requests[1..])
  }

  function HandlePrepare(c: Config, s: Replica, remote: Address, m: Message): Outcome<Step>
    requires c.Valid() && m.PrepareMessage?
  {
    var ok := PrepareOKMessage(m.view, m.opnum, s.myIdx);
    if s.status != Normal || m.view < s.view then Ok(Step(s, {}))
    else if m.view > s.view then Ok(Postpone(c, s, remote, m))
    else if AmLeader(c, s) || m.batchstart > m.opnum || m.opnum - m.batchstart + 1 != |m.requests| then Panic
    else if m.opnum <= s.lastOp then Ok(Step(s, ToLeader(c, s, ok)))
    else if m.batchstart > s.lastOp + 1 then Ok(Postpone(c, s, remote, m))
    else
      var s' :- AppendBatch(s, m.view, m.batchstart, m.requests);
      Ok(Step(s', ToLeader(c, s', ok)))
  }

  /** Asks for the missing operations and puts the prepare aside. */
  function Postpone(c: Config, s: Replica, remote: Address, m: Message): Step {
    var asked := RequestStateTransfer(c, s);
    Step(asked.replica.(pendingPrepares := s.pendingPrepares
                                           + [Packet(remote, ReplicaAddress(s.myIdx), m)]),
         asked.sent)
  }

  function AddPrepareOK(q: QuorumSet, m: Message): QuorumSet
    requires m.PrepareOKMessage?
  {
    var vs := Viewstamp(m.view, m.opnum);
    var messages := if vs in q then q[vs] else map[];
    q[vs := messages[m.replicaidx := m]]
  }

  function HandlePrepareOK(c: Config, s: Replica, m: Message): Outcome<Step>
    requires c.Valid() && m.PrepareOKMessage?
  {
    if s.status != Normal || m.view < s.view then Ok(Step(s, {}))
    else if m.view > s.view then Ok(RequestStateTransfer(c, s))
    else if !AmLeader(c, s) then Ok(Step(s, {}))
    else
      var q := AddPrepareOK(s.prepareOKQuorum, m);
      var s1 := s.(prepareOKQuorum := q);
      var votes := |q[Viewstamp(m.view, m.opnum)]|;
      if votes < c.QuorumSize() - 1 then Ok(Step(s1, {}))
      else
        var done :- CommitUpTo(s1, m.opnum);
        if votes >= c.QuorumSize() then Ok(done)
        else
          var s2 := done.replica.(nullCommitTimer := true);
          Ok(Step(s2, done.sent + ToAll(c, s.myIdx, CommitMessage(s2.view, s2.lastCommitted))))
  }

  function HandleCommit(c: Config, s: Replica, m: Message): Outcome<Step>
    requires c.Valid() && m.CommitMessage?
  {
    if s.status != Normal || m.view < s.view then Ok(Step(s, {}))
    else if m.view > s.view then Ok(RequestStateTransfer(c, s))
    else if AmLeader(c, s) then Panic
    else if m.opnum <= s.lastCommitted then Ok(Step(s, {}))
    else if m.opnum > s.lastOp then Ok(RequestStateTransfer(c, s))
    else CommitUpTo(s, m.opnum)
  }

  function HandleRequestStateTransfer(c: Config, s: Replica, remote: Address, m: Message): Step
    requires m.RequestStateTransferMessage?
  {
    if s.status != Normal then Step(s, {})
    else if m.view > s.view then RequestStateTransfer(c, s)
    else Step(s, {Packet(ReplicaAddress(s.myIdx), remote,
                         StateTransferMessage(s.view, s.lastCommitted, s.log.Dump(m.opnum + 1)))})
  }

  /** One round of the loop of HandleStateTransfer; `base` is oldLastOp. */
  function InstallEntry(s: Replica, base: nat, e: LogEntry): Outcome<(Replica, nat)>
  {
    var op := e.viewstamp.opnum;
    if op <= s.lastCommitted then Ok((s, base))
    else if op <= s.lastOp then
      var found := s.log.Find(op);
      if found.None? || found.value.viewstamp.view > e.viewstamp.view then Panic
      else if found.value.viewstamp.view == e.viewstamp.view then
        if found.value.state != Prepared then Panic else Ok((s, base))
      else if found.value.state == Committed then Panic
      else
        if !s.log.CanRemoveAfter(op) || !s.log.RemoveAfter(op).CanAppend(e.viewstamp) then Panic
        else
          var cut := s.log.RemoveAfter(op);
          Ok((s.(log := cut.Append(e.viewstamp, e.request, Prepared), lastOp := op), op))
    else if op != s.lastOp + 1 || !s.log.CanAppend(e.viewstamp) then Panic
    else Ok((s.(lastOp := op, log := s.log.Append(e.viewstamp, e.request, Prepared)), base))
  }

  function InstallEntries(s: Replica, base: nat, es: seq<LogEntry>): Outcome<(Replica, nat)>
    decreases |es|
  {
    if es == [] then Ok((s, base))
    else
      var one :- InstallEntry(s, base, es[0]);
      InstallEntries(one.0, one.1, es[1..])
  }

  /** The pending prepares are cleared before the loop that was meant to process them runs
      over the cleared list, so none of them is processed. */
  function HandleStateTransfer(c: Config, s: Replica, m: Message): Outcome<Step>
    requires c.Valid() && m.StateTransferMessage?
  {
    if m.view < s.view then Ok(Step(s, {}))
    else
      var installed :- InstallEntries(s, s.lastOp, m.entries);
      var s1 := if m.view > s.view then EnterView(c, installed.0, m.view) else installed.0;
      if m.opnum > s1.lastOp then Panic
      else
        var done :- CommitUpTo(s1, m.opnum);
        var oks :- SendPrepareOKs(c, done.replica, installed.1);
        Ok(Step(oks.replica.(pendingPrepares := []), done.sent + oks.sent))
  }
}
