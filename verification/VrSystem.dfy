/** A group of VR replicas and its network, over whole runs that stay in the first view.

    The network is the set of all packets ever sent and a packet may be delivered at any
    time and any number of times, so loss, delay, reordering and duplication are covered.
    An event that is not enabled leaves the system unchanged, hence every sequence of events
    is a run.
 */
module VrSystem {
  import opened ReplicaLog
  import opened VrSpec

  datatype System = System(replicas: seq<Replica>, network: set<Packet>)

  datatype Event =
    | ClientRequest(to: nat, client: nat, req: Request, replicate: bool, res: string)
    | Deliver(packet: Packet)
    | NullCommitTimeout(at: nat)
    | ResendPrepareTimeout(at: nat)
    | CloseBatchTimeout(at: nat)
    | StateTransferTimeout(at: nat)

  function InitSystem(c: Config): System
    requires c.Valid()
  {
    System(seq(c.n, i requires 0 <= i => InitReplica(c, i)), {})
  }

  /** ReceiveMessage: the dispatch on the type of a message. */
  function Receive(c: Config, s: Replica, remote: Address, m: Message): Outcome<Step>
    requires c.Valid()
  {
    match m
    case PrepareMessage(_, _, _, _) => HandlePrepare(c, s, remote, m)
    case PrepareOKMessage(_, _, _) => HandlePrepareOK(c, s, m)
    case CommitMessage(_, _) => HandleCommit(c, s, m)
    case RequestStateTransferMessage(_, _) => Ok(HandleRequestStateTransfer(c, s, remote, m))
    case StateTransferMessage(_, _, _) => HandleStateTransfer(c, s, m)
    case ReplyMessage(_, _, _, _) => Panic
  }

  predicate Enabled(c: Config, y: System, e: Event) {
    match e
    case ClientRequest(to, _, _, _, _) => to < |y.replicas|
    case Deliver(p) => p in y.network && p.dst.ReplicaAddress? && p.dst.index < |y.replicas|
    case NullCommitTimeout(i) => i < |y.replicas| && y.replicas[i].nullCommitTimer
    case ResendPrepareTimeout(i) => i < |y.replicas| && y.replicas[i].resendPrepareTimer
    case CloseBatchTimeout(i) => i < |y.replicas| && y.replicas[i].closeBatchTimer
    case StateTransferTimeout(i) => i < |y.replicas|
  }

  function Where(e: Event): nat
    requires e.Deliver? ==> e.packet.dst.ReplicaAddress?
  {
    match e
    case ClientRequest(to, _, _, _, _) => to
    case Deliver(p) => p.dst.index
    case NullCommitTimeout(i) => i
    case ResendPrepareTimeout(i) => i
    case CloseBatchTimeout(i) => i
    case StateTransferTimeout(i) => i
  }

  /** What the event does at the replica it happens at. */
  function React(c: Config, s: Replica, e: Event): Outcome<Step>
    requires c.Valid()
  {
    match e
    case ClientRequest(_, client, req, replicate, res) =>
      HandleRequest(c, s, ClientAddress(client), req, replicate, res)
    case Deliver(p) => Receive(c, s, p.src, p.msg)
    case NullCommitTimeout(_) => SendNullCommit(c, s)
    case ResendPrepareTimeout(_) => ResendPrepare(c, s)
    case CloseBatchTimeout(_) => CloseBatch(c, s)
    case StateTransferTimeout(_) =>
      Ok(Step(s.(lastRequestStateTransferView := 0, lastRequestStateTransferOpnum := 0), {}))
  }

  function Apply(c: Config, y: System, e: Event): (r: Outcome<System>)
    requires c.Valid()
    ensures r.Ok? ==> |r.value.replicas| == |y.replicas| && y.network <= r.value.network
  {
    if !Enabled(c, y, e) then Ok(y)
    else
      var i := Where(e);
      var step :- React(c, y.replicas[i], e);
      Ok(System(y.replicas[i := step.replica], y.network + step.sent))
  }

  function Run(c: Config, events: seq<Event>): (r: Outcome<System>)
    requires c.Valid()
    ensures r.Ok? ==> |r.value.replicas| == c.n
  {
    if events == [] then Ok(InitSystem(c))
    else
      var y :- Run(c, events[..|events| - 1]);
      Apply(c, y, events[|events| - 1])
  }
}
