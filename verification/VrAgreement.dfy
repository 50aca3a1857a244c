/** Agreement, durability, at-most-once execution and freedom from panics in every run that
    stays in the first view. */
module VrAgreement {
  import opened ReplicaLog
  import opened Counting
  import opened VrSpec
  import opened VrSystem
  import opened VrInvariant

  // ---- the invariant -----------------------------------------------------------

  ghost function Golden(rs: seq<Replica>): seq<Request>
    requires |rs| > 0
  {
    Requests(rs[0].log.entries)
  }

  ghost predicate PrepareOk(m: Message, golden: seq<Request>) {
    && m.PrepareMessage? && m.view == 0
    && 1 <= m.batchstart <= m.opnum <= |golden|
    && m.requests == golden[m.batchstart - 1..m.opnum]
  }

  /** `i` is the index of a replica other than the leader. */
  predicate IsFollower(c: Config, i: nat) {
    0 < i < c.n
  }

  ghost predicate PacketOk(c: Config, rs: seq<Replica>, p: Packet)
    requires |rs| == c.n > 0
  {
    var golden := Golden(rs);
    var committed := rs[0].lastCommitted;
    match p.msg
    case PrepareMessage(_, _, _, _) =>
      PrepareOk(p.msg, golden) && p.dst.ReplicaAddress? && p.dst.index != 0
    case PrepareOKMessage(view, op, r) =>
      view == 0 && IsFollower(c, r) && op <= rs[r].lastOp
    case CommitMessage(view, op) =>
      view == 0 && op <= committed && p.dst.ReplicaAddress? && p.dst.index != 0
    case RequestStateTransferMessage(view, op) =>
      view == 0 && p.src.ReplicaAddress? && IsFollower(c, p.src.index) && op <= rs[p.src.index].lastCommitted
    case StateTransferMessage(view, op, es) =>
      && view == 0 && p.dst.ReplicaAddress? && IsFollower(c, p.dst.index) && op <= committed
      && if es == [] then op <= rs[p.dst.index].lastCommitted
         else
           var b := es[0].viewstamp.opnum;
           SliceFrom(es, b, golden) && b - 1 <= rs[p.dst.index].lastCommitted && op <= b + |es| - 1
    case ReplyMessage(_, _, _, _) =>
      ReplyOk(golden, committed, p.msg) && p.dst.ClientAddress?
  }

  ghost predicate LeaderOk(s: Replica) {
    var golden := Requests(s.log.entries);
    && s.myIdx == 0 && s.view == 0 && s.status == Normal
    && Follows(s, golden) && Increasing(golden)
    && Dominates(s.clientTable, golden) && TableRepliesOk(s.clientTable, golden, s.lastCommitted)
    && AddressesAreClients(s)
    && s.lastBatchEnd <= s.lastOp
    && (s.closeBatchTimer ==> s.lastBatchEnd < s.lastOp)
    && (s.resendPrepareTimer ==> PrepareOk(s.lastPrepare, golden) && s.lastPrepare.opnum == s.lastBatchEnd)
  }

  ghost predicate FollowerOk(s: Replica, i: nat, golden: seq<Request>, committed: nat) {
    && s.myIdx == i && s.view == 0 && s.status == Normal
    && Follows(s, golden) && s.lastCommitted <= committed
    && Matches(s.clientTable, golden[..s.lastOp])
    && AddressesAreClients(s)
    && !s.nullCommitTimer && !s.resendPrepareTimer && !s.closeBatchTimer
  }

  /** Whoever is recorded as having accepted an operation holds it. */
  ghost predicate VotesOk(c: Config, rs: seq<Replica>)
    requires |rs| == c.n > 0
  {
    var q := rs[0].prepareOKQuorum;
    forall vs, r :: vs in q && r in q[vs] ==> IsFollower(c, r) && vs.opnum <= rs[r].lastOp
  }

  ghost function Holders(rs: seq<Replica>, op: nat): set<nat> {
    set i: nat | i < |rs| && op <= rs[i].lastOp
  }

  ghost predicate Durable(c: Config, rs: seq<Replica>)
    requires |rs| > 0
  {
    rs[0].lastCommitted > 0 ==> |Holders(rs, rs[0].lastCommitted)| >= c.f + 1
  }

  ghost predicate FollowersOk(c: Config, rs: seq<Replica>)
    requires |rs| == c.n > 0
  {
    forall i :: 0 < i < c.n ==> FollowerOk(rs[i], i, Golden(rs), rs[0].lastCommitted)
  }

  ghost predicate NetworkOk(c: Config, rs: seq<Replica>, network: set<Packet>)
    requires |rs| == c.n > 0
  {
    forall p :: p in network ==> PacketOk(c, rs, p)
  }

  ghost predicate Inv(c: Config, y: System) {
    && |y.replicas| == c.n > 0
    && LeaderOk(y.replicas[0])
    && FollowersOk(c, y.replicas)
    && VotesOk(c, y.replicas)
    && Durable(c, y.replicas)
    && NetworkOk(c, y.replicas, y.network)
  }

  lemma InvSize(c: Config, y: System)
    requires Inv(c, y)
    ensures |y.replicas| == c.n > 0
  {
  }

  lemma InvLeader(c: Config, y: System)
    requires Inv(c, y)
    ensures |y.replicas| == c.n > 0 && LeaderOk(y.replicas[0])
    ensures y.replicas[0].lastOp == |Golden(y.replicas)| && Increasing(Golden(y.replicas))
  {
  }

  lemma InvFollower(c: Config, y: System, i: nat)
    requires Inv(c, y) && IsFollower(c, i)
    ensures |y.replicas| == c.n && FollowerOk(y.replicas[i], i, Golden(y.replicas), y.replicas[0].lastCommitted)
    ensures y.replicas[i].lastOp <= |Golden(y.replicas)|
  {
  }

  lemma InvPacket(c: Config, y: System, p: Packet)
    requires Inv(c, y) && p in y.network
    ensures |y.replicas| == c.n > 0 && PacketOk(c, y.replicas, p)
  {
  }

  // ---- everything only grows ---------------------------------------------------

  ghost predicate Grows(rs: seq<Replica>, rs': seq<Replica>) {
    && |rs'| == |rs| > 0
    && Golden(rs) <= Golden(rs')
    && (forall i :: 0 <= i < |rs| ==>
          rs[i].lastOp <= rs'[i].lastOp && rs[i].lastCommitted <= rs'[i].lastCommitted)
  }

  lemma SlicePrefix(s: seq<Request>, t: seq<Request>, a: nat, b: nat)
    requires s <= t && a <= b <= |s|
    ensures s[a..b] == t[a..b]
  {
  }

  lemma ReplyOkGrows(golden: seq<Request>, golden': seq<Request>, committed: nat, committed': nat, m: Message)
    requires golden <= golden' && committed <= committed' && ReplyOk(golden, committed, m)
    ensures ReplyOk(golden', committed', m)
  {
  }

  lemma PacketOkGrows(c: Config, rs: seq<Replica>, rs': seq<Replica>, p: Packet)
    requires |rs| == c.n && Grows(rs, rs') && PacketOk(c, rs, p)
    ensures PacketOk(c, rs', p)
  {
    if p.msg.PrepareMessage? {
      SlicePrefix(Golden(rs), Golden(rs'), p.msg.batchstart - 1, p.msg.opnum);
    }
  }

  lemma HoldersGrow(rs: seq<Replica>, rs': seq<Replica>, op: nat)
    requires Grows(rs, rs')
    ensures |Holders(rs, op)| <= |Holders(rs', op)|
  {
    SubsetSize(Holders(rs, op), Holders(rs', op));
  }

  /** One follower moves on; the rest of the invariant carries over. */
  lemma FollowerStep(c: Config, y: System, i: nat, t: Replica, sent: set<Packet>)
    requires Inv(c, y) && IsFollower(c, i)
    requires FollowerOk(t, i, Golden(y.replicas), y.replicas[0].lastCommitted)
    requires y.replicas[i].lastOp <= t.lastOp && y.replicas[i].lastCommitted <= t.lastCommitted
    requires NetworkOk(c, y.replicas[i := t], sent)
    ensures Inv(c, System(y.replicas[i := t], y.network + sent))
  {
    hide FollowerOk, LeaderOk, PacketOk;
    var rs, rs' := y.replicas, y.replicas[i := t];
    assert Grows(rs, rs');
    HoldersGrow(rs, rs', rs[0].lastCommitted);
    forall p | p in y.network + sent ensures PacketOk(c, rs', p) {
      if p in y.network {
        PacketOkGrows(c, rs, rs', p);
      }
    }
  }

  lemma FollowerOkGrows(s: Replica, i: nat, golden: seq<Request>, golden': seq<Request>, committed: nat,
                        committed': nat)
    requires FollowerOk(s, i, golden, committed) && golden <= golden' && committed <= committed'
    ensures FollowerOk(s, i, golden', committed')
  {
    SlicePrefix(golden, golden', 0, s.lastOp);
  }

  /** The leader moves on. */
  lemma LeaderStep(c: Config, y: System, t: Replica, sent: set<Packet>)
    requires Inv(c, y) && LeaderOk(t)
    requires Golden(y.replicas) <= Requests(t.log.entries)
    requires y.replicas[0].lastCommitted <= t.lastCommitted
    requires VotesOk(c, y.replicas[0 := t])
    requires Durable(c, y.replicas[0 := t])
    requires NetworkOk(c, y.replicas[0 := t], sent)
    ensures Inv(c, System(y.replicas[0 := t], y.network + sent))
  {
    InvLeader(c, y);
    assert y.replicas[0].lastOp <= t.lastOp;
    hide FollowerOk, LeaderOk, PacketOk;
    var rs, rs' := y.replicas, y.replicas[0 := t];
    assert Grows(rs, rs');
    forall p | p in y.network + sent ensures PacketOk(c, rs', p) {
      if p in y.network {
        PacketOkGrows(c, rs, rs', p);
      }
    }
    forall i | 0 < i < c.n
      ensures FollowerOk(rs'[i], i, Golden(rs'), rs'[0].lastCommitted)
    {
      FollowerOkGrows(rs[i], i, Golden(rs), Golden(rs'), rs[0].lastCommitted, t.lastCommitted);
    }
  }
}
