/** What every event of a single-view run keeps. */
module VrInvariant {
  import opened ReplicaLog
  import opened VrSpec

  // ---- sequences of requests and client tables -----------------------------

  /** Along the sequence, the request ids of each client strictly increase. */
  ghost predicate Increasing(reqs: seq<Request>) {
    forall i, j :: 0 <= i < j < |reqs| && reqs[i].clientid == reqs[j].clientid
      ==> reqs[i].clientreqid < reqs[j].clientreqid
  }

  ghost function LastReqId(reqs: seq<Request>, client: nat): nat {
    if reqs == [] then 0
    else
      var last := reqs[|reqs| - 1];
      if last.clientid == client then last.clientreqid
      else LastReqId(reqs[..|reqs| - 1], client)
  }

  /** Every request id of `client` is at most LastReqId, and a later one is above it or zero. */
  lemma {:induction false} LastReqIdIsLast(reqs: seq<Request>, k: nat)
    requires Increasing(reqs) && k < |reqs|
    ensures reqs[k].clientreqid <= LastReqId(reqs, reqs[k].clientid)
  {
    var rest := reqs[..|reqs| - 1];
    if k < |rest| {
      if reqs[|reqs| - 1].clientid != reqs[k].clientid {
        LastReqIdIsLast(rest, k);
      }
    }
  }

  lemma {:induction false} NextReqIdIsLater(reqs: seq<Request>, client: nat, later: Request)
    requires Increasing(reqs + [later]) && later.clientid == client
    ensures LastReqId(reqs, client) <= later.clientreqid
  {
    if reqs != [] {
      var all := reqs + [later];
      assert all[|reqs| - 1] == reqs[|reqs| - 1] && all[|reqs|] == later;
      if reqs[|reqs| - 1].clientid != client {
        var rest := reqs[..|reqs| - 1];
        forall i, j | 0 <= i < j < |rest + [later]| && (rest + [later])[i].clientid == (rest + [later])[j].clientid
          ensures (rest + [later])[i].clientreqid < (rest + [later])[j].clientreqid
        {
          assert (rest + [later])[i] == all[i];
          assert (rest + [later])[j] == if j < |rest| then all[j] else all[|reqs|];
        }
        NextReqIdIsLater(rest, client, later);
      }
    }
  }

  /** A follower's table: exactly the last request id of each client in its log. */
  ghost predicate Matches(table: map<nat, ClientEntry>, reqs: seq<Request>) {
    forall c: nat :: TableEntry(table, c).lastReqId == LastReqId(reqs, c)
  }

  /** The leader's table also holds requests that the upcall refused. */
  ghost predicate Dominates(table: map<nat, ClientEntry>, reqs: seq<Request>) {
    forall k :: 0 <= k < |reqs| ==>
      reqs[k].clientid in table && reqs[k].clientreqid <= table[reqs[k].clientid].lastReqId
  }

  lemma MatchesNext(table: map<nat, ClientEntry>, reqs: seq<Request>, next: Request, e: ClientEntry)
    requires Matches(table, reqs) && e.lastReqId == next.clientreqid
    ensures Matches(table[next.clientid := e], reqs + [next])
  {
    assert (reqs + [next])[..|reqs|] == reqs;
    forall c: nat
      ensures TableEntry(table[next.clientid := e], c).lastReqId == LastReqId(reqs + [next], c)
    {
      assert TableEntry(table, c).lastReqId == LastReqId(reqs, c);
    }
  }

  // ---- one replica -----------------------------------------------------------

  /** Log, counters and application of one replica fit together. */
  ghost predicate Coherent(s: Replica) {
    && s.log.start == 1 && s.log.Valid()
    && |s.log.entries| == s.lastOp
    && s.lastCommitted <= s.lastOp
    && (forall k :: 0 <= k < s.lastOp ==>
          s.log.entries[k].state == if k < s.lastCommitted then Committed else Prepared)
    && s.executed == Requests(s.log.entries)[..s.lastCommitted]
  }

  ghost predicate FirstViewLog(l: Log) {
    forall k :: 0 <= k < |l.entries| ==> l.entries[k].viewstamp.view == 0
  }

  /** A reply that the application gave tells the client its place in `reqs`. */
  ghost predicate ReplyOk(reqs: seq<Request>, committed: nat, m: Message) {
    m.ReplyMessage? &&
    match m.answer
    case FromUpcall(_) => m.view == 0 && m.opnum == 0
    case FromHistory(executed) =>
      && 1 <= m.opnum <= committed && m.opnum <= |reqs|
      && executed == reqs[..m.opnum]
      && reqs[m.opnum - 1].clientreqid == m.clientreqid
  }

  /** `t` is `s` except for what executing operations touches. */
  ghost predicate OnlyCommitted(s: Replica, t: Replica) {
    t == s.(lastCommitted := t.lastCommitted, log := t.log,
            clientTable := t.clientTable, executed := t.executed)
  }

  ghost predicate SameRequests(s: Replica, t: Replica) {
    && |t.log.entries| == |s.log.entries|
    && (forall k :: 0 <= k < |s.log.entries| ==>
          && t.log.entries[k].request == s.log.entries[k].request
          && t.log.entries[k].viewstamp == s.log.entries[k].viewstamp)
  }

  ghost predicate RepliesOk(sent: set<Packet>, reqs: seq<Request>, committed: nat) {
    forall p :: p in sent ==> ReplyOk(reqs, committed, p.msg)
  }

  ghost predicate AddressesAreClients(s: Replica) {
    forall c :: c in s.clientAddresses ==> s.clientAddresses[c].ClientAddress?
  }

  ghost predicate ToClients(sent: set<Packet>) {
    forall p :: p in sent ==> p.dst.ClientAddress?
  }

  lemma CommitNextEffect(s: Replica)
    requires Coherent(s) && s.lastCommitted < s.lastOp && AddressesAreClients(s)
    ensures CommitNext(s).Ok?
    ensures
      var t := CommitNext(s).value.replica;
      && Coherent(t) && OnlyCommitted(s, t) && SameRequests(s, t)
      && RepliesOk(CommitNext(s).value.sent, Requests(s.log.entries), s.lastCommitted + 1)
      && ToClients(CommitNext(s).value.sent)
  {
    var t := CommitNext(s).value.replica;
    var k := s.lastCommitted;
    assert s.log.Find(k + 1) == Some(s.log.entries[k]);
    assert t.log.entries == s.log.entries[k := s.log.entries[k].(state := Committed)];
    assert Requests(t.log.entries) == Requests(s.log.entries);
    assert Requests(s.log.entries)[..k + 1] == s.executed + [s.log.entries[k].request];
  }

  /** CommitUpTo never panics on a coherent replica and executes exactly up to `upto`. */
  lemma {:induction false} CommitUpToEffect(s: Replica, upto: nat)
    requires Coherent(s) && upto <= s.lastOp && AddressesAreClients(s)
    ensures CommitUpTo(s, upto).Ok?
    ensures
      var t := CommitUpTo(s, upto).value.replica;
      && Coherent(t) && OnlyCommitted(s, t) && SameRequests(s, t)
      && t.lastCommitted == (if s.lastCommitted < upto then upto else s.lastCommitted)
      && RepliesOk(CommitUpTo(s, upto).value.sent, Requests(s.log.entries), t.lastCommitted)
      && ToClients(CommitUpTo(s, upto).value.sent)
    decreases upto - s.lastCommitted
  {
    if s.lastCommitted < upto {
      CommitNextEffect(s);
      var one := CommitNext(s).value;
      CommitUpToEffect(one.replica, upto);
      assert Requests(one.replica.log.entries) == Requests(s.log.entries);
    }
  }

  lemma IncreasingPrefix(reqs: seq<Request>, prefix: seq<Request>)
    requires Increasing(reqs) && prefix <= reqs
    ensures Increasing(prefix)
  {
  }

  ghost function Max(a: nat, b: nat): nat { if a < b then b else a }

  /** Recording the reply to request `k` in a table that accounts for at least `k` requests. */
  lemma RecordReplyMatches(table: map<nat, ClientEntry>, reqs: seq<Request>, k: nat, base: nat, e: ClientEntry)
    requires Increasing(reqs) && k < |reqs| && base <= |reqs|
    requires Matches(table, reqs[..Max(base, k)])
    requires
      var cur := TableEntry(table, reqs[k].clientid);
      e.lastReqId == if cur.lastReqId <= reqs[k].clientreqid then reqs[k].clientreqid else cur.lastReqId
    ensures Matches(table[reqs[k].clientid := e], reqs[..Max(base, k + 1)])
  {
    var req := reqs[k];
    var seen := reqs[..Max(base, k)];
    assert TableEntry(table, req.clientid).lastReqId == LastReqId(seen, req.clientid);
    IncreasingPrefix(reqs, seen);
    if k < base {
      LastReqIdIsLast(seen, k);
      forall c: nat ensures TableEntry(table[req.clientid := e], c).lastReqId == LastReqId(seen, c) {
        assert TableEntry(table, c).lastReqId == LastReqId(seen, c);
      }
    } else {
      assert reqs[..k + 1] == seen + [req];
      IncreasingPrefix(reqs, seen + [req]);
      NextReqIdIsLater(seen, req.clientid, req);
      MatchesNext(table, seen, req, e);
    }
  }

  /** While a follower executes, its table keeps up with whichever is longer, the part of
      the log it already accounted for or the part it has executed. */
  lemma CommitNextMatches(s: Replica, reqs: seq<Request>, base: nat)
    requires Coherent(s) && s.lastCommitted < s.lastOp && base <= s.lastOp
    requires reqs == Requests(s.log.entries) && Increasing(reqs)
    requires Matches(s.clientTable, reqs[..Max(base, s.lastCommitted)])
    ensures CommitNext(s).Ok?
    ensures Matches(CommitNext(s).value.replica.clientTable, reqs[..Max(base, s.lastCommitted + 1)])
  {
    var k := s.lastCommitted;
    assert s.log.Find(k + 1) == Some(s.log.entries[k]);
    var table := CommitNext(s).value.replica.clientTable;
    RecordReplyMatches(s.clientTable, reqs, k, base, table[reqs[k].clientid]);
  }

  lemma {:induction false} CommitUpToMatches(s: Replica, upto: nat, reqs: seq<Request>, base: nat)
    requires Coherent(s) && AddressesAreClients(s) && upto <= s.lastOp && base <= s.lastOp
    requires reqs == Requests(s.log.entries) && Increasing(reqs)
    requires Matches(s.clientTable, reqs[..Max(base, s.lastCommitted)])
    ensures CommitUpTo(s, upto).Ok?
    ensures
      var t := CommitUpTo(s, upto).value.replica;
      t.lastCommitted <= s.lastOp && Matches(t.clientTable, reqs[..Max(base, t.lastCommitted)])
    decreases upto - s.lastCommitted
  {
    if s.lastCommitted < upto {
      CommitNextEffect(s);
      CommitNextMatches(s, reqs, base);
      var one := CommitNext(s).value.replica;
      assert Requests(one.log.entries) == reqs;
      CommitUpToEffect(one, upto);
      CommitUpToMatches(one, upto, reqs, base);
    }
  }

  ghost predicate TableRepliesOk(table: map<nat, ClientEntry>, reqs: seq<Request>, committed: nat) {
    forall c :: c in table && table[c].reply.Some? ==> ReplyOk(reqs, committed, table[c].reply.value)
  }

  lemma CommitNextDominates(s: Replica, reqs: seq<Request>)
    requires Coherent(s) && s.lastCommitted < s.lastOp
    requires reqs == Requests(s.log.entries) && Dominates(s.clientTable, reqs)
    requires TableRepliesOk(s.clientTable, reqs, s.lastCommitted)
    ensures CommitNext(s).Ok?
    ensures
      var t := CommitNext(s).value.replica;
      Dominates(t.clientTable, reqs) && TableRepliesOk(t.clientTable, reqs, s.lastCommitted + 1)
  {
    var k := s.lastCommitted;
    assert s.log.Find(k + 1) == Some(s.log.entries[k]);
    assert reqs[..k + 1] == s.executed + [reqs[k]];
  }

  lemma {:induction false} CommitUpToDominates(s: Replica, upto: nat, reqs: seq<Request>)
    requires Coherent(s) && AddressesAreClients(s) && upto <= s.lastOp
    requires reqs == Requests(s.log.entries) && Dominates(s.clientTable, reqs)
    requires TableRepliesOk(s.clientTable, reqs, s.lastCommitted)
    ensures CommitUpTo(s, upto).Ok?
    ensures
      var t := CommitUpTo(s, upto).value.replica;
      Dominates(t.clientTable, reqs) && TableRepliesOk(t.clientTable, reqs, t.lastCommitted)
    decreases upto - s.lastCommitted
  {
    if s.lastCommitted < upto {
      CommitNextEffect(s);
      CommitNextDominates(s, reqs);
      var one := CommitNext(s).value.replica;
      assert Requests(one.log.entries) == reqs;
      CommitUpToEffect(one, upto);
      CommitUpToDominates(one, upto, reqs);
    }
  }

  /** UpdateClientTable for the request at position m or m-1 of a matched prefix. */
  lemma UpdateMatches(s: Replica, reqs: seq<Request>, m: nat, op: nat)
    requires Increasing(reqs) && 1 <= op <= |reqs| && (m == op - 1 || m == op)
    requires Matches(s.clientTable, reqs[..m])
    ensures UpdateClientTable(s, reqs[op - 1]).Ok?
    ensures
      var t := UpdateClientTable(s, reqs[op - 1]).value;
      t == s.(clientTable := t.clientTable) && Matches(t.clientTable, reqs[..op])
  {
    var req := reqs[op - 1];
    var e := TableEntry(s.clientTable, req.clientid);
    assert e.lastReqId == LastReqId(reqs[..m], req.clientid);
    if m == op - 1 {
      assert reqs[..op] == reqs[..m] + [req];
      IncreasingPrefix(reqs, reqs[..op]);
      NextReqIdIsLater(reqs[..m], req.clientid, req);
      MatchesNext(s.clientTable, reqs[..m], req, UpdateClientTable(s, req).value.clientTable[req.clientid]);
    } else {
      assert e.lastReqId == req.clientreqid;
      var table := UpdateClientTable(s, req).value.clientTable;
      forall c: nat ensures TableEntry(table, c).lastReqId == LastReqId(reqs[..m], c) {
        assert TableEntry(s.clientTable, c).lastReqId == LastReqId(reqs[..m], c);
      }
    }
  }

  ghost predicate PrepareOKsOf(c: Config, s: Replica, sent: set<Packet>)
    requires c.Valid()
  {
    forall p :: p in sent ==>
      && p.msg.PrepareOKMessage? && p.msg.view == s.view && p.msg.replicaidx == s.myIdx
      && p.msg.opnum <= s.lastOp
      && p.dst == ReplicaAddress(c.LeaderIndex(s.view))
  }

  /** SendPrepareOKs never panics after a state transfer and brings the table up to date. */
  lemma {:induction false} SendPrepareOKsEffect(c: Config, s: Replica, op: nat, m: nat, reqs: seq<Request>)
    requires c.Valid() && Coherent(s)
    requires reqs == Requests(s.log.entries) && Increasing(reqs)
    requires s.lastCommitted <= m <= s.lastOp && op <= m + 1
    requires m <= Max(op, s.lastCommitted)
    requires Matches(s.clientTable, reqs[..m])
    ensures SendPrepareOKs(c, s, op).Ok?
    ensures
      var t := SendPrepareOKs(c, s, op).value;
      && t.replica == s.(clientTable := t.replica.clientTable)
      && Matches(t.replica.clientTable, reqs)
      && PrepareOKsOf(c, s, t.sent)
    decreases s.lastOp + 1 - op
  {
    hide Matches, Increasing, UpdateClientTable;
    if op > s.lastOp {
      assert reqs[..m] == reqs;
    } else if op <= s.lastCommitted {
      SendPrepareOKsEffect(c, s, op + 1, m, reqs);
    } else {
      assert s.log.Find(op) == Some(s.log.entries[op - 1]);
      UpdateMatches(s, reqs, m, op);
      var s' := UpdateClientTable(s, reqs[op - 1]).value;
      SendPrepareOKsEffect(c, s', op + 1, op, reqs);
    }
  }

  // ---- a replica whose log follows the leader's requests ----------------------

  ghost predicate Follows(s: Replica, golden: seq<Request>) {
    && Coherent(s) && FirstViewLog(s.log)
    && Requests(s.log.entries) <= golden
  }

  lemma AppendFollows(s: Replica, golden: seq<Request>)
    requires Follows(s, golden) && s.lastOp < |golden|
    ensures s.log.CanAppend(Viewstamp(0, s.lastOp + 1))
    ensures Follows(s.(lastOp := s.lastOp + 1,
                       log := s.log.Append(Viewstamp(0, s.lastOp + 1), golden[s.lastOp], Prepared)), golden)
  {
    var l := s.log.Append(Viewstamp(0, s.lastOp + 1), golden[s.lastOp], Prepared);
    AppendKeepsValid(s.log, Viewstamp(0, s.lastOp + 1), golden[s.lastOp], Prepared);
    assert Requests(l.entries) == Requests(s.log.entries) + [golden[s.lastOp]];
  }

  lemma FollowsIgnoresTable(s: Replica, t: Replica, golden: seq<Request>)
    requires Follows(s, golden) && t == s.(clientTable := t.clientTable)
    ensures Follows(t, golden)
  {
  }

  lemma FollowsPrefix(s: Replica, golden: seq<Request>)
    requires Follows(s, golden)
    ensures s.lastOp <= |golden| && Requests(s.log.entries) == golden[..s.lastOp]
    ensures s.lastCommitted <= s.lastOp
  {
  }

  /** A slice of the leader's requests appends without a panic, wherever it overlaps the log. */
  lemma {:induction false} AppendBatchEffect(s: Replica, op: nat, reqs: seq<Request>, golden: seq<Request>)
    requires Follows(s, golden) && Increasing(golden)
    requires Matches(s.clientTable, golden[..s.lastOp])
    requires 1 <= op <= s.lastOp + 1 && op - 1 + |reqs| <= |golden|
    requires reqs == golden[op - 1..op - 1 + |reqs|]
    ensures AppendBatch(s, 0, op, reqs).Ok?
    ensures
      var t := AppendBatch(s, 0, op, reqs).value;
      && t == s.(lastOp := t.lastOp, log := t.log, clientTable := t.clientTable)
      && t.lastOp == Max(s.lastOp, op - 1 + |reqs|)
      && Follows(t, golden) && Matches(t.clientTable, golden[..t.lastOp])
    decreases |reqs|
  {
    hide Follows, Matches, Increasing, UpdateClientTable;
    if reqs != [] {
      assert reqs[1..] == golden[op..op - 1 + |reqs|];
      if op <= s.lastOp {
        AppendBatchEffect(s, op + 1, reqs[1..], golden);
      } else {
        AppendFollows(s, golden);
        assert reqs[0] == golden[s.lastOp];
        var s1 := s.(lastOp := op, log := s.log.Append(Viewstamp(0, op), reqs[0], Prepared));
        UpdateMatches(s1, golden, op - 1, op);
        var s2 := UpdateClientTable(s1, reqs[0]).value;
        FollowsIgnoresTable(s1, s2, golden);
        AppendBatchEffect(s2, op + 1, reqs[1..], golden);
      }
    }
  }

  /** `es` is the leader's log from opnum `b` on. */
  ghost predicate SliceFrom(es: seq<LogEntry>, b: nat, golden: seq<Request>) {
    && 1 <= b && b + |es| - 1 <= |golden|
    && forall i :: 0 <= i < |es| ==>
         es[i].viewstamp == Viewstamp(0, b + i) && es[i].request == golden[b - 1 + i]
  }

  lemma {:induction false} InstallEntriesEffect(s: Replica, base: nat, es: seq<LogEntry>, b: nat, golden: seq<Request>)
    requires Follows(s, golden) && SliceFrom(es, b, golden) && b <= s.lastOp + 1
    ensures InstallEntries(s, base, es).Ok?
    ensures
      var (t, base') := InstallEntries(s, base, es).value;
      && base' == base
      && t == s.(lastOp := t.lastOp, log := t.log)
      && t.lastOp == Max(s.lastOp, b + |es| - 1)
      && Follows(t, golden)
    decreases |es|
  {
    if es != [] {
      var e := es[0];
      if b <= s.lastOp {
        assert s.log.Find(b) == Some(s.log.entries[b - 1]);
        hide Follows;
        InstallEntriesEffect(s, base, es[1..], b + 1, golden);
      } else {
        AppendFollows(s, golden);
        hide Follows;
        var s1 := s.(lastOp := b, log := s.log.Append(e.viewstamp, e.request, Prepared));
        InstallEntriesEffect(s1, base, es[1..], b + 1, golden);
      }
    }
  }
}
