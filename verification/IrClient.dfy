/** A pending consensus request updated in place, each handler proved against the step it takes;
    and what a fast quorum at the client means for the replicas. */
module IrClient {
  import opened ReplicaLog
  import opened Counting
  import opened IrMerge
  import opened IrFastPath
  import opened IrReplica
  import opened IrClientSpec

  lemma OneMoreAnswer(msgs: map<nat, Reply>, i: nat, m: Reply, r: string)
    requires i !in msgs
    ensures |Answering(msgs[i := m], r)| == |Answering(msgs, r)| + if m.result == r then 1 else 0
  {
    if m.result == r {
      assert Answering(msgs[i := m], r) == Answering(msgs, r) + {i};
    } else {
      assert Answering(msgs[i := m], r) == Answering(msgs, r);
    }
  }

  /** The answers of each kind, counted. */
  ghost predicate Counts(counts: map<string, nat>, msgs: map<nat, Reply>) {
    && (forall r :: |Answering(msgs, r)| == if r in counts then counts[r] else 0)
    && (forall r :: r in counts ==> counts[r] > 0)
  }

  lemma CountsOne(counts: map<string, nat>, msgs: map<nat, Reply>, i: nat, m: Reply)
    requires Counts(counts, msgs) && i !in msgs
    ensures Counts(counts[m.result := (if m.result in counts then counts[m.result] else 0) + 1], msgs[i := m])
  {
    forall x ensures |Answering(msgs[i := m], x)| == |Answering(msgs, x)| + if m.result == x then 1 else 0 {
      OneMoreAnswer(msgs, i, m, x);
    }
    hide Answering;
  }

  lemma CountsAreTally(counts: map<string, nat>, msgs: map<nat, Reply>)
    requires Counts(counts, msgs)
    ensures counts == Tally(msgs)
  {
    forall r ensures r in counts <==> r in Results(msgs) {
      if r in Results(msgs) {
        var i :| i in msgs && msgs[i].result == r;
        assert i in Answering(msgs, r);
      } else {
        assert Answering(msgs, r) == {};
      }
    }
    hide Answering, Results;
  }

  /** Counts the answers of each kind. */
  method CountResults(msgs: map<nat, Reply>) returns (counts: map<string, nat>)
    ensures counts == Tally(msgs) && Counts(counts, msgs)
  {
    hide Counts;
    counts := map[];
    var todo := msgs.Keys;
    ghost var seen: map<nat, Reply> := map[];
    NothingCounted();
    while todo != {}
      invariant todo <= msgs.Keys && seen == msgs - todo
      invariant Counts(counts, seen)
      decreases |todo|
    {
      var i :| i in todo;
      var r := msgs[i].result;
      CountsOne(counts, seen, i, msgs[i]);
      counts := counts[r := (if r in counts then counts[r] else 0) + 1];
      seen := seen[i := msgs[i]];
      todo := todo - {i};
    }
    assert seen == msgs;
    CountsAreTally(counts, msgs);
  }

  lemma NothingCounted()
    ensures Counts(map[], map[])
  {
    forall r ensures Answering(map[], r) == {} {
    }
  }

  /** Looks for a result that at least `n` replicas gave. */
  method FindResult(msgs: map<nat, Reply>, n: nat) returns (found: Option<string>)
    requires n > 0
    ensures found.Some? <==> exists r :: |Answering(msgs, r)| >= n
    ensures found.Some? ==> |Answering(msgs, found.value)| >= n
  {
    hide Answering, Tally;
    var counts := CountResults(msgs);
    var todo := counts.Keys;
    while todo != {}
      invariant todo <= counts.Keys
      invariant forall r :: r in counts && r !in todo ==> counts[r] < n
      decreases |todo|
    {
      var r :| r in todo;
      todo := todo - {r};
      if counts[r] < n {
        continue;
      }
      assert |Answering(msgs, r)| >= n;
      return Some(r);
    }
    return None;
  }

  /** QuorumSet::CheckForQuorum: the first view, in order, with a quorum of replies. */
  method FirstQuorum(replies: map<nat, map<nat, Reply>>, n: nat) returns (view: Option<nat>)
    ensures view.Some? <==> exists v :: v in replies && |replies[v]| >= n
    ensures view.Some? ==> LeastQuorum(replies, n, view.value)
    ensures view == FirstView(replies, n)
  {
    view := None;
    var todo := replies.Keys;
    while todo != {}
      invariant todo <= replies.Keys
      invariant view.None? ==> forall v :: v in replies && v !in todo ==> |replies[v]| < n
      invariant view.Some? ==> view.value in replies && |replies[view.value]| >= n
      invariant view.Some? ==> forall v :: v in replies && v !in todo && |replies[v]| >= n ==> view.value <= v
      decreases |todo|
    {
      var v :| v in todo;
      if |replies[v]| >= n && (view.None? || v < view.value) {
        view := Some(v);
      }
      todo := todo - {v};
    }
    FirstViewIs(replies, n);
  }

  /** PendingConsensusRequest of replication/ir/client.h, with the handlers of its replies. */
  class ConsensusRequest {
    const f: nat
    const decide: map<string, nat> -> string
    var replies: map<nat, map<nat, Reply>>
    var confirms: map<nat, set<nat>>
    var onSlowPath: bool
    var sentConfirms: bool
    var decideResult: string
    var replyView: nat
    var returned: Option<string>
    var fastPath: bool
    var done: bool
    var sent: seq<string>

    ghost function State(): Pending
      reads this
    {
      Pending(f, decide, replies, confirms, onSlowPath, sentConfirms, decideResult,
              replyView, returned, fastPath, done, sent)
    }

    constructor (f: nat, decide: map<string, nat> -> string)
      ensures State() == NewRequest(f, decide)
    {
      this.f := f;
      this.decide := decide;
      replies, confirms := map[], map[];
      onSlowPath, sentConfirms := false, false;
      decideResult, replyView := "", 0;
      returned, fastPath, done := None, false, false;
      sent := [];
    }

    /** The finalize message goes out. */
    method SendFinalize()
      modifies this`sentConfirms, this`sent
      ensures State() == old(State()).(sentConfirms := true, sent := old(sent) + [decideResult])
    {
      sent := sent + [decideResult];
      sentConfirms := true;
    }

    /** HandleFastPathConsensus; false if no result has a fast quorum. */
    method TryFastPath(view: nat) returns (taken: bool)
      requires view in replies
      modifies this`decideResult, this`sentConfirms, this`returned, this`fastPath, this`sent
      ensures taken <==> exists r :: HasFastQuorum(old(State()), view, r)
      ensures taken ==> HasFastQuorum(old(State()), view, decideResult)
      ensures taken ==> State() == FastPath(old(State()), decideResult)
      ensures !taken ==> State() == old(State())
    {
      var found := FindResult(replies[view], FastQuorumSize(f));
      taken := found.Some?;
      hide Answering;
      assert forall r :: HasFastQuorum(State(), view, r) ==> |Answering(replies[view], r)| >= FastQuorumSize(f);
      assert taken ==> HasFastQuorum(State(), view, found.value);
      if taken {
        decideResult := found.value;
        SendFinalize();
        if returned.None? {
          returned, fastPath := found, true;
        }
      }
    }

    /** HandleSlowPathConsensus without a finalized result: the application decides. */
    method DecideSlowly(view: nat)
      requires view in replies
      modifies this`decideResult, this`replyView, this`sentConfirms, this`sent
      ensures State() == SlowPath(old(State()), view)
    {
      var counts := CountResults(replies[view]);
      hide Tally;
      decideResult := decide(counts);
      replyView := view;
      SendFinalize();
    }

    method FileReply(m: Reply)
      modifies this`replies
      ensures State() == File(old(State()), m) && replies == File(old(State()), m).replies
      ensures m.view in replies && m.replica in replies[m.view] && replies[m.view][m.replica] == m
    {
      var msgs := if m.view in replies then replies[m.view] else map[];
      replies := replies[m.view := msgs[m.replica := m]];
    }

    /** HandleConsensusReply: until results have been sent out for finalization every reply is
        filed; it may then find a finalized result, a quorum on the slow path, or a fast quorum. */
    method HandleConsensusReply(m: Reply)
      modifies this
      ensures ReplyStep(old(State()), m, State())
      ensures !old(done) && !old(sentConfirms) ==>
                && m.view in replies && m.replica in replies[m.view] && replies[m.view][m.replica] == m
                && (m.finalized ==> sent == old(sent) + [m.result] && replyView == m.view && onSlowPath)
                && (!m.finalized && old(onSlowPath) && |replies[m.view]| >= QuorumSize(f) ==>
                      sent == old(sent) + [decide(Tally(replies[m.view]))] && replyView == m.view)
                && (sentConfirms ==> sent == old(sent) + [decideResult])
      ensures old(returned).Some? ==> returned == old(returned)
    {
      hide Tally, HasFastQuorum, File;
      if done || sentConfirms {
        return;
      }
      FileReply(m);
      if m.finalized {
        onSlowPath := true;
        decideResult := m.result;
        replyView := m.view;
        SendFinalize();
      } else if onSlowPath && |replies[m.view]| >= QuorumSize(f) {
        DecideSlowly(m.view);
      } else if !onSlowPath && |replies[m.view]| >= FastQuorumSize(f) {
        var taken := TryFastPath(m.view);
        if !taken {
          onSlowPath := true;
          DecideSlowly(m.view);
        }
      }
    }

    /** TransitionToConsensusSlowPath: the timer that gives up on the fast path decides on the
        first view with a quorum of replies, and sends the result out. */
    method TransitionToSlowPath()
      modifies this`onSlowPath, this`decideResult, this`replyView, this`sentConfirms, this`sent
      ensures State() == TimerStep(old(State()))
      ensures !done ==> onSlowPath
      ensures !done && !old(onSlowPath) ==>
                if exists v :: v in replies && |replies[v]| >= QuorumSize(f)
                then && LeastQuorum(replies, QuorumSize(f), replyView) && sentConfirms
                     && decideResult == decide(Tally(replies[replyView])) && sent == old(sent) + [decideResult]
                else sent == old(sent) && decideResult == old(decideResult)
    {
      hide Tally, FirstView;
      if done || onSlowPath {
        return;
      }
      onSlowPath := true;
      var view := FirstQuorum(replies, QuorumSize(f));
      if view.Some? {
        DecideSlowly(view.value);
      }
    }

    /** ResendConfirmation. */
    method ResendConfirmation()
      modifies this`sentConfirms, this`sent
      ensures State() == ResendStep(old(State()))
    {
      if !done && sentConfirms {
        SendFinalize();
      }
    }

    /** HandleConfirm: a quorum of confirmations ends the request; in the view in which the
        result was decided it returns that result, if none has been returned. */
    method HandleConfirm(view: nat, replica: nat)
      modifies this`confirms, this`done, this`returned
      ensures State() == ConfirmStep(old(State()), view, replica)
      ensures !old(done) ==> view in confirms && replica in confirms[view]
      ensures !old(done) ==> (done <==> |confirms[view]| >= QuorumSize(f))
      ensures !old(done) && done && old(returned).None? ==>
                returned == if view == replyView then Some(decideResult) else None
      ensures old(returned).Some? ==> returned == old(returned)
    {
      if done {
        return;
      }
      confirms := confirms[view := (if view in confirms then confirms[view] else {}) + {replica}];
      if |confirms[view]| >= QuorumSize(f) {
        done := true;
        if returned.None? && view == replyView {
          returned := Some(decideResult);
        }
      }
    }
  }

  // ----- From client to view change -----

  /** Every reply of view `v` was sent by a replica that still holds the operation as it
      answered, and is in view `v`. */
  ghost predicate Faithful(received: set<Reply>, normal: seq<nat>, records: seq<Record>, v: nat, o: OpId) {
    forall m :: m in received && m.view == v ==>
      m.replica < |normal| == |records| && normal[m.replica] == v && HoldsWith(records[m.replica], o, m.result)
  }

  /** A result on which the client has a fast quorum of answers from view `v` is what the next
      leader keeps or puts into d, whichever quorum it merges in a view change from `v`. */
  lemma FastResultSurvives(f: nat, received: set<Reply>, normal: seq<nat>, records: seq<Record>,
                           others: seq<nat>, me: nat, v: nat, o: OpId, r: string)
    requires |normal| == |records| == 2 * f + 1 && InRange(others, |normal|) && me < |normal|
    requires Distinct(others + [me]) && |others| + 1 >= QuorumSize(f) && TypesAgree(records)
    requires SentBy(received, v, r, FastQuorumSize(f)) && Faithful(received, normal, records, v, o)
    requires v == MaxView(normal[me], Messages(normal, records, others))
    ensures
      var latest := Merges(normal, records, others, me);
      || (o in KeptRecord(latest) && KeptRecord(latest)[o].state == Finalized && o !in Groups(latest))
      || (o in Groups(latest) && o !in KeptRecord(latest)
          && forall x :: Reaches(Groups(latest)[o], f, x) <==> x == r)
  {
    var holders: set<nat> :|
      |holders| >= FastQuorumSize(f) && AllSent(received, v, holders, r);
    forall i | i in holders ensures i < |records| && HoldsWith(records[i], o, r) && normal[i] == v {
      var m :| m in received && m.view == v && m.replica == i && m.result == r;
    }
    FastPathSurvivesViewChange(f, normal, records, holders, others, me, o, r);
  }
}
