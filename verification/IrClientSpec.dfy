/** A client's consensus operation (replication/ir/client.cc): what each reply, confirmation and
    timer does to a pending request, and what holds over every sequence of them. */
module IrClientSpec {
  import opened ReplicaLog
  import opened Counting
  import opened IrMerge

  /** ReplyConsensusMessage, for one operation. */
  datatype Reply = Reply(view: nat, replica: nat, result: string, finalized: bool)

  /** The replicas that answered `result`. */
  ghost function Answering(msgs: map<nat, Reply>, result: string): set<nat> {
    set i | i in msgs && msgs[i].result == result
  }

  ghost function Results(msgs: map<nat, Reply>): set<string> {
    set i | i in msgs :: msgs[i].result
  }

  /** How many replicas gave each answer: what the application decides on. */
  ghost function Tally(msgs: map<nat, Reply>): map<string, nat> {
    map r | r in Results(msgs) :: |Answering(msgs, r)|
  }

  /** The first view, in order, with a quorum of replies. */
  ghost predicate LeastQuorum(replies: map<nat, map<nat, Reply>>, n: nat, view: nat) {
    && view in replies && |replies[view]| >= n
    && forall v :: v in replies && |replies[v]| >= n ==> view <= v
  }

  ghost function FirstView(replies: map<nat, map<nat, Reply>>, n: nat): Option<nat> {
    if v: nat :| LeastQuorum(replies, n, v) then Some(v) else None
  }

  /** PendingConsensusRequest.  `returned` is what the application was given, `fastPath` whether
      by the fast path; `sent` are the results sent out for finalization, in order.  The timer
      that gives up on the fast path is armed as long as the slow path is not taken; it goes with
      the request when that is done. */
  datatype Pending = Pending(
    f: nat,
    decide: map<string, nat> -> string,
    replies: map<nat, map<nat, Reply>>,
    confirms: map<nat, set<nat>>,
    onSlowPath: bool,
    sentConfirms: bool,
    decideResult: string,
    replyView: nat,
    returned: Option<string>,
    fastPath: bool,
    done: bool,
    sent: seq<string>)

  ghost function NewRequest(f: nat, decide: map<string, nat> -> string): Pending {
    Pending(f, decide, map[], map[], false, false, "", 0, None, false, false, [])
  }

  // ----- Steps -----

  ghost function File(q: Pending, m: Reply): Pending {
    var msgs := if m.view in q.replies then q.replies[m.view] else map[];
    q.(replies := q.replies[m.view := msgs[m.replica := m]])
  }

  /** A result is settled on, and sent out for finalization. */
  ghost function Finalize(q: Pending, view: nat, result: string): Pending {
    q.(decideResult := result, replyView := view, sentConfirms := true, sent := q.sent + [result])
  }

  /** HandleSlowPathConsensus without a finalized result: the application decides. */
  ghost function SlowPath(q: Pending, view: nat): Pending
    requires view in q.replies
  {
    Finalize(q, view, q.decide(Tally(q.replies[view])))
  }

  /** HandleFastPathConsensus with a result that has a fast quorum. */
  ghost function FastPath(q: Pending, result: string): Pending {
    q.(decideResult := result, sentConfirms := true, sent := q.sent + [result],
       returned := if q.returned.None? then Some(result) else q.returned,
       fastPath := q.returned.None? || q.fastPath)
  }

  ghost predicate HasFastQuorum(q: Pending, view: nat, result: string)
    requires view in q.replies
  {
    |Answering(q.replies[view], result)| >= FastQuorumSize(q.f)
  }

  /** HandleConsensusReply.  Should several results have a fast quorum, any of them is taken. */
  ghost predicate ReplyStep(q: Pending, m: Reply, q': Pending) {
    if q.done || q.sentConfirms then q' == q
    else
      var p := File(q, m);
      var size := |p.replies[m.view]|;
      if m.finalized then q' == Finalize(p.(onSlowPath := true), m.view, m.result)
      else if p.onSlowPath && size >= QuorumSize(p.f) then q' == SlowPath(p, m.view)
      else if !p.onSlowPath && size >= FastQuorumSize(p.f) then
        if exists r :: HasFastQuorum(p, m.view, r)
        then exists r :: HasFastQuorum(p, m.view, r) && q' == FastPath(p, r)
        else q' == SlowPath(p.(onSlowPath := true), m.view)
      else q' == p
  }

  /** TransitionToConsensusSlowPath: the timer that gives up on the fast path. */
  ghost function TimerStep(q: Pending): Pending {
    if q.done || q.onSlowPath then q
    else
      var p := q.(onSlowPath := true);
      var view := FirstView(p.replies, QuorumSize(p.f));
      if view.Some? then SlowPath(p, view.value) else p
  }

  /** ResendConfirmation. */
  ghost function ResendStep(q: Pending): Pending {
    if q.done || !q.sentConfirms then q else q.(sent := q.sent + [q.decideResult])
  }

  ghost function ConfirmsOf(q: Pending, view: nat): set<nat> {
    if view in q.confirms then q.confirms[view] else {}
  }

  /** HandleConfirm: a quorum of confirmations ends the request, and returns the decided result
      if it is for the view in which the result was decided. */
  ghost function ConfirmStep(q: Pending, view: nat, replica: nat): Pending {
    if q.done then q
    else
      var p := q.(confirms := q.confirms[view := ConfirmsOf(q, view) + {replica}]);
      if |p.confirms[view]| < QuorumSize(p.f) then p
      else p.(done := true,
              returned := if p.returned.None? && view == p.replyView then Some(p.decideResult) else p.returned)
  }

  // ----- Sequences of events -----

  datatype Event =
    | ReplyArrives(m: Reply)
    | ConfirmArrives(view: nat, replica: nat)
    | TimerFires
    | Resend

  ghost predicate Next(q: Pending, e: Event, q': Pending) {
    match e
    case ReplyArrives(m) => ReplyStep(q, m, q')
    case ConfirmArrives(view, replica) => q' == ConfirmStep(q, view, replica)
    case TimerFires => q' == TimerStep(q)
    case Resend => q' == ResendStep(q)
  }

  /** The states that a request goes through. */
  ghost predicate Trace(states: seq<Pending>, events: seq<Event>) {
    && |states| == |events| + 1
    && states[0] == NewRequest(states[0].f, states[0].decide)
    && forall i :: 0 <= i < |events| ==> Next(states[i], events[i], states[i + 1])
  }

  // ----- What every event keeps -----

  /** The replies of one view, by replica. */
  ghost predicate FiledIn(msgs: map<nat, Reply>, view: nat, received: set<Reply>) {
    forall i :: i in msgs ==> msgs[i] in received && msgs[i].replica == i && msgs[i].view == view
  }

  ghost predicate AllFiled(q: Pending, received: set<Reply>) {
    forall v :: v in q.replies ==> FiledIn(q.replies[v], v, received)
  }

  /** The result was found finalized, or is the application's decision on a quorum of replies. */
  ghost predicate Justified(q: Pending) {
    && q.replyView in q.replies
    && (|| (exists i :: i in q.replies[q.replyView] && q.replies[q.replyView][i].finalized
              && q.replies[q.replyView][i].result == q.decideResult)
        || (|q.replies[q.replyView]| >= QuorumSize(q.f) && q.decideResult == q.decide(Tally(q.replies[q.replyView]))))
  }

  /** The fast path is the last word so far. */
  ghost predicate FastOnly(q: Pending) {
    && !q.onSlowPath && q.returned == Some(q.decideResult)
    && forall i :: 0 <= i < |q.sent| ==> q.sent[i] == q.decideResult
  }

  ghost predicate FastView(q: Pending, result: string) {
    exists v :: v in q.replies && HasFastQuorum(q, v, result)
  }

  /** The timer has fired after the fast path. */
  ghost predicate FastThenSlow(q: Pending) {
    && q.onSlowPath && q.returned.Some? && FirstView(q.replies, QuorumSize(q.f)).Some?
    && q.decideResult == q.decide(Tally(q.replies[FirstView(q.replies, QuorumSize(q.f)).value]))
    && q.decideResult in q.sent
    && forall i :: 0 <= i < |q.sent| ==> q.sent[i] == q.decideResult || q.sent[i] == q.returned.value
  }

  ghost predicate Inv(q: Pending) {
    && (q.sentConfirms <==> q.sent != [])
    && (q.sentConfirms ==> q.decideResult in q.sent)
    && (q.sentConfirms ==> Justified(q) || (q.fastPath && FastOnly(q)))
    && (!q.sentConfirms && !q.done ==> q.returned.None?)
    && (q.fastPath ==>
          q.returned.Some? && q.sentConfirms && FastView(q, q.returned.value) && (FastOnly(q) || FastThenSlow(q)))
    && (q.returned.Some? && !q.fastPath ==>
          q.done && |ConfirmsOf(q, q.replyView)| >= QuorumSize(q.f) && q.returned == Some(q.decideResult))
  }

  lemma FirstViewIs(replies: map<nat, map<nat, Reply>>, n: nat)
    ensures FirstView(replies, n).Some? ==> LeastQuorum(replies, n, FirstView(replies, n).value)
    ensures (exists v :: v in replies && |replies[v]| >= n) ==> FirstView(replies, n).Some?
  {
    if v :| v in replies && |replies[v]| >= n {
      SomeLeast(replies, n, v);
    }
  }

  lemma {:induction false} SomeLeast(replies: map<nat, map<nat, Reply>>, n: nat, v: nat)
    requires v in replies && |replies[v]| >= n
    ensures exists u :: LeastQuorum(replies, n, u)
    decreases v
  {
    if u :| u in replies && |replies[u]| >= n && u < v {
      SomeLeast(replies, n, u);
    } else {
      assert LeastQuorum(replies, n, v);
    }
  }

  lemma AnsweringAtMost(msgs: map<nat, Reply>, r: string)
    ensures |Answering(msgs, r)| <= |msgs|
  {
    SubsetSize(Answering(msgs, r), msgs.Keys);
    assert |msgs.Keys| == |msgs|;
  }

  lemma FastHasQuorum(q: Pending, result: string)
    requires FastView(q, result)
    ensures FirstView(q.replies, QuorumSize(q.f)).Some?
  {
    var v :| v in q.replies && HasFastQuorum(q, v, result);
    AnsweringAtMost(q.replies[v], result);
    FirstViewIs(q.replies, QuorumSize(q.f));
  }

  lemma ReplyInv(q: Pending, m: Reply, q': Pending)
    requires Inv(q) && ReplyStep(q, m, q')
    ensures Inv(q')
  {
    if !q.done && !q.sentConfirms {
      var p := File(q, m);
      assert p.replies[m.view][m.replica] == m;
      hide Tally, HasFastQuorum;
      if q'.fastPath {
        var r :| HasFastQuorum(p, m.view, r) && q' == FastPath(p, r);
        assert FastView(q', r) by { FastStays(p, q', m.view, r); }
        assert FastOnly(q');
      }
    }
  }

  lemma FastStays(p: Pending, q: Pending, view: nat, r: string)
    requires view in p.replies && HasFastQuorum(p, view, r) && q.replies == p.replies && q.f == p.f
    ensures FastView(q, r)
  {
    assert HasFastQuorum(q, view, r);
  }

  lemma TimerInv(q: Pending)
    requires Inv(q)
    ensures Inv(TimerStep(q))
  {
    var q' := TimerStep(q);
    FirstViewIs(q.replies, QuorumSize(q.f));
    if q.fastPath {
      FastHasQuorum(q, q.returned.value);
      var v :| v in q.replies && HasFastQuorum(q, v, q.returned.value);
      FastStays(q, q', v, q.returned.value);
    }
    hide Tally, HasFastQuorum, FirstView, LeastQuorum;
  }

  lemma ResendInv(q: Pending)
    requires Inv(q)
    ensures Inv(ResendStep(q))
  {
    var q' := ResendStep(q);
    if q.fastPath {
      var v :| v in q.replies && HasFastQuorum(q, v, q.returned.value);
      FastStays(q, q', v, q.returned.value);
    }
    hide Tally, HasFastQuorum, FirstView;
  }

  lemma ConfirmInv(q: Pending, view: nat, replica: nat)
    requires Inv(q)
    ensures Inv(ConfirmStep(q, view, replica))
  {
    hide Tally, FirstView;
    var q' := ConfirmStep(q, view, replica);
    if q.fastPath {
      var v :| v in q.replies && HasFastQuorum(q, v, q.returned.value);
      FastStays(q, q', v, q.returned.value);
    }
    hide Tally, HasFastQuorum, FirstView;
  }

  lemma StepInv(q: Pending, e: Event, q': Pending)
    requires Inv(q) && Next(q, e, q')
    ensures Inv(q')
  {
    hide Inv, TimerStep, ResendStep, ConfirmStep, ReplyStep;
    match e
    case ReplyArrives(m) => ReplyInv(q, m, q');
    case ConfirmArrives(view, replica) => ConfirmInv(q, view, replica);
    case TimerFires => TimerInv(q);
    case Resend => ResendInv(q);
  }

  lemma {:induction false} TraceInv(states: seq<Pending>, events: seq<Event>, k: nat)
    requires Trace(states, events) && k < |states|
    ensures Inv(states[k]) && states[k].f == states[0].f && states[k].decide == states[0].decide
    decreases k
  {
    if k > 0 {
      TraceInv(states, events, k - 1);
      StepInv(states[k - 1], events[k - 1], states[k]);
      SameRequest(states[k - 1], events[k - 1], states[k]);
    }
  }

  /** What no event changes. */
  ghost predicate Same(q: Pending, q': Pending) {
    && q'.f == q.f && q'.decide == q.decide
    && (q.returned.Some? ==> q'.returned == q.returned && q'.fastPath == q.fastPath)
    && (q.sentConfirms || q.done ==> q'.replies == q.replies)
    && (q.sentConfirms ==> q'.sentConfirms)
    && (q.done ==> q' == q)
    && (q.onSlowPath ==> q'.onSlowPath)
  }

  lemma ReplyChanges(q: Pending, m: Reply, q': Pending)
    requires ReplyStep(q, m, q') && q' != q
    ensures Same(q, q') && q'.replies == File(q, m).replies && q'.confirms == q.confirms
  {
    hide HasFastQuorum, Tally;
  }

  lemma SameRequest(q: Pending, e: Event, q': Pending)
    requires Next(q, e, q')
    ensures Same(q, q')
  {
    hide HasFastQuorum, Tally, FirstView, ReplyStep, File;
    if e.ReplyArrives? && q' != q {
      ReplyChanges(q, e.m, q');
    }
  }

  // ----- What a returned result rests on -----

  /** At least `n` distinct replicas sent this result in one view. */
  ghost predicate SentBy(received: set<Reply>, view: nat, result: string, n: nat) {
    exists replicas: set<nat> :: |replicas| >= n && AllSent(received, view, replicas, result)
  }

  ghost predicate AllSent(received: set<Reply>, view: nat, replicas: set<nat>, result: string) {
    forall i :: i in replicas ==> Sent(received, view, i, result)
  }

  ghost predicate Sent(received: set<Reply>, view: nat, replica: nat, result: string) {
    exists m :: m in received && m.view == view && m.replica == replica && m.result == result
  }

  ghost function Received(events: seq<Event>): set<Reply> {
    set e | e in events && e.ReplyArrives? :: e.m
  }

  ghost predicate Confirmed(q: Pending, events: seq<Event>) {
    forall v, i: nat :: i in ConfirmsOf(q, v) ==> ConfirmArrives(v, i) in events
  }

  lemma FiledMore(q: Pending, received: set<Reply>, more: set<Reply>, m: Reply)
    requires AllFiled(q, received) && received <= more && m in more
    ensures AllFiled(q, more) && AllFiled(File(q, m), more)
  {
    var p := File(q, m);
    forall v | v in p.replies ensures FiledIn(p.replies[v], v, more) {
      assert v in q.replies ==> FiledIn(q.replies[v], v, received);
    }
    forall v | v in q.replies ensures FiledIn(q.replies[v], v, more) {
      assert FiledIn(q.replies[v], v, received);
    }
  }

  lemma RepliesAfter(q: Pending, e: Event, q': Pending)
    requires Next(q, e, q')
    ensures q'.replies == q.replies || (e.ReplyArrives? && q'.replies == File(q, e.m).replies)
    ensures q'.confirms == q.confirms ||
              (e.ConfirmArrives? && q'.confirms == q.confirms[e.view := ConfirmsOf(q, e.view) + {e.replica}])
  {
    hide HasFastQuorum, Tally, FirstView, ReplyStep, File, ConfirmsOf;
    if e.ReplyArrives? && q' != q {
      ReplyChanges(q, e.m, q');
    }
  }

  lemma {:induction false} TraceFiles(states: seq<Pending>, events: seq<Event>, k: nat)
    requires Trace(states, events) && k < |states|
    ensures AllFiled(states[k], Received(events[..k])) && Confirmed(states[k], events[..k])
    decreases k
  {
    if k > 0 {
      TraceFiles(states, events, k - 1);
      var q, e, q' := states[k - 1], events[k - 1], states[k];
      RepliesAfter(q, e, q');
      assert events[..k] == events[..k - 1] + [e];
      var received, more := Received(events[..k - 1]), Received(events[..k]);
      assert received <= more;
      if e.ReplyArrives? {
        assert e.m in more;
        FiledMore(q, received, more, e.m);
      } else {
        FiledStay(q, q', received, more);
      }
      hide AllFiled, Next, Received;
    }
  }

  lemma FiledStay(q: Pending, q': Pending, received: set<Reply>, more: set<Reply>)
    requires AllFiled(q, received) && received <= more && q'.replies == q.replies
    ensures AllFiled(q', more)
  {
    forall v | v in q'.replies ensures FiledIn(q'.replies[v], v, more) {
      assert FiledIn(q.replies[v], v, received);
    }
  }

  /** What was returned to the application rests on a fast quorum of equal answers in one view;
      or on a quorum of confirmations for the view in which the result was decided, where a
      replica answered it as finalized or the application decided it on a quorum of answers. */
  lemma ReturnedIsBacked(states: seq<Pending>, events: seq<Event>, k: nat, r: string)
    requires Trace(states, events) && k < |states| && states[k].returned == Some(r)
    ensures
      var q := states[k];
      if q.fastPath then exists v :: SentBy(Received(events), v, r, FastQuorumSize(q.f))
      else
        && q.done && r == q.decideResult && (q.sent != [] ==> Justified(q) && r in q.sent)
        && |ConfirmsOf(q, q.replyView)| >= QuorumSize(q.f)
        && forall i: nat :: i in ConfirmsOf(q, q.replyView) ==> ConfirmArrives(q.replyView, i) in events
  {
    var q := states[k];
    TraceInv(states, events, k);
    TraceFiles(states, events, k);
    hide Trace;
    if q.fastPath {
      var v :| v in q.replies && HasFastQuorum(q, v, r);
      assert Received(events[..k]) <= Received(events);
      AnsweringIsSent(q.replies[v], v, Received(events[..k]), Received(events), r, FastQuorumSize(q.f));
    }
  }

  lemma AnsweringIsSent(msgs: map<nat, Reply>, view: nat, received: set<Reply>, more: set<Reply>, r: string, n: nat)
    requires FiledIn(msgs, view, received) && |Answering(msgs, r)| >= n && received <= more
    ensures SentBy(more, view, r, n)
  {
    var replicas := Answering(msgs, r);
    forall i: nat | i in replicas ensures Sent(more, view, i, r) {
      assert msgs[i] in more;
    }
  }

  /** A result is returned once: it never changes. */
  lemma {:induction false} ReturnedOnce(states: seq<Pending>, events: seq<Event>, i: nat, j: nat)
    requires Trace(states, events) && i <= j < |states| && states[i].returned.Some?
    ensures states[j].returned == states[i].returned && states[j].fastPath == states[i].fastPath
    decreases j - i
  {
    hide Next, NewRequest;
    if i < j {
      ReturnedOnce(states, events, i, j - 1);
      SameRequest(states[j - 1], events[j - 1], states[j]);
    }
  }

  // ----- The slow path after the fast path -----

  /** What the timer would have the application decide. */
  ghost function TimersChoice(q: Pending): string
    requires FirstView(q.replies, QuorumSize(q.f)).Some?
  {
    FirstViewIs(q.replies, QuorumSize(q.f));
    q.decide(Tally(q.replies[FirstView(q.replies, QuorumSize(q.f)).value]))
  }

  /** Nothing stops the timer when the fast path succeeds.  Over all that can happen, a result
      other than the one returned is sent out for finalization exactly if the timer has fired
      and what the application decides on the first view with a quorum of replies differs. */
  lemma OtherResultSent(states: seq<Pending>, events: seq<Event>, k: nat)
    requires Trace(states, events) && k < |states| && states[k].fastPath
    ensures
      var q := states[k];
      && q.returned.Some? && FirstView(q.replies, QuorumSize(q.f)).Some?
      && ((exists x :: x in q.sent && x != q.returned.value) <==> q.onSlowPath && TimersChoice(q) != q.returned.value)
  {
    var q := states[k];
    TraceInv(states, events, k);
    FastHasQuorum(q, q.returned.value);
    hide Trace, Justified, FirstView, Tally, FastView;
  }

  /** And the timer does send, whenever it fires after a fast return and before the end. */
  lemma TimerSends(states: seq<Pending>, events: seq<Event>, k: nat)
    requires Trace(states, events) && k < |states| && states[k].fastPath && !states[k].done && !states[k].onSlowPath
    ensures
      var q := states[k];
      && FirstView(q.replies, QuorumSize(q.f)).Some?
      && TimerStep(q).sent == q.sent + [TimersChoice(q)]
      && TimerStep(q).onSlowPath && TimerStep(q).decideResult == TimersChoice(q)
      && TimerStep(q).returned == q.returned
  {
    var q := states[k];
    TraceInv(states, events, k);
    FastHasQuorum(q, q.returned.value);
    hide Trace, Justified, FirstView, Tally, FastView;
  }

  // A run in which it happens, with three replicas.

  ghost function Slow(i: nat): Event { ReplyArrives(Reply(0, i, "B", false)) }

  ghost function Fast(i: nat): Event { ReplyArrives(Reply(1, i, "A", false)) }

  /** The first `n` replicas give the same answer. */
  ghost function Alike(n: nat, view: nat, result: string): map<nat, Reply> {
    if n == 0 then map[] else Alike(n - 1, view, result)[n - 1 := Reply(view, n - 1, result, false)]
  }

  ghost function TwoViews(a: nat, b: nat): map<nat, map<nat, Reply>> {
    if a == 0 then map[]
    else if b == 0 then map[0 := Alike(a, 0, "B")]
    else map[0 := Alike(a, 0, "B"), 1 := Alike(b, 1, "A")]
  }

  ghost function Waiting(decide: map<string, nat> -> string, a: nat, b: nat): Pending {
    NewRequest(1, decide).(replies := TwoViews(a, b))
  }

  lemma {:induction false} AlikeIs(n: nat, view: nat, result: string)
    ensures Alike(n, view, result).Keys == Below(n)
    ensures forall i :: i in Alike(n, view, result) ==> Alike(n, view, result)[i].result == result
  {
    if n > 0 {
      AlikeIs(n - 1, view, result);
    }
  }

  lemma AlikeTally(n: nat, view: nat, result: string)
    ensures
      var msgs := Alike(n, view, result);
      |msgs| == n && Answering(msgs, result) == Below(n) && (n > 0 ==> Tally(msgs) == map[result := n])
  {
    var msgs := Alike(n, view, result);
    AlikeIs(n, view, result);
    hide Alike;
    assert |msgs.Keys| == |msgs|;
    assert Answering(msgs, result) == Below(n);
    if n > 0 {
      assert 0 in msgs && msgs[0].result == result;
      assert Results(msgs) == {result};
    }
  }

  /** A reply that completes nothing is filed. */
  lemma JustFiled(q: Pending, m: Reply)
    requires !q.done && !q.sentConfirms && !q.onSlowPath && !m.finalized
    requires |File(q, m).replies[m.view]| < FastQuorumSize(q.f)
    ensures Next(q, ReplyArrives(m), File(q, m))
  {
  }

  lemma SlowReply(decide: map<string, nat> -> string, a: nat)
    requires a < 2
    ensures Next(Waiting(decide, a, 0), Slow(a), Waiting(decide, a + 1, 0))
  {
    var p := File(Waiting(decide, a, 0), Reply(0, a, "B", false));
    assert p.replies == TwoViews(a + 1, 0);
    assert p == Waiting(decide, a + 1, 0);
    hide Next, Alike;
    AlikeTally(a + 1, 0, "B");
    JustFiled(Waiting(decide, a, 0), Reply(0, a, "B", false));
  }

  lemma FastReply(decide: map<string, nat> -> string, b: nat)
    requires b < 3
    ensures File(Waiting(decide, 2, b), Reply(1, b, "A", false)) == Waiting(decide, 2, b + 1)
    ensures |Waiting(decide, 2, b + 1).replies[1]| == b + 1
    ensures b < 2 ==> Next(Waiting(decide, 2, b), Fast(b), Waiting(decide, 2, b + 1))
  {
    hide Next;
    var p := File(Waiting(decide, 2, b), Reply(1, b, "A", false));
    assert p.replies == TwoViews(2, b + 1);
    assert p == Waiting(decide, 2, b + 1);
    hide Alike;
    AlikeTally(b + 1, 1, "A");
    if b < 2 {
      JustFiled(Waiting(decide, 2, b), Reply(1, b, "A", false));
    }
  }

  lemma LastReply(decide: map<string, nat> -> string)
    ensures Next(Waiting(decide, 2, 2), Fast(2), FastPath(Waiting(decide, 2, 3), "A"))
  {
    FastReply(decide, 2);
    AlikeTally(3, 1, "A");
    hide Alike;
    assert HasFastQuorum(Waiting(decide, 2, 3), 1, "A");
  }

  lemma TimerTakesFirst(decide: map<string, nat> -> string)
    requires decide(map["B" := 2]) == "B"
    ensures TimerStep(FastPath(Waiting(decide, 2, 3), "A")).sent == ["A", "B"]
  {
    var q := FastPath(Waiting(decide, 2, 3), "A");
    AlikeTally(2, 0, "B");
    hide Alike, Tally;
    assert |q.replies[0]| == 2;
    FirstViewIs(q.replies, QuorumSize(q.f));
    assert LeastQuorum(q.replies, 2, 0);
    assert FirstView(q.replies, 2) == Some(0);
  }

  /** Two replicas answered B in view 0 before all three answered A in view 1: the application
      gets A by the fast path, and the replicas are asked to finalize A and then B, for every
      application that decides B when all the answers it sees are B. */
  lemma FastThenOther(decide: map<string, nat> -> string) returns (states: seq<Pending>, events: seq<Event>)
    requires decide(map["B" := 2]) == "B"
    ensures Trace(states, events) && states[0].decide == decide
    ensures states[|events|].returned == Some("A") && states[|events|].sent == ["A", "B"]
  {
    hide NewRequest, Next, TwoViews, Waiting, FastPath, TimerStep, Slow, Fast;
    events := [Slow(0), Slow(1), Fast(0), Fast(1), Fast(2), TimerFires];
    var returned := FastPath(Waiting(decide, 2, 3), "A");
    states := [Waiting(decide, 0, 0), Waiting(decide, 1, 0), Waiting(decide, 2, 0), Waiting(decide, 2, 1),
               Waiting(decide, 2, 2), returned, TimerStep(returned)];
    SlowReply(decide, 0);
    SlowReply(decide, 1);
    FastReply(decide, 0);
    FastReply(decide, 1);
    LastReply(decide);
    TimerIsNext(returned);
    StartIsNew(decide);
    forall i | 0 <= i < |events| ensures Next(states[i], events[i], states[i + 1]) {
      assert i == 0 || i == 1 || i == 2 || i == 3 || i == 4 || i == 5;
    }
    TimerTakesFirst(decide);
    TimerKeeps(returned);
    FastReturns(decide);
  }

  lemma FastReturns(decide: map<string, nat> -> string)
    ensures FastPath(Waiting(decide, 2, 3), "A").returned == Some("A")
  {
  }

  lemma TimerIsNext(q: Pending)
    ensures Next(q, TimerFires, TimerStep(q))
  {
  }

  lemma StartIsNew(decide: map<string, nat> -> string)
    ensures Waiting(decide, 0, 0) == NewRequest(1, decide)
    ensures Waiting(decide, 0, 0).f == 1 && Waiting(decide, 0, 0).decide == decide
  {
  }

  lemma TimerKeeps(q: Pending)
    ensures TimerStep(q).returned == q.returned
  {
    hide FirstView;
    FirstViewIs(q.replies, QuorumSize(q.f));
  }

  // ----- What the fast path is worth -----

  /** Among 2f+1 replicas, at most one result has a fast quorum. */
  lemma OneFastResult(f: nat, msgs: map<nat, Reply>, r: string, x: string)
    requires forall i :: i in msgs ==> i < 2 * f + 1
    requires |Answering(msgs, r)| >= FastQuorumSize(f) && |Answering(msgs, x)| >= FastQuorumSize(f)
    ensures r == x
  {
    var a, b := Answering(msgs, r), Answering(msgs, x);
    assert r != x ==> a * b == {};
    Overlap(a, b, 2 * f + 1);
  }
}
