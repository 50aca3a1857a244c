/** The lock server's part in a merge (LockServer::Merge of lockserver/server.cc).  Requests
    and replies are the decoded messages. */
module LockServer {
  import opened IrMerge

  datatype LockRequest = LockRequest(key: string, client: nat)

  datatype LockReply = LockReply(key: string, status: int)

  /** An operation of d: the first entry's request and the majority reply. */
  datatype Decided = Decided(opid: OpId, request: LockRequest, majority: LockReply)

  /** An operation of u: the first entry's request. */
  datatype Undecided = Undecided(opid: OpId, request: LockRequest)

  type Locks = map<string, nat>

  ghost predicate DistinctOps(d: seq<Decided>, u: seq<Undecided>) {
    && (forall i, j :: 0 <= i < j < |d| ==> d[i].opid != d[j].opid)
    && (forall i, j :: 0 <= i < j < |u| ==> u[i].opid != u[j].opid)
    && (forall i, j :: 0 <= i < |d| && 0 <= j < |u| ==> d[i].opid != u[j].opid)
  }

  /** A successful lock request takes its lock if no one holds it. */
  predicate Grants(locks: Locks, x: Decided) {
    x.majority.status == 0 && x.majority.key !in locks
  }

  function Outcome(locks: Locks, x: Decided): LockReply {
    if x.majority.status == 0 && x.majority.key in locks then x.majority.(status := -1) else x.majority
  }

  function Acquire(locks: Locks, x: Decided): Locks {
    if Grants(locks, x) then locks[x.majority.key := x.request.client] else locks
  }

  /** The locks after the operations of d, in their order. */
  function LocksAfter(locks: Locks, d: seq<Decided>): Locks {
    if d == [] then locks else Acquire(LocksAfter(locks, d[..|d| - 1]), d[|d| - 1])
  }

  /** Class LockServer of lockserver/server.h. */
  class Server {
    var locks: Locks

    constructor ()
      ensures locks == map[]
    {
      locks := map[];
    }

    method Merge(d: seq<Decided>, u: seq<Undecided>) returns (results: map<OpId, LockReply>)
      modifies this
      ensures locks == LocksAfter(old(locks), d)
      ensures results == Rejections(Outcomes(old(locks), d), u)
      ensures DistinctOps(d, u) ==> AllAnswered(old(locks), d, u, results)
      ensures DistinctOps(d, u) ==> MergeSays(old(locks), d, u, results, locks)
    {
      results := map[];
      var i := 0;
      assert d[..0] == [];
      while i < |d|
        invariant 0 <= i <= |d|
        invariant locks == LocksAfter(old(locks), d[..i])
        invariant results == Outcomes(old(locks), d[..i])
      {
        var x := d[i];
        assert d[..i + 1][..i] == d[..i];
        if x.majority.status == 0 {
          if x.majority.key !in locks {
            locks := locks[x.majority.key := x.request.client];
            results := results[x.opid := x.majority];
          } else {
            results := results[x.opid := x.majority.(status := -1)];
          }
        } else {
          results := results[x.opid := x.majority];
        }
        i := i + 1;
      }
      assert d[..i] == d && u[..0] == [];
      ghost var outcomes := results;
      var k := 0;
      while k < |u|
        invariant 0 <= k <= |u|
        invariant results == Rejections(outcomes, u[..k])
      {
        assert u[..k + 1][..k] == u[..k];
        results := results[u[k].opid := LockReply(u[k].request.key, -1)];
        k := k + 1;
      }
      assert u[..k] == u;
      if DistinctOps(d, u) {
        MergeAnswersAll(old(locks), d, u);
        MergeIsExact(old(locks), d, u);
      }
      hide AllAnswered, MergeSays;
    }
  }

  // ----- What the merge answers -----

  /** The answers to the operations of d, in their order. */
  function Outcomes(locks: Locks, d: seq<Decided>): map<OpId, LockReply> {
    if d == [] then map[]
    else
      var init, last := d[..|d| - 1], d[|d| - 1];
      Outcomes(locks, init)[last.opid := Outcome(LocksAfter(locks, init), last)]
  }

  /** Every operation of u is refused. */
  function Rejections(results: map<OpId, LockReply>, u: seq<Undecided>): map<OpId, LockReply> {
    if u == [] then results
    else Rejections(results, u[..|u| - 1])[u[|u| - 1].opid := LockReply(u[|u| - 1].request.key, -1)]
  }

  /** Exactly the operations of d and u have a result: those of d their outcome given the
      operations before them, those of u a refusal. */
  ghost predicate AllAnswered(locks: Locks, d: seq<Decided>, u: seq<Undecided>, results: map<OpId, LockReply>) {
    && (forall o :: o in results <==> o in Ops(d) || o in RefusedOps(u))
    && (forall i :: 0 <= i < |d| ==>
          d[i].opid in results && results[d[i].opid] == Outcome(LocksAfter(locks, d[..i]), d[i]))
    && (forall i :: 0 <= i < |u| ==>
          u[i].opid in results && results[u[i].opid] == LockReply(u[i].request.key, -1))
  }

  ghost function Ops(d: seq<Decided>): set<OpId> {
    set x | x in d :: x.opid
  }

  ghost function RefusedOps(u: seq<Undecided>): set<OpId> {
    set x | x in u :: x.opid
  }

  lemma {:induction false} OutcomeOf(locks: Locks, d: seq<Decided>, i: nat)
    requires i < |d| && forall i, j :: 0 <= i < j < |d| ==> d[i].opid != d[j].opid
    ensures d[i].opid in Outcomes(locks, d) && Outcomes(locks, d)[d[i].opid] == Outcome(LocksAfter(locks, d[..i]), d[i])
    decreases |d|
  {
    if i < |d| - 1 {
      var init := d[..|d| - 1];
      OutcomeOf(locks, init, i);
      assert init[..i] == d[..i] && init[i] == d[i];
    }
  }

  lemma {:induction false} OutcomesFor(locks: Locks, d: seq<Decided>)
    ensures Outcomes(locks, d).Keys == Ops(d)
  {
    if d != [] {
      OutcomesFor(locks, d[..|d| - 1]);
      assert d == d[..|d| - 1] + [d[|d| - 1]];
    }
  }

  lemma {:induction false} RejectionOf(results: map<OpId, LockReply>, u: seq<Undecided>, o: OpId)
    requires forall i, j :: 0 <= i < j < |u| ==> u[i].opid != u[j].opid
    ensures o in Rejections(results, u) <==> o in results || o in RefusedOps(u)
    ensures o !in RefusedOps(u) && o in results ==> Rejections(results, u)[o] == results[o]
    ensures forall i :: 0 <= i < |u| && u[i].opid == o ==> Rejections(results, u)[o] == LockReply(u[i].request.key, -1)
    decreases |u|
  {
    if u != [] {
      var init, last := u[..|u| - 1], u[|u| - 1];
      assert u == init + [last];
      RejectionOf(results, init, o);
    }
  }

  lemma MergeAnswersAll(locks: Locks, d: seq<Decided>, u: seq<Undecided>)
    requires DistinctOps(d, u)
    ensures AllAnswered(locks, d, u, Rejections(Outcomes(locks, d), u))
  {
    var outcomes := Outcomes(locks, d);
    OutcomesFor(locks, d);
    forall o ensures o in Rejections(outcomes, u) <==> o in Ops(d) || o in RefusedOps(u) {
      RejectionOf(outcomes, u, o);
    }
    forall i | 0 <= i < |d|
      ensures d[i].opid in Rejections(outcomes, u)
      ensures Rejections(outcomes, u)[d[i].opid] == Outcome(LocksAfter(locks, d[..i]), d[i])
    {
      OutcomeOf(locks, d, i);
      RejectionOf(outcomes, u, d[i].opid);
    }
    forall i | 0 <= i < |u|
      ensures u[i].opid in Rejections(outcomes, u)
      ensures Rejections(outcomes, u)[u[i].opid] == LockReply(u[i].request.key, -1)
    {
      RejectionOf(outcomes, u, u[i].opid);
      assert u[i] in u;
    }
  }

  // ----- What the merge grants -----

  /** Operation `i` of d gets its lock. */
  ghost predicate Granted(locks: Locks, d: seq<Decided>, i: nat)
    requires i < |d|
  {
    Grants(LocksAfter(locks, d[..i]), d[i])
  }

  /** A key is held after some operations of d exactly if it was held before, or one of them
      succeeded on it. */
  lemma {:induction false} HeldAfter(locks: Locks, d: seq<Decided>, key: string)
    ensures key in LocksAfter(locks, d) <==>
              key in locks || exists j :: 0 <= j < |d| && d[j].majority.status == 0 && d[j].majority.key == key
  {
    if d != [] {
      var init := d[..|d| - 1];
      HeldAfter(locks, init, key);
      assert forall j :: 0 <= j < |init| ==> init[j] == d[j];
    }
  }

  /** A lock, once there, is not taken away or given to another client. */
  lemma {:induction false} LocksKept(locks: Locks, d: seq<Decided>, i: nat, key: string)
    requires i <= |d| && key in LocksAfter(locks, d[..i])
    ensures key in LocksAfter(locks, d) && LocksAfter(locks, d)[key] == LocksAfter(locks, d[..i])[key]
    decreases |d| - i
  {
    if i < |d| {
      assert d[..i + 1][..i] == d[..i];
      LocksKept(locks, d, i + 1, key);
    } else {
      assert d[..i] == d;
    }
  }

  /** The merge grants an operation exactly if its majority reply is a success, no one held
      the key before, and no earlier operation succeeded on it. */
  lemma GrantedExactly(locks: Locks, d: seq<Decided>, i: nat)
    requires i < |d|
    ensures Granted(locks, d, i) <==>
      && d[i].majority.status == 0 && d[i].majority.key !in locks
      && forall j :: 0 <= j < i && d[j].majority.key == d[i].majority.key ==> d[j].majority.status != 0
    ensures Granted(locks, d, i) <==> Outcome(LocksAfter(locks, d[..i]), d[i]).status == 0
  {
    HeldAfter(locks, d[..i], d[i].majority.key);
    assert forall j :: 0 <= j < i ==> d[..i][j] == d[j];
  }

  /** Mutual exclusion: at most one operation per key is granted. */
  lemma MergeIsExclusive(locks: Locks, d: seq<Decided>, i: nat, j: nat)
    requires i < j < |d| && Granted(locks, d, i) && Granted(locks, d, j)
    ensures d[i].majority.key != d[j].majority.key
  {
    hide Granted;
    GrantedExactly(locks, d, i);
    GrantedExactly(locks, d, j);
  }

  /** A key is held after the merge exactly if it was held before, and then by the same client,
      or an operation on it was granted, and then by that operation's client. */
  lemma LocksAfterMerge(locks: Locks, d: seq<Decided>, k: string)
    ensures k in locks ==> k in LocksAfter(locks, d) && LocksAfter(locks, d)[k] == locks[k]
    ensures k !in locks ==>
      (k in LocksAfter(locks, d) <==> exists i :: 0 <= i < |d| && Granted(locks, d, i) && d[i].majority.key == k)
  {
    hide LocksAfter, Granted;
    if k in locks {
      HolderStays(locks, d, k);
    } else if k in LocksAfter(locks, d) {
      assert d[..|d|] == d;
      NewLockWasGranted(locks, d, |d|, k);
    } else {
      forall i | 0 <= i < |d| && Granted(locks, d, i) ensures d[i].majority.key != k {
        GrantedHolds(locks, d, i);
      }
    }
  }

  /** A granted key was free and ends up with the client it was granted to. */
  lemma GrantedHolds(locks: Locks, d: seq<Decided>, i: nat)
    requires i < |d| && Granted(locks, d, i)
    ensures d[i].majority.key !in locks && d[i].majority.key in LocksAfter(locks, d)
    ensures LocksAfter(locks, d)[d[i].majority.key] == d[i].request.client
  {
    GrantedExactly(locks, d, i);
    assert d[..i + 1][..i] == d[..i];
    LocksKept(locks, d, i + 1, d[i].majority.key);
  }

  lemma HolderStays(locks: Locks, d: seq<Decided>, k: string)
    requires k in locks
    ensures k in LocksAfter(locks, d) && LocksAfter(locks, d)[k] == locks[k]
  {
    assert d[..0] == [];
    LocksKept(locks, d, 0, k);
  }

  lemma {:induction false} NewLockWasGranted(locks: Locks, d: seq<Decided>, n: nat, k: string)
    requires n <= |d| && k in LocksAfter(locks, d[..n]) && k !in locks
    ensures exists i :: 0 <= i < |d| && Granted(locks, d, i) && d[i].majority.key == k
    decreases n
  {
    assert n > 0;
    assert d[..n][..n - 1] == d[..n - 1];
    if k in LocksAfter(locks, d[..n - 1]) {
      NewLockWasGranted(locks, d, n - 1, k);
    } else {
      assert Granted(locks, d, n - 1);
    }
  }

  // ----- The answers and the locks, from the operations alone -----

  /** Operation `i` is the first success on a key that was free. */
  ghost predicate FirstSuccess(locks: Locks, d: seq<Decided>, i: nat)
    requires i < |d|
  {
    && d[i].majority.status == 0 && d[i].majority.key !in locks
    && forall j :: 0 <= j < i && d[j].majority.key == d[i].majority.key ==> d[j].majority.status != 0
  }

  /** Operation `i` of d is answered with success exactly if it is the first success on a key
      that was free; a majority reply that is no success is the answer as it is, and a success
      that comes too late is turned into a refusal of the same key. */
  ghost predicate AnswerSays(locks: Locks, d: seq<Decided>, i: nat, answer: LockReply)
    requires i < |d|
  {
    && (answer.status == 0 <==> FirstSuccess(locks, d, i))
    && (answer.status == 0 || d[i].majority.status != 0 ==> answer == d[i].majority)
    && (answer.status != 0 && d[i].majority.status == 0 ==> answer == LockReply(d[i].majority.key, -1))
  }

  ghost predicate AnswersSay(before: Locks, d: seq<Decided>, u: seq<Undecided>, results: map<OpId, LockReply>) {
    && results.Keys == Ops(d) + RefusedOps(u)
    && (forall i :: 0 <= i < |d| ==> d[i].opid in results && AnswerSays(before, d, i, results[d[i].opid]))
    && (forall i :: 0 <= i < |u| ==> u[i].opid in results && results[u[i].opid] == LockReply(u[i].request.key, -1))
  }

  ghost predicate Succeeds(d: seq<Decided>, results: map<OpId, LockReply>, i: nat)
    requires i < |d|
  {
    d[i].opid in results && results[d[i].opid].status == 0
  }

  /** Whoever is answered with success holds the lock; locks stay, and new ones have been
      answered for. */
  ghost predicate LocksSay(before: Locks, d: seq<Decided>, results: map<OpId, LockReply>, after: Locks) {
    && (forall i: nat :: i < |d| && Succeeds(d, results, i) ==>
          d[i].majority.key in after && after[d[i].majority.key] == d[i].request.client)
    && (forall k :: k in before ==> k in after && after[k] == before[k])
    && (forall k :: k in after && k !in before ==>
          exists i: nat :: i < |d| && Succeeds(d, results, i) && d[i].majority.key == k)
  }

  /** What a merge answers, and which locks it leaves. */
  ghost predicate MergeSays(before: Locks, d: seq<Decided>, u: seq<Undecided>, results: map<OpId, LockReply>,
                            after: Locks) {
    AnswersSay(before, d, u, results) && LocksSay(before, d, results, after)
  }

  lemma AnswerIs(locks: Locks, d: seq<Decided>, i: nat)
    requires i < |d|
    ensures AnswerSays(locks, d, i, Outcome(LocksAfter(locks, d[..i]), d[i]))
    ensures Outcome(LocksAfter(locks, d[..i]), d[i]).status == 0 <==> Granted(locks, d, i)
  {
    GrantedExactly(locks, d, i);
    hide LocksAfter;
  }

  lemma MergeAnswers(locks: Locks, d: seq<Decided>, u: seq<Undecided>, results: map<OpId, LockReply>)
    requires AllAnswered(locks, d, u, results)
    ensures AnswersSay(locks, d, u, results)
    ensures forall i: nat :: i < |d| ==> (Succeeds(d, results, i) <==> Granted(locks, d, i))
  {
    hide LocksAfter, Outcome, Granted, AnswerSays;
    forall i: nat | i < |d|
      ensures AnswerSays(locks, d, i, results[d[i].opid]) && (Succeeds(d, results, i) <==> Granted(locks, d, i))
    {
      AnswerIs(locks, d, i);
    }
  }

  lemma NewLockAnswered(locks: Locks, d: seq<Decided>, results: map<OpId, LockReply>, k: string)
    requires forall i: nat :: i < |d| ==> (Succeeds(d, results, i) <==> Granted(locks, d, i))
    requires k in LocksAfter(locks, d) && k !in locks
    ensures exists i: nat :: i < |d| && Succeeds(d, results, i) && d[i].majority.key == k
  {
    LocksAfterMerge(locks, d, k);
    hide LocksAfter, Granted, Succeeds;
    var i: nat :| i < |d| && Granted(locks, d, i) && d[i].majority.key == k;
    assert Succeeds(d, results, i);
  }

  lemma MergeLocks(locks: Locks, d: seq<Decided>, results: map<OpId, LockReply>)
    requires forall i: nat :: i < |d| ==> (Succeeds(d, results, i) <==> Granted(locks, d, i))
    ensures LocksSay(locks, d, results, LocksAfter(locks, d))
  {
    hide LocksAfter, Granted, Succeeds;
    var after := LocksAfter(locks, d);
    forall i: nat | i < |d| && Succeeds(d, results, i)
      ensures d[i].majority.key in after && after[d[i].majority.key] == d[i].request.client
    {
      GrantedHolds(locks, d, i);
    }
    forall k | k in locks ensures k in after && after[k] == locks[k] {
      HolderStays(locks, d, k);
    }
    forall k | k in after && k !in locks
      ensures exists i: nat :: i < |d| && Succeeds(d, results, i) && d[i].majority.key == k
    {
      NewLockAnswered(locks, d, results, k);
    }
  }

  /** The answers and the locks after a merge of distinct operations. */
  lemma MergeIsExact(locks: Locks, d: seq<Decided>, u: seq<Undecided>)
    requires DistinctOps(d, u)
    ensures MergeSays(locks, d, u, Rejections(Outcomes(locks, d), u), LocksAfter(locks, d))
  {
    MergeAnswersAll(locks, d, u);
    hide LocksAfter, Outcomes, Rejections, Granted, AnswersSay, DistinctOps, AllAnswered, Succeeds, LocksSay;
    var results := Rejections(Outcomes(locks, d), u);
    MergeAnswers(locks, d, u, results);
    MergeLocks(locks, d, results);
  }

  /** Mutual exclusion, in terms of the answers: no two operations are answered that they have
      the same key, and nobody is for a key that was held. */
  lemma OneSuccessPerKey(before: Locks, d: seq<Decided>, u: seq<Undecided>, results: map<OpId, LockReply>, after: Locks,
                         i: nat, j: nat)
    requires MergeSays(before, d, u, results, after) && i < j < |d|
    requires Succeeds(d, results, i) && Succeeds(d, results, j)
    ensures d[i].majority.key != d[j].majority.key && d[i].majority.key !in before && d[j].majority.key !in before
  {
    assert FirstSuccess(before, d, i) && FirstSuccess(before, d, j);
  }
}
