/** An operation that a fast quorum of replicas holds with one result survives every view
    change whose records come from the same view. */
module IrFastPath {
  import opened ReplicaLog
  import opened Counting
  import opened IrMerge

  /** The replicas of a view change whose records are merged: those with the largest normal
      view, each once, in some order. */
  ghost predicate LatestOf(normal: seq<nat>, senders: set<nat>, v: nat, order: seq<nat>) {
    && (forall i :: i in senders ==> i < |normal| && normal[i] <= v)
    && (forall i :: i in order <==> i in senders && normal[i] == v)
    && Distinct(order)
  }

  ghost function RecordsOf(records: seq<Record>, order: seq<nat>): seq<Record>
    requires forall i :: i in order ==> i < |records|
  {
    seq(|order|, k requires 0 <= k < |order| => assert order[k] in order; records[order[k]])
  }

  ghost predicate HoldsWith(record: Record, o: OpId, result: string) {
    o in record && record[o].kind == Consensus && record[o].result == result
  }

  // ----- Counting -----

  /** How many of `order` are in `among`. */
  ghost function HowMany(order: seq<nat>, among: set<nat>): nat {
    if order == [] then 0
    else HowMany(order[..|order| - 1], among) + if order[|order| - 1] in among then 1 else 0
  }

  lemma {:induction false} HowManyIs(order: seq<nat>, among: set<nat>)
    requires Distinct(order)
    ensures HowMany(order, among) == |Elements(order) * among|
  {
    if order != [] {
      var init, last := order[..|order| - 1], order[|order| - 1];
      HowManyIs(init, among);
      assert order == init + [last];
      ElementsSnoc(init, last, among);
      assert last !in init;
      hide Elements;
    }
  }

  lemma ElementsSnoc(s: seq<nat>, last: nat, among: set<nat>)
    ensures Elements(s + [last]) * among == Elements(s) * among + (if last in among then {last} else {})
    ensures last in Elements(s) <==> last in s
  {
  }

  /** Holders add to the count of their result and to no other. */
  lemma {:induction false} CountsFromOrder(records: seq<Record>, order: seq<nat>, holders: set<nat>, o: OpId,
                                           r: string, x: string)
    requires forall i :: i in order ==> i < |records|
    requires forall i :: i in holders && i < |records| ==> HoldsWith(records[i], o, r)
    requires x != r
    ensures Count(EntriesOf(RecordsOf(records, order), o), r) >= HowMany(order, holders)
    ensures Count(EntriesOf(RecordsOf(records, order), o), x) <= |order| - HowMany(order, holders)
  {
    if order != [] {
      var init, last := order[..|order| - 1], order[|order| - 1];
      assert last in order;
      assert forall i :: i in init ==> i in order;
      CountsFromOrder(records, init, holders, o, r, x);
      var all := RecordsOf(records, order);
      assert all[..|all| - 1] == RecordsOf(records, init);
      assert all[|all| - 1] == records[last];
      var es, fs := EntriesOf(all, o), EntriesOf(RecordsOf(records, init), o);
      if o in records[last] {
        assert es == fs + [records[last][o]];
        assert es[..|es| - 1] == fs;
      } else {
        assert es == fs;
      }
    }
  }

  // ----- The quorums -----

  /** A fast quorum and a view change quorum share a threshold of replicas, and the replicas
      outside the fast quorum are too few for one. */
  lemma QuorumArithmetic(f: nat, holders: set<nat>, senders: set<nat>)
    requires forall i :: i in holders + senders ==> i < 2 * f + 1
    requires |holders| >= FastQuorumSize(f) && |senders| >= QuorumSize(f)
    ensures |holders * senders| >= Threshold(f)
    ensures 2 * f + 1 - |holders| < Threshold(f)
  {
    Overlap(holders, senders, 2 * f + 1);
  }

  lemma OrderSizes(f: nat, normal: seq<nat>, holders: set<nat>, senders: set<nat>, order: seq<nat>, v: nat)
    requires |normal| == 2 * f + 1 && LatestOf(normal, senders, v, order)
    requires forall i :: i in holders ==> i < |normal| && normal[i] == v
    ensures HowMany(order, holders) == |holders * senders|
    ensures |order| - HowMany(order, holders) <= 2 * f + 1 - |holders|
  {
    HowManyIs(order, holders);
    var os := Elements(order);
    assert os * holders == holders * senders;
    HowManyIs(order, os);
    assert os * os == os;
    AllCounted(order, os);
    Overlap(os, holders, 2 * f + 1);
  }

  lemma {:induction false} AllCounted(order: seq<nat>, among: set<nat>)
    requires forall i :: i in order ==> i in among
    ensures HowMany(order, among) == |order|
  {
    if order != [] {
      AllCounted(order[..|order| - 1], among);
      assert order[|order| - 1] in order;
    }
  }

  /** Fast path survival.  If a fast quorum of the 2f+1 replicas hold a consensus operation
      with result `r` in view `v`, then whatever quorum of records a view change merges, as
      long as `v` is the largest normal view among them: either the operation is finalized in
      one of the merged records and kept, or it goes into d with `r`, the only result that
      reaches the threshold. */
  lemma FastPathSurvives(f: nat, normal: seq<nat>, records: seq<Record>, holders: set<nat>, senders: set<nat>,
                         order: seq<nat>, v: nat, o: OpId, r: string)
    requires |normal| == |records| == 2 * f + 1
    requires |holders| >= FastQuorumSize(f)
    requires forall i :: i in holders ==> i < |records| && normal[i] == v && HoldsWith(records[i], o, r)
    requires |senders| >= QuorumSize(f) && LatestOf(normal, senders, v, order)
    requires TypesAgree(RecordsOf(records, order))
    ensures
      var latest := RecordsOf(records, order);
      || (o in KeptRecord(latest) && KeptRecord(latest)[o].state == Finalized && o !in Groups(latest)
          && KeepsFirstSettled(latest, o, KeptRecord(latest)[o]))
      || (o in Groups(latest) && o !in KeptRecord(latest)
          && forall x :: Reaches(Groups(latest)[o], f, x) <==> x == r)
  {
    var latest := RecordsOf(records, order);
    var es := EntriesOf(latest, o);
    QuorumArithmetic(f, holders, senders);
    OrderSizes(f, normal, holders, senders, order, v);
    forall x ensures Reaches(es, f, x) <==> x == r {
      CountsFromOrder(records, order, holders, o, r, if x == r then r + "x" else x);
    }
    HeldInLatest(normal, records, holders, senders, order, v, o, r);
    EntriesSameKind(latest, o);
    EntriesAre(latest, o);
    GroupSays(es);
    if Group(es).0.Some? {
      KeptIsFirstSettled(latest, o);
      KeptIsConsensus(latest, o);
    }
  }

  /** Some merged record holds the operation, as a consensus operation. */
  lemma HeldInLatest(normal: seq<nat>, records: seq<Record>, holders: set<nat>, senders: set<nat>,
                     order: seq<nat>, v: nat, o: OpId, r: string)
    requires |normal| == |records| && LatestOf(normal, senders, v, order) && |holders * senders| > 0
    requires forall i :: i in holders ==> i < |records| && normal[i] == v && HoldsWith(records[i], o, r)
    ensures exists k :: 0 <= k < |order| && HoldsWith(RecordsOf(records, order)[k], o, r)
  {
    var i :| i in holders * senders;
    assert i in order;
    var k :| 0 <= k < |order| && order[k] == i;
    assert RecordsOf(records, order)[k] == records[i];
  }

  /** What is kept of an operation that some record has as consensus is finalized. */
  lemma KeptIsConsensus(latest: seq<Record>, o: OpId)
    requires TypesAgree(latest) && Group(EntriesOf(latest, o)).0.Some?
    requires exists k, r :: 0 <= k < |latest| && HoldsWith(latest[k], o, r)
    ensures Group(EntriesOf(latest, o)).0.value.state == Finalized
  {
    KeptIsFirstSettled(latest, o);
    var e := Group(EntriesOf(latest, o)).0.value;
    var i :| 0 <= i < |latest| && o in latest[i] && latest[i][o] == e && Settled(e);
    var k, r :| 0 <= k < |latest| && HoldsWith(latest[k], o, r);
    assert latest[i][o].kind == latest[k][o].kind;
  }
}
