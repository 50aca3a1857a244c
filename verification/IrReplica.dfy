/** The replica of Inconsistent Replication updated in place: the two consensus handlers and
    the loops of IrMergeRecords. */
module IrReplica {
  import opened ReplicaLog
  import opened Counting
  import opened IrMerge
  import opened IrFastPath

  datatype DoViewChange = DoViewChange(latestNormalView: nat, record: Record)

  datatype ReplyConsensus = ReplyConsensus(view: nat, opid: OpId, result: string, finalized: bool)

  function MaxView(own: nat, msgs: seq<DoViewChange>): nat {
    if msgs == [] then own
    else
      var last := msgs[|msgs| - 1].latestNormalView;
      var rest := MaxView(own, msgs[..|msgs| - 1]);
      if last > rest then last else rest
  }

  /** The records of the messages whose normal view is `v`. */
  function WithView(msgs: seq<DoViewChange>, v: nat): seq<Record> {
    if msgs == [] then []
    else
      var last := msgs[|msgs| - 1];
      WithView(msgs[..|msgs| - 1], v) + if last.latestNormalView == v then [last.record] else []
  }

  /** Class IRReplica of replication/ir/replica.h.  Messages come in the order of their
      senders' indices, as the map of the source does. */
  class IRReplica {
    const f: nat
    var view: nat
    var latestNormalView: nat
    var record: Record

    constructor (f: nat)
      ensures this.f == f && view == 0 && latestNormalView == 0 && record == map[]
    {
      this.f := f;
      view := 0;
      latestNormalView := 0;
      record := map[];
    }

    /** HandleProposeConsensus; `executed` is what the application answers.  A repeated
        proposal is answered from the record. */
    method HandleProposeConsensus(opid: OpId, op: string, executed: string) returns (reply: ReplyConsensus)
      modifies this`record
      ensures opid in record && record == old(record)[opid := record[opid]]
      ensures if opid in old(record) then record == old(record)
              else record[opid] == Entry(view, opid, Tentative, Consensus, op, executed)
      ensures reply == ReplyConsensus(record[opid].view, opid, record[opid].result, record[opid].state == Finalized)
    {
      if opid in record {
        var entry := record[opid];
        assert record == record[opid := entry];
        reply := ReplyConsensus(entry.view, opid, entry.result, entry.state == Finalized);
      } else {
        record := record[opid := Entry(view, opid, Tentative, Consensus, op, executed)];
        reply := ReplyConsensus(view, opid, executed, false);
      }
    }

    /** HandleFinalizeConsensus: the decided result replaces the executed one. */
    method HandleFinalizeConsensus(opid: OpId, result: string) returns (confirmed: bool)
      modifies this`record
      ensures confirmed == (opid in old(record))
      ensures record == if confirmed then old(record)[opid := old(record)[opid].(state := Finalized, result := result)]
                        else old(record)
    {
      confirmed := opid in record;
      if confirmed {
        var entry := record[opid].(state := Finalized);
        if result != entry.result {
          entry := entry.(result := result);
        }
        record := record[opid := entry];
      }
    }

    /** The records to merge: those of the largest normal view, this replica's own last. */
    method CollectLatest(msgs: seq<DoViewChange>) returns (latest: seq<Record>)
      ensures
        var v := MaxView(latestNormalView, msgs);
        latest == WithView(msgs + [DoViewChange(latestNormalView, record)], v)
    {
      var max := latestNormalView;
      var i := 0;
      assert msgs[..0] == [];
      while i < |msgs|
        invariant 0 <= i <= |msgs| && max == MaxView(latestNormalView, msgs[..i])
      {
        assert msgs[..i + 1][..i] == msgs[..i];
        if msgs[i].latestNormalView > max {
          max := msgs[i].latestNormalView;
        }
        i := i + 1;
      }
      assert msgs[..i] == msgs;
      latest := [];
      i := 0;
      while i < |msgs|
        invariant 0 <= i <= |msgs| && latest == WithView(msgs[..i], max)
      {
        assert msgs[..i + 1][..i] == msgs[..i];
        if msgs[i].latestNormalView == max {
          latest := latest + [msgs[i].record];
        }
        i := i + 1;
      }
      assert msgs[..i] == msgs;
      ghost var all := msgs + [DoViewChange(latestNormalView, record)];
      assert all[..|all| - 1] == msgs;
      if latestNormalView == max {
        latest := latest + [record];
      }
    }

    /** IrMergeRecords up to the upcalls of the application. */
    method BeginMerge(msgs: seq<DoViewChange>)
      returns (kept: Record, groups: map<OpId, seq<Entry>>,
               d: map<OpId, seq<Entry>>, u: map<OpId, seq<Entry>>, majority: map<OpId, string>)
      ensures
        var latest := WithView(msgs + [DoViewChange(latestNormalView, record)], MaxView(latestNormalView, msgs));
        kept == KeptRecord(latest) && groups == Groups(latest) && Split(groups, f, d, u, majority)
    {
      var latest := CollectLatest(msgs);
      kept, groups := GroupAll(latest);
      d, u, majority := SplitGroups(groups, f);
    }

    /** The rest of IrMergeRecords: `results` is what the application's Merge returned. */
    method FinishMerge(ghost latest: seq<Record>, kept: Record, groups: map<OpId, seq<Entry>>,
                       results: map<OpId, string>)
      returns (r: Record)
      requires kept == KeptRecord(latest) && groups == Groups(latest) && TypesAgree(latest)
      requires results.Keys == groups.Keys
      ensures r == MergeRecords(latest, results, view)
      ensures r.Keys == Domain(latest)
      ensures forall o :: o in r && r[o].kind == Consensus ==> r[o].state == Finalized
      ensures KeepsRequests(latest, results, view, r)
    {
      KeptAndGroups(latest);
      GroupsAreNot(latest);
      MergeIsComplete(latest, results, view);
      forall o | o in MergeRecords(latest, results, view) && MergeRecords(latest, results, view)[o].kind == Consensus
        ensures MergeRecords(latest, results, view)[o].state == Finalized
      {
        MergeFinalizes(latest, results, view, o);
      }
      AnswersAreGroups(latest, results);
      MergeKeepsRequests(latest, results, view);
      hide KeepsRequests, KeptRecord, Groups, TypesAgree, Domain, MergedEntries;
      r := AddMerged(kept, groups, results, view);
    }
  }

  // ----- The grouping loop -----

  /** R and the groups are right for operation `o`, given these records. */
  ghost predicate Right(kept: Record, groups: map<OpId, seq<Entry>>, records: seq<Record>, o: OpId) {
    var (k, g) := Group(EntriesOf(records, o));
    && (o in kept <==> k.Some?) && (o in kept ==> kept[o] == k.value)
    && (o in groups <==> g != []) && (o in groups ==> groups[o] == g)
  }

  lemma RightSnoc(kept: Record, groups: map<OpId, seq<Entry>>, records: seq<Record>, last: Record, o: OpId)
    requires Right(kept, groups, records, o) && o !in last
    ensures Right(kept, groups, records + [last], o)
  {
    assert (records + [last])[..|records|] == records;
    assert EntriesOf(records + [last], o) == EntriesOf(records, o);
  }

  lemma GroupSnoc(records: seq<Record>, last: Record, o: OpId)
    requires o in last
    ensures
      var (k, g) := Group(EntriesOf(records, o));
      Group(EntriesOf(records + [last], o)) == GroupOne(k, g, last[o])
  {
    assert (records + [last])[..|records|] == records;
    var es := EntriesOf(records, o);
    assert (es + [last[o]])[..|es|] == es;
  }

  /** The effect of one entry, on its own operation and on no other. */
  ghost predicate EntryGrouped(kept: Record, groups: map<OpId, seq<Entry>>, e: Entry, o: OpId,
                               kept': Record, groups': map<OpId, seq<Entry>>) {
    && (forall x :: x != o ==> (x in kept' <==> x in kept) && (x in kept ==> kept'[x] == kept[x]))
    && (forall x :: x != o ==> (x in groups' <==> x in groups) && (x in groups ==> groups'[x] == groups[x]))
    && var (k, g) := GroupOne(if o in kept then Some(kept[o]) else None, if o in groups then groups[o] else [], e);
       && (o in kept' <==> k.Some?) && (o in kept' ==> kept'[o] == k.value)
       && (o in groups' <==> g != []) && (o in groups' ==> groups'[o] == g)
  }

  /** One entry of the inner loop. */
  method GroupEntry(kept: Record, groups: map<OpId, seq<Entry>>, e: Entry, o: OpId)
    returns (kept': Record, groups': map<OpId, seq<Entry>>)
    requires o in groups ==> groups[o] != []
    ensures EntryGrouped(kept, groups, e, o, kept', groups')
  {
    kept', groups' := kept, groups;
    if e.kind == Inconsistent {
      if o !in kept {
        kept' := kept[o := e];
      }
    } else if e.state == Finalized {
      if o !in kept {
        kept' := kept[o := e];
      }
      groups' := groups - {o};
    } else if o !in kept {
      groups' := groups[o := (if o in groups then groups[o] else []) + [e]];
    }
  }

  /** Inside the inner loop: the operations of `r` outside `todo` have been taken in. */
  ghost predicate RightSoFar(kept: Record, groups: map<OpId, seq<Entry>>, before: seq<Record>, r: Record,
                             todo: set<OpId>) {
    forall o :: Right(kept, groups, if o in r && o !in todo then before + [r] else before, o)
  }

  lemma OneMoreEntry(kept: Record, groups: map<OpId, seq<Entry>>, before: seq<Record>, r: Record, todo: set<OpId>,
                     o: OpId,
                     kept': Record, groups': map<OpId, seq<Entry>>)
    requires RightSoFar(kept, groups, before, r, todo) && o in todo && o in r
    requires EntryGrouped(kept, groups, r[o], o, kept', groups')
    ensures RightSoFar(kept', groups', before, r, todo - {o})
  {
    hide Right, EntryGrouped;
    forall x ensures Right(kept', groups', if x in r && x !in todo - {o} then before + [r] else before, x) {
      assert Right(kept, groups, if x in r && x !in todo then before + [r] else before, x);
      if x == o {
        EntryTaken(kept, groups, before, r, o, kept', groups');
      } else {
        OthersUntouched(kept, groups, r[o], o, kept', groups',
                        if x in r && x !in todo then before + [r] else before, x);
      }
    }
  }

  lemma EntryTaken(kept: Record, groups: map<OpId, seq<Entry>>, before: seq<Record>, r: Record, o: OpId,
                   kept': Record, groups': map<OpId, seq<Entry>>)
    requires Right(kept, groups, before, o) && o in r && EntryGrouped(kept, groups, r[o], o, kept', groups')
    ensures Right(kept', groups', before + [r], o)
  {
    GroupSnoc(before, r, o);
    var (k, g) := Group(EntriesOf(before, o));
    assert k == if o in kept then Some(kept[o]) else None;
    assert g == if o in groups then groups[o] else [];
    hide Group, EntriesOf, GroupOne;
  }

  lemma OthersUntouched(kept: Record, groups: map<OpId, seq<Entry>>, e: Entry, o: OpId,
                        kept': Record, groups': map<OpId, seq<Entry>>, records: seq<Record>, x: OpId)
    requires EntryGrouped(kept, groups, e, o, kept', groups') && x != o && Right(kept, groups, records, x)
    ensures Right(kept', groups', records, x)
  {
    hide Group, EntriesOf, GroupOne;
  }

  method GroupRecord(kept: Record, groups: map<OpId, seq<Entry>>, r: Record, ghost before: seq<Record>)
    returns (kept': Record, groups': map<OpId, seq<Entry>>)
    requires forall o :: Right(kept, groups, before, o)
    ensures forall o :: Right(kept', groups', before + [r], o)
  {
    kept', groups' := kept, groups;
    var todo := r.Keys;
    assert RightSoFar(kept, groups, before, r, todo);
    while todo != {}
      invariant todo <= r.Keys && RightSoFar(kept', groups', before, r, todo)
      decreases |todo|
    {
      var o :| o in todo;
      assert Right(kept', groups', before, o);
      ghost var k0, g0 := kept', groups';
      hide RightSoFar, EntryGrouped, Group, EntriesOf;
      kept', groups' := GroupEntry(kept', groups', r[o], o);
      OneMoreEntry(k0, g0, before, r, todo, o, kept', groups');
      todo := todo - {o};
    }
    forall o ensures Right(kept', groups', before + [r], o) {
      assert Right(kept', groups', if o in r then before + [r] else before, o);
      if o !in r {
        RightSnoc(kept', groups', before, r, o);
      }
    }
  }

  /** Groups the entries of the latest records by operation, and fills R. */
  method GroupAll(records: seq<Record>) returns (kept: Record, groups: map<OpId, seq<Entry>>)
    ensures kept == KeptRecord(records) && groups == Groups(records)
  {
    kept, groups := map[], map[];
    var i := 0;
    assert records[..0] == [];
    while i < |records|
      invariant 0 <= i <= |records|
      invariant forall o :: Right(kept, groups, records[..i], o)
    {
      assert records[..i + 1] == records[..i] + [records[i]];
      kept, groups := GroupRecord(kept, groups, records[i], records[..i]);
      i := i + 1;
    }
    assert records[..i] == records;
    RightEverywhere(kept, groups, records);
  }

  lemma RightEverywhere(kept: Record, groups: map<OpId, seq<Entry>>, records: seq<Record>)
    requires forall o :: Right(kept, groups, records, o)
    ensures kept == KeptRecord(records) && groups == Groups(records)
  {
    var k, g := KeptRecord(records), Groups(records);
    forall o
      ensures o in kept <==> o in k
      ensures o in kept ==> kept[o] == k[o]
      ensures o in groups <==> o in g
      ensures o in groups ==> groups[o] == g[o]
    {
      assert Right(kept, groups, records, o);
      EntriesAre(records, o);
    }
  }

  // ----- Building d and u -----

  /** Counts the results of a group and looks for one at the threshold. */
  method FindMajority(es: seq<Entry>, f: nat) returns (result: Option<string>)
    ensures if result.Some? then Reaches(es, f, result.value) else NoneReaches(es, f)
  {
    var counts: map<string, nat> := map[];
    var i := 0;
    assert es[..0] == [];
    while i < |es|
      invariant 0 <= i <= |es|
      invariant forall r :: Count(es[..i], r) == if r in counts then counts[r] else 0
    {
      assert es[..i + 1][..i] == es[..i];
      var r := es[i].result;
      counts := counts[r := (if r in counts then counts[r] else 0) + 1];
      i := i + 1;
    }
    assert es[..i] == es;
    var todo := counts.Keys;
    while todo != {}
      invariant todo <= counts.Keys
      invariant forall r :: r in counts && r !in todo ==> !Reaches(es, f, r)
      decreases |todo|
    {
      var r :| r in todo;
      if counts[r] >= Threshold(f) {
        assert Reaches(es, f, r);
        return Some(r);
      }
      todo := todo - {r};
    }
    return None;
  }

  lemma SplitOneMore(groups: map<OpId, seq<Entry>>, f: nat, d: map<OpId, seq<Entry>>, u: map<OpId, seq<Entry>>,
                     majority: map<OpId, string>, o: OpId, es: seq<Entry>, found: Option<string>)
    requires Split(groups, f, d, u, majority) && o !in groups
    requires if found.Some? then Reaches(es, f, found.value) else NoneReaches(es, f)
    ensures found.Some? ==> Split(groups[o := es], f, d[o := es], u, majority[o := found.value])
    ensures found.None? ==> Split(groups[o := es], f, d, u[o := es], majority)
  {
    hide Reaches, NoneReaches;
    assert o !in d && o !in u && o !in majority;
    if found.Some? {
      assert d[o := es].Keys + u.Keys == groups[o := es].Keys;
      assert d[o := es].Keys !! u.Keys;
    } else {
      assert d.Keys + u[o := es].Keys == groups[o := es].Keys;
      assert d.Keys !! u[o := es].Keys;
    }
  }

  method SplitGroups(groups: map<OpId, seq<Entry>>, f: nat)
    returns (d: map<OpId, seq<Entry>>, u: map<OpId, seq<Entry>>, majority: map<OpId, string>)
    ensures Split(groups, f, d, u, majority)
  {
    d, u, majority := map[], map[], map[];
    var todo := groups.Keys;
    NothingSplit(groups, f);
    hide Split, Reaches, NoneReaches;
    while todo != {}
      invariant todo <= groups.Keys
      invariant Split(groups - todo, f, d, u, majority)
      decreases |todo|
    {
      var o :| o in todo;
      var found := FindMajority(groups[o], f);
      TakeOne(groups, todo, o);
      SplitOneMore(groups - todo, f, d, u, majority, o, groups[o], found);
      if found.Some? {
        d := d[o := groups[o]];
        majority := majority[o := found.value];
      } else {
        u := u[o := groups[o]];
      }
      todo := todo - {o};
    }
    assert groups - {} == groups;
  }

  lemma NothingSplit(groups: map<OpId, seq<Entry>>, f: nat)
    ensures Split(groups - groups.Keys, f, map[], map[], map[])
  {
    assert groups - groups.Keys == map[];
  }

  lemma TakeOne(groups: map<OpId, seq<Entry>>, todo: set<OpId>, o: OpId)
    requires o in groups && o in todo
    ensures o !in groups - todo && (groups - todo)[o := groups[o]] == groups - (todo - {o})
  {
  }

  /** Turns the application's merge results into finalized entries and adds them to R. */
  method AddMerged(kept: Record, groups: map<OpId, seq<Entry>>, results: map<OpId, string>, view: nat)
    returns (r: Record)
    requires results.Keys == groups.Keys && kept.Keys !! groups.Keys
    requires forall o :: o in groups ==> groups[o] != []
    ensures r == kept + MergedEntries(groups, results, view)
    ensures forall o :: o in kept ==> r[o] == kept[o]
    ensures forall o :: o in results ==>
      o in r && r[o] == Entry(view, o, Finalized, groups[o][0].kind, groups[o][0].op, results[o])
  {
    r := kept;
    var todo := results.Keys;
    ghost var goal := MergedEntries(groups, results, view);
    while todo != {}
      invariant todo <= results.Keys
      invariant forall o :: o in r <==> o in kept || (o in results && o !in todo)
      invariant forall o :: o in r ==> r[o] == if o in kept then kept[o] else goal[o]
      decreases |todo|
    {
      var o :| o in todo;
      assert o !in r;
      var entry := groups[o][0];
      r := r[o := Entry(view, o, Finalized, entry.kind, entry.op, results[o])];
      todo := todo - {o};
    }
  }

  // ----- What a view change merges -----

  ghost predicate InRange(s: seq<nat>, n: nat) {
    forall k :: 0 <= k < |s| ==> s[k] < n
  }

  ghost function Messages(normal: seq<nat>, records: seq<Record>, senders: seq<nat>): seq<DoViewChange>
    requires |normal| == |records| && InRange(senders, |normal|)
  {
    seq(|senders|, k requires 0 <= k < |senders| => DoViewChange(normal[senders[k]], records[senders[k]]))
  }

  /** The senders with normal view `v`. */
  ghost function OfView(normal: seq<nat>, senders: seq<nat>, v: nat): seq<nat>
    requires InRange(senders, |normal|)
  {
    if senders == [] then []
    else
      var last := senders[|senders| - 1];
      OfView(normal, senders[..|senders| - 1], v) + if normal[last] == v then [last] else []
  }

  lemma {:induction false} OfViewIs(normal: seq<nat>, senders: seq<nat>, v: nat)
    requires InRange(senders, |normal|)
    ensures forall i :: i in OfView(normal, senders, v) <==> i in senders && normal[i] == v
    ensures Distinct(senders) ==> Distinct(OfView(normal, senders, v))
  {
    if senders != [] {
      var init, last := senders[..|senders| - 1], senders[|senders| - 1];
      assert senders == init + [last];
      OfViewIs(normal, init, v);
      if Distinct(senders) {
        assert Distinct(init) && last !in init;
      }
    }
  }

  lemma OfViewInRange(normal: seq<nat>, senders: seq<nat>, v: nat)
    requires InRange(senders, |normal|)
    ensures forall i :: i in OfView(normal, senders, v) ==> i < |normal|
  {
    OfViewIs(normal, senders, v);
  }

  lemma {:induction false} WithViewIs(normal: seq<nat>, records: seq<Record>, senders: seq<nat>, v: nat)
    requires |normal| == |records| && InRange(senders, |normal|)
    ensures forall i :: i in OfView(normal, senders, v) ==> i < |records|
    ensures WithView(Messages(normal, records, senders), v) == RecordsOf(records, OfView(normal, senders, v))
  {
    OfViewInRange(normal, senders, v);
    if senders != [] {
      var init, last := senders[..|senders| - 1], senders[|senders| - 1];
      assert senders == init + [last];
      WithViewIs(normal, records, init, v);
      var msgs := Messages(normal, records, senders);
      assert msgs[..|msgs| - 1] == Messages(normal, records, init);
      var order := OfView(normal, init, v);
      if normal[last] == v {
        assert RecordsOf(records, order + [last]) == RecordsOf(records, order) + [records[last]];
      }
    }
  }

  lemma {:induction false} MaxViewIs(own: nat, msgs: seq<DoViewChange>)
    ensures own <= MaxView(own, msgs)
    ensures forall i :: 0 <= i < |msgs| ==> msgs[i].latestNormalView <= MaxView(own, msgs)
    ensures MaxView(own, msgs) == own || exists i :: 0 <= i < |msgs| && msgs[i].latestNormalView == MaxView(own, msgs)
  {
    if msgs != [] {
      var init := msgs[..|msgs| - 1];
      MaxViewIs(own, init);
      assert forall i :: 0 <= i < |init| ==> init[i] == msgs[i];
    }
  }

  /** What the new leader, replica `me`, merges with the messages of `others`. */
  ghost function Merges(normal: seq<nat>, records: seq<Record>, others: seq<nat>, me: nat): seq<Record>
    requires |normal| == |records| && InRange(others, |normal|) && me < |normal|
  {
    var msgs := Messages(normal, records, others);
    WithView(msgs + [DoViewChange(normal[me], records[me])], MaxView(normal[me], msgs))
  }

  lemma MergesIs(normal: seq<nat>, records: seq<Record>, others: seq<nat>, me: nat)
    requires |normal| == |records| && InRange(others, |normal|) && me < |normal|
    requires Distinct(others + [me])
    ensures
      var v := MaxView(normal[me], Messages(normal, records, others));
      var order := OfView(normal, others + [me], v);
      && LatestOf(normal, Elements(others + [me]), v, order)
      && Merges(normal, records, others, me) == RecordsOf(records, order)
  {
    var all := others + [me];
    var msgs := Messages(normal, records, others);
    var v := MaxView(normal[me], msgs);
    assert Messages(normal, records, all) == msgs + [DoViewChange(normal[me], records[me])];
    WithViewIs(normal, records, all, v);
    OfViewIs(normal, all, v);
    MaxIsMax(normal, records, others, me);
  }

  lemma MaxIsMax(normal: seq<nat>, records: seq<Record>, others: seq<nat>, me: nat)
    requires |normal| == |records| && InRange(others, |normal|) && me < |normal|
    ensures forall i :: i in others + [me] ==>
              i < |normal| && normal[i] <= MaxView(normal[me], Messages(normal, records, others))
  {
    var msgs := Messages(normal, records, others);
    MaxViewIs(normal[me], msgs);
    forall i | i in others + [me] ensures i < |normal| && normal[i] <= MaxView(normal[me], msgs) {
      if i in others {
        var k :| 0 <= k < |others| && others[k] == i;
        assert msgs[k].latestNormalView == normal[i];
      }
    }
  }

  lemma TypesStillAgree(records: seq<Record>, order: seq<nat>)
    requires TypesAgree(records) && forall i :: i in order ==> i < |records|
    ensures TypesAgree(RecordsOf(records, order))
  {
    var some: seq<Record> := RecordsOf(records, order);
    forall i, j, x: OpId | 0 <= i < |some| && 0 <= j < |some| && x in some[i] && x in some[j]
      ensures some[i][x].kind == some[j][x].kind
    {
      assert order[i] in order && order[j] in order;
    }
  }

  /** Fast path survival, for the records that a new leader really merges: the messages of
      `others`, which with the leader itself make a quorum, and its own record. */
  lemma FastPathSurvivesViewChange(f: nat, normal: seq<nat>, records: seq<Record>, holders: set<nat>,
                                   others: seq<nat>, me: nat, o: OpId, r: string)
    requires |normal| == |records| == 2 * f + 1 && InRange(others, |normal|) && me < |normal|
    requires Distinct(others + [me]) && |others| + 1 >= QuorumSize(f)
    requires |holders| >= FastQuorumSize(f) && TypesAgree(records)
    requires forall i :: i in holders ==>
               && i < |records| && HoldsWith(records[i], o, r)
               && normal[i] == MaxView(normal[me], Messages(normal, records, others))
    ensures
      var latest := Merges(normal, records, others, me);
      || (o in KeptRecord(latest) && KeptRecord(latest)[o].state == Finalized && o !in Groups(latest))
      || (o in Groups(latest) && o !in KeptRecord(latest)
          && forall x :: Reaches(Groups(latest)[o], f, x) <==> x == r)
  {
    var v := MaxView(normal[me], Messages(normal, records, others));
    var order := OfView(normal, others + [me], v);
    MergesIs(normal, records, others, me);
    OfViewInRange(normal, others + [me], v);
    TypesStillAgree(records, order);
    ElementsSize(others + [me]);
    hide KeptRecord, Groups, Reaches, Merges, OfView, Elements, TypesAgree;
    FastPathSurvives(f, normal, records, holders, Elements(others + [me]), order, v, o, r);
  }
}
