/** The record merge of Inconsistent Replication (IrMergeRecords of replication/ir/replica.cc),
    and why an operation decided on the fast path survives it. */
module IrMerge {
  import opened ReplicaLog

  type OpId = (nat, nat)

  datatype RecordState = Tentative | Finalized

  datatype RecordType = Inconsistent | Consensus

  datatype Entry = Entry(view: nat, opid: OpId, state: RecordState, kind: RecordType, op: string, result: string)

  /** Record of replication/ir/record.h: a map, whose Add demands a new opid. */
  type Record = map<OpId, Entry>

  function QuorumSize(f: nat): nat {
    f + 1
  }

  function FastQuorumSize(f: nat): nat {
    f + (f + 1) / 2 + 1
  }

  /** ceil(f / 2) + 1 */
  function Threshold(f: nat): nat {
    (f + 1) / 2 + 1
  }

  // ----- Grouping -----

  /** The entries that the records hold for one operation, in the order of the records. */
  function EntriesOf(records: seq<Record>, o: OpId): seq<Entry> {
    if records == [] then []
    else
      var last := records[|records| - 1];
      EntriesOf(records[..|records| - 1], o) + if o in last then [last[o]] else []
  }

  /** What the grouping loop makes of the entries for one operation: the entry it puts into R,
      and the entries it leaves for the merge. */
  function Group(es: seq<Entry>): (Option<Entry>, seq<Entry>) {
    if es == [] then (None, [])
    else
      var (kept, group) := Group(es[..|es| - 1]);
      GroupOne(kept, group, es[|es| - 1])
  }

  function GroupOne(kept: Option<Entry>, group: seq<Entry>, e: Entry): (Option<Entry>, seq<Entry>) {
    if e.kind == Inconsistent then (if kept.None? then Some(e) else kept, group)
    else if e.state == Finalized then (if kept.None? then Some(e) else kept, [])
    else (kept, if kept.None? then group + [e] else group)
  }

  function Domain(records: seq<Record>): set<OpId> {
    set i, o | 0 <= i < |records| && o in records[i] :: o
  }

  /** R after the grouping loop. */
  function KeptRecord(records: seq<Record>): Record {
    map o | o in Domain(records) && Group(EntriesOf(records, o)).0.Some? :: Group(EntriesOf(records, o)).0.value
  }

  /** entries_by_opid after the grouping loop. */
  function Groups(records: seq<Record>): map<OpId, seq<Entry>> {
    map o | o in Domain(records) && Group(EntriesOf(records, o)).1 != [] :: Group(EntriesOf(records, o)).1
  }

  // ----- Splitting into d and u -----

  function Count(es: seq<Entry>, result: string): nat {
    if es == [] then 0
    else Count(es[..|es| - 1], result) + if es[|es| - 1].result == result then 1 else 0
  }

  ghost predicate Reaches(es: seq<Entry>, f: nat, result: string) {
    Count(es, result) >= Threshold(f)
  }

  /** d are the groups in which some result reaches the threshold, with such a result; u are
      the others. */
  ghost predicate Split(groups: map<OpId, seq<Entry>>, f: nat, d: map<OpId, seq<Entry>>,
                        u: map<OpId, seq<Entry>>, majority: map<OpId, string>) {
    && d.Keys !! u.Keys && d.Keys + u.Keys == groups.Keys && majority.Keys == d.Keys
    && (forall o :: o in d ==> d[o] == groups[o] && Reaches(groups[o], f, majority[o]))
    && (forall o :: o in u ==> u[o] == groups[o] && NoneReaches(groups[o], f))
  }

  ghost predicate NoneReaches(es: seq<Entry>, f: nat) {
    forall r :: !Reaches(es, f, r)
  }

  // ----- The merged record -----

  /** One entry per merge result, finalized in the new view. */
  function MergedEntries(groups: map<OpId, seq<Entry>>, results: map<OpId, string>, view: nat): Record {
    map o | o in results && o in groups && groups[o] != [] ::
      Entry(view, o, Finalized, groups[o][0].kind, groups[o][0].op, results[o])
  }

  function MergeRecords(records: seq<Record>, results: map<OpId, string>, view: nat): Record {
    KeptRecord(records) + MergedEntries(Groups(records), results, view)
  }

  // ----- Completeness -----

  /** The records agree on the type of every operation. */
  ghost predicate TypesAgree(records: seq<Record>) {
    forall i, j, o :: 0 <= i < |records| && 0 <= j < |records| && o in records[i] && o in records[j] ==>
      records[i][o].kind == records[j][o].kind
  }

  ghost predicate SameKind(es: seq<Entry>) {
    forall i, j :: 0 <= i < |es| && 0 <= j < |es| ==> es[i].kind == es[j].kind
  }

  /** An entry that settles its operation by itself. */
  ghost predicate Settled(e: Entry) {
    e.kind == Inconsistent || e.state == Finalized
  }

  lemma {:induction false} EntriesAre(records: seq<Record>, o: OpId)
    ensures forall e :: e in EntriesOf(records, o) <==>
              exists i :: 0 <= i < |records| && o in records[i] && records[i][o] == e
    ensures EntriesOf(records, o) == [] <==> o !in Domain(records)
    decreases |records|
  {
    if records != [] {
      var init, last := records[..|records| - 1], records[|records| - 1];
      EntriesAre(init, o);
      var es, fs := EntriesOf(records, o), EntriesOf(init, o);
      assert es == fs + if o in last then [last[o]] else [];
      forall e ensures e in es <==> exists i :: 0 <= i < |records| && o in records[i] && records[i][o] == e {
        if e in fs {
          var i :| 0 <= i < |init| && o in init[i] && init[i][o] == e;
          assert records[i] == init[i];
        }
        if i :| 0 <= i < |records| && o in records[i] && records[i][o] == e {
          if i < |init| {
            assert init[i] == records[i];
            assert e in fs;
          }
        }
      }
      if es != [] {
        assert es[0] in es;
      }
    }
  }

  ghost predicate AnySettled(es: seq<Entry>) {
    exists i :: 0 <= i < |es| && Settled(es[i])
  }

  /** An entry is kept if one settles the operation, and then nothing is left to merge;
      otherwise all entries are. */
  lemma {:induction false} GroupSays(es: seq<Entry>)
    requires SameKind(es)
    ensures Group(es).0.Some? <==> AnySettled(es)
    ensures Group(es).0.Some? ==> Group(es).1 == [] && Settled(Group(es).0.value)
    ensures Group(es).0.None? ==> Group(es).1 == es
    decreases |es|
  {
    if es != [] {
      var init, last := es[..|es| - 1], es[|es| - 1];
      assert es == init + [last];
      assert SameKind(init);
      GroupSays(init);
      AnySettledSnoc(init, last);
      assert init != [] ==> es[0].kind == last.kind;
      hide AnySettled;
    }
  }

  lemma AnySettledSnoc(es: seq<Entry>, e: Entry)
    ensures AnySettled(es + [e]) <==> AnySettled(es) || Settled(e)
  {
    if AnySettled(es) {
      var i :| 0 <= i < |es| && Settled(es[i]);
      assert (es + [e])[i] == es[i];
    }
    if Settled(e) {
      assert (es + [e])[|es|] == e;
    }
  }

  lemma EntriesSameKind(records: seq<Record>, o: OpId)
    requires TypesAgree(records)
    ensures SameKind(EntriesOf(records, o))
  {
    var es := EntriesOf(records, o);
    EntriesAre(records, o);
    forall i, j | 0 <= i < |es| && 0 <= j < |es| ensures es[i].kind == es[j].kind {
      assert es[i] in es && es[j] in es;
    }
  }

  /** The operations that R keeps and those that are merged are disjoint, and together they
      are all. */
  lemma KeptAndGroups(records: seq<Record>)
    requires TypesAgree(records)
    ensures KeptRecord(records).Keys !! Groups(records).Keys
    ensures KeptRecord(records).Keys + Groups(records).Keys == Domain(records)
  {
    forall o | o in Domain(records) ensures o in KeptRecord(records) <==> o !in Groups(records) {
      EntriesSameKind(records, o);
      EntriesAre(records, o);
      GroupSays(EntriesOf(records, o));
    }
  }

  /** Completeness of the merge: it has exactly the operations of the latest records, and what
      is added to R is new to R. */
  lemma MergeIsComplete(records: seq<Record>, results: map<OpId, string>, view: nat)
    requires TypesAgree(records) && results.Keys == Groups(records).Keys
    ensures MergeRecords(records, results, view).Keys == Domain(records)
    ensures KeptRecord(records).Keys !! MergedEntries(Groups(records), results, view).Keys
  {
    KeptAndGroups(records);
    GroupsAreNot(records);
    hide KeptRecord, Groups, Domain;
  }

  /** Every consensus operation ends finalized; the merged ones with the application's result,
      in the new view. */
  lemma MergeFinalizes(records: seq<Record>, results: map<OpId, string>, view: nat, o: OpId)
    requires TypesAgree(records) && results.Keys == Groups(records).Keys
    requires o in MergeRecords(records, results, view)
    ensures
      var e := MergeRecords(records, results, view)[o];
      && (e.kind == Consensus ==> e.state == Finalized)
      && (o in results ==> e.result == results[o] && e.view == view)
  {
    KeptAndGroups(records);
    GroupsAreNot(records);
    if o in KeptRecord(records) {
      KeptIsFirstSettled(records, o);
    }
    hide Groups, Domain, Group, EntriesOf, TypesAgree;
  }

  /** An operation that some latest record has settled, a finalized result above all, is kept
      as the first record that settles it has it. */
  lemma MergeKeepsSettled(records: seq<Record>, results: map<OpId, string>, view: nat, i: nat, o: OpId)
    requires TypesAgree(records) && results.Keys == Groups(records).Keys
    requires i < |records| && o in records[i] && Settled(records[i][o])
    ensures o in MergeRecords(records, results, view)
    ensures KeepsFirstSettled(records, o, MergeRecords(records, results, view)[o])
  {
    SettledIsKept(records, i, o);
    KeptIsFirstSettled(records, o);
    KeptAndGroups(records);
    hide Groups, Domain, Group, EntriesOf, TypesAgree, KeepsFirstSettled;
  }

  lemma GroupsAreNot(records: seq<Record>)
    ensures forall o :: o in Groups(records) ==> Groups(records)[o] != []
  {
  }

  /** `e` is the entry for `o` of the first record in which the operation is settled. */
  ghost predicate KeepsFirstSettled(records: seq<Record>, o: OpId, e: Entry) {
    exists i :: 0 <= i < |records| && o in records[i] && records[i][o] == e && Settled(e)
                && forall j :: 0 <= j < i && o in records[j] ==> !Settled(records[j][o])
  }

  lemma SettledIsKept(records: seq<Record>, i: nat, o: OpId)
    requires TypesAgree(records) && i < |records| && o in records[i] && Settled(records[i][o])
    ensures o in KeptRecord(records)
  {
    var es := EntriesOf(records, o);
    EntriesAre(records, o);
    EntriesSameKind(records, o);
    GroupSays(es);
    assert records[i][o] in es;
    var k :| 0 <= k < |es| && es[k] == records[i][o];
    assert Settled(es[k]);
  }

  /** Group, record by record. */
  lemma {:induction false} KeptIsFirstSettled(records: seq<Record>, o: OpId)
    requires TypesAgree(records) && Group(EntriesOf(records, o)).0.Some?
    ensures Settled(Group(EntriesOf(records, o)).0.value)
    ensures KeepsFirstSettled(records, o, Group(EntriesOf(records, o)).0.value)
    decreases |records|
  {
    var init, last := records[..|records| - 1], records[|records| - 1];
    var es, fs := EntriesOf(records, o), EntriesOf(init, o);
    assert TypesAgree(init);
    assert records == init + [last];
    EntriesSameKind(records, o);
    EntriesSameKind(init, o);
    GroupSays(es);
    GroupSays(fs);
    var e := Group(es).0.value;
    assert es == if o in last then fs + [last[o]] else fs;
    assert o in last ==> es[..|es| - 1] == fs;
    if Group(fs).0.Some? {
      assert Group(fs).0.value == e;
      KeptIsFirstSettled(init, o);
      FirstSettledGrows(init, last, o, e);
    } else {
      assert o in last && last[o] == e;
      NoneSettled(init, o);
      hide Group, EntriesOf;
      assert (init + [last])[|init|] == last;
    }
  }

  lemma NoneSettled(records: seq<Record>, o: OpId)
    requires TypesAgree(records) && Group(EntriesOf(records, o)).0.None?
    ensures forall j :: 0 <= j < |records| && o in records[j] ==> !Settled(records[j][o])
  {
    forall j | 0 <= j < |records| && o in records[j] ensures !Settled(records[j][o]) {
      if Settled(records[j][o]) {
        SettledIsKept(records, j, o);
      }
    }
  }

  lemma FirstSettledGrows(init: seq<Record>, last: Record, o: OpId, e: Entry)
    requires KeepsFirstSettled(init, o, e)
    ensures KeepsFirstSettled(init + [last], o, e)
  {
    var all := init + [last];
    var i :| 0 <= i < |init| && o in init[i] && init[i][o] == e && Settled(e)
             && forall j :: 0 <= j < i && o in init[j] ==> !Settled(init[j][o]);
    assert forall j :: 0 <= j <= i ==> all[j] == init[j];
  }

  // ----- The requests of the merged operations -----

  /** Record `i` is the first one that holds the operation. */
  ghost predicate FirstHolds(records: seq<Record>, o: OpId, i: nat) {
    i < |records| && o in records[i] && forall j :: 0 <= j < i ==> o !in records[j]
  }

  /** No record settles the operation. */
  ghost predicate Open(records: seq<Record>, o: OpId) {
    forall i :: 0 <= i < |records| && o in records[i] ==> !Settled(records[i][o])
  }

  /** The application has answered exactly the operations that no record settles. */
  ghost predicate AnswersOpen(records: seq<Record>, results: map<OpId, string>) {
    forall o :: o in results <==> o in Domain(records) && Open(records, o)
  }

  lemma {:induction false} FirstEntry(records: seq<Record>, o: OpId, i: nat)
    requires FirstHolds(records, o, i)
    ensures EntriesOf(records, o) != [] && EntriesOf(records, o)[0] == records[i][o]
    decreases |records|
  {
    var init := records[..|records| - 1];
    if i < |init| {
      assert forall j :: 0 <= j <= i ==> init[j] == records[j];
      FirstEntry(init, o, i);
    } else {
      EntriesAre(init, o);
      assert o !in Domain(init) by {
        assert forall j :: 0 <= j < |init| ==> init[j] == records[j];
      }
    }
  }

  /** The groups left for the merge are all entries of the operations that no record settles. */
  lemma MergedExactly(records: seq<Record>, o: OpId)
    requires TypesAgree(records)
    ensures o in Groups(records) <==> o in Domain(records) && Open(records, o)
    ensures o in Groups(records) ==> Groups(records)[o] == EntriesOf(records, o)
  {
    EntriesSameKind(records, o);
    EntriesAre(records, o);
    GroupSays(EntriesOf(records, o));
    if o in Groups(records) {
      NoneSettled(records, o);
    }
    if Open(records, o) && Group(EntriesOf(records, o)).0.Some? {
      KeptIsFirstSettled(records, o);
      assert false;
    }
  }

  lemma AnswersAreGroups(records: seq<Record>, results: map<OpId, string>)
    requires TypesAgree(records)
    ensures AnswersOpen(records, results) <==> results.Keys == Groups(records).Keys
  {
    forall o: OpId ensures o in Groups(records) <==> o in Domain(records) && Open(records, o) {
      MergedExactly(records, o);
    }
    hide Groups, Domain, Open, TypesAgree;
  }

  /** A merged operation has the request and the type that the first record holding it has for
      it, the application's result, and the new view. */
  lemma MergedRequest(records: seq<Record>, results: map<OpId, string>, view: nat, o: OpId, i: nat)
    requires TypesAgree(records) && AnswersOpen(records, results)
    requires FirstHolds(records, o, i) && Open(records, o)
    ensures o in results && o in MergeRecords(records, results, view)
    ensures MergeRecords(records, results, view)[o] ==
      Entry(view, o, Finalized, records[i][o].kind, records[i][o].op, results[o])
  {
    assert o in Domain(records);
    AnswersAreGroups(records, results);
    MergedExactly(records, o);
    FirstEntry(records, o, i);
    KeptAndGroups(records);
    hide Groups, Domain, KeptRecord, EntriesOf, TypesAgree, Open, FirstHolds;
  }

  /** Some record that holds an operation is the first. */
  lemma {:induction false} SomeFirst(records: seq<Record>, o: OpId, i: nat) returns (first: nat)
    requires i < |records| && o in records[i]
    ensures FirstHolds(records, o, first)
  {
    if j :| 0 <= j < i && o in records[j] {
      first := SomeFirst(records, o, j);
    } else {
      first := i;
    }
  }

  /** The records agree on the request of every operation, and file entries under their own ids. */
  ghost predicate RequestsAgree(records: seq<Record>) {
    && (forall i, o :: 0 <= i < |records| && o in records[i] ==> records[i][o].opid == o)
    && (forall i, j, o :: 0 <= i < |records| && 0 <= j < |records| && o in records[i] && o in records[j] ==>
          records[i][o].op == records[j][o].op)
  }

  /** The merge loses no request: what one latest record holds for an operation, the merged
      record holds, under the same id and with the same request and type. */
  lemma RequestsAreKept(records: seq<Record>, results: map<OpId, string>, view: nat, i: nat, o: OpId)
    requires TypesAgree(records) && RequestsAgree(records) && AnswersOpen(records, results)
    requires i < |records| && o in records[i]
    ensures o in MergeRecords(records, results, view)
    ensures
      var e := MergeRecords(records, results, view)[o];
      e.opid == o && e.op == records[i][o].op && e.kind == records[i][o].kind
  {
    if Open(records, o) {
      var first := SomeFirst(records, o, i);
      MergedRequest(records, results, view, o, first);
    } else {
      var k :| 0 <= k < |records| && o in records[k] && Settled(records[k][o]);
      AnswersAreGroups(records, results);
      MergeKeepsSettled(records, results, view, k, o);
    }
    hide MergeRecords, AnswersOpen;
  }

  /** What `r` holds for the operations of the records: the first record's request and type for
      those that no record settles, and no record's request is lost. */
  ghost predicate KeepsRequests(records: seq<Record>, results: map<OpId, string>, view: nat, r: Record) {
    && (forall i: nat, o :: FirstHolds(records, o, i) && Open(records, o) ==>
          o in results && o in r
          && r[o] == Entry(view, o, Finalized, records[i][o].kind, records[i][o].op, results[o]))
    && (RequestsAgree(records) ==>
          forall i: nat, o :: i < |records| && o in records[i] ==>
            o in r && r[o].opid == o && r[o].op == records[i][o].op && r[o].kind == records[i][o].kind)
  }

  lemma MergeKeepsRequests(records: seq<Record>, results: map<OpId, string>, view: nat)
    requires TypesAgree(records) && AnswersOpen(records, results)
    ensures KeepsRequests(records, results, view, MergeRecords(records, results, view))
  {
    hide MergeRecords, TypesAgree, AnswersOpen, RequestsAgree, Open;
    forall i: nat, o | FirstHolds(records, o, i) && Open(records, o)
      ensures o in results && o in MergeRecords(records, results, view)
      ensures MergeRecords(records, results, view)[o] ==
        Entry(view, o, Finalized, records[i][o].kind, records[i][o].op, results[o])
    {
      MergedRequest(records, results, view, o, i);
    }
    if RequestsAgree(records) {
      forall i: nat, o | i < |records| && o in records[i]
        ensures o in MergeRecords(records, results, view)
        ensures
          var e := MergeRecords(records, results, view)[o];
          e.opid == o && e.op == records[i][o].op && e.kind == records[i][o].kind
      {
        RequestsAreKept(records, results, view, i, o);
      }
    }
  }
}
