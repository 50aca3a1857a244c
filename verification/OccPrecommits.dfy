/** The store's lists of pre-committed writers: when they tell the truth, and what a read gets
    when they do not. */
module OccPrecommits {
  import opened ReplicaLog
  import opened VersionStore
  import opened OccSpec
  import G = OccGuarded

  ghost predicate Listed(s: Store, d: nat, k: Key) {
    k in s.precommits && d in s.precommits[k]
  }

  /** A key's list has exactly the pre-committed transactions that write the key. */
  ghost predicate Exact(occ: Occ) {
    forall d: nat, k :: Listed(occ.store, d, k) <==> G.WritesTo(occ, d, k)
  }

  /** What an event must not do: take a transaction that writes something off the pre-committed
      ones other than by its commit.  An abort does, so does a prepare request that is refused, and
      so does a pre-commit that puts another transaction in the place of one that writes more. */
  ghost predicate KeepsLists(s: System, e: Event) {
    match e
    case Abort(id, _) => id in s.occ.precommitted ==> s.occ.precommitted[id].writeSet == map[]
    case Prepare(id, txn) =>
      id in s.occ.precommitted && id !in s.occ.prepared && s.occ.Conflict(txn) ==>
        s.occ.precommitted[id].writeSet == map[]
    case PreCommit(id) =>
      id in s.occ.precommitted ==>
        s.occ.precommitted[id].writeSet.Keys <= (if id in s.occ.prepared then s.occ.prepared[id].writeSet.Keys else {})
    case _ => true
  }

  lemma {:induction false} InWithout(list: seq<nat>, x: nat, d: nat)
    ensures d in Without(list, x) <==> d in list && d != x
  {
    if list != [] {
      InWithout(list[1..], x, d);
    }
  }

  lemma CommitLists(s: Store, writes: map<Key, Value>, id: nat, time: nat, d: nat, k: Key)
    ensures Listed(WriteAll(s, writes, id, time), d, k) <==> Listed(s, d, k) && !(d == id && k in writes)
  {
    if k in s.precommits {
      InWithout(s.precommits[k], id, d);
    }
    hide PutAll;
  }

  lemma PreCommitLists(s: Store, keys: set<Key>, id: nat, d: nat, k: Key)
    ensures Listed(PreCommitAll(s, keys, id), d, k) <==> Listed(s, d, k) || (d == id && k in keys)
  {
  }

  /** A transaction that leaves the pre-committed ones without a commit stays listed. */
  lemma DroppedStaysListed(occ: Occ, id: nat, occ': Occ)
    requires Exact(occ) && occ'.store == occ.store && occ'.precommitted == occ.precommitted - {id}
    ensures Exact(occ') <==> (id in occ.precommitted ==> occ.precommitted[id].writeSet == map[])
  {
    if id in occ.precommitted && occ.precommitted[id].writeSet != map[] {
      var k :| k in occ.precommitted[id].writeSet;
      assert G.WritesTo(occ, id, k) && !G.WritesTo(occ', id, k);
      assert Listed(occ'.store, id, k);
    } else {
      forall d: nat, k ensures Listed(occ'.store, d, k) <==> G.WritesTo(occ', d, k) {
        assert Listed(occ.store, d, k) <==> G.WritesTo(occ, d, k);
      }
    }
  }

  lemma PreCommitExact(occ: Occ, id: nat)
    requires Exact(occ)
    ensures
      Exact(occ.PreCommit(id)) <==>
        (id in occ.precommitted ==>
           occ.precommitted[id].writeSet.Keys <= (if id in occ.prepared then occ.prepared[id].writeSet.Keys else {}))
  {
    var after := occ.PreCommit(id);
    var keys := if id in occ.prepared then occ.prepared[id].writeSet.Keys else {};
    forall d: nat, k ensures Listed(after.store, d, k) <==> G.WritesTo(occ, d, k) || (d == id && k in keys) {
      PreCommitLists(occ.store, keys, id, d, k);
      assert Listed(occ.store, d, k) <==> G.WritesTo(occ, d, k);
    }
    forall d: nat, k ensures G.WritesTo(after, d, k) <==> if d == id then k in keys else G.WritesTo(occ, d, k) {
    }
    hide PreCommitAll, Listed;
    if id in occ.precommitted && !(occ.precommitted[id].writeSet.Keys <= keys) {
      var k :| k in occ.precommitted[id].writeSet && k !in keys;
      assert G.WritesTo(occ, id, k) && !G.WritesTo(after, id, k);
    }
  }

  lemma CommitExact(occ: Occ, id: nat, time: nat)
    requires Exact(occ)
    ensures Exact(occ.Commit(id, time))
  {
    if occ.Ready(id).Some? {
      var after := occ.Commit(id, time);
      var writes := occ.Ready(id).value.writeSet;
      assert after.store == WriteAll(occ.store, writes, id, time);
      hide WriteAll;
      forall d: nat, k ensures Listed(after.store, d, k) <==> G.WritesTo(after, d, k) {
        CommitLists(occ.store, writes, id, time, d, k);
        assert Listed(occ.store, d, k) <==> G.WritesTo(occ, d, k);
      }
    }
  }

  /** The lists stay exact exactly through the events that keep them. */
  lemma ListsStayExact(s: System, e: Event)
    requires Exact(s.occ)
    ensures Exact(Apply(s, e).occ) <==> KeepsLists(s, e)
  {
    hide Exact;
    match e
    case Get(_, _) =>
    case Prepare(id, txn) =>
      if id !in s.occ.prepared {
        if s.occ.Conflict(txn) {
          DroppedIfThere(s.occ, id);
        } else {
          SameLists(s.occ, s.occ.(prepared := s.occ.prepared[id := txn]));
        }
      }
    case Commit(id, time) => CommitExact(s.occ, id, time);
    case Abort(id, _) => DroppedIfThere(s.occ, id);
    case PreCommit(id) => PreCommitExact(s.occ, id);
  }

  lemma SameLists(occ: Occ, occ': Occ)
    requires Exact(occ) && occ'.store == occ.store && occ'.precommitted == occ.precommitted
    ensures Exact(occ')
  {
    forall d: nat, k ensures Listed(occ'.store, d, k) <==> G.WritesTo(occ', d, k) {
      assert Listed(occ.store, d, k) <==> G.WritesTo(occ, d, k);
    }
  }

  lemma DroppedIfThere(occ: Occ, id: nat)
    requires Exact(occ)
    ensures Exact(occ.Abort(id)) <==> (id in occ.precommitted ==> occ.precommitted[id].writeSet == map[])
  {
    if id in occ.precommitted {
      DroppedStaysListed(occ, id, occ.Abort(id));
    } else {
      SameLists(occ, occ.Abort(id));
    }
  }

  ghost predicate KeepsListsRun(s: System, events: seq<Event>)
    decreases |events|
  {
    events == [] || (KeepsLists(s, events[0]) && KeepsListsRun(Apply(s, events[0]), events[1..]))
  }

  /** The lists are exact in every state of a run exactly if every event keeps them. */
  lemma {:induction false} ListsExactly(s: System, events: seq<Event>)
    requires Exact(s.occ)
    ensures KeepsListsRun(s, events) <==> forall i :: 0 <= i <= |events| ==> Exact(Run(s, events[..i]).occ)
    decreases |events|
  {
    hide Exact, KeepsLists, Apply;
    if events == [] {
      assert events[..0] == [];
    } else {
      var next := Apply(s, events[0]);
      ListsStayExact(s, events[0]);
      forall i | 0 < i <= |events| ensures Run(s, events[..i]) == Run(next, events[1..][..i - 1]) {
        assert events[..i][0] == events[0] && events[..i][1..] == events[1..][..i - 1];
      }
      assert events[..0] == [] && events[1..][..0] == [];
      if Exact(next.occ) {
        ListsExactly(next, events[1..]);
        ShiftStates(s, next, events);
      } else {
        assert Run(s, events[..1]) == next;
      }
    }
  }

  lemma ShiftStates(s: System, next: System, events: seq<Event>)
    requires events != [] && Exact(s.occ)
    requires forall i :: 0 < i <= |events| ==> Run(s, events[..i]) == Run(next, events[1..][..i - 1])
    ensures (forall i :: 0 <= i <= |events| ==> Exact(Run(s, events[..i]).occ)) <==>
              (forall j :: 0 <= j <= |events[1..]| ==> Exact(Run(next, events[1..][..j]).occ))
  {
    hide Exact, Run;
    assert Run(s, events[..0]) == s by { RunNothing(s, events); }
    if forall i :: 0 <= i <= |events| ==> Exact(Run(s, events[..i]).occ) {
      forall j | 0 <= j <= |events[1..]| ensures Exact(Run(next, events[1..][..j]).occ) {
        assert Run(s, events[..j + 1]) == Run(next, events[1..][..j]);
      }
    } else {
      var i :| 0 <= i <= |events| && !Exact(Run(s, events[..i]).occ);
      assert !Exact(Run(next, events[1..][..i - 1]).occ);
    }
  }

  lemma RunNothing(s: System, events: seq<Event>)
    ensures Run(s, events[..0]) == s
  {
  }

  // ----- A dead writer -----

  lemma ListedStays(s: System, e: Event, d: nat, k: Key)
    requires Listed(s.occ.store, d, k) && s.occ.store.InStore(k) && !(e.Commit? && e.id == d)
    ensures Listed(Apply(s, e).occ.store, d, k) && Apply(s, e).occ.store.InStore(k)
  {
    match e
    case Commit(id, time) =>
      if s.occ.Ready(id).Some? {
        var writes := s.occ.Ready(id).value.writeSet;
        CommitLists(s.occ.store, writes, id, time, d, k);
        if k in writes {
          InsertSome(s.occ.store.VersionsOf(k), Version(Timestamp(time, 0), writes[k]));
        }
      }
    case PreCommit(id) =>
      PreCommitLists(s.occ.store, (if id in s.occ.prepared then s.occ.prepared[id].writeSet.Keys else {}), id, d, k);
    case _ =>
  }

  lemma InsertSome(vs: seq<Version>, v: Version)
    ensures |Insert(vs, v)| > 0
  {
  }

  /** A transaction that is listed at a key and never committed, as one that was pre-committed and
      then aborted, keeps every later read of the key from any stored version, for good: each is
      answered with the value of a pre-committed transaction, or of a dead one. */
  lemma {:induction false} DeadWriterStays(s: System, events: seq<Event>, d: nat, k: Key)
    requires Listed(s.occ.store, d, k) && s.occ.store.InStore(k)
    requires forall i :: 0 <= i < |events| ==> !(events[i].Commit? && events[i].id == d)
    ensures
      var end := Run(s, events);
      && Listed(end.occ.store, d, k)
      && Serve(end, k).Some? && Serve(end, k).value.Dependent?
    decreases |events|
  {
    if events != [] {
      ListedStays(s, events[0], d, k);
      hide Apply, Listed;
      DeadWriterStays(Apply(s, events[0]), events[1..], d, k);
    }
  }

  /** Pre-commit and abort leave the transaction listed, and no longer there. */
  lemma AbortedIsListed(s: System, d: nat, drop: bool, k: Key)
    requires d in s.occ.prepared && k in s.occ.prepared[d].writeSet && s.occ.store.InStore(k)
    ensures
      var end := Apply(Apply(s, PreCommit(d)), Abort(d, drop));
      && d !in end.occ.precommitted && Listed(end.occ.store, d, k) && end.occ.store.InStore(k)
      && Serve(end, k) == Some(Dependent(d, if drop then "" else WrittenBy(s.active, d, k)))
  {
    PreCommitLists(s.occ.store, s.occ.prepared[d].writeSet.Keys, d, d, k);
    var mid := Apply(s, PreCommit(d));
    var list := mid.occ.store.precommits[k];
    assert list[|list| - 1] == d;
  }
}
