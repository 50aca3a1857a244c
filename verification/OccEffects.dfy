/** What each operation of the optimistic store does to the operations after it. */
module OccEffects {
  import opened ReplicaLog
  import opened VersionStore
  import opened OccSpec
  import opened OccSerializability

  /** Nothing that is prepared, but for `but`, is related to the transaction. */
  ghost predicate Free(occ: Occ, but: set<nat>, txn: Txn) {
    forall u :: u in occ.prepared && u !in but ==> Unrelated(occ.prepared[u], txn)
  }

  /** A transaction is accepted exactly if it is prepared already, or its reads are current and
      nothing prepared is related to it.  A refusal leaves every prepared one as it was. */
  lemma PrepareExactly(occ: Occ, id: nat, txn: Txn)
    requires forall k :: k in txn.readSet ==> occ.store.InStore(k)
    ensures
      var (occ', ok) := occ.Prepare(id, txn, true);
      && (ok <==> id in occ.prepared || (Current(occ.store, txn) && Free(occ, {}, txn)))
      && occ'.store == occ.store
      && occ'.prepared == (if ok && id !in occ.prepared then occ.prepared[id := txn] else occ.prepared)
      && occ'.precommitted == (if ok then occ.precommitted else occ.precommitted - {id})
  {
    ValidationIsExact(occ, txn);
    hide Current, Unrelated;
    assert id !in occ.prepared ==> occ.prepared - {id} == occ.prepared;
    assert id !in occ.precommitted ==> occ.precommitted - {id} == occ.precommitted;
  }

  /** Once a transaction is aborted, or committed, or pre-committed, validation no longer looks at
      it: another is accepted exactly if the other prepared ones let it. */
  lemma ValidationForgets(occ: Occ, occ': Occ, id: nat, u: nat, txn: Txn)
    requires occ'.prepared == occ.prepared - {id} && u != id && u !in occ.prepared
    requires forall k :: k in txn.readSet ==> occ'.store.InStore(k)
    ensures occ'.Prepare(u, txn, true).1 <==> Current(occ'.store, txn) && Free(occ, {id}, txn)
  {
    PrepareExactly(occ', u, txn);
    hide Current, Unrelated;
  }

  /** A transaction that is not pre-committed is taken back by an abort. */
  lemma AbortForgets(occ: Occ, id: nat, u: nat, txn: Txn)
    requires id !in occ.precommitted && u != id && u !in occ.prepared
    requires forall k :: k in txn.readSet ==> occ.store.InStore(k)
    ensures occ.Abort(id).store == occ.store && occ.Abort(id).Ready(id).None?
    ensures occ.Abort(id).Prepare(u, txn, true).1 <==> Current(occ.store, txn) && Free(occ, {id}, txn)
  {
    ValidationForgets(occ, occ.Abort(id), id, u, txn);
    hide Current, Free;
  }

  lemma {:induction false} WithoutIs(s: seq<nat>, x: nat, y: nat)
    ensures y in Without(s, x) <==> y in s && y != x
  {
    if s != [] {
      WithoutIs(s[1..], x, y);
      assert s == [s[0]] + s[1..];
    }
  }

  /** A commit ends the transaction, touches no other, adds one version to each key written and
      takes the transaction off the key's list. */
  lemma CommitExactly(occ: Occ, id: nat, time: nat, k: Key)
    requires occ.store.Valid() && occ.Ready(id).Some? && (id in occ.prepared ==> id !in occ.precommitted)
    ensures
      var txn := occ.Ready(id).value;
      var occ' := occ.Commit(id, time);
      && occ'.Ready(id).None? && (forall u :: u != id ==> occ'.Ready(u) == occ.Ready(u))
      && (k !in txn.writeSet ==> occ'.store.VersionsOf(k) == occ.store.VersionsOf(k))
      && (k in txn.writeSet ==>
            var v := Version(Timestamp(time, 0), txn.writeSet[k]);
            forall x :: x in occ'.store.VersionsOf(k) <==>
              x in occ.store.VersionsOf(k) || (x == v && !Holds(occ.store.VersionsOf(k), v.write)))
      && (forall u :: Listed(occ'.store, k, u) <==> Listed(occ.store, k, u) && (u == id ==> k !in txn.writeSet))
  {
    var txn := occ.Ready(id).value;
    hide Insert, Without;
    assert occ.Commit(id, time).store == WriteAll(occ.store, txn.writeSet, id, time);
    if k in txn.writeSet {
      InsertMembers(occ.store.VersionsOf(k), Version(Timestamp(time, 0), txn.writeSet[k]));
    }
    if k in occ.store.precommits {
      forall u ensures u in Without(occ.store.precommits[k], id) <==> u in occ.store.precommits[k] && u != id {
        WithoutIs(occ.store.precommits[k], id, u);
      }
    }
    hide Holds;
  }

  ghost predicate Listed(s: Store, k: Key, id: nat) {
    k in s.precommits && id in s.precommits[k]
  }

  /** The writer of a key that was pre-committed last is the one whose value is read. */
  lemma LatestWriterIsServed(s: System, id: nat, k: Key)
    requires id in s.occ.prepared && k in s.occ.prepared[id].writeSet && s.occ.store.InStore(k)
    ensures
      var after := Apply(s, PreCommit(id));
      && Serve(after, k) == Some(Dependent(id, WrittenBy(s.active, id, k)))
      && after.occ.Ready(id) == Some(s.occ.prepared[id]) && id !in after.occ.prepared
      && after.occ.store.versions == s.occ.store.versions
  {
    hide WrittenBy;
  }

  /** Where nothing is listed for a key, the latest version is read. */
  lemma StoredIsServed(s: System, k: Key)
    requires s.occ.store.InStore(k) && forall id :: !Listed(s.occ.store, k, id)
    ensures Serve(s, k) == Some(Stored(s.occ.store.Get(k).value))
  {
    if k in s.occ.store.precommits && s.occ.store.precommits[k] != [] {
      assert Listed(s.occ.store, k, s.occ.store.precommits[k][0]);
    }
  }

  /** What a pre-committed transaction wrote is read from it until it commits, and from the store
      afterwards. */
  lemma ReadBeforeAndAfter(s: System, id: nat, k: Key, time: nat)
    requires s.occ.store.Valid() && s.occ.store.InStore(k) && forall u :: !Listed(s.occ.store, k, u)
    requires id != 0 && id in s.occ.prepared && id !in s.occ.precommitted && k in s.occ.prepared[id].writeSet
    requires id in s.active && s.active[id] == s.occ.prepared[id]
    requires s.occ.store.Get(k).value.write.Less(Timestamp(time, 0))
    ensures
      var v := s.occ.prepared[id].writeSet[k];
      var during := Apply(s, PreCommit(id));
      var after := Apply(during, Commit(id, time));
      Serve(during, k) == Some(Dependent(id, v)) && Serve(after, k) == Some(Stored(Version(Timestamp(time, 0), v)))
  {
    LatestWriterIsServed(s, id, k);
    var during := Apply(s, PreCommit(id));
    assert during.active == s.active;
    NowListed(s.occ, id, k);
    var after := Apply(during, Commit(id, time));
    CommitExactly(during.occ, id, time, k);
    WriteTakesEffect(during.occ.store, s.occ.prepared[id].writeSet, id, time, k);
    CommitWrites(during.occ, id, time);
    hide Apply, WriteAll, Listed;
    StoredIsServed(after, k);
  }

  lemma NowListed(occ: Occ, id: nat, k: Key)
    requires id in occ.prepared && forall u :: !Listed(occ.store, k, u)
    ensures forall u :: Listed(occ.PreCommit(id).store, k, u) ==> u == id
  {
    if k in occ.store.precommits && occ.store.precommits[k] != [] {
      assert Listed(occ.store, k, occ.store.precommits[k][0]);
    }
  }

  lemma CommitWrites(occ: Occ, id: nat, time: nat)
    requires occ.Ready(id).Some?
    ensures occ.Commit(id, time).store == WriteAll(occ.store, occ.Ready(id).value.writeSet, id, time)
  {
  }
}
