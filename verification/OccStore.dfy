/** The two store classes updated in place, each method proved against its function. */
module OccStore {
  import opened ReplicaLog
  import opened VersionStore
  import opened OccSpec

  /** Class VersionedKVStore of store/common/backend/versionstore.cc. */
  class VersionedKVStore {
    var versions: map<Key, seq<Version>>
    var precommits: map<Key, seq<nat>>

    function Value(): Store
      reads this
    {
      Store(versions, precommits)
    }

    constructor ()
      ensures Value() == Store(map[], map[]) && Value().Valid()
    {
      versions := map[];
      precommits := map[];
    }

    method Get(key: Key) returns (r: Option<Version>)
      requires Value().Valid()
      ensures r == Value().Get(key)
      ensures r.Some? ==> r.value in versions[key]
      ensures r.Some? ==> forall v :: v in versions[key] ==> v.write.AtMost(r.value.write)
    {
      if key in versions && |versions[key]| > 0 {
        return Some(versions[key][|versions[key]| - 1]);
      }
      return None;
    }

    method GetOrDependency(key: Key) returns (found: bool, version: Option<Version>, tid: nat)
      ensures found == Value().GetOrDependency(key).Some?
      ensures found ==> (version, tid) == Value().GetOrDependency(key).value
    {
      found, version, tid := false, None, 0;
      if key in versions && |versions[key]| > 0 {
        found := true;
        if key !in precommits || precommits[key] == [] {
          version := Some(versions[key][|versions[key]| - 1]);
        } else {
          tid := precommits[key][|precommits[key]| - 1];
        }
      }
    }

    /** upper_bound followed by a step back. */
    method GetAt(key: Key, t: Timestamp) returns (r: Option<Version>)
      requires Value().Valid()
      ensures r == Value().GetAt(key, t)
      ensures r.Some? ==> r.value in versions[key] && r.value.write.AtMost(t)
      ensures r.Some? ==>
        forall v :: v in versions[key] && v.write.AtMost(t) ==> v.write.AtMost(r.value.write)
      ensures r.None? && key in versions ==> forall v :: v in versions[key] ==> !v.write.AtMost(t)
    {
      if key !in versions || |versions[key]| == 0 {
        return None;
      }
      var vs := versions[key];
      AtTimeIsGreatest(vs, t);
      var it := |vs|;
      assert vs[..it] == vs;
      while it > 0 && !vs[it - 1].write.AtMost(t)
        invariant 0 <= it <= |vs|
        invariant AtTime(vs, t) == AtTime(vs[..it], t)
      {
        assert vs[..it][..it - 1] == vs[..it - 1];
        it := it - 1;
      }
      if it == 0 {
        return None;
      }
      return Some(vs[it - 1]);
    }

    method Put(key: Key, value: VersionStore.Value, t: Timestamp)
      requires Value().Valid()
      modifies this`versions
      ensures Value() == old(Value()).Put(key, value, t) && Value().Valid()
    {
      PutKeepsValid(Value(), key, value, t);
      versions := versions[key := Insert(if key in versions then versions[key] else [], Version(t, value))];
    }

    method PreCommit(key: Key, tid: nat)
      modifies this`precommits
      ensures Value() == old(Value()).PreCommit(key, tid)
    {
      precommits := precommits[key := (if key in precommits then precommits[key] else []) + [tid]];
    }

    method Commit(key: Key, tid: nat)
      modifies this`precommits
      ensures Value() == old(Value()).Commit(key, tid)
      ensures old(Value()).Valid() ==> Value().Valid()
    {
      if !(key in versions && |versions[key]| > 0) || key !in precommits {
        return;
      }
      var list := Erase(precommits[key], tid);
      precommits := precommits[key := list];
    }
  }

  /** The erasing loop of VersionedKVStore::commit. */
  method Erase(from: seq<nat>, tid: nat) returns (list: seq<nat>)
    ensures list == Without(from, tid)
  {
    list := from;
    var it := 0;
    while it < |list|
      invariant 0 <= it <= |list|
      invariant list[..it] + Without(list[it..], tid) == Without(from, tid)
      decreases |list| - it
    {
      EraseStep(list, it, tid);
      if list[it] == tid {
        list := list[..it] + list[it + 1..];
      } else {
        it := it + 1;
      }
    }
    assert list[..it] == list && list[it..] == [];
  }

  lemma EraseStep(list: seq<nat>, it: nat, tid: nat)
    requires it < |list|
    ensures
      var erased := list[..it] + list[it + 1..];
      list[..it] + Without(list[it..], tid) ==
        if list[it] == tid then erased[..it] + Without(erased[it..], tid)
        else list[..it + 1] + Without(list[it + 1..], tid)
  {
    assert list[it..][1..] == list[it + 1..];
    var erased := list[..it] + list[it + 1..];
    assert erased[..it] == list[..it] && erased[it..] == list[it + 1..];
    assert list[..it + 1] == list[..it] + [list[it]];
  }

  /** Class OCCStore of store/strongstore/occstore.cc. */
  class OCCStore {
    const store: VersionedKVStore
    var prepared: map<nat, Txn>
    var precommitted: map<nat, Txn>

    function State(): Occ
      reads this, store
    {
      Occ(store.Value(), prepared, precommitted)
    }

    constructor ()
      ensures State() == Occ(Store(map[], map[]), map[], map[]) && State().store.Valid() && fresh(store)
    {
      store := new VersionedKVStore();
      prepared := map[];
      precommitted := map[];
    }

    method GetPreparedWrites() returns (keys: set<Key>)
      ensures forall k :: k in keys <==> State().PreparedWrites(k)
    {
      keys := {};
      var todo := prepared.Keys;
      while todo != {}
        invariant todo <= prepared.Keys
        invariant forall k :: k in keys <==> exists id :: id in prepared.Keys - todo && k in prepared[id].writeSet
        decreases |todo|
      {
        var id :| id in todo;
        keys := keys + prepared[id].writeSet.Keys;
        todo := todo - {id};
      }
    }

    method GetPreparedReadWrites() returns (keys: set<Key>)
      ensures forall k :: k in keys <==> State().PreparedReadWrites(k)
    {
      keys := {};
      var todo := prepared.Keys;
      while todo != {}
        invariant todo <= prepared.Keys
        invariant forall k :: k in keys <==>
                    exists id :: id in prepared.Keys - todo && (k in prepared[id].writeSet || k in prepared[id].readSet)
        decreases |todo|
      {
        var id :| id in todo;
        keys := keys + prepared[id].writeSet.Keys + prepared[id].readSet.Keys;
        todo := todo - {id};
      }
    }

    method ReadsConflict(txn: Txn, pWrites: set<Key>) returns (conflict: bool)
      requires store.Value().Valid()
      requires forall k :: k in pWrites <==> State().PreparedWrites(k)
      ensures conflict <==> exists k :: k in txn.readSet && State().ReadConflict(txn, k)
    {
      var todo := txn.readSet.Keys;
      while todo != {}
        invariant todo <= txn.readSet.Keys
        invariant forall k :: k in txn.readSet.Keys - todo ==> !State().ReadConflict(txn, k)
        decreases |todo|
      {
        var key :| key in todo;
        todo := todo - {key};
        var cur := store.Get(key);
        if cur.None? {
          continue;
        }
        if txn.readSet[key].Less(cur.value.write) || key in pWrites {
          assert State().ReadConflict(txn, key);
          return true;
        }
      }
      return false;
    }

    method WritesConflict(txn: Txn, pRW: set<Key>) returns (conflict: bool)
      requires forall k :: k in pRW <==> State().PreparedReadWrites(k)
      ensures conflict <==> exists k :: k in txn.writeSet && State().PreparedReadWrites(k)
    {
      var todo := txn.writeSet.Keys;
      while todo != {}
        invariant todo <= txn.writeSet.Keys
        invariant forall k :: k in txn.writeSet.Keys - todo ==> !State().PreparedReadWrites(k)
        decreases |todo|
      {
        var key :| key in todo;
        todo := todo - {key};
        if key in pRW {
          return true;
        }
      }
      return false;
    }

    method Prepare(id: nat, txn: Txn, check: bool) returns (ok: bool)
      requires State().store.Valid()
      modifies this`prepared, this`precommitted
      ensures (State(), ok) == old(State()).Prepare(id, txn, check)
    {
      if id in prepared {
        return true;
      }
      if check {
        var pWrites := GetPreparedWrites();
        var pRW := GetPreparedReadWrites();
        var rw := ReadsConflict(txn, pWrites);
        if rw {
          Abort(id);
          return false;
        }
        var ww := WritesConflict(txn, pRW);
        if ww {
          Abort(id);
          return false;
        }
      }
      prepared := prepared[id := txn];
      return true;
    }

    /** The writes of a transaction, one key at a time in no particular order. */
    method PutAll(writes: map<Key, Value>, id: nat, time: nat)
      requires store.Value().Valid()
      modifies store
      ensures store.Value() == WriteAll(old(store.Value()), writes, id, time) && store.Value().Valid()
    {
      ghost var was := store.Value();
      var todo := writes.Keys;
      ghost var done: set<Key> := {};
      WriteNone(was, writes, id, time);
      hide WriteAll, Restrict, Store.Put, Store.Commit;
      while todo != {}
        invariant todo !! done && todo + done == writes.Keys && store.Value().Valid()
        invariant store.Value() == WriteAll(was, Restrict(writes, done), id, time)
        decreases |todo|
      {
        var key :| key in todo;
        WriteOneMore(was, writes, done, key, id, time);
        store.Put(key, writes[key], Timestamp(time, 0));
        store.Commit(key, id);
        todo, done := todo - {key}, done + {key};
      }
      RestrictAll(writes, done);
    }

    method Commit(id: nat, time: nat)
      requires State().store.Valid()
      modifies this`prepared, this`precommitted, store
      ensures State() == old(State()).Commit(id, time) && State().store.Valid()
    {
      if id in precommitted {
        PutAll(precommitted[id].writeSet, id, time);
        precommitted := precommitted - {id};
      } else if id in prepared {
        PutAll(prepared[id].writeSet, id, time);
        prepared := prepared - {id};
      }
    }

    method PreCommit(id: nat)
      modifies this`prepared, this`precommitted, store`precommits
      ensures State() == old(State()).PreCommit(id)
    {
      var txn := if id in prepared then prepared[id] else Txn(map[], map[], map[]);
      PreCommitKeys(txn.writeSet.Keys, id);
      prepared := prepared - {id};
      precommitted := precommitted[id := txn];
    }

    method PreCommitKeys(keys: set<Key>, id: nat)
      modifies store`precommits
      ensures store.Value() == PreCommitAll(old(store.Value()), keys, id)
    {
      ghost var was := store.Value();
      var todo := keys;
      ghost var done: set<Key> := {};
      assert was == PreCommitAll(was, {}, id);
      hide PreCommitAll, Store.PreCommit;
      while todo != {}
        invariant todo !! done && todo + done == keys
        invariant store.Value() == PreCommitAll(was, done, id)
        decreases |todo|
      {
        var key :| key in todo;
        PreCommitOneMore(was, done, key, id);
        store.PreCommit(key, id);
        todo, done := todo - {key}, done + {key};
      }
      assert done == keys;
    }

    method Abort(id: nat)
      modifies this`prepared, this`precommitted
      ensures State() == old(State()).Abort(id)
    {
      if id in precommitted {
        precommitted := precommitted - {id};
      } else if id in prepared {
        prepared := prepared - {id};
      } else {
        assert prepared - {id} == prepared;
      }
    }
  }

  ghost function Restrict(writes: map<Key, Value>, keys: set<Key>): map<Key, Value> {
    map k | k in writes && k in keys :: writes[k]
  }

  lemma RestrictAll(writes: map<Key, Value>, keys: set<Key>)
    requires keys == writes.Keys
    ensures Restrict(writes, keys) == writes
  {
  }

  lemma WriteNone(s: Store, writes: map<Key, Value>, id: nat, time: nat)
    ensures WriteAll(s, Restrict(writes, {}), id, time) == s
  {
    assert Restrict(writes, {}) == map[];
    assert PutAll(s, map[], time) == s.versions;
    assert ReleaseAll(s.precommits, {}, id) == s.precommits;
  }

  lemma WriteOneMore(s: Store, writes: map<Key, Value>, done: set<Key>, key: Key, id: nat, time: nat)
    requires done <= writes.Keys && key in writes && key !in done
    ensures WriteAll(s, Restrict(writes, done + {key}), id, time) ==
            WriteAll(s, Restrict(writes, done), id, time).Put(key, writes[key], Timestamp(time, 0)).Commit(key, id)
  {
    var less, more := Restrict(writes, done), Restrict(writes, done + {key});
    var a := WriteAll(s, less, id, time);
    var b := a.Put(key, writes[key], Timestamp(time, 0));
    assert less.Keys == done && more.Keys == done + {key};
    PutOneMore(s, writes, done, key, time);
    ReleaseOneMore(s.precommits, done, key, id);
    assert a.VersionsOf(key) == s.VersionsOf(key);
    InsertIsNotEmpty(s.VersionsOf(key), Version(Timestamp(time, 0), writes[key]));
    hide PutAll, ReleaseAll, Restrict, Insert;
    assert b.InStore(key);
  }

  lemma PutOneMore(s: Store, writes: map<Key, Value>, done: set<Key>, key: Key, time: nat)
    requires done <= writes.Keys && key in writes && key !in done
    ensures PutAll(s, Restrict(writes, done + {key}), time) ==
            PutAll(s, Restrict(writes, done), time)[key :=
              Insert(s.VersionsOf(key), Version(Timestamp(time, 0), writes[key]))]
  {
    hide Insert;
  }

  lemma ReleaseOneMore(precommits: map<Key, seq<nat>>, done: set<Key>, key: Key, id: nat)
    requires key !in done
    ensures
      var r := ReleaseAll(precommits, done, id);
      && (key in r <==> key in precommits)
      && ReleaseAll(precommits, done + {key}, id) == if key in r then r[key := Without(r[key], id)] else r
  {
    hide Without;
  }

  lemma InsertIsNotEmpty(vs: seq<Version>, v: Version)
    ensures Insert(vs, v) != []
  {
  }

  lemma PreCommitOneMore(s: Store, done: set<Key>, key: Key, id: nat)
    requires key !in done
    ensures PreCommitAll(s, done + {key}, id) == PreCommitAll(s, done, id).PreCommit(key, id)
  {
    var a := PreCommitAll(s, done, id).PreCommit(key, id);
    var b := PreCommitAll(s, done + {key}, id);
    assert a.precommits == b.precommits;
  }
}
