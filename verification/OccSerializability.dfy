/** Runs of the optimistic store against a plain map on which the committed transactions are
    executed one after another, in commit order. */
module OccSerializability {
  import opened ReplicaLog
  import opened VersionStore
  import opened OccSpec

  type Database = map<Key, Value>

  /** The reference: transactions one at a time on a plain map. */
  ghost function Replay(db: Database, commits: seq<Commitment>): Database {
    if commits == [] then db
    else Replay(db, commits[..|commits| - 1]) + commits[|commits| - 1].txn.writeSet
  }

  /** The latest versions of the store as a plain map. */
  ghost function Latest(s: Store): Database {
    map k | k in s.versions && s.Get(k).Some? :: s.Get(k).value.value
  }

  /** The store as it reads at time `t`. */
  ghost function Snapshot(s: Store, t: Timestamp): Database {
    map k | k in s.versions && s.GetAt(k, t).Some? :: s.GetAt(k, t).value.value
  }

  /** The commitments made at or before `t`, in commit order. */
  ghost function Until(commits: seq<Commitment>, t: Timestamp): seq<Commitment> {
    if commits == [] then []
    else
      var c := commits[|commits| - 1];
      Until(commits[..|commits| - 1], t) + if Timestamp(c.time, 0).AtMost(t) then [c] else []
  }

  /** Transaction `txn` reads from `db` exactly what it was given for its reads. */
  ghost predicate ReadsFrom(txn: Txn, db: Database) {
    forall k :: k in txn.readSet ==> k in txn.got && k in db && db[k] == txn.got[k].Content()
  }

  /** Every committed transaction, run alone after those before it, reads what it read. */
  ghost predicate Serial(db: Database, commits: seq<Commitment>) {
    forall i :: 0 <= i < |commits| ==> ReadsFrom(commits[i].txn, Replay(db, commits[..i]))
  }

  // ----- The invariant -----

  /** No read is older than the latest version. */
  ghost predicate Current(s: Store, txn: Txn) {
    forall k :: k in txn.readSet ==> s.Get(k).Some? && s.Get(k).value.write.AtMost(txn.readSet[k])
  }

  /** The keys served exist, and so do the versions. */
  ghost predicate ServedOk(s: Store, served: set<(nat, Key, Served)>) {
    forall id, k, r :: (id, k, r) in served ==> s.InStore(k) && (r.Stored? ==> r.version in s.VersionsOf(k))
  }

  /** What holds in every allowed run. */
  ghost predicate Base(init: Store, s: System) {
    && s.occ.store.Valid()
    && ServedOk(s.occ.store, s.served)
    && Latest(s.occ.store) == Replay(Latest(init), s.commits)
    && (forall t :: Snapshot(s.occ.store, t) == Replay(Snapshot(init, t), Until(s.commits, t)))
  }

  /** If the event is a commit, what its transaction read is what it would read now. */
  ghost predicate CommitsCurrent(s: System, e: Event) {
    e.Commit? && s.occ.Ready(e.id).Some? ==> ReadsFrom(s.occ.Ready(e.id).value, Latest(s.occ.store))
  }

  ghost predicate CurrentRun(s: System, events: seq<Event>)
    decreases |events|
  {
    events == [] || (CommitsCurrent(s, events[0]) && CurrentRun(Apply(s, events[0]), events[1..]))
  }

  // ----- Get -----

  lemma GetKeepsBase(init: Store, s: System, id: nat, key: Key)
    requires Base(init, s)
    ensures Base(init, Apply(s, Get(id, key)))
  {
    hide Latest, Snapshot, Replay, Until, WrittenBy;
  }

  // ----- Validation -----

  /** The latest version has the greatest timestamp. */
  lemma GetIsGreatest(s: Store, key: Key, v: Version)
    requires s.Valid() && v in s.VersionsOf(key)
    ensures s.Get(key).Some? && (v == s.Get(key).value || v.write.Less(s.Get(key).value.write))
  {
    var vs := s.versions[key];
    var i :| 0 <= i < |vs| && vs[i] == v;
  }

  /** Validation passes exactly the transactions whose reads are not older than the latest
      versions and which are unrelated to every prepared one. */
  lemma ValidationIsExact(occ: Occ, txn: Txn)
    requires forall k :: k in txn.readSet ==> occ.store.InStore(k)
    ensures !occ.Conflict(txn) <==>
      Current(occ.store, txn) && forall id :: id in occ.prepared ==> Unrelated(occ.prepared[id], txn)
  {
    if !occ.Conflict(txn) {
      forall k | k in txn.readSet
        ensures occ.store.Get(k).value.write.AtMost(txn.readSet[k]) && !occ.PreparedWrites(k)
      {
        assert !occ.ReadConflict(txn, k);
      }
      forall id, k | id in occ.prepared && k in occ.prepared[id].writeSet
        ensures k !in txn.readSet && k !in txn.writeSet
      {
        assert occ.PreparedWrites(k) && occ.PreparedReadWrites(k);
      }
      forall id, k | id in occ.prepared && k in txn.writeSet
        ensures k !in occ.prepared[id].readSet && k !in occ.prepared[id].writeSet
      {
        assert !occ.PreparedReadWrites(k);
      }
    }
  }

  /** A stored version that is not older than the latest one is the latest one. */
  lemma CurrentIsLatest(s: Store, key: Key, v: Version)
    requires s.Valid() && v in s.VersionsOf(key) && s.Get(key).Some? && s.Get(key).value.write.AtMost(v.write)
    ensures s.Get(key).value == v
  {
    GetIsGreatest(s, key, v);
  }

  /** The answer to a read of a pre-committed write carries timestamp 0.  So once the writer has
      committed, its reader is refused. */
  lemma LateReaderRefused(s: System, d: nat, time: nat, k: Key, txn: Txn)
    requires s.occ.store.Valid() && s.occ.store.InStore(k) && Allowed(s, Commit(d, time))
    requires s.occ.Ready(d).Some? && k in s.occ.Ready(d).value.writeSet
    requires k in txn.readSet && txn.readSet[k] == Timestamp(0, 0)
    ensures Apply(s, Commit(d, time)).occ.Conflict(txn)
  {
    var writes := s.occ.Ready(d).value.writeSet;
    var after := Apply(s, Commit(d, time)).occ;
    WrittenKey(s.occ.store, writes, d, time, k);
    assert after.store == WriteAll(s.occ.store, writes, d, time);
    hide WriteAll;
    assert after.ReadConflict(txn, k);
  }

  lemma PreCommitVersions(s: Store, keys: set<Key>, id: nat)
    ensures PreCommitAll(s, keys, id).versions == s.versions
  {
  }

  lemma PreCommitKeepsBase(init: Store, s: System, id: nat)
    requires Base(init, s)
    ensures Base(init, Apply(s, PreCommit(id)))
  {
    hide Latest, Snapshot, Replay, Until, ServedOk, PreCommitAll;
    var txn := if id in s.occ.prepared then s.occ.prepared[id] else Txn(map[], map[], map[]);
    PreCommitVersions(s.occ.store, txn.writeSet.Keys, id);
    SameVersions(s.occ.store, s.occ.PreCommit(id).store, s.served);
  }

  /** What a client can see depends on the versions only. */
  lemma SameVersions(s: Store, r: Store, served: set<(nat, Key, Served)>)
    requires r.versions == s.versions
    ensures Latest(r) == Latest(s) && (forall t :: Snapshot(r, t) == Snapshot(s, t))
    ensures s.Valid() ==> r.Valid()
    ensures ServedOk(s, served) ==> ServedOk(r, served)
  {
  }

  // ----- Commit -----

  /** Inserting above the last version appends. */
  lemma InsertAbove(vs: seq<Version>, v: Version)
    requires vs == [] || vs[|vs| - 1].write.Less(v.write)
    ensures Insert(vs, v) == vs + [v]
  {
  }

  lemma AtTimeSnoc(vs: seq<Version>, v: Version, t: Timestamp)
    ensures AtTime(vs + [v], t) == if v.write.AtMost(t) then Some(v) else AtTime(vs, t)
  {
    assert (vs + [v])[..|vs|] == vs;
  }

  /** What a commit does to a key it writes. */
  lemma WrittenKey(s: Store, writes: map<Key, Value>, id: nat, time: nat, k: Key)
    requires s.Valid() && Exceeds(s, writes, time) && k in writes
    ensures
      var r := WriteAll(s, writes, id, time);
      var v := Version(Timestamp(time, 0), writes[k]);
      && k in r.versions && r.versions[k] == s.VersionsOf(k) + [v] && Sorted(r.versions[k])
      && r.Get(k) == Some(v)
  {
    var v := Version(Timestamp(time, 0), writes[k]);
    InsertAbove(s.VersionsOf(k), v);
    InsertSorted(s.VersionsOf(k), v);
  }

  lemma WrittenKeyAt(s: Store, writes: map<Key, Value>, id: nat, time: nat, k: Key, t: Timestamp)
    requires s.Valid() && Exceeds(s, writes, time) && k in writes
    ensures
      var r := WriteAll(s, writes, id, time);
      var v := Version(Timestamp(time, 0), writes[k]);
      k in r.versions && r.GetAt(k, t) == if v.write.AtMost(t) then Some(v) else s.GetAt(k, t)
  {
    var v := Version(Timestamp(time, 0), writes[k]);
    WrittenKey(s, writes, id, time, k);
    AtTimeSnoc(s.VersionsOf(k), v, t);
  }

  lemma OtherKey(s: Store, writes: map<Key, Value>, id: nat, time: nat, k: Key)
    requires k !in writes
    ensures
      var r := WriteAll(s, writes, id, time);
      && (k in r.versions <==> k in s.versions)
      && r.VersionsOf(k) == s.VersionsOf(k) && r.Get(k) == s.Get(k)
      && forall t :: r.GetAt(k, t) == s.GetAt(k, t)
  {
  }

  /** What a commit does to the store: it stays valid and keeps every version. */
  lemma CommitKeepsVersions(s: Store, writes: map<Key, Value>, id: nat, time: nat)
    requires s.Valid() && Exceeds(s, writes, time)
    ensures WriteAll(s, writes, id, time).Valid()
    ensures forall k, v :: v in s.VersionsOf(k) ==> v in WriteAll(s, writes, id, time).VersionsOf(k)
    ensures forall k :: k !in writes ==> WriteAll(s, writes, id, time).Get(k) == s.Get(k)
  {
    var r := WriteAll(s, writes, id, time);
    forall k
      ensures k in r.versions ==> Sorted(r.versions[k])
      ensures forall v :: v in s.VersionsOf(k) ==> v in r.VersionsOf(k)
      ensures k !in writes ==> r.Get(k) == s.Get(k)
    {
      if k in writes {
        WrittenKey(s, writes, id, time, k);
      } else {
        OtherKey(s, writes, id, time, k);
      }
    }
  }

  lemma CommitLatest(s: Store, writes: map<Key, Value>, id: nat, time: nat)
    requires s.Valid() && Exceeds(s, writes, time)
    ensures Latest(WriteAll(s, writes, id, time)) == Latest(s) + writes
  {
    var r := WriteAll(s, writes, id, time);
    forall k
      ensures k in Latest(r) <==> k in Latest(s) + writes
      ensures k in Latest(r) ==> Latest(r)[k] == (Latest(s) + writes)[k]
    {
      if k in writes {
        WrittenKey(s, writes, id, time, k);
      } else {
        OtherKey(s, writes, id, time, k);
      }
      hide WriteAll;
    }
  }

  lemma CommitSnapshot(s: Store, writes: map<Key, Value>, id: nat, time: nat, t: Timestamp)
    requires s.Valid() && Exceeds(s, writes, time)
    ensures Snapshot(WriteAll(s, writes, id, time), t) ==
              if Timestamp(time, 0).AtMost(t) then Snapshot(s, t) + writes else Snapshot(s, t)
  {
    hide PutAll, ReleaseAll, Exceeds;
    var r := WriteAll(s, writes, id, time);
    var want := if Timestamp(time, 0).AtMost(t) then Snapshot(s, t) + writes else Snapshot(s, t);
    forall k
      ensures k in Snapshot(r, t) <==> k in want
      ensures k in want ==> Snapshot(r, t)[k] == want[k]
    {
      if k in writes {
        WrittenKeyAt(s, writes, id, time, k, t);
      } else {
        OtherKey(s, writes, id, time, k);
      }
      hide WriteAll;
    }
  }

  lemma ReplaySnoc(db: Database, commits: seq<Commitment>, c: Commitment)
    ensures Replay(db, commits + [c]) == Replay(db, commits) + c.txn.writeSet
  {
    assert (commits + [c])[..|commits|] == commits;
  }

  lemma UntilSnoc(db: Database, commits: seq<Commitment>, c: Commitment, t: Timestamp)
    ensures Replay(db, Until(commits + [c], t)) ==
              if Timestamp(c.time, 0).AtMost(t) then Replay(db, Until(commits, t)) + c.txn.writeSet
              else Replay(db, Until(commits, t))
  {
    assert (commits + [c])[..|commits|] == commits;
    assert Until(commits, t) + [] == Until(commits, t);
    ReplaySnoc(db, Until(commits, t), c);
  }

  /** Serial histories grow by transactions that read what the history so far leaves. */
  lemma SerialGrows(db: Database, commits: seq<Commitment>, c: Commitment)
    ensures Serial(db, commits + [c]) <==> Serial(db, commits) && ReadsFrom(c.txn, Replay(db, commits))
  {
    var all := commits + [c];
    assert all[..|commits|] == commits && all[|commits|] == c;
    forall i | 0 <= i < |commits| ensures all[..i] == commits[..i] && all[i] == commits[i] {
    }
    hide ReadsFrom, Replay;
  }

  lemma CommitKeepsServed(s: Store, served: set<(nat, Key, Served)>, writes: map<Key, Value>, id: nat, time: nat)
    requires s.Valid() && Exceeds(s, writes, time) && ServedOk(s, served)
    ensures ServedOk(WriteAll(s, writes, id, time), served)
  {
    CommitKeepsVersions(s, writes, id, time);
    var r := WriteAll(s, writes, id, time);
    hide WriteAll, Exceeds;
    forall id, k, a | (id, k, a) in served ensures r.InStore(k) && (a.Stored? ==> a.version in r.VersionsOf(k)) {
      assert s.Get(k).Some? && s.Get(k).value in s.VersionsOf(k);
      assert s.Get(k).value in r.VersionsOf(k);
    }
  }

  lemma CommitKeepsBase(init: Store, s: System, id: nat, time: nat)
    requires Base(init, s) && Allowed(s, Commit(id, time))
    ensures Base(init, Apply(s, Commit(id, time)))
  {
    hide Latest, Replay, Until, Snapshot, Exceeds, ServedOk;
    if s.occ.Ready(id).Some? {
      var txn := s.occ.Ready(id).value;
      var c := Commitment(txn, time);
      var after := s.occ.Commit(id, time);
      assert after.store == WriteAll(s.occ.store, txn.writeSet, id, time);
      hide WriteAll;
      CommitKeepsVersions(s.occ.store, txn.writeSet, id, time);
      CommitKeepsServed(s.occ.store, s.served, txn.writeSet, id, time);
      CommitLatest(s.occ.store, txn.writeSet, id, time);
      ReplaySnoc(Latest(init), s.commits, c);
      forall t ensures Snapshot(after.store, t) == Replay(Snapshot(init, t), Until(s.commits + [c], t)) {
        CommitSnapshot(s.occ.store, txn.writeSet, id, time, t);
        UntilSnoc(Snapshot(init, t), s.commits, c, t);
      }
    }
  }

  // ----- Whole runs -----

  lemma ApplyKeepsBase(init: Store, s: System, e: Event)
    requires Base(init, s) && Allowed(s, e)
    ensures Base(init, Apply(s, e))
  {
    hide Latest, Replay, Until, Snapshot, ServedOk;
    match e
    case Get(id, key) => GetKeepsBase(init, s, id, key);
    case Prepare(id, txn) =>
    case Commit(id, time) => CommitKeepsBase(init, s, id, time);
    case Abort(id, _) =>
    case PreCommit(id) => PreCommitKeepsBase(init, s, id);
  }

  /** One event makes a history unserial exactly if it commits a transaction that would now
      read something else than it did. */
  lemma ApplySerial(init: Store, s: System, e: Event)
    requires Base(init, s) && Allowed(s, e)
    ensures
      var next := Apply(s, e);
      Serial(Latest(init), next.commits) <==> Serial(Latest(init), s.commits) && CommitsCurrent(s, e)
  {
    hide Latest, Replay, Until, Snapshot, ServedOk, Serial, ReadsFrom;
    if e.Commit? && s.occ.Ready(e.id).Some? {
      SerialGrows(Latest(init), s.commits, Commitment(s.occ.Ready(e.id).value, e.time));
    }
  }

  lemma {:induction false} RunSerial(init: Store, s: System, events: seq<Event>)
    requires Base(init, s) && AllowedRun(s, events)
    ensures
      var end := Run(s, events);
      && Base(init, end)
      && (Serial(Latest(init), end.commits) <==> Serial(Latest(init), s.commits) && CurrentRun(s, events))
    decreases |events|
  {
    hide Base, Allowed, Serial, CommitsCurrent, Latest, Apply;
    if events != [] {
      ApplyKeepsBase(init, s, events[0]);
      ApplySerial(init, s, events[0]);
      RunSerial(init, Apply(s, events[0]), events[1..]);
    }
  }

  lemma InitialBase(s: System)
    requires Initial(s)
    ensures Base(s.occ.store, s) && Serial(Latest(s.occ.store), s.commits)
  {
  }

  /** Which runs are serializable in commit order.  With pre-commits, reads of pre-committed
      writes and no precautions, the committed transactions, replayed one at a time in commit
      order, read what they were given exactly if each is committed while what it was given is
      what the store's latest versions say. */
  lemma SerialExactly(s: System, events: seq<Event>)
    requires Initial(s) && AllowedRun(s, events)
    ensures
      var end := Run(s, events);
      && (Serial(Latest(s.occ.store), end.commits) <==> CurrentRun(s, events))
      && Latest(end.occ.store) == Replay(Latest(s.occ.store), end.commits)
  {
    InitialBase(s);
    RunSerial(s.occ.store, s, events);
  }

  /** Time travel: at every timestamp the store reads as the replay, in commit order, of
      just the transactions committed with a timestamp not above it. */
  lemma SnapshotsAreReplays(s: System, events: seq<Event>, t: Timestamp)
    requires Initial(s) && AllowedRun(s, events)
    ensures
      var end := Run(s, events);
      Snapshot(end.occ.store, t) == Replay(Snapshot(s.occ.store, t), Until(end.commits, t))
  {
    InitialBase(s);
    RunSerial(s.occ.store, s, events);
  }

  /** Why commit timestamps must exceed the stored ones: a write becomes the latest version
      exactly when its timestamp does, or when the very same version is already there. */
  lemma WriteTakesEffect(s: Store, writes: map<Key, Value>, id: nat, time: nat, k: Key)
    requires s.Valid() && k in writes
    ensures
      var v := Version(Timestamp(time, 0), writes[k]);
      WriteAll(s, writes, id, time).Get(k) == Some(v)
      <==> s.Get(k).None? || s.Get(k).value.write.Less(v.write) || s.Get(k).value == v
  {
    var v := Version(Timestamp(time, 0), writes[k]);
    InsertLast(s.VersionsOf(k), v);
    WrittenVersions(s, writes, id, time, k);
    hide WriteAll, Insert;
  }

  lemma InsertLast(vs: seq<Version>, v: Version)
    ensures
      var r := Insert(vs, v);
      r != [] && (r[|r| - 1] == v <==> vs == [] || vs[|vs| - 1].write.Less(v.write) || vs[|vs| - 1] == v)
  {
  }

  lemma WrittenVersions(s: Store, writes: map<Key, Value>, id: nat, time: nat, k: Key)
    requires k in writes
    ensures WriteAll(s, writes, id, time).VersionsOf(k) ==
              Insert(s.VersionsOf(k), Version(Timestamp(time, 0), writes[k]))
  {
    hide Insert;
  }

  // ----- Commits at time 0 -----

  lemma {:induction false} InsertHeld(vs: seq<Version>, v: Version)
    requires Sorted(vs) && Holds(vs, v.write)
    ensures Insert(vs, v) == vs
  {
    var last, init := vs[|vs| - 1], vs[..|vs| - 1];
    assert vs == init + [last];
    var x :| x in vs && x.write == v.write;
    if last.write != v.write {
      assert x in init && Holds(init, v.write);
      InsertHeld(init, v);
    }
  }

  ghost predicate AtZero(e: Event) {
    e.Commit? ==> e.time == 0
  }

  lemma ZeroKeeps(s: System, e: Event, k: Key)
    requires s.occ.store.Valid() && AtZero(e) && Holds(s.occ.store.VersionsOf(k), Timestamp(0, 0))
    ensures Apply(s, e).occ.store.Valid() && Apply(s, e).occ.store.VersionsOf(k) == s.occ.store.VersionsOf(k)
  {
    if e.Commit? && s.occ.Ready(e.id).Some? {
      var writes := s.occ.Ready(e.id).value.writeSet;
      var r := WriteAll(s.occ.store, writes, e.id, 0);
      assert Apply(s, e).occ.store == r;
      forall j | j in r.versions ensures Sorted(r.versions[j]) {
        if j in writes {
          InsertSorted(s.occ.store.VersionsOf(j), Version(Timestamp(0, 0), writes[j]));
        }
      }
      if k in writes {
        InsertHeld(s.occ.store.VersionsOf(k), Version(Timestamp(0, 0), writes[k]));
      }
    }
  }

  /** What it means that the parallel protocol commits everything at time 0: a key that has a
      version of time 0, as every key does that is loaded at the start, never changes again. */
  lemma {:induction false} LoadedKeysStay(s: System, events: seq<Event>, k: Key)
    requires s.occ.store.Valid() && Holds(s.occ.store.VersionsOf(k), Timestamp(0, 0))
    requires forall i :: 0 <= i < |events| ==> AtZero(events[i])
    ensures Run(s, events).occ.store.VersionsOf(k) == s.occ.store.VersionsOf(k)
    decreases |events|
  {
    if events != [] {
      ZeroKeeps(s, events[0], k);
      hide Apply;
      LoadedKeysStay(Apply(s, events[0]), events[1..], k);
    }
  }

  // ----- Pre-commits that are repeated -----

  /** A pre-commit that is repeated, as it is when a coordinator repeats its notice, replaces
      the transaction by an empty one: its commit then writes nothing at all. */
  lemma SecondPreCommitLosesWrites(occ: Occ, id: nat, time: nat)
    requires id in occ.prepared
    ensures occ.PreCommit(id).PreCommit(id).Commit(id, time).store.versions == occ.store.versions
    ensures occ.PreCommit(id).Commit(id, time).store.versions == PutAll(occ.store, occ.prepared[id].writeSet, time)
  {
    var once := occ.PreCommit(id);
    var twice := once.PreCommit(id);
    assert id !in once.prepared && twice.precommitted[id] == Txn(map[], map[], map[]);
    assert twice.store.versions == occ.store.versions;
    assert PutAll(twice.store, map[], time) == twice.store.versions;
    assert once.store.versions == occ.store.versions;
    assert PutAll(once.store, occ.prepared[id].writeSet, time) == PutAll(occ.store, occ.prepared[id].writeSet, time);
  }
}
