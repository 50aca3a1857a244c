/** The optimistic store of store/strongstore/occstore.cc: the operations as functions on
    the store's state, and the runs they are used in. */
module OccSpec {
  import opened ReplicaLog
  import opened VersionStore

  /** What HandleRead (replication/lr/replica.cc) answers for one key: a stored version; or, where
      the store reports a pre-committed writer of the key, that writer's value, with timestamp 0. */
  datatype Served = Stored(version: Version) | Dependent(writer: nat, value: Value) {

    function Stamp(): Timestamp {
      if Stored? then version.write else Timestamp(0, 0)
    }

    function Content(): Value {
      if Stored? then version.value else value
    }
  }

  /** `got` is what the client was given for its reads; no code looks at it. */
  datatype Txn = Txn(readSet: map<Key, Timestamp>, writeSet: map<Key, Value>, got: map<Key, Served>)

  /** Neither writes what the other reads or writes. */
  predicate Independent(a: Txn, b: Txn) {
    forall k :: k in a.writeSet ==> k !in b.readSet && k !in b.writeSet
  }

  predicate Unrelated(a: Txn, b: Txn) {
    Independent(a, b) && Independent(b, a)
  }

  datatype Occ = Occ(store: Store, prepared: map<nat, Txn>, precommitted: map<nat, Txn>) {

    predicate PreparedWrites(k: Key) {
      exists id :: id in prepared && k in prepared[id].writeSet
    }

    predicate PreparedReadWrites(k: Key) {
      exists id :: id in prepared && (k in prepared[id].writeSet || k in prepared[id].readSet)
    }

    /** A read that validation refuses: overwritten since, or about to be.  A key that is
        not in the store passes unexamined. */
    predicate ReadConflict(txn: Txn, k: Key)
      requires k in txn.readSet
    {
      && store.Get(k).Some?
      && (txn.readSet[k].Less(store.Get(k).value.write) || PreparedWrites(k))
    }

    predicate Conflict(txn: Txn) {
      || (exists k :: k in txn.readSet && ReadConflict(txn, k))
      || (exists k :: k in txn.writeSet && PreparedReadWrites(k))
    }

    function Prepare(id: nat, txn: Txn, check: bool): (Occ, bool) {
      if id in prepared then (this, true)
      else if check && Conflict(txn) then (Abort(id), false)
      else (this.(prepared := prepared[id := txn]), true)
    }

    function Abort(id: nat): Occ {
      if id in precommitted then this.(precommitted := precommitted - {id})
      else this.(prepared := prepared - {id})
    }

    /** The transaction that a commit would write. */
    function Ready(id: nat): Option<Txn> {
      if id in precommitted then Some(precommitted[id])
      else if id in prepared then Some(prepared[id])
      else None
    }

    function Commit(id: nat, time: nat): Occ {
      if id in precommitted then
        Occ(WriteAll(store, precommitted[id].writeSet, id, time), prepared, precommitted - {id})
      else if id in prepared then
        Occ(WriteAll(store, prepared[id].writeSet, id, time), prepared - {id}, precommitted)
      else this
    }

    /** The source asserts that the transaction is prepared, but is built without assertions:
        looking up another one yields an empty transaction. */
    function PreCommit(id: nat): Occ {
      var txn := if id in prepared then prepared[id] else Txn(map[], map[], map[]);
      Occ(PreCommitAll(store, txn.writeSet.Keys, id), prepared - {id}, precommitted[id := txn])
    }
  }

  /** Every write of a transaction at once; the keys are distinct, so the order in which
      the source visits them does not matter. */
  function WriteAll(s: Store, writes: map<Key, Value>, id: nat, time: nat): Store {
    Store(PutAll(s, writes, time), ReleaseAll(s.precommits, writes.Keys, id))
  }

  function PutAll(s: Store, writes: map<Key, Value>, time: nat): map<Key, seq<Version>> {
    map k | k in s.versions.Keys + writes.Keys ::
      if k in writes then Insert(s.VersionsOf(k), Version(Timestamp(time, 0), writes[k]))
      else s.versions[k]
  }

  function ReleaseAll(precommits: map<Key, seq<nat>>, keys: set<Key>, id: nat): map<Key, seq<nat>> {
    map k | k in precommits :: if k in keys then Without(precommits[k], id) else precommits[k]
  }

  function PreCommitAll(s: Store, keys: set<Key>, id: nat): Store {
    s.(precommits := map k | k in s.precommits.Keys + keys ::
      if k in keys then (if k in s.precommits then s.precommits[k] else []) + [id]
      else s.precommits[k])
  }

  // ----- Runs -----

  /** `Get` is a read of one key by a transaction.  An aborted transaction is dropped from the
      leader's active ones, or stays there if the abort reached it by cascading. */
  datatype Event =
    | Get(id: nat, key: Key)
    | Prepare(id: nat, txn: Txn)
    | Commit(id: nat, time: nat)
    | Abort(id: nat, drop: bool)
    | PreCommit(id: nat)

  datatype Commitment = Commitment(txn: Txn, time: nat)

  /** The store, and the leader's active transactions.  The rest is history: what each
      transaction was served for each key; (t, b) for each related transaction `b` that was
      pre-committed when `t` was prepared, while both may still commit; and the transactions
      committed so far in the order of their commits. */
  datatype System = System(
    occ: Occ,
    active: map<nat, Txn>,
    served: set<(nat, Key, Served)>,
    waits: set<(nat, nat)>,
    commits: seq<Commitment>)

  /** The value of a writer that the leader looks up in its active transactions; 0 stands for no
      writer, and a value that is not set is empty. */
  function WrittenBy(active: map<nat, Txn>, writer: nat, key: Key): Value {
    if writer != 0 && writer in active && key in active[writer].writeSet then active[writer].writeSet[key] else ""
  }

  /** The answer to a read, if the key exists. */
  function Serve(s: System, key: Key): Option<Served> {
    var r := s.occ.store.GetOrDependency(key);
    if r.None? then None
    else if r.value.0.Some? then Some(Stored(r.value.0.value))
    else Some(Dependent(r.value.1, WrittenBy(s.active, r.value.1, key)))
  }

  function Forget(waits: set<(nat, nat)>, id: nat): set<(nat, nat)> {
    set p | p in waits && p.0 != id && p.1 != id
  }

  /** The pre-committed transactions that `txn` is related to, as those it comes after. */
  function After(occ: Occ, id: nat, txn: Txn): set<(nat, nat)> {
    set b | b in occ.precommitted && !Unrelated(txn, occ.precommitted[b]) :: (id, b)
  }

  function Apply(s: System, e: Event): System {
    match e
    case Get(id, key) =>
      var r := Serve(s, key);
      if r.Some? then s.(served := s.served + {(id, key, r.value)}) else s
    case Prepare(id, txn) =>
      var (occ, ok) := s.occ.Prepare(id, txn, true);
      s.(occ := occ,
         active := if ok then s.active[id := txn] else s.active,
         waits := if id in s.occ.prepared then s.waits
                  else Forget(s.waits, id) + if ok then After(s.occ, id, txn) else {})
    case Commit(id, time) =>
      var txn := s.occ.Ready(id);
      System(s.occ.Commit(id, time), s.active - {id}, s.served, Forget(s.waits, id),
             if txn.Some? then s.commits + [Commitment(txn.value, time)] else s.commits)
    case Abort(id, drop) =>
      s.(occ := s.occ.Abort(id), active := if drop then s.active - {id} else s.active,
         waits := Forget(s.waits, id))
    case PreCommit(id) => s.(occ := s.occ.PreCommit(id))
  }

  /** Transaction `id` was given what it says it read. */
  ghost predicate WasServed(s: System, id: nat, txn: Txn) {
    forall k :: k in txn.readSet ==>
      k in txn.got && (id, k, txn.got[k]) in s.served && txn.got[k].Stamp() == txn.readSet[k]
  }

  /** What clients and coordinators are held to: reads were answered by earlier Gets, and a
      commit timestamp exceeds the stored versions of the keys written. */
  ghost predicate Allowed(s: System, e: Event) {
    match e
    case Prepare(id, txn) => WasServed(s, id, txn)
    case Commit(id, time) =>
      s.occ.Ready(id).Some? ==> Exceeds(s.occ.store, s.occ.Ready(id).value.writeSet, time)
    case _ => true
  }

  ghost predicate Exceeds(s: Store, writes: map<Key, Value>, time: nat) {
    forall k :: k in writes && s.Get(k).Some? ==> s.Get(k).value.write.Less(Timestamp(time, 0))
  }

  ghost predicate Initial(s: System) {
    && s.occ.store.Valid() && s.occ.store.precommits == map[]
    && s.occ.prepared == map[] && s.occ.precommitted == map[]
    && s.active == map[] && s.served == {} && s.waits == {} && s.commits == []
  }

  function Run(s: System, events: seq<Event>): System
    decreases |events|
  {
    if events == [] then s else Run(Apply(s, events[0]), events[1..])
  }

  ghost predicate AllowedRun(s: System, events: seq<Event>)
    decreases |events|
  {
    events == [] || (Allowed(s, events[0]) && AllowedRun(Apply(s, events[0]), events[1..]))
  }
}
