/** Precautions under which reading the writes of pre-committed transactions is serializable. */
module OccGuarded {
  import opened ReplicaLog
  import opened VersionStore
  import opened OccSpec
  import opened OccSerializability

  // ----- The precautions -----

  ghost predicate WritesTo(occ: Occ, b: nat, k: Key) {
    b in occ.precommitted && k in occ.precommitted[b].writeSet
  }

  /** What was read of `k` still stands: a stored version, if no pre-committed transaction writes
      the key; the value of a pre-committed transaction, if the store still reports that one and
      it is still there to write that value. */
  ghost predicate Stands(occ: Occ, k: Key, r: Served) {
    match r
    case Stored(_) => forall b :: !WritesTo(occ, b, k)
    case Dependent(d, v) =>
      && WritesTo(occ, d, k) && occ.precommitted[d].writeSet[k] == v
      && occ.store.GetOrDependency(k) == Some((None, d))
  }

  /** The transaction has read from `d`. */
  ghost predicate DependsOn(txn: Txn, d: nat) {
    exists k :: k in txn.readSet && k in txn.got && txn.got[k].Dependent? && txn.got[k].writer == d
  }

  /** The reads of a transaction that passes validation still stand; a transaction commits after
      the related ones that were pre-committed when it was prepared; a pre-committed transaction
      is aborted after those that read from it; and what is pre-committed is prepared, once. */
  ghost predicate Guarded(s: System, e: Event) {
    match e
    case Get(_, _) => true
    case Prepare(id, txn) =>
      && id !in s.occ.precommitted
      && (id !in s.occ.prepared && !s.occ.Conflict(txn) ==>
            forall k :: k in txn.readSet && k in txn.got ==> Stands(s.occ, k, txn.got[k]))
    case Commit(id, _) => forall b :: (id, b) !in s.waits
    case Abort(id, _) =>
      id in s.occ.precommitted ==>
        forall t :: t != id && s.occ.Ready(t).Some? ==> !DependsOn(s.occ.Ready(t).value, id)
    case PreCommit(id) => id in s.occ.prepared && id !in s.occ.precommitted
  }

  ghost predicate GuardedRun(s: System, events: seq<Event>)
    decreases |events|
  {
    events == [] || (Guarded(s, events[0]) && GuardedRun(Apply(s, events[0]), events[1..]))
  }

  // ----- What they keep -----

  /** From the end, `b` is met before `d`. */
  ghost predicate Met(list: seq<nat>, b: nat, d: nat) {
    list != [] && (list[|list| - 1] == b || (list[|list| - 1] != d && Met(list[..|list| - 1], b, d)))
  }

  ghost function ListOf(s: Store, k: Key): seq<nat> {
    if k in s.precommits then s.precommits[k] else []
  }

  ghost predicate WaitsOk(occ: Occ, waits: set<(nat, nat)>) {
    && occ.prepared.Keys !! occ.precommitted.Keys
    && (forall t, b :: (t, b) in waits ==> occ.Ready(t).Some? && b in occ.precommitted && t != b)
  }

  /** Of two related transactions one comes after the other. */
  ghost predicate Ordered(occ: Occ, waits: set<(nat, nat)>) {
    forall t: nat, u: nat :: t != u && occ.Ready(t).Some? && occ.Ready(u).Some? ==>
      Unrelated(occ.Ready(t).value, occ.Ready(u).value) || (t, u) in waits || (u, t) in waits
  }

  /** Nothing that `t` comes after writes the key. */
  ghost predicate NoneBefore(occ: Occ, waits: set<(nat, nat)>, t: nat, k: Key) {
    forall b :: (t, b) in waits ==> !WritesTo(occ, b, k)
  }

  /** When `t` commits, the latest version of `k` will have the value it was given: it has it now
      and nothing before `t` writes the key, or the last before `t` to write the key brings it. */
  ghost predicate Sound(occ: Occ, waits: set<(nat, nat)>, t: nat, k: Key, r: Served) {
    || (NoneBefore(occ, waits, t, k) && occ.store.Get(k).Some? && occ.store.Get(k).value.value == r.Content())
    || (&& r.Dependent? && (t, r.writer) in waits
        && WritesTo(occ, r.writer, k) && occ.precommitted[r.writer].writeSet[k] == r.value
        && forall b :: (t, b) in waits && b != r.writer && WritesTo(occ, b, k) ==> (r.writer, b) in waits)
  }

  ghost predicate AllSound(occ: Occ, waits: set<(nat, nat)>) {
    forall t, k :: occ.Ready(t).Some? && k in occ.Ready(t).value.readSet ==>
      k in occ.Ready(t).value.got && Sound(occ, waits, t, k, occ.Ready(t).value.got[k])
  }

  /** The lists of the store have every pre-committed writer, in their order. */
  ghost predicate ListsOk(occ: Occ, waits: set<(nat, nat)>) {
    && (forall b: nat, k :: WritesTo(occ, b, k) ==> b in ListOf(occ.store, k))
    && (forall b: nat, d: nat, k :: (b, d) in waits && WritesTo(occ, b, k) && WritesTo(occ, d, k) ==>
          Met(ListOf(occ.store, k), b, d))
  }

  ghost predicate LiveOk(s: System) {
    WaitsOk(s.occ, s.waits) && Ordered(s.occ, s.waits) && AllSound(s.occ, s.waits) && ListsOk(s.occ, s.waits)
  }

  // ----- Prepare -----

  lemma ForgetNobody(occ: Occ, waits: set<(nat, nat)>, id: nat)
    requires WaitsOk(occ, waits) && occ.Ready(id).None?
    ensures Forget(waits, id) == waits
  {
  }

  /** A new transaction, with those it comes after. */
  ghost predicate Enters(occ: Occ, waits: set<(nat, nat)>, id: nat, txn: Txn, occ': Occ, waits': set<(nat, nat)>) {
    && occ.Ready(id).None?
    && occ' == occ.(prepared := occ.prepared[id := txn])
    && waits' == waits + After(occ, id, txn)
  }

  lemma EntersOrdered(occ: Occ, waits: set<(nat, nat)>, id: nat, txn: Txn, occ': Occ, waits': set<(nat, nat)>)
    requires WaitsOk(occ, waits) && Ordered(occ, waits) && Enters(occ, waits, id, txn, occ', waits')
    requires forall u :: u in occ.prepared ==> Unrelated(occ.prepared[u], txn)
    ensures WaitsOk(occ', waits') && Ordered(occ', waits')
  {
    hide Unrelated;
    forall u | u in occ.prepared ensures Unrelated(txn, occ.prepared[u]) {
      UnrelatedBoth(occ.prepared[u], txn);
    }
    forall u | u in occ.precommitted ensures Unrelated(occ.precommitted[u], txn) || (id, u) in waits' {
      UnrelatedBoth(txn, occ.precommitted[u]);
    }
    assert WaitsOk(occ', waits');
    forall t: nat, u: nat | t != u && occ'.Ready(t).Some? && occ'.Ready(u).Some?
      ensures Unrelated(occ'.Ready(t).value, occ'.Ready(u).value) || (t, u) in waits' || (u, t) in waits'
    {
      assert t != id ==> occ'.Ready(t) == occ.Ready(t);
      assert u != id ==> occ'.Ready(u) == occ.Ready(u);
    }
  }

  lemma UnrelatedBoth(a: Txn, b: Txn)
    ensures Unrelated(a, b) <==> Unrelated(b, a)
  {
  }

  /** The one that the store reports comes after every other that writes the key. */
  lemma ReportedIsLast(occ: Occ, waits: set<(nat, nat)>, k: Key, d: nat, b: nat)
    requires WaitsOk(occ, waits) && Ordered(occ, waits) && ListsOk(occ, waits)
    requires occ.store.GetOrDependency(k) == Some((None, d)) && WritesTo(occ, d, k) && WritesTo(occ, b, k) && b != d
    ensures (d, b) in waits
  {
    assert occ.Ready(b) == Some(occ.precommitted[b]) && occ.Ready(d) == Some(occ.precommitted[d]);
    var list := ListOf(occ.store, k);
    assert list[|list| - 1] == d;
    assert !Met(list, b, d);
    assert !Unrelated(occ.precommitted[b], occ.precommitted[d]);
  }

  lemma EntersSoundly(occ: Occ, waits: set<(nat, nat)>, id: nat, txn: Txn, occ': Occ, waits': set<(nat, nat)>, k: Key)
    requires WaitsOk(occ, waits) && Ordered(occ, waits) && ListsOk(occ, waits)
    requires Enters(occ, waits, id, txn, occ', waits')
    requires k in txn.readSet && k in txn.got && Stands(occ, k, txn.got[k])
    requires txn.got[k].Stored? ==> occ.store.Get(k) == Some(txn.got[k].version)
    ensures Sound(occ', waits', id, k, txn.got[k])
  {
    var r := txn.got[k];
    if r.Dependent? {
      var d := r.writer;
      assert !Unrelated(txn, occ.precommitted[d]);
      assert (id, d) in waits';
      forall b | (id, b) in waits' && b != d && WritesTo(occ', b, k) ensures (d, b) in waits' {
        assert WritesTo(occ, b, k);
        ReportedIsLast(occ, waits, k, d, b);
      }
      hide Unrelated;
    }
  }

  /** Other transactions do not notice. */
  lemma OthersEnter(occ: Occ, waits: set<(nat, nat)>, id: nat, txn: Txn, occ': Occ, waits': set<(nat, nat)>, t: nat,
                    k: Key, r: Served)
    requires Enters(occ, waits, id, txn, occ', waits') && t != id && Sound(occ, waits, t, k, r)
    ensures Sound(occ', waits', t, k, r)
  {
    forall b ensures (t, b) in waits' <==> (t, b) in waits {
    }
    forall b ensures WritesTo(occ', b, k) <==> WritesTo(occ, b, k) {
    }
  }

  lemma EntersOk(occ: Occ, waits: set<(nat, nat)>, id: nat, txn: Txn, occ': Occ, waits': set<(nat, nat)>)
    requires WaitsOk(occ, waits) && Ordered(occ, waits) && AllSound(occ, waits) && ListsOk(occ, waits)
    requires Enters(occ, waits, id, txn, occ', waits')
    requires forall k :: k in txn.readSet ==> k in txn.got && Stands(occ, k, txn.got[k])
    requires forall k :: k in txn.readSet && txn.got[k].Stored? ==> occ.store.Get(k) == Some(txn.got[k].version)
    ensures AllSound(occ', waits') && ListsOk(occ', waits')
  {
    hide Sound, Stands, Met, Unrelated;
    forall t, k | occ'.Ready(t).Some? && k in occ'.Ready(t).value.readSet
      ensures k in occ'.Ready(t).value.got && Sound(occ', waits', t, k, occ'.Ready(t).value.got[k])
    {
      if t == id {
        EntersSoundly(occ, waits, id, txn, occ', waits', k);
      } else {
        assert occ'.Ready(t) == occ.Ready(t);
        OthersEnter(occ, waits, id, txn, occ', waits', t, k, occ.Ready(t).value.got[k]);
      }
    }
    assert ListsOk(occ', waits');
  }

  lemma PrepareKeepsLive(s: System, id: nat, txn: Txn)
    requires s.occ.store.Valid() && ServedOk(s.occ.store, s.served) && LiveOk(s)
    requires Allowed(s, Prepare(id, txn)) && Guarded(s, Prepare(id, txn))
    ensures LiveOk(Apply(s, Prepare(id, txn)))
  {
    var next := Apply(s, Prepare(id, txn));
    assert forall k :: k in txn.readSet ==> (id, k, txn.got[k]) in s.served;
    hide WaitsOk, Ordered, AllSound, ListsOk, Stands, Unrelated, Forget, After;
    if id in s.occ.prepared {
      assert next.occ == s.occ && next.waits == s.waits;
    } else {
      ForgetNobody(s.occ, s.waits, id);
      if s.occ.Conflict(txn) {
        assert s.occ.prepared - {id} == s.occ.prepared;
        assert next.occ == s.occ && next.waits == s.waits;
      } else {
        ValidationIsExact(s.occ, txn);
        assert Enters(s.occ, s.waits, id, txn, next.occ, next.waits);
        forall k | k in txn.readSet && txn.got[k].Stored? ensures s.occ.store.Get(k) == Some(txn.got[k].version) {
          assert (id, k, txn.got[k]) in s.served;
          CurrentIsLatest(s.occ.store, k, txn.got[k].version);
        }
        hide Apply, Enters, Sorted;
        EntersOrdered(s.occ, s.waits, id, txn, next.occ, next.waits);
        EntersOk(s.occ, s.waits, id, txn, next.occ, next.waits);
      }
    }
  }

  // ----- PreCommit -----

  lemma MetMore(list: seq<nat>, x: nat, b: nat, d: nat)
    requires x != d && (x == b || Met(list, b, d))
    ensures Met(list + [x], b, d)
  {
    assert (list + [x])[..|list|] == list;
  }

  lemma PreCommitList(s: Store, keys: set<Key>, id: nat, k: Key)
    ensures ListOf(PreCommitAll(s, keys, id), k) == if k in keys then ListOf(s, k) + [id] else ListOf(s, k)
  {
  }

  lemma PreCommitLists(occ: Occ, waits: set<(nat, nat)>, id: nat)
    requires WaitsOk(occ, waits) && ListsOk(occ, waits) && id in occ.prepared && id !in occ.precommitted
    ensures ListsOk(occ.PreCommit(id), waits)
  {
    var after := occ.PreCommit(id);
    var keys := occ.prepared[id].writeSet.Keys;
    forall b: nat, k | WritesTo(after, b, k) ensures b in ListOf(after.store, k) {
      PreCommitList(occ.store, keys, id, k);
      assert b != id ==> WritesTo(occ, b, k);
    }
    forall b: nat, d: nat, k | (b, d) in waits && WritesTo(after, b, k) && WritesTo(after, d, k)
      ensures Met(ListOf(after.store, k), b, d)
    {
      PreCommitList(occ.store, keys, id, k);
      assert d != id && WritesTo(occ, d, k);
      if k in keys {
        MetMore(ListOf(occ.store, k), id, b, d);
      }
    }
  }

  lemma PreCommitSound(occ: Occ, waits: set<(nat, nat)>, id: nat, t: nat, k: Key, r: Served)
    requires WaitsOk(occ, waits) && id in occ.prepared && id !in occ.precommitted && Sound(occ, waits, t, k, r)
    ensures Sound(occ.PreCommit(id), waits, t, k, r)
  {
    var after := occ.PreCommit(id);
    assert after.store.Get(k) == occ.store.Get(k);
    forall b | (t, b) in waits ensures b != id && (WritesTo(after, b, k) <==> WritesTo(occ, b, k)) {
    }
  }

  lemma PreCommitKeepsLive(s: System, id: nat)
    requires LiveOk(s) && Guarded(s, PreCommit(id))
    ensures LiveOk(Apply(s, PreCommit(id)))
  {
    var after := s.occ.PreCommit(id);
    assert forall t :: after.Ready(t) == s.occ.Ready(t);
    PreCommitLists(s.occ, s.waits, id);
    hide ListsOk, Sound, Unrelated, PreCommitAll;
    forall t, k | after.Ready(t).Some? && k in after.Ready(t).value.readSet
      ensures k in after.Ready(t).value.got && Sound(after, s.waits, t, k, after.Ready(t).value.got[k])
    {
      PreCommitSound(s.occ, s.waits, id, t, k, s.occ.Ready(t).value.got[k]);
    }
  }

  // ----- Commit and Abort -----

  /** Transaction `id` is gone. */
  ghost predicate Leaves(occ: Occ, id: nat, occ': Occ) {
    occ'.prepared == occ.prepared - {id} && occ'.precommitted == occ.precommitted - {id}
  }

  lemma LeavesOrdered(occ: Occ, waits: set<(nat, nat)>, id: nat, occ': Occ)
    requires WaitsOk(occ, waits) && Ordered(occ, waits) && Leaves(occ, id, occ')
    ensures WaitsOk(occ', Forget(waits, id)) && Ordered(occ', Forget(waits, id))
  {
    hide Unrelated;
    assert forall t: nat :: t != id ==> occ'.Ready(t) == occ.Ready(t);
    assert occ'.Ready(id).None?;
  }

  lemma {:induction false} WithoutLast(list: seq<nat>, y: nat, x: nat)
    ensures Without(list + [y], x) == Without(list, x) + if y == x then [] else [y]
    decreases |list|
  {
    if list == [] {
      assert list + [y] == [y] && [y][1..] == [];
    } else {
      assert (list + [y])[1..] == list[1..] + [y];
      WithoutLast(list[1..], y, x);
    }
  }

  lemma {:induction false} MetWithout(list: seq<nat>, x: nat, b: nat, d: nat)
    requires Met(list, b, d) && x != b && x != d
    ensures Met(Without(list, x), b, d)
    decreases |list|
  {
    var init, last := list[..|list| - 1], list[|list| - 1];
    assert list == init + [last];
    WithoutLast(init, last, x);
    if last != b {
      MetWithout(init, x, b, d);
    }
    var rest := Without(init, x);
    if last != x {
      assert (rest + [last])[..|rest|] == rest;
    } else {
      assert rest + [] == rest;
    }
  }

  lemma {:induction false} StillListed(list: seq<nat>, x: nat, b: nat)
    requires b in list && b != x
    ensures b in Without(list, x)
  {
    if list[0] != b {
      StillListed(list[1..], x, b);
    }
  }

  /** The lists lose nobody but `id`. */
  ghost predicate Thinned(s: Store, id: nat, r: Store) {
    forall k :: ListOf(r, k) == ListOf(s, k) || ListOf(r, k) == Without(ListOf(s, k), id)
  }

  lemma LeavesLists(occ: Occ, waits: set<(nat, nat)>, id: nat, occ': Occ)
    requires ListsOk(occ, waits) && Leaves(occ, id, occ') && Thinned(occ.store, id, occ'.store)
    ensures ListsOk(occ', Forget(waits, id))
  {
    forall b: nat, k | WritesTo(occ', b, k) ensures b in ListOf(occ'.store, k) {
      assert b != id && WritesTo(occ, b, k);
      StillListed(ListOf(occ.store, k), id, b);
    }
    forall b: nat, d: nat, k | (b, d) in Forget(waits, id) && WritesTo(occ', b, k) && WritesTo(occ', d, k)
      ensures Met(ListOf(occ'.store, k), b, d)
    {
      assert WritesTo(occ, b, k) && WritesTo(occ, d, k);
      MetWithout(ListOf(occ.store, k), id, b, d);
    }
  }

  /** The first transaction to commit is not read from by mistake. */
  lemma CommitSound(occ: Occ, waits: set<(nat, nat)>, id: nat, occ': Occ, u: nat, k: Key, r: Served, txn: Txn)
    requires WaitsOk(occ, waits) && Leaves(occ, id, occ') && u != id && Sound(occ, waits, u, k, r)
    requires occ.Ready(id) == Some(txn) && forall b :: (id, b) !in waits
    requires k in txn.writeSet ==> (u, id) in waits
    requires if k in txn.writeSet then occ'.store.Get(k).Some? && occ'.store.Get(k).value.value == txn.writeSet[k]
             else occ'.store.Get(k) == occ.store.Get(k)
    ensures Sound(occ', Forget(waits, id), u, k, r)
  {
    var waits' := Forget(waits, id);
    forall b ensures (u, b) in waits' <==> (u, b) in waits && b != id {
    }
    forall b ensures WritesTo(occ', b, k) <==> WritesTo(occ, b, k) && b != id {
    }
    if k in txn.writeSet {
      assert id in occ.precommitted && WritesTo(occ, id, k);
      assert r.Dependent?;
      if r.writer == id {
        assert NoneBefore(occ', waits', u, k);
      }
    }
  }

  lemma CommitLeaves(occ: Occ, id: nat, time: nat)
    requires occ.prepared.Keys !! occ.precommitted.Keys && occ.Ready(id).Some?
    ensures
      var after := occ.Commit(id, time);
      && Leaves(occ, id, after) && Thinned(occ.store, id, after.store)
      && after.store == WriteAll(occ.store, occ.Ready(id).value.writeSet, id, time)
  {
    assert id !in occ.prepared ==> occ.prepared - {id} == occ.prepared;
    assert id !in occ.precommitted ==> occ.precommitted - {id} == occ.precommitted;
    hide PutAll;
  }

  lemma CommitGet(s: Store, writes: map<Key, Value>, id: nat, time: nat, k: Key)
    requires s.Valid() && Exceeds(s, writes, time)
    ensures
      var r := WriteAll(s, writes, id, time);
      if k in writes then r.Get(k).Some? && r.Get(k).value.value == writes[k] else r.Get(k) == s.Get(k)
  {
    hide WriteAll;
    if k in writes {
      WrittenKey(s, writes, id, time, k);
    } else {
      OtherKey(s, writes, id, time, k);
    }
  }

  lemma CommitKeepsSound(s: System, id: nat, time: nat, u: nat, k: Key)
    requires s.occ.store.Valid() && LiveOk(s) && s.occ.Ready(id).Some?
    requires Allowed(s, Commit(id, time)) && Guarded(s, Commit(id, time))
    requires u != id && s.occ.Ready(u).Some? && k in s.occ.Ready(u).value.readSet
    ensures
      var next := Apply(s, Commit(id, time));
      k in s.occ.Ready(u).value.got && Sound(next.occ, next.waits, u, k, s.occ.Ready(u).value.got[k])
  {
    var txn, other := s.occ.Ready(id).value, s.occ.Ready(u).value;
    assert k in txn.writeSet ==> !Unrelated(other, txn);
    assert k in txn.writeSet ==> (u, id) in s.waits;
    hide Unrelated, ListsOk, Sound, Forget;
    CommitLeaves(s.occ, id, time);
    CommitGet(s.occ.store, txn.writeSet, id, time, k);
    hide WriteAll, Exceeds, Ordered;
    CommitSound(s.occ, s.waits, id, s.occ.Commit(id, time), u, k, other.got[k], txn);
  }

  lemma CommitKeepsLive(s: System, id: nat, time: nat)
    requires s.occ.store.Valid() && LiveOk(s)
    requires Allowed(s, Commit(id, time)) && Guarded(s, Commit(id, time))
    ensures LiveOk(Apply(s, Commit(id, time)))
  {
    var next := Apply(s, Commit(id, time));
    hide Sound, ListsOk, Ordered, Exceeds, Forget;
    if s.occ.Ready(id).Some? {
      CommitLeaves(s.occ, id, time);
      hide WriteAll;
      LeavesOrdered(s.occ, s.waits, id, next.occ);
      LeavesLists(s.occ, s.waits, id, next.occ);
      forall u, k | next.occ.Ready(u).Some? && k in next.occ.Ready(u).value.readSet
        ensures k in next.occ.Ready(u).value.got && Sound(next.occ, next.waits, u, k, next.occ.Ready(u).value.got[k])
      {
        assert u != id && next.occ.Ready(u) == s.occ.Ready(u);
        CommitKeepsSound(s, id, time, u, k);
      }
    } else {
      ForgetNobody(s.occ, s.waits, id);
    }
  }

  /** A transaction that need not wait reads what the latest versions say. */
  lemma CommitIsCurrent(s: System, id: nat, time: nat)
    requires LiveOk(s) && Guarded(s, Commit(id, time))
    ensures CommitsCurrent(s, Commit(id, time))
  {
    if s.occ.Ready(id).Some? {
      var txn := s.occ.Ready(id).value;
      hide Ordered, ListsOk;
      forall k | k in txn.readSet
        ensures k in txn.got && k in Latest(s.occ.store) && Latest(s.occ.store)[k] == txn.got[k].Content()
      {
        assert Sound(s.occ, s.waits, id, k, txn.got[k]);
      }
    }
  }

  lemma AbortSound(occ: Occ, waits: set<(nat, nat)>, id: nat, occ': Occ, u: nat, k: Key, r: Served)
    requires WaitsOk(occ, waits) && Leaves(occ, id, occ') && occ'.store == occ.store && u != id
    requires Sound(occ, waits, u, k, r) && (id in occ.precommitted && r.Dependent? ==> r.writer != id)
    ensures Sound(occ', Forget(waits, id), u, k, r)
  {
    var waits' := Forget(waits, id);
    forall b ensures (u, b) in waits' <==> (u, b) in waits && b != id {
    }
    forall b ensures WritesTo(occ', b, k) <==> WritesTo(occ, b, k) && b != id {
    }
  }

  lemma AbortKeepsLive(s: System, id: nat, drop: bool)
    requires LiveOk(s) && Guarded(s, Abort(id, drop))
    ensures LiveOk(Apply(s, Abort(id, drop)))
  {
    var next := Apply(s, Abort(id, drop));
    assert id !in s.occ.prepared ==> s.occ.prepared - {id} == s.occ.prepared;
    assert id !in s.occ.precommitted ==> s.occ.precommitted - {id} == s.occ.precommitted;
    assert Leaves(s.occ, id, next.occ) && Thinned(s.occ.store, id, next.occ.store);
    hide Sound, ListsOk, Ordered, Forget;
    LeavesOrdered(s.occ, s.waits, id, next.occ);
    LeavesLists(s.occ, s.waits, id, next.occ);
    forall u, k | next.occ.Ready(u).Some? && k in next.occ.Ready(u).value.readSet
      ensures k in next.occ.Ready(u).value.got && Sound(next.occ, next.waits, u, k, next.occ.Ready(u).value.got[k])
    {
      assert u != id && next.occ.Ready(u) == s.occ.Ready(u);
      var r := s.occ.Ready(u).value.got[k];
      assert r.Dependent? && r.writer == id ==> DependsOn(s.occ.Ready(u).value, id);
      AbortSound(s.occ, s.waits, id, next.occ, u, k, r);
    }
  }

  // ----- Whole runs -----

  lemma ApplyKeepsLive(init: Store, s: System, e: Event)
    requires Base(init, s) && LiveOk(s) && Allowed(s, e) && Guarded(s, e)
    ensures LiveOk(Apply(s, e)) && CommitsCurrent(s, e)
  {
    hide Latest, Replay, Until, Snapshot, LiveOk, Guarded, Allowed, ReadsFrom, ServedOk;
    match e
    case Get(id, key) =>
      assert LiveOk(Apply(s, e)) by { GetKeepsLive(s, id, key); }
    case Prepare(id, txn) => PrepareKeepsLive(s, id, txn);
    case Commit(id, time) =>
      CommitKeepsLive(s, id, time);
      CommitIsCurrent(s, id, time);
    case Abort(id, drop) => AbortKeepsLive(s, id, drop);
    case PreCommit(id) => PreCommitKeepsLive(s, id);
  }

  lemma GetKeepsLive(s: System, id: nat, key: Key)
    requires LiveOk(s)
    ensures LiveOk(Apply(s, Get(id, key)))
  {
    hide WaitsOk, Ordered, AllSound, ListsOk;
  }

  lemma {:induction false} GuardedIsCurrent(init: Store, s: System, events: seq<Event>)
    requires Base(init, s) && LiveOk(s) && AllowedRun(s, events) && GuardedRun(s, events)
    ensures CurrentRun(s, events)
    decreases |events|
  {
    hide Base, Allowed, Guarded, CommitsCurrent, LiveOk, Apply;
    if events != [] {
      ApplyKeepsBase(init, s, events[0]);
      ApplyKeepsLive(init, s, events[0]);
      GuardedIsCurrent(init, Apply(s, events[0]), events[1..]);
    }
  }

  lemma InitialLive(s: System)
    requires Initial(s)
    ensures LiveOk(s)
  {
  }

  /** Serializability: in every guarded run, reads of pre-committed writes included, replaying the
      committed transactions one at a time in commit order gives each exactly the values it was
      given, and ends in the latest versions of the store. */
  lemma Serializability(s: System, events: seq<Event>)
    requires Initial(s) && AllowedRun(s, events) && GuardedRun(s, events)
    ensures
      var end := Run(s, events);
      && Serial(Latest(s.occ.store), end.commits)
      && Latest(end.occ.store) == Replay(Latest(s.occ.store), end.commits)
  {
    hide Initial, LiveOk, Base, Latest, Serial, Replay;
    InitialBase(s);
    InitialLive(s);
    GuardedIsCurrent(s.occ.store, s, events);
    SerialExactly(s, events);
  }

  // ----- Without pre-commits -----

  /** Nothing is pre-committed, and nothing was. */
  ghost predicate Plain(s: System) {
    && s.occ.precommitted == map[] && s.occ.store.precommits == map[] && s.waits == {}
    && forall id, k, r :: (id, k, r) in s.served ==> r.Stored?
  }

  lemma PlainStays(s: System, e: Event)
    requires Plain(s) && Allowed(s, e) && !e.PreCommit?
    ensures Guarded(s, e) && Plain(Apply(s, e))
  {
    hide PutAll, Unrelated;
  }

  /** Where nothing is pre-committed, the code needs no precaution. */
  lemma {:induction false} NoPreCommitIsGuarded(s: System, events: seq<Event>)
    requires Plain(s) && AllowedRun(s, events) && forall i :: 0 <= i < |events| ==> !events[i].PreCommit?
    ensures GuardedRun(s, events)
    decreases |events|
  {
    hide Plain, Guarded, Allowed, Apply;
    if events != [] {
      PlainStays(s, events[0]);
      NoPreCommitIsGuarded(Apply(s, events[0]), events[1..]);
    }
  }

  /** So without pre-commits every allowed run is serializable. */
  lemma PlainSerializability(s: System, events: seq<Event>)
    requires Initial(s) && AllowedRun(s, events) && forall i :: 0 <= i < |events| ==> !events[i].PreCommit?
    ensures
      var end := Run(s, events);
      && Serial(Latest(s.occ.store), end.commits)
      && Latest(end.occ.store) == Replay(Latest(s.occ.store), end.commits)
  {
    assert Plain(s);
    NoPreCommitIsGuarded(s, events);
    Serializability(s, events);
  }
}
