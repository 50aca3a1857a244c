/** Read dependencies on pre-committed transactions: the counters a leader keeps are exact,
    and no transaction is committed before all the transactions it read from. */
module Dependencies {
  import opened CommitMessages
  import opened D2pcSystem
  import opened D2pcInvariant
  import opened LrReplicaSpec

  // ----- Counting occurrences -----

  ghost function Count(s: seq<nat>, t: nat): nat {
    if s == [] then 0 else (if s[0] == t then 1 else 0) + Count(s[1..], t)
  }

  /** The occurrences of a transaction in the out lists of the active transactions. */
  ghost function Occurrences(active: map<nat, Txn>, t: nat): nat
    decreases |active|
  {
    if active == map[] then 0
    else
      var d :| d in active;
      Count(active[d].out, t) + Occurrences(active - {d}, t)
  }

  lemma {:induction false} CountConcat(a: seq<nat>, b: seq<nat>, t: nat)
    ensures Count(a + b, t) == Count(a, t) + Count(b, t)
    decreases |a|
  {
    if a == [] {
      assert a + b == b;
    } else {
      assert (a + b)[1..] == a[1..] + b;
      CountConcat(a[1..], b, t);
    }
  }

  lemma {:induction false} CountIn(s: seq<nat>, t: nat)
    ensures Count(s, t) > 0 <==> t in s
  {
    if s != [] {
      CountIn(s[1..], t);
    }
  }

  lemma {:induction false} OccurrencesWithout(active: map<nat, Txn>, d: nat, t: nat)
    requires d in active
    ensures Occurrences(active, t) == Count(active[d].out, t) + Occurrences(active - {d}, t)
    decreases |active|
  {
    var e :| e in active && Occurrences(active, t) == Count(active[e].out, t) + Occurrences(active - {e}, t);
    if e != d {
      OccurrencesWithout(active - {e}, d, t);
      OccurrencesWithout(active - {d}, e, t);
      assert active - {e} - {d} == active - {d} - {e};
    }
  }

  /** Replacing one out list changes the sum by the difference. */
  lemma OccurrencesUpdate(active: map<nat, Txn>, d: nat, txn: Txn, t: nat)
    ensures Occurrences(active[d := txn], t) + (if d in active then Count(active[d].out, t) else 0)
            == Occurrences(active, t) + Count(txn.out, t)
  {
    OccurrencesWithout(active[d := txn], d, t);
    assert active[d := txn] - {d} == active - {d};
    if d in active {
      OccurrencesWithout(active, d, t);
    } else {
      assert active - {d} == active;
    }
  }

  lemma OccursSomewhere(active: map<nat, Txn>, d: nat, t: nat)
    requires d in active && t in active[d].out
    ensures Occurrences(active, t) > 0
  {
    OccurrencesWithout(active, d, t);
    CountIn(active[d].out, t);
  }

  lemma {:induction false} OccursWhere(active: map<nat, Txn>, t: nat)
    requires Occurrences(active, t) > 0
    ensures exists d :: d in active && t in active[d].out
    decreases |active|
  {
    var d :| d in active && Occurrences(active, t) == Count(active[d].out, t) + Occurrences(active - {d}, t);
    CountIn(active[d].out, t);
    if t !in active[d].out {
      OccursWhere(active - {d}, t);
    }
  }

  /** Occurrences depend on the out lists only. */
  lemma {:induction false} SameOutsSameSum(a: map<nat, Txn>, b: map<nat, Txn>, t: nat)
    requires a.Keys == b.Keys && forall d :: d in a ==> a[d].out == b[d].out
    ensures Occurrences(a, t) == Occurrences(b, t)
    decreases |a|
  {
    if a != map[] {
      var d :| d in a;
      OccurrencesWithout(a, d, t);
      OccurrencesWithout(b, d, t);
      SameOutsSameSum(a - {d}, b - {d}, t);
    } else {
      assert b == map[];
    }
  }

  // ----- The invariant of one leader -----

  /** The counters are exact: that of a transaction that still reads, and that of an active
      one. */
  ghost predicate Conserved(f: Facts, s: nat, r: Replica) {
    && (forall t: nat :: (s, t) !in f.handled ==> Waiting(r, t) == Occurrences(r.activeTxns, t))
    && (forall t :: t in r.activeTxns ==> r.activeTxns[t].incoming == Occurrences(r.activeTxns, t))
  }

  /** All that `t` read from at shard `s` is among the first `i` commits. */
  ghost predicate AppliedBy(f: Facts, s: nat, t: nat, i: nat)
    requires i <= |f.applied|
  {
    forall d :: (s, t, d) in f.dependsOn ==> (s, d) in f.applied[..i]
  }

  /** All that `t` read from at shard `s` has been committed there. */
  ghost predicate DependenciesApplied(f: Facts, s: nat, t: nat) {
    forall d :: (s, t, d) in f.dependsOn ==> (s, d) in f.applied
  }

  /** The commit of `d` was the one that left `t` nothing to wait for at shard `s`. */
  ghost predicate Last(f: Facts, s: nat, t: nat, d: nat) {
    exists i :: 0 <= i < |f.applied| && f.applied[i] == (s, d) && AppliedBy(f, s, t, i + 1) && !AppliedBy(f, s, t, i)
  }

  ghost predicate Tracked(f: Facts, s: nat, r: Replica) {
    && (forall t, d :: (s, t, d) in f.dependsOn && (s, d) !in f.applied ==>
          d in r.activeTxns && t in r.activeTxns[d].out)
    && (forall t, d :: d in r.activeTxns && t in r.activeTxns[d].out ==> (s, t, d) in f.dependsOn)
    && (forall d :: d in r.activeTxns ==> (s, d) !in f.applied)
  }

  ghost predicate Known(f: Facts, s: nat, r: Replica) {
    && (forall t :: t in r.activeTxns || t in r.committedTxns || t in r.pendingTxns ==> (s, t) in f.handled)
    && (forall t :: (s, t) in f.validated || (s, t) in f.applied ==> (s, t) in f.handled)
    && r.activeTxns.Keys == r.pendingTxns.Keys
    && (forall d :: d in r.activeTxns ==> d !in r.activeTxns[d].out && d !in r.inDependency)
    && (forall t :: (s, t) in f.validated && (s, t) !in f.applied ==> t in r.activeTxns)
  }

  ghost predicate SomeNotice(f: Facts, s: nat, t: nat) {
    exists c :: (s, c, t) in f.noticed
  }

  /** Coordinator `c` is that of the last transaction `t` waited for. */
  ghost predicate OfLast(cfg: Config, f: Facts, s: nat, c: nat, t: nat)
    requires cfg.n > 0
  {
    exists d :: Last(f, s, t, d) && c == cfg.PrimaryCoordinator(d)
  }

  /** A transaction is free of dependencies only if it waits for nothing; the others get their
      notice when the last transaction they wait for commits, addressed to the coordinator of
      that transaction. */
  ghost predicate Noted(cfg: Config, f: Facts, s: nat)
    requires cfg.n > 0
  {
    && (forall t :: (s, t) in f.free ==> (s, t) in f.handled && DependenciesApplied(f, s, t))
    && (forall c, t :: (s, c, t) in f.noticed ==>
          (s, t) in f.handled && (s, t) !in f.free && OfLast(cfg, f, s, c, t))
    && (forall t :: (s, t) in f.validated && (s, t) !in f.free && DependenciesApplied(f, s, t) ==> SomeNotice(f, s, t))
  }

  /** What the marks on the log say: the position of a committed transaction's own number. */
  ghost predicate Marks(f: Facts, s: nat, r: Replica) {
    && (forall l :: l in r.marked ==> l in r.log && (s, l) in f.applied)
    && (forall t :: (s, t) in f.applied && t in r.log && r.log[t].txn == t ==> t in r.marked)
  }

  ghost predicate DepOk(cfg: Config, f: Facts, s: nat, r: Replica)
    requires cfg.n > 0
  {
    Conserved(f, s, r) && Tracked(f, s, r) && Known(f, s, r) && Noted(cfg, f, s) && Marks(f, s, r)
  }

  /** If nothing active is waited for, everything read from has been committed. */
  lemma NothingLeft(f: Facts, s: nat, r: Replica, t: nat)
    requires Tracked(f, s, r) && Occurrences(r.activeTxns, t) == 0
    ensures DependenciesApplied(f, s, t)
  {
    forall d | (s, t, d) in f.dependsOn ensures (s, d) in f.applied {
      if (s, d) !in f.applied {
        OccursSomewhere(r.activeTxns, d, t);
      }
    }
  }

  /** And conversely. */
  lemma NothingWaits(f: Facts, s: nat, r: Replica, t: nat)
    requires Tracked(f, s, r) && DependenciesApplied(f, s, t)
    ensures Occurrences(r.activeTxns, t) == 0
  {
    if Occurrences(r.activeTxns, t) > 0 {
      OccursWhere(r.activeTxns, t);
    }
  }

  lemma LastLater(f: Facts, g: Facts, s: nat, t: nat, d: nat)
    requires f.applied <= g.applied && Last(f, s, t, d)
    requires forall e :: (s, t, e) in f.dependsOn <==> (s, t, e) in g.dependsOn
    ensures Last(g, s, t, d)
  {
    var i :| 0 <= i < |f.applied| && f.applied[i] == (s, d) && AppliedBy(f, s, t, i + 1) && !AppliedBy(f, s, t, i);
    assert g.applied[..i] == f.applied[..i] && g.applied[..i + 1] == f.applied[..i + 1];
    assert AppliedBy(g, s, t, i + 1) && !AppliedBy(g, s, t, i);
  }

  lemma OfLastLater(cfg: Config, f: Facts, g: Facts, s: nat, c: nat, t: nat)
    requires cfg.n > 0 && f.applied <= g.applied && OfLast(cfg, f, s, c, t)
    requires forall e :: (s, t, e) in f.dependsOn <==> (s, t, e) in g.dependsOn
    ensures OfLast(cfg, g, s, c, t)
  {
    var d :| Last(f, s, t, d) && c == cfg.PrimaryCoordinator(d);
    LastLater(f, g, s, t, d);
  }

  /** The last transaction waited for is one that was read from, and there is only one. */
  lemma LastIsOne(f: Facts, s: nat, t: nat, d: nat, e: nat)
    requires Last(f, s, t, d)
    ensures (s, t, d) in f.dependsOn && DependenciesApplied(f, s, t)
    ensures Last(f, s, t, e) ==> e == d
  {
    var i :| 0 <= i < |f.applied| && f.applied[i] == (s, d) && AppliedBy(f, s, t, i + 1) && !AppliedBy(f, s, t, i);
    LastAt(f, s, t, d, i);
    forall k: nat, l: nat | k <= l <= |f.applied| && AppliedBy(f, s, t, k) ensures AppliedBy(f, s, t, l) {
      AppliedLater(f, s, t, k, l);
    }
  }

  lemma AppliedLater(f: Facts, s: nat, t: nat, i: nat, j: nat)
    requires i <= j <= |f.applied| && AppliedBy(f, s, t, i)
    ensures AppliedBy(f, s, t, j) && DependenciesApplied(f, s, t)
  {
    assert f.applied[..i] <= f.applied[..j];
    forall d | (s, t, d) in f.dependsOn ensures (s, d) in f.applied[..j] && (s, d) in f.applied {
      assert (s, d) in f.applied[..i];
    }
  }

  lemma LastAt(f: Facts, s: nat, t: nat, d: nat, i: nat)
    requires i < |f.applied| && f.applied[i] == (s, d) && AppliedBy(f, s, t, i + 1) && !AppliedBy(f, s, t, i)
    ensures (s, t, d) in f.dependsOn && DependenciesApplied(f, s, t)
  {
    var e :| (s, t, e) in f.dependsOn && (s, e) !in f.applied[..i];
    assert f.applied[..i + 1] == f.applied[..i] + [(s, d)];
    AppliedLater(f, s, t, i + 1, |f.applied|);
  }

  // ----- Reads -----

  lemma ReadKeyKeeps(cfg: Config, f: Facts, s: nat, r: Replica, tid: nat, d: nat)
    requires cfg.n > 0 && DepOk(cfg, f, s, r) && (s, tid) !in f.handled && d in r.activeTxns && d != 0
    ensures DepOk(cfg, f.(dependsOn := f.dependsOn + {(s, tid, d)}), s, ReadKey(r, tid, d))
  {
    var g := f.(dependsOn := f.dependsOn + {(s, tid, d)});
    var r' := ReadKey(r, tid, d);
    assert forall t :: (s, t) in f.validated ==> (s, t) in f.handled;
    hide Conserved, Tracked, Known, Noted;
    assert Marks(g, s, r');
    ReadKeyTracks(f, s, r, tid, d);
    SameNotes(cfg, f, g, s);
    ReadKeyConserves(f, g, s, r, tid, d);
  }

  lemma ReadKeyConserves(f: Facts, g: Facts, s: nat, r: Replica, tid: nat, d: nat)
    requires Conserved(f, s, r) && Known(f, s, r) && (s, tid) !in f.handled && d in r.activeTxns && d != 0
    requires g.handled == f.handled
    ensures Conserved(g, s, ReadKey(r, tid, d))
  {
    var r' := ReadKey(r, tid, d);
    forall t: nat ensures Occurrences(r'.activeTxns, t) == Occurrences(r.activeTxns, t) + if t == tid then 1 else 0 {
      OneMoreOut(r.activeTxns, d, tid, t);
    }
    hide Occurrences;
  }

  lemma ReadKeyTracks(f: Facts, s: nat, r: Replica, tid: nat, d: nat)
    requires Tracked(f, s, r) && Known(f, s, r) && (s, tid) !in f.handled && d in r.activeTxns && d != 0
    ensures
      var g := f.(dependsOn := f.dependsOn + {(s, tid, d)});
      Tracked(g, s, ReadKey(r, tid, d)) && Known(g, s, ReadKey(r, tid, d))
  {
  }

  lemma OneMoreOut(active: map<nat, Txn>, d: nat, tid: nat, t: nat)
    requires d in active
    ensures
      var txn := active[d].(out := active[d].out + [tid]);
      Occurrences(active[d := txn], t) == Occurrences(active, t) + if t == tid then 1 else 0
  {
    OccurrencesUpdate(active, d, active[d].(out := active[d].out + [tid]), t);
    CountConcat(active[d].out, [tid], t);
    assert Count([tid], t) == if t == tid then 1 else 0;
  }

  ghost function ReadsFrom(s: nat, tid: nat, dependencies: seq<nat>): set<(nat, nat, nat)> {
    set d | d in dependencies && d != 0 :: (s, tid, d)
  }

  lemma {:induction false} ReadKeeps(cfg: Config, f: Facts, s: nat, r: Replica, tid: nat, dependencies: seq<nat>)
    requires cfg.n > 0 && DepOk(cfg, f, s, r) && (s, tid) !in f.handled
    requires forall d :: d in dependencies ==> d == 0 || d in r.activeTxns
    ensures DepOk(cfg, f.(dependsOn := f.dependsOn + ReadsFrom(s, tid, dependencies)), s,
                  HandleRead(r, tid, dependencies))
    decreases |dependencies|
  {
    hide DepOk, Occurrences;
    if dependencies == [] {
      assert f.dependsOn + ReadsFrom(s, tid, []) == f.dependsOn;
    } else {
      var d := dependencies[0];
      var r1 := ReadKey(r, tid, d);
      var here: set<(nat, nat, nat)> := if d == 0 then {} else {(s, tid, d)};
      var f1 := f.(dependsOn := f.dependsOn + here);
      if d != 0 {
        ReadKeyKeeps(cfg, f, s, r, tid, d);
      } else {
        assert f1 == f;
      }
      hide ReadKey;
      assert f1.dependsOn + ReadsFrom(s, tid, dependencies[1..]) == f.dependsOn + ReadsFrom(s, tid, dependencies) by {
        assert dependencies == [d] + dependencies[1..];
      }
      ReadKeeps(cfg, f1, s, r1, tid, dependencies[1..]);
    }
  }

  // ----- Prepare -----

  /** A transaction that has just been admitted. */
  ghost predicate Admitted(r: Replica, a: Replica, tid: nat, lsn: nat) {
    && a.activeTxns.Keys == r.activeTxns.Keys + {tid} && a.pendingTxns.Keys == r.pendingTxns.Keys + {tid}
    && a.activeTxns == r.activeTxns[tid := a.activeTxns[tid]]
    && a.activeTxns[tid].out == [] && a.activeTxns[tid].incoming == Waiting(r, tid)
    && a.committedTxns == r.committedTxns && a.inDependency == r.inDependency - {tid}
    && lsn in a.log && a.log == r.log[lsn := a.log[lsn]] && a.log[lsn].txn == tid && a.marked == r.marked
  }

  lemma AdmitKeeps(cfg: Config, f: Facts, g: Facts, s: nat, r: Replica, a: Replica, tid: nat, lsn: nat)
    requires cfg.n > 0 && DepOk(cfg, f, s, r) && (s, tid) !in f.handled && Admitted(r, a, tid, lsn)
    requires g == f.(handled := f.handled + {(s, tid)}, validated := f.validated + {(s, tid)},
                     free := if Waiting(r, tid) > 0 then f.free else f.free + {(s, tid)})
    ensures DepOk(cfg, g, s, a)
  {
    hide Marks, Noted, Tracked, Conserved;
    AdmitTracks(f, g, s, r, a, tid, lsn);
    AdmitConserves(f, g, s, r, a, tid, lsn);
    hide Known;
    AdmitNotes(cfg, f, g, s, tid);
  }

  lemma AdmitConserves(f: Facts, g: Facts, s: nat, r: Replica, a: Replica, tid: nat, lsn: nat)
    requires Conserved(f, s, r) && (s, tid) !in f.handled && Admitted(r, a, tid, lsn)
    requires tid !in r.activeTxns && Tracked(g, s, a) && g.handled == f.handled + {(s, tid)}
    ensures Conserved(g, s, a) && (Waiting(r, tid) == 0 <==> DependenciesApplied(g, s, tid)) && Waiting(r, tid) >= 0
  {
    forall t: nat ensures Occurrences(a.activeTxns, t) == Occurrences(r.activeTxns, t) {
      OccurrencesUpdate(r.activeTxns, tid, a.activeTxns[tid], t);
    }
    hide Tracked, Occurrences, DependenciesApplied;
    assert Waiting(r, tid) == Occurrences(a.activeTxns, tid);
    if Waiting(r, tid) == 0 {
      NothingLeft(g, s, a, tid);
    } else if DependenciesApplied(g, s, tid) {
      NothingWaits(g, s, a, tid);
    }
  }

  lemma AdmitTracks(f: Facts, g: Facts, s: nat, r: Replica, a: Replica, tid: nat, lsn: nat)
    requires Tracked(f, s, r) && Known(f, s, r) && Marks(f, s, r) && (s, tid) !in f.handled && Admitted(r, a, tid, lsn)
    requires g == f.(handled := f.handled + {(s, tid)}, validated := f.validated + {(s, tid)}, free := g.free)
    ensures Tracked(g, s, a) && Known(g, s, a) && Marks(g, s, a)
  {
    assert Tracked(g, s, a);
    hide Tracked;
  }

  lemma AdmitNotes(cfg: Config, f: Facts, g: Facts, s: nat, tid: nat)
    requires cfg.n > 0 && Noted(cfg, f, s) && (s, tid) !in f.handled
    requires g == f.(handled := f.handled + {(s, tid)}, validated := g.validated, free := g.free)
    requires g.validated == f.validated + {(s, tid)}
    requires if DependenciesApplied(g, s, tid) then g.free == f.free + {(s, tid)} else g.free == f.free
    ensures Noted(cfg, g, s)
  {
    forall t
      ensures DependenciesApplied(g, s, t) == DependenciesApplied(f, s, t) && SomeNotice(g, s, t) == SomeNotice(f, s, t)
    {
    }
    forall c, t | (s, c, t) in g.noticed ensures OfLast(cfg, g, s, c, t) {
      OfLastLater(cfg, f, g, s, c, t);
    }
    hide OfLast, DependenciesApplied, SomeNotice;
  }

  lemma FailKeeps(cfg: Config, f: Facts, s: nat, r: Replica, tid: nat)
    requires cfg.n > 0 && DepOk(cfg, f, s, r)
    ensures DepOk(cfg, f.(handled := f.handled + {(s, tid)}), s, r.(inDependency := r.inDependency - {tid}))
  {
    var g := f.(handled := f.handled + {(s, tid)});
    SameNotes(cfg, f, g, s);
    hide Noted;
  }

  /** What is noted stays so while other shards commit and other transactions read. */
  lemma SameNotes(cfg: Config, f: Facts, g: Facts, s: nat)
    requires cfg.n > 0 && Noted(cfg, f, s) && f.applied <= g.applied
    requires forall t :: (s, t) in f.validated ==> (s, t) in f.handled
    requires forall t :: (s, t) in f.handled ==> (s, t) in g.handled
    requires forall t :: (s, t) in f.validated <==> (s, t) in g.validated
    requires forall t :: (s, t) in f.free <==> (s, t) in g.free
    requires forall c, t :: (s, c, t) in f.noticed <==> (s, c, t) in g.noticed
    requires forall t :: (s, t) in f.applied <==> (s, t) in g.applied
    requires forall t, d :: (s, t) in f.handled ==> ((s, t, d) in f.dependsOn <==> (s, t, d) in g.dependsOn)
    ensures Noted(cfg, g, s)
  {
    hide OfLast, DependenciesApplied, SomeNotice;
    forall t | (s, t) in f.handled ensures DependenciesApplied(g, s, t) == DependenciesApplied(f, s, t) {
      SameDependencies(f, g, s, t);
    }
    forall t ensures SomeNotice(g, s, t) == SomeNotice(f, s, t) {
      SameSomeNotice(f, g, s, t);
    }
    forall c, t | (s, c, t) in g.noticed ensures OfLast(cfg, g, s, c, t) {
      OfLastLater(cfg, f, g, s, c, t);
    }
  }

  lemma SameDependencies(f: Facts, g: Facts, s: nat, t: nat)
    requires forall d :: (s, d) in f.applied <==> (s, d) in g.applied
    requires forall d :: (s, t, d) in f.dependsOn <==> (s, t, d) in g.dependsOn
    ensures DependenciesApplied(g, s, t) == DependenciesApplied(f, s, t)
  {
  }

  lemma SameSomeNotice(f: Facts, g: Facts, s: nat, t: nat)
    requires forall c :: (s, c, t) in f.noticed <==> (s, c, t) in g.noticed
    ensures SomeNotice(g, s, t) == SomeNotice(f, s, t)
  {
  }

  // ----- Commit -----

  /** No counter is smaller than what will be taken from it. */
  ghost predicate Enough(r: Replica, waiters: seq<nat>) {
    forall t :: t in r.activeTxns ==> Count(waiters, t) <= r.activeTxns[t].incoming
  }

  lemma CountFirst(s: seq<nat>, t: nat)
    requires s != []
    ensures Count(s, t) == (if s[0] == t then 1 else 0) + Count(s[1..], t)
  {
  }

  lemma StillEnough(r: Replica, waiters: seq<nat>, c: nat)
    requires waiters != [] && Enough(r, waiters)
    ensures Enough(Release(r, waiters[0], c).0, waiters[1..])
  {
    var r1 := Release(r, waiters[0], c).0;
    forall t | t in r1.activeTxns ensures Count(waiters[1..], t) <= r1.activeTxns[t].incoming {
      CountFirst(waiters, t);
    }
  }

  /** What releasing a list of waiters does to one transaction: its counter drops by its
      occurrences in the list. */
  lemma {:induction false} ReleaseAllEffect(r: Replica, waiters: seq<nat>, c: nat, t: nat)
    requires Enough(r, waiters)
    ensures
      var r' := ReleaseAll(r, waiters, c).0;
      if t in r.activeTxns then
        && t in r'.activeTxns && r'.activeTxns[t].out == r.activeTxns[t].out
        && r'.activeTxns[t].incoming == r.activeTxns[t].incoming - Count(waiters, t)
      else Waiting(r', t) == Waiting(r, t) - Count(waiters, t)
    decreases |waiters|
  {
    if waiters != [] {
      CountFirst(waiters, t);
      StillEnough(r, waiters, c);
      ReleaseAllEffect(Release(r, waiters[0], c).0, waiters[1..], c, t);
    }
  }

  /** A notice is sent for exactly the active waiters whose counter reaches 0. */
  lemma {:induction false} ReleaseAllNotices(r: Replica, waiters: seq<nat>, c: nat, t: nat)
    requires Enough(r, waiters)
    ensures DependenciesCleared(c, t, r.shard) in ReleaseAll(r, waiters, c).1 <==>
              t in r.activeTxns && t in waiters && r.activeTxns[t].incoming == Count(waiters, t)
    decreases |waiters|
  {
    if waiters != [] {
      var w := waiters[0];
      var (r1, m1) := Release(r, w, c);
      CountFirst(waiters, t);
      StillEnough(r, waiters, c);
      ReleaseAllNotices(r1, waiters[1..], c, t);
      CountIn(waiters[1..], t);
      var notice := DependenciesCleared(c, t, r.shard);
      assert notice in m1 <==> w == t && t in r.activeTxns && r.activeTxns[t].incoming <= 1;
      assert t in waiters <==> t == w || t in waiters[1..];
      hide Count, Enough;
    }
  }

  /** A commit before it releases anyone. */
  function Committing(r: Replica, d: nat): Replica {
    Mark(r, d).(precommitted := r.precommitted - {d})
  }

  /** Every counter suffices when a transaction releases those waiting for it. */
  lemma CommitHasEnough(f: Facts, s: nat, r: Replica, d: nat)
    requires Conserved(f, s, r) && d in r.activeTxns
    ensures Enough(Committing(r, d), r.activeTxns[d].out)
  {
    var a := Committing(r, d);
    var out := r.activeTxns[d].out;
    forall t | t in a.activeTxns ensures Count(out, t) <= a.activeTxns[t].incoming {
      OccurrencesWithout(r.activeTxns, d, t);
    }
  }

  /** After the commit of `d`, every counter and every sum has lost the occurrences in the out
      list of `d`. */
  lemma CommitEffect(f: Facts, s: nat, r: Replica, d: nat, t: nat)
    requires Conserved(f, s, r) && Commits(r, d) && r.n > 0
    ensures
      var r' := HandleCommit(r, d, 0).0;
      var out := r.activeTxns[d].out;
      && Occurrences(r'.activeTxns, t) == Occurrences(r.activeTxns, t) - Count(out, t)
      && (t in r'.activeTxns <==> t in r.activeTxns && t != d)
      && (t in r'.activeTxns ==>
            && r'.activeTxns[t].out == r.activeTxns[t].out
            && r'.activeTxns[t].incoming == r.activeTxns[t].incoming - Count(out, t))
      && (t !in r.activeTxns ==> Waiting(r', t) == Waiting(r, t) - Count(out, t))
  {
    hide Conserved, Occurrences, Count, Enough;
    var a := Committing(r, d);
    var out := r.activeTxns[d].out;
    var c := r.pendingTxns[d].primaryShard % r.n;
    CommitHasEnough(f, s, r, d);
    ReleaseAllEffect(a, out, c, t);
    var released := ReleaseAll(a, out, c).0;
    forall x | x in released.activeTxns ensures released.activeTxns[x].out == r.activeTxns[x].out {
      ReleaseAllEffect(a, out, c, x);
    }
    OccurrencesWithout(r.activeTxns, d, t);
    SameOutsSameSum(released.activeTxns - {d}, r.activeTxns - {d}, t);
    hide ReleaseAll, Occurrences, Count, Conserved;
  }

  /** What a commit leaves of everything else. */
  lemma CommitShape(r: Replica, d: nat)
    requires Commits(r, d) && r.n > 0
    ensures
      var r' := HandleCommit(r, d, 0).0;
      && r'.pendingTxns == r.pendingTxns - {d} && r'.activeTxns.Keys == r.activeTxns.Keys - {d}
      && r'.committedTxns == r.committedTxns + {d} && r'.log == r.log
      && r'.marked == (if d in r.log then r.marked + {d} else r.marked)
  {
  }

  lemma {:induction false} ReleaseAllCounts(r: Replica, waiters: seq<nat>, c: nat)
    ensures forall t :: t in ReleaseAll(r, waiters, c).0.inDependency ==> t in r.inDependency || t !in r.activeTxns
    decreases |waiters|
  {
    if waiters != [] {
      ReleaseAllCounts(Release(r, waiters[0], c).0, waiters[1..], c);
    }
  }

  /** A transaction that becomes active no more is not counted apart. */
  lemma CommitCounts(r: Replica, d: nat, t: nat)
    requires Commits(r, d) && r.n > 0 && t in r.activeTxns && t !in r.inDependency
    ensures t !in HandleCommit(r, d, 0).0.inDependency
  {
    ReleaseAllCounts(Committing(r, d), r.activeTxns[d].out, r.pendingTxns[d].primaryShard % r.n);
  }

  /** The notice that dependencies are cleared is sent exactly for the active transactions
      that waited for the committing one and now wait for no active transaction at all. */
  lemma NoticeExactlyAtLastCommit(f: Facts, s: nat, r: Replica, d: nat, t: nat)
    requires Conserved(f, s, r) && Commits(r, d) && r.n > 0 && d !in r.activeTxns[d].out
    ensures
      var (r', sends) := HandleCommit(r, d, 0);
      var coordinator := r.pendingTxns[d].primaryShard % r.n;
      DependenciesCleared(coordinator, t, r.shard) in sends <==>
        && t in r.activeTxns
        && Occurrences(r.activeTxns, t) > Occurrences(r'.activeTxns, t) == 0
  {
    var a := Committing(r, d);
    var out := r.activeTxns[d].out;
    var c := r.pendingTxns[d].primaryShard % r.n;
    CommitHasEnough(f, s, r, d);
    ReleaseAllNotices(a, out, c, t);
    CommitEffect(f, s, r, d, t);
    CountIn(out, t);
    hide ReleaseAll, Occurrences, Count;
  }

  lemma CommitConserves(f: Facts, g: Facts, s: nat, r: Replica, d: nat)
    requires Conserved(f, s, r) && Known(f, s, r) && Commits(r, d) && r.n > 0 && g.handled == f.handled
    ensures Conserved(g, s, HandleCommit(r, d, 0).0)
  {
    var r' := HandleCommit(r, d, 0).0;
    forall t: nat | (s, t) !in f.handled ensures Waiting(r', t) == Occurrences(r'.activeTxns, t) {
      CommitEffect(f, s, r, d, t);
    }
    forall t | t in r'.activeTxns ensures r'.activeTxns[t].incoming == Occurrences(r'.activeTxns, t) {
      CommitEffect(f, s, r, d, t);
    }
    hide Occurrences, Conserved;
  }

  lemma CommitKnown(f: Facts, g: Facts, s: nat, r: Replica, d: nat)
    requires Conserved(f, s, r) && Known(f, s, r) && Commits(r, d) && r.n > 0
    requires g.handled == f.handled && g.validated == f.validated && g.applied == f.applied + [(s, d)]
    ensures Known(g, s, HandleCommit(r, d, 0).0)
  {
    var r' := HandleCommit(r, d, 0).0;
    CommitShape(r, d);
    hide HandleCommit, Occurrences;
    forall t | t in r'.activeTxns ensures t !in r'.activeTxns[t].out && t !in r'.inDependency {
      CommitEffect(f, s, r, d, t);
      CommitCounts(r, d, t);
    }
  }

  lemma CommitTracks(f: Facts, g: Facts, s: nat, r: Replica, d: nat)
    requires Conserved(f, s, r) && Tracked(f, s, r) && Marks(f, s, r) && Commits(r, d) && r.n > 0
    requires g.dependsOn == f.dependsOn && g.applied == f.applied + [(s, d)]
    ensures Tracked(g, s, HandleCommit(r, d, 0).0) && Marks(g, s, HandleCommit(r, d, 0).0)
  {
    var r' := HandleCommit(r, d, 0).0;
    CommitShape(r, d);
    hide HandleCommit, Occurrences, Conserved, Tracked, Marks;
    forall x | x in r'.activeTxns ensures r'.activeTxns[x].out == r.activeTxns[x].out {
      CommitEffect(f, s, r, d, x);
    }
    TracksWithout(f, g, s, r, r', d);
  }

  lemma TracksWithout(f: Facts, g: Facts, s: nat, r: Replica, r': Replica, d: nat)
    requires Tracked(f, s, r) && Marks(f, s, r)
    requires g.dependsOn == f.dependsOn && g.applied == f.applied + [(s, d)]
    requires r'.activeTxns.Keys == r.activeTxns.Keys - {d}
    requires forall x :: x in r'.activeTxns ==> r'.activeTxns[x].out == r.activeTxns[x].out
    requires r'.log == r.log && r'.marked == if d in r.log then r.marked + {d} else r.marked
    ensures Tracked(g, s, r') && Marks(g, s, r')
  {
    assert Tracked(g, s, r');
    hide Tracked;
  }

  // ----- Notices -----

  lemma {:induction false} ReleaseAllSendsTo(r: Replica, waiters: seq<nat>, c: nat)
    ensures forall m :: m in ReleaseAll(r, waiters, c).1 ==> m.DependenciesCleared? && m.to == c && m.shard == r.shard
    decreases |waiters|
  {
    if waiters != [] {
      ReleaseAllSendsTo(Release(r, waiters[0], c).0, waiters[1..], c);
    }
  }

  /** The notices of a commit go to the coordinator of the committing transaction. */
  lemma CommitNotices(f: Facts, s: nat, r: Replica, d: nat, c: nat, t: nat)
    requires Conserved(f, s, r) && Known(f, s, r) && Commits(r, d) && r.n > 0 && r.shard == s
    ensures
      var (r', sends) := HandleCommit(r, d, 0);
      (s, c, t) in Notices(s, sends) <==>
        && c == r.pendingTxns[d].primaryShard % r.n
        && t in r.activeTxns && Occurrences(r.activeTxns, t) > Occurrences(r'.activeTxns, t) == 0
  {
    hide Conserved, Occurrences;
    var (r', sends) := HandleCommit(r, d, 0);
    var to := r.pendingTxns[d].primaryShard % r.n;
    NoticeExactlyAtLastCommit(f, s, r, d, t);
    ReleaseAllSendsTo(Committing(r, d), r.activeTxns[d].out, to);
    hide Occurrences, ReleaseAll, Conserved, Known;
    if (s, c, t) in Notices(s, sends) {
      var m :| m in sends && m.DependenciesCleared? && (s, m.to, m.tid) == (s, c, t);
      assert m == DependenciesCleared(to, t, s);
    }
  }

  /** A transaction that has been committed was cleared before. */
  lemma AppliedWasClear(cfg: Config, f: Facts, s: nat, t: nat)
    requires cfg.n > 0 && FactsOk(cfg, f) && Noted(cfg, f, s) && (s, t) in f.applied && (s, t) in f.validated
    ensures DependenciesApplied(f, s, t)
  {
    assert Announced(cfg, f, t) && Backed(cfg, f, t) && s in cfg.participants(t);
    var c := cfg.PrimaryCoordinator(t);
    if (s, t) !in f.free {
      assert (s, c, t) in f.noticed && OfLast(cfg, f, s, c, t);
      var d :| Last(f, s, t, d);
      LastIsOne(f, s, t, d, d);
    }
  }

  /** A notice that the commit of `d` sends is for a transaction whose last dependency is `d`. */
  lemma NewNotice(cfg: Config, f: Facts, g: Facts, s: nat, r: Replica, r': Replica, d: nat, t: nat)
    requires cfg.n > 0 && Tracked(f, s, r) && Noted(cfg, f, s) && Tracked(g, s, r') && d in r.activeTxns
    requires g.dependsOn == f.dependsOn && g.applied == f.applied + [(s, d)] && t in r.activeTxns[d].out
    requires Occurrences(r.activeTxns, t) > 0 == Occurrences(r'.activeTxns, t)
    ensures (s, t) !in f.free && Last(g, s, t, d)
  {
    if (s, t) in f.free {
      NothingWaits(f, s, r, t);
    }
    NothingLeft(g, s, r', t);
    var i := |f.applied|;
    assert g.applied[..i] == f.applied && g.applied[..i + 1] == g.applied;
    assert (s, t, d) in f.dependsOn && (s, d) !in f.applied;
    assert AppliedBy(g, s, t, i + 1) && !AppliedBy(g, s, t, i);
  }

  /** Whoever waits for the commit of `d` only, gets a notice. */
  lemma NoticeComes(cfg: Config, f: Facts, g: Facts, s: nat, r: Replica, r': Replica, t: nat)
    requires cfg.n > 0 && FactsOk(cfg, f) && Noted(cfg, f, s) && Known(f, s, r)
    requires Tracked(f, s, r) && Tracked(g, s, r')
    requires (s, t) in f.validated && !DependenciesApplied(f, s, t) && DependenciesApplied(g, s, t)
    ensures t in r.activeTxns && Occurrences(r.activeTxns, t) > 0 == Occurrences(r'.activeTxns, t)
  {
    if (s, t) in f.applied {
      AppliedWasClear(cfg, f, s, t);
    }
    if Occurrences(r.activeTxns, t) == 0 {
      NothingLeft(f, s, r, t);
    }
    NothingWaits(g, s, r', t);
  }

  /** The transactions that the commit of `d` releases. */
  ghost predicate Releases(r: Replica, r': Replica, t: nat) {
    t in r.activeTxns && Occurrences(r.activeTxns, t) > Occurrences(r'.activeTxns, t) == 0
  }

  lemma CommitNotes(cfg: Config, f: Facts, g: Facts, s: nat, r: Replica, r': Replica, d: nat)
    requires cfg.n > 0 && FactsOk(cfg, f) && Noted(cfg, f, s) && Known(f, s, r)
    requires Tracked(f, s, r) && Tracked(g, s, r') && d in r.activeTxns
    requires g == f.(applied := f.applied + [(s, d)], noticed := g.noticed) && f.noticed <= g.noticed
    requires forall c: nat, t: nat :: (s, c, t) in g.noticed <==>
      (s, c, t) in f.noticed || (c == cfg.PrimaryCoordinator(d) && Releases(r, r', t))
    requires forall t: nat :: Releases(r, r', t) ==> t in r.activeTxns[d].out
    ensures Noted(cfg, g, s)
  {
    hide Tracked, Known, Last, OfLast, FactsOk, Releases, DependenciesApplied, SomeNotice;
    forall t | (s, t) in g.free ensures DependenciesApplied(g, s, t) {
      StillApplied(f, g, s, t);
    }
    forall c, t | (s, c, t) in g.noticed ensures (s, t) in g.handled && (s, t) !in g.free && OfLast(cfg, g, s, c, t) {
      if (s, c, t) in f.noticed {
        OfLastLater(cfg, f, g, s, c, t);
      } else {
        NewNoticeNoted(cfg, f, g, s, r, r', d, t);
      }
    }
    forall t | (s, t) in g.validated && (s, t) !in g.free && DependenciesApplied(g, s, t) ensures SomeNotice(g, s, t) {
      ClearedIsNoticed(cfg, f, g, s, r, r', d, t);
    }
  }

  lemma StillApplied(f: Facts, g: Facts, s: nat, t: nat)
    requires DependenciesApplied(f, s, t) && g.dependsOn == f.dependsOn && f.applied <= g.applied
    ensures DependenciesApplied(g, s, t)
  {
  }

  lemma NewNoticeNoted(cfg: Config, f: Facts, g: Facts, s: nat, r: Replica, r': Replica, d: nat, t: nat)
    requires cfg.n > 0 && Noted(cfg, f, s) && Known(f, s, r)
    requires Tracked(f, s, r) && Tracked(g, s, r') && d in r.activeTxns
    requires g.dependsOn == f.dependsOn && g.applied == f.applied + [(s, d)]
    requires Releases(r, r', t) && t in r.activeTxns[d].out
    ensures (s, t) in f.handled && (s, t) !in f.free && OfLast(cfg, g, s, cfg.PrimaryCoordinator(d), t)
  {
    hide Noted, Tracked, Last, Occurrences;
    NewNotice(cfg, f, g, s, r, r', d, t);
  }

  lemma ClearedIsNoticed(cfg: Config, f: Facts, g: Facts, s: nat, r: Replica, r': Replica, d: nat, t: nat)
    requires cfg.n > 0 && FactsOk(cfg, f) && Noted(cfg, f, s) && Known(f, s, r)
    requires Tracked(f, s, r) && Tracked(g, s, r') && d in r.activeTxns
    requires f.noticed <= g.noticed
    requires Releases(r, r', t) ==> (s, cfg.PrimaryCoordinator(d), t) in g.noticed
    requires (s, t) in f.validated && (s, t) !in f.free && DependenciesApplied(g, s, t)
    ensures SomeNotice(g, s, t)
  {
    if DependenciesApplied(f, s, t) {
      var c :| (s, c, t) in f.noticed;
      assert (s, c, t) in g.noticed;
    } else {
      hide Noted, Tracked, Known, FactsOk, Occurrences, DependenciesApplied;
      NoticeComes(cfg, f, g, s, r, r', t);
    }
  }

  // ----- A second prepare request -----

  /** A second prepare request that passes replaces an active transaction by one with a counter
      of 0 and an empty out list, and does not touch any counter else. */
  lemma SecondPrepareReplaces(cfg: Config, f: Facts, s: nat, r: Replica, tid: nat, writes: map<string, string>)
    requires cfg.n > 0 && DepOk(cfg, f, s, r) && r.n > 0 && tid in r.activeTxns && !AlreadyKnown(r, tid)
    ensures
      var r' := HandlePrepare(r, tid, writes, cfg.participants(tid), cfg.primary(tid), true).0;
      && r'.activeTxns == r.activeTxns[tid := Txn(writes, cfg.participants(tid), cfg.primary(tid), [], 0)]
      && r'.pendingTxns == r.pendingTxns && r'.inDependency == r.inDependency && r'.shard == r.shard && r'.n == r.n
      && Occurrences(r'.activeTxns, tid) == Occurrences(r.activeTxns, tid)
  {
    var r' := HandlePrepare(r, tid, writes, cfg.participants(tid), cfg.primary(tid), true).0;
    assert Waiting(r, tid) == 0 && r.inDependency - {tid} == r.inDependency;
    OccurrencesUpdate(r.activeTxns, tid, r'.activeTxns[tid], tid);
    CountIn(r.activeTxns[tid].out, tid);
    hide Occurrences, Tracked, Noted, Marks, Conserved;
  }

  /** Nobody who still reads or is active waits for `tid`, and `tid` waits for nobody. */
  ghost predicate Unattached(f: Facts, s: nat, r: Replica, tid: nat)
    requires tid in r.activeTxns
  {
    && Occurrences(r.activeTxns, tid) == 0
    && forall x :: x in r.activeTxns[tid].out ==> (s, x) in f.handled && x !in r.activeTxns
  }

  /** Why one prepare request per transaction is all a leader may take up.  The counters stay
      exact through a second one exactly if the transaction waits for nobody, and nobody who
      still reads or is active waits for it. */
  lemma SecondPrepareConserves(cfg: Config, f: Facts, s: nat, r: Replica, tid: nat, writes: map<string, string>)
    requires cfg.n > 0 && DepOk(cfg, f, s, r) && r.n > 0 && tid in r.activeTxns && !AlreadyKnown(r, tid)
    ensures
      var r' := HandlePrepare(r, tid, writes, cfg.participants(tid), cfg.primary(tid), true).0;
      Conserved(f, s, r') <==> Unattached(f, s, r, tid)
  {
    var r' := HandlePrepare(r, tid, writes, cfg.participants(tid), cfg.primary(tid), true).0;
    var out := r.activeTxns[tid].out;
    SecondPrepareReplaces(cfg, f, s, r, tid, writes);
    forall t: nat ensures Occurrences(r'.activeTxns, t) + Count(out, t) == Occurrences(r.activeTxns, t) {
      OccurrencesUpdate(r.activeTxns, tid, r'.activeTxns[tid], t);
    }
    forall t: nat ensures Count(out, t) > 0 <==> t in out {
      CountIn(out, t);
    }
    hide HandlePrepare, Occurrences, Count, Tracked, Noted, Marks;
    ReplacedConserves(f, s, r, r', tid);
  }

  lemma ReplacedConserves(f: Facts, s: nat, r: Replica, r': Replica, tid: nat)
    requires Conserved(f, s, r) && Known(f, s, r) && tid in r.activeTxns && r'.inDependency == r.inDependency
    requires tid in r'.activeTxns && r'.activeTxns == r.activeTxns[tid := r'.activeTxns[tid]]
    requires r'.activeTxns[tid].incoming == 0
    requires forall t: nat ::
      Occurrences(r'.activeTxns, t) + Count(r.activeTxns[tid].out, t) == Occurrences(r.activeTxns, t)
    requires forall t: nat :: Count(r.activeTxns[tid].out, t) > 0 <==> t in r.activeTxns[tid].out
    ensures Conserved(f, s, r') <==> Unattached(f, s, r, tid)
  {
    hide Occurrences, Count;
    var out := r.activeTxns[tid].out;
    assert tid !in out;
    if Conserved(f, s, r') {
      forall x | x in out ensures (s, x) in f.handled && x !in r.activeTxns {
        assert Count(out, x) > 0;
      }
    }
  }

  lemma {:induction false} ReleaseAllNoticesIdle(r: Replica, waiters: seq<nat>, c: nat, t: nat)
    requires t in r.activeTxns && r.activeTxns[t].incoming == 0 && t in waiters
    ensures DependenciesCleared(c, t, r.shard) in ReleaseAll(r, waiters, c).1
    decreases |waiters|
  {
    if waiters[0] != t {
      ReleaseAllNoticesIdle(Release(r, waiters[0], c).0, waiters[1..], c, t);
    }
  }

  /** And what becomes of it: the next commit of a transaction it waits for sends the notice
      that its dependencies are cleared, however many others it still waits for. */
  lemma SecondPrepareClearsEarly(cfg: Config, f: Facts, s: nat, r: Replica, tid: nat, writes: map<string, string>,
                                 d: nat)
    requires cfg.n > 0 && DepOk(cfg, f, s, r) && r.n > 0 && tid in r.activeTxns && !AlreadyKnown(r, tid)
    requires Commits(r, d) && tid in r.activeTxns[d].out
    ensures
      var r1 := HandlePrepare(r, tid, writes, cfg.participants(tid), cfg.primary(tid), true).0;
      var (r2, sends) := HandleCommit(r1, d, 0);
      && DependenciesCleared(r.pendingTxns[d].primaryShard % r.n, tid, r.shard) in sends
      && Occurrences(r2.activeTxns, tid) == Occurrences(r.activeTxns, tid) - Count(r.activeTxns[d].out, tid)
  {
    var r1 := HandlePrepare(r, tid, writes, cfg.participants(tid), cfg.primary(tid), true).0;
    SecondPrepareReplaces(cfg, f, s, r, tid, writes);
    assert d != tid;
    hide HandlePrepare, HandleCommit, DepOk, Occurrences;
    IdleIsNoticed(r1, d, tid);
  }

  lemma IdleIsNoticed(r: Replica, d: nat, t: nat)
    requires Commits(r, d) && r.n > 0 && t in r.activeTxns && r.activeTxns[t].incoming == 0 && t in r.activeTxns[d].out
    ensures
      var (r', sends) := HandleCommit(r, d, 0);
      && DependenciesCleared(r.pendingTxns[d].primaryShard % r.n, t, r.shard) in sends
      && Occurrences(r'.activeTxns, t) == Occurrences(r.activeTxns, t) - Count(r.activeTxns[d].out, t)
  {
    var out := r.activeTxns[d].out;
    var c := r.pendingTxns[d].primaryShard % r.n;
    var a := Committing(r, d);
    ReleaseAllNoticesIdle(a, out, c, t);
    var released := ReleaseAll(a, out, c).0;
    forall x | x in released.activeTxns ensures released.activeTxns[x].out == r.activeTxns[x].out {
      ReleaseAllOuts(a, out, c, x);
    }
    OccurrencesWithout(r.activeTxns, d, t);
    SameOutsSameSum(released.activeTxns - {d}, r.activeTxns - {d}, t);
    hide ReleaseAll, Occurrences, Count;
  }

  lemma {:induction false} ReleaseAllOuts(r: Replica, waiters: seq<nat>, c: nat, t: nat)
    requires t in r.activeTxns
    ensures t in ReleaseAll(r, waiters, c).0.activeTxns
    ensures ReleaseAll(r, waiters, c).0.activeTxns[t].out == r.activeTxns[t].out
    decreases |waiters|
  {
    if waiters != [] {
      ReleaseAllOuts(Release(r, waiters[0], c).0, waiters[1..], c, t);
    }
  }

  // ----- The state of log entries -----

  /** A commit sets the status at the position that has the transaction's number: that is the
      transaction's own entry exactly if the two numbers agree, and an entry of another
      transaction exactly if the log has one at that position. */
  lemma CommitMarks(cfg: Config, f: Facts, s: nat, r: Replica, d: nat)
    requires LeaderOk(cfg, f, s, r) && Commits(r, d) && r.n > 0
    ensures
      var r' := HandleCommit(r, d, 0).0;
      var own := r.pendingTxns[d].lsn;
      && own in r.log && r.log[own].txn == d
      && (own in r'.marked <==> own in r.marked || own == d)
      && ((exists l :: l in r'.marked && l !in r.marked && r.log[l].txn != d) <==>
            d !in r.marked && d in r.log && r.log[d].txn != d)
  {
    assert PendingTxnOk(cfg, f, s, r, d);
    CommitShape(r, d);
  }
}
