/** Runs of the optimistic store with pre-commits: one that is as it should be, and two that no
    serial order explains. */
module OccRuns {
  import opened ReplicaLog
  import opened VersionStore
  import opened OccSpec
  import opened OccSerializability
  import opened OccGuarded

  const ZERO := Timestamp(0, 0)
  const LOADED := Store(map["x" := [Version(ZERO, "0")], "y" := [Version(ZERO, "0")]], map[])
  const START := System(Occ(LOADED, map[], map[]), map[], {}, {}, [])

  lemma RunFirst(s: System, e: Event, rest: seq<Event>)
    ensures Run(s, [e] + rest) == Run(Apply(s, e), rest)
    ensures AllowedRun(s, [e] + rest) <==> Allowed(s, e) && AllowedRun(Apply(s, e), rest)
    ensures GuardedRun(s, [e] + rest) <==> Guarded(s, e) && GuardedRun(Apply(s, e), rest)
  {
    assert ([e] + rest)[1..] == rest;
  }

  lemma RunTwo(s: System, a: Event, b: Event)
    requires Allowed(s, a) && Allowed(Apply(s, a), b)
    ensures AllowedRun(s, [a, b]) && Run(s, [a, b]) == Apply(Apply(s, a), b)
    ensures Guarded(s, a) && Guarded(Apply(s, a), b) ==> GuardedRun(s, [a, b])
  {
    hide Apply, Allowed, Guarded;
    assert [a, b] == [a] + [b] && [b] == [b] + [];
    RunFirst(s, a, [b]);
    RunFirst(Apply(s, a), b, []);
  }

  // ----- Reading from a pre-committed writer -----

  const WRITER := Txn(map[], map["x" := "1"], map[])
  const READER := Txn(map["x" := ZERO], map["y" := "1"], map["x" := Dependent(1, "1")])

  const READING := [Prepare(1, WRITER), PreCommit(1), Get(2, "x")]

  /** Transaction 2 has read from transaction 1, which is pre-committed. */
  ghost predicate HasRead(s: System) {
    && s.occ.prepared == map[] && s.occ.precommitted == map[1 := WRITER]
    && s.occ.store.versions == LOADED.versions && s.occ.store.GetOrDependency("x") == Some((None, 1))
    && s.served == {(2, "x", Dependent(1, "1"))} && s.waits == {} && s.commits == []
  }

  lemma Reads(rest: seq<Event>) returns (mid: System)
    ensures HasRead(mid) && Run(START, READING + rest) == Run(mid, rest)
    ensures AllowedRun(mid, rest) ==> AllowedRun(START, READING + rest)
    ensures GuardedRun(mid, rest) ==> GuardedRun(START, READING + rest)
  {
    hide Run, AllowedRun, GuardedRun;
    var s1 := Apply(START, Prepare(1, WRITER));
    var s2 := Apply(s1, PreCommit(1));
    mid := Apply(s2, Get(2, "x"));
    WriterPrepares(s1);
    WriterPreCommits(s1, s2);
    assert Serve(s2, "x") == Some(Dependent(1, "1"));
    assert Allowed(START, Prepare(1, WRITER)) && Guarded(START, Prepare(1, WRITER)) && Guarded(s1, PreCommit(1));
    assert Allowed(s1, PreCommit(1)) && Allowed(s2, Get(2, "x")) && Guarded(s2, Get(2, "x"));
    hide Apply, Allowed, Guarded;
    RunFirst(START, Prepare(1, WRITER), [PreCommit(1), Get(2, "x")] + rest);
    RunFirst(s1, PreCommit(1), [Get(2, "x")] + rest);
    RunFirst(s2, Get(2, "x"), rest);
    assert READING + rest == [Prepare(1, WRITER)] + ([PreCommit(1), Get(2, "x")] + rest);
    assert [PreCommit(1), Get(2, "x")] + rest == [PreCommit(1)] + ([Get(2, "x")] + rest);
  }

  lemma WriterPrepares(s: System)
    requires s == Apply(START, Prepare(1, WRITER))
    ensures s.occ == Occ(LOADED, map[1 := WRITER], map[]) && s.active == map[1 := WRITER]
    ensures s.waits == {} && s.served == {} && s.commits == []
  {
    assert !START.occ.Conflict(WRITER);
  }

  lemma WriterPreCommits(s: System, next: System)
    requires s.occ == Occ(LOADED, map[1 := WRITER], map[]) && next == Apply(s, PreCommit(1))
    ensures next.occ.prepared == map[] && next.occ.precommitted == map[1 := WRITER]
    ensures next.occ.store.versions == LOADED.versions && next.occ.store.GetOrDependency("x") == Some((None, 1))
  {
    assert next.occ.store.precommits["x"] == [1];
  }

  // ----- The writer commits first -----

  /** The reader is prepared while the writer is pre-committed, and comes after it. */
  lemma ReaderPrepares(mid: System)
    requires HasRead(mid)
    ensures Allowed(mid, Prepare(2, READER)) && Guarded(mid, Prepare(2, READER))
    ensures
      var s := Apply(mid, Prepare(2, READER));
      && s.occ.prepared == map[2 := READER] && s.occ.precommitted == map[1 := WRITER]
      && s.occ.store == mid.occ.store && s.waits == {(2, 1)} && s.commits == []
  {
    assert !mid.occ.Conflict(READER);
    assert WritesTo(mid.occ, 1, "x");
    assert !Unrelated(READER, WRITER);
    assert After(mid.occ, 2, READER) == {(2, 1)};
    assert Forget(mid.waits, 2) == {};
  }

  lemma BothCommit(s: System)
    requires s.occ.prepared == map[2 := READER] && s.occ.precommitted == map[1 := WRITER]
    requires s.occ.store.versions == LOADED.versions && s.waits == {(2, 1)} && s.commits == []
    ensures
      var mid := Apply(s, Commit(1, 1));
      var end := Apply(mid, Commit(2, 2));
      && Allowed(s, Commit(1, 1)) && Guarded(s, Commit(1, 1))
      && Allowed(mid, Commit(2, 2)) && Guarded(mid, Commit(2, 2))
      && end.commits == [Commitment(WRITER, 1), Commitment(READER, 2)]
  {
    var mid := Apply(s, Commit(1, 1));
    assert s.occ.Ready(1) == Some(WRITER);
    assert mid.waits == {};
    assert mid.occ.prepared == map[2 := READER] && mid.occ.precommitted == map[];
    assert mid.occ.Ready(2) == Some(READER);
    OtherKey(s.occ.store, WRITER.writeSet, 1, 1, "y");
    assert mid.occ.store == WriteAll(s.occ.store, WRITER.writeSet, 1, 1);
    assert mid.occ.store.Get("y") == Some(Version(ZERO, "0"));
    hide WriteAll;
  }

  /** The path that parallel mode is for: a transaction reads from a pre-committed one, is
      prepared before that one commits, and commits after it.  No precaution is violated, so the
      run is serializable. */
  lemma ReadFromPreCommitted()
    ensures
      var events := READING + [Prepare(2, READER)] + [Commit(1, 1), Commit(2, 2)];
      var end := Run(START, events);
      && Initial(START) && AllowedRun(START, events) && GuardedRun(START, events)
      && end.commits == [Commitment(WRITER, 1), Commitment(READER, 2)]
      && Serial(Latest(LOADED), end.commits)
  {
    hide Run, AllowedRun, GuardedRun, Apply, Serial, Latest;
    var commits := [Commit(1, 1), Commit(2, 2)];
    var rest := [Prepare(2, READER)] + commits;
    var mid := Reads(rest);
    ReaderPrepares(mid);
    var s := Apply(mid, Prepare(2, READER));
    BothCommit(s);
    RunTwo(s, Commit(1, 1), Commit(2, 2));
    RunFirst(mid, Prepare(2, READER), commits);
    assert READING + [Prepare(2, READER)] + commits == READING + rest;
    StartIsInitial();
    Serializability(START, READING + rest);
  }

  lemma StartIsInitial()
    ensures Initial(START)
  {
  }

  // ----- The writer aborts -----

  lemma AbortThenPrepare(mid: System)
    requires HasRead(mid)
    ensures
      var s1 := Apply(mid, Abort(1, true));
      var s2 := Apply(s1, Prepare(2, READER));
      && Allowed(mid, Abort(1, true)) && Guarded(mid, Abort(1, true))
      && Allowed(s1, Prepare(2, READER)) && !Guarded(s1, Prepare(2, READER))
      && Allowed(s2, Commit(2, 1)) && Apply(s2, Commit(2, 1)).commits == [Commitment(READER, 1)]
  {
    var s1 := Apply(mid, Abort(1, true));
    assert s1.occ.prepared == map[] && s1.occ.precommitted == map[];
    assert !s1.occ.Conflict(READER);
    assert !WritesTo(s1.occ, 1, "x");
    assert !Stands(s1.occ, "x", READER.got["x"]);
    var s2 := Apply(s1, Prepare(2, READER));
    assert s2.occ.prepared == map[2 := READER] && s2.occ.precommitted == map[];
    assert s2.occ.Ready(2) == Some(READER);
    hide WriteAll;
  }

  /** A dirty read: transaction 2 reads the value of a pre-committed transaction that is aborted
      before 2 is prepared.  Validation does not notice, so 2 commits with a value that no
      transaction ever committed. */
  lemma DirtyReadCommits()
    ensures
      var events := READING + [Abort(1, true)] + [Prepare(2, READER), Commit(2, 1)];
      var end := Run(START, events);
      && Initial(START) && AllowedRun(START, events)
      && end.commits == [Commitment(READER, 1)] && !Serial(Latest(LOADED), end.commits)
  {
    hide Run, AllowedRun, GuardedRun, Apply, Guarded, Allowed;
    var last := [Prepare(2, READER), Commit(2, 1)];
    var rest := [Abort(1, true)] + last;
    var mid := Reads(rest);
    AbortThenPrepare(mid);
    var s := Apply(mid, Abort(1, true));
    RunTwo(s, Prepare(2, READER), Commit(2, 1));
    RunFirst(mid, Abort(1, true), last);
    assert READING + [Abort(1, true)] + last == READING + rest;
    NeverRead();
  }

  lemma NeverRead()
    ensures !Serial(Latest(LOADED), [Commitment(READER, 1)])
  {
    var commits := [Commitment(READER, 1)];
    assert commits[..0] == [];
    assert LOADED.Get("x") == Some(Version(ZERO, "0"));
    assert !ReadsFrom(commits[0].txn, Replay(Latest(LOADED), commits[..0]));
  }

  // ----- Write skew -----

  const FIRST := Txn(map["x" := ZERO], map["y" := "1"], map["x" := Stored(Version(ZERO, "0"))])
  const SECOND := Txn(map["y" := ZERO], map["x" := "1"], map["y" := Stored(Version(ZERO, "0"))])

  const SKEW := [Get(1, "x"), Get(2, "y"), Prepare(1, FIRST), PreCommit(1), Prepare(2, SECOND)]

  /** Both transactions may commit: the first is pre-committed, the second prepared. */
  ghost predicate Skewed(s: System) {
    && s.occ.prepared == map[2 := SECOND] && s.occ.precommitted == map[1 := FIRST]
    && s.occ.store.versions == LOADED.versions && s.commits == []
  }

  lemma SkewPrepares(rest: seq<Event>) returns (mid: System)
    ensures Skewed(mid) && Run(START, SKEW + rest) == Run(mid, rest)
    ensures AllowedRun(mid, rest) ==> AllowedRun(START, SKEW + rest)
  {
    hide Run, AllowedRun, GuardedRun;
    var s1 := Apply(START, Get(1, "x"));
    var s2 := Apply(s1, Get(2, "y"));
    var s3 := Apply(s2, Prepare(1, FIRST));
    var s4 := Apply(s3, PreCommit(1));
    mid := Apply(s4, Prepare(2, SECOND));
    BothRead(s1, s2);
    FirstPreCommits(s2, s3, s4);
    SecondPrepares(s4, mid);
    hide Apply;
    SkewSteps(s1, s2, s3, s4, rest);
  }

  lemma BothRead(s1: System, s2: System)
    requires s1 == Apply(START, Get(1, "x")) && s2 == Apply(s1, Get(2, "y"))
    ensures s2 == START.(served := s2.served)
    ensures (1, "x", FIRST.got["x"]) in s2.served && (2, "y", SECOND.got["y"]) in s2.served
  {
    assert Serve(START, "x") == Some(Stored(Version(ZERO, "0"))) && Serve(s1, "y") == Some(Stored(Version(ZERO, "0")));
  }

  lemma FirstPreCommits(s2: System, s3: System, s4: System)
    requires s2 == START.(served := s2.served) && (1, "x", FIRST.got["x"]) in s2.served
    requires s3 == Apply(s2, Prepare(1, FIRST)) && s4 == Apply(s3, PreCommit(1))
    ensures Allowed(s2, Prepare(1, FIRST)) && s4.served == s2.served && s4.commits == []
    ensures s4.occ.prepared == map[] && s4.occ.precommitted == map[1 := FIRST]
    ensures s4.occ.store.versions == LOADED.versions
  {
    assert !s2.occ.Conflict(FIRST);
    assert s3.occ == Occ(LOADED, map[1 := FIRST], map[]);
  }

  lemma SecondPrepares(s: System, next: System)
    requires (2, "y", SECOND.got["y"]) in s.served && s.occ.prepared == map[] && s.occ.precommitted == map[1 := FIRST]
    requires s.occ.store.versions == LOADED.versions && s.commits == [] && next == Apply(s, Prepare(2, SECOND))
    ensures Allowed(s, Prepare(2, SECOND)) && Skewed(next)
  {
    assert !s.occ.Conflict(SECOND);
  }

  lemma SkewSteps(s1: System, s2: System, s3: System, s4: System, rest: seq<Event>)
    requires s1 == Apply(START, Get(1, "x")) && s2 == Apply(s1, Get(2, "y"))
    requires s3 == Apply(s2, Prepare(1, FIRST)) && s4 == Apply(s3, PreCommit(1))
    requires Allowed(s2, Prepare(1, FIRST)) && Allowed(s4, Prepare(2, SECOND))
    ensures Run(START, SKEW + rest) == Run(Apply(s4, Prepare(2, SECOND)), rest)
    ensures AllowedRun(Apply(s4, Prepare(2, SECOND)), rest) ==> AllowedRun(START, SKEW + rest)
  {
    hide Apply, Run, AllowedRun, GuardedRun, Guarded;
    assert Allowed(START, Get(1, "x")) && Allowed(s1, Get(2, "y")) && Allowed(s3, PreCommit(1));
    hide Allowed;
    var r4 := [Prepare(2, SECOND)] + rest;
    var r3 := [PreCommit(1)] + r4;
    var r2 := [Prepare(1, FIRST)] + r3;
    var r1 := [Get(2, "y")] + r2;
    RunFirst(START, Get(1, "x"), r1);
    RunFirst(s1, Get(2, "y"), r2);
    RunFirst(s2, Prepare(1, FIRST), r3);
    RunFirst(s3, PreCommit(1), r4);
    RunFirst(s4, Prepare(2, SECOND), rest);
    assert SKEW + rest == [Get(1, "x")] + r1;
  }

  lemma SkewCommits(mid: System)
    requires Skewed(mid)
    ensures
      var s := Apply(mid, Commit(1, 2));
      && Allowed(mid, Commit(1, 2)) && Allowed(s, Commit(2, 3))
      && Apply(s, Commit(2, 3)).commits == [Commitment(FIRST, 2), Commitment(SECOND, 3)]
  {
    var s := Apply(mid, Commit(1, 2));
    assert mid.occ.Ready(1) == Some(FIRST);
    assert s.occ.prepared == map[2 := SECOND] && s.occ.precommitted == map[];
    assert s.occ.Ready(2) == Some(SECOND);
    assert s.occ.store == WriteAll(mid.occ.store, FIRST.writeSet, 1, 2);
    OtherKey(mid.occ.store, FIRST.writeSet, 1, 2, "x");
    hide WriteAll;
    assert s.occ.store.Get("x") == Some(Version(ZERO, "0"));
  }

  /** Write skew: once the first transaction has pre-committed it is no longer validated
      against, so both commit, though neither serial order gives both what they read. */
  lemma PreCommitAllowsWriteSkew()
    ensures
      var events := SKEW + [Commit(1, 2), Commit(2, 3)];
      var end := Run(START, events);
      && Initial(START) && AllowedRun(START, events)
      && end.commits == [Commitment(FIRST, 2), Commitment(SECOND, 3)]
      && !Serial(Latest(LOADED), [Commitment(FIRST, 2), Commitment(SECOND, 3)])
      && !Serial(Latest(LOADED), [Commitment(SECOND, 3), Commitment(FIRST, 2)])
  {
    hide Run, AllowedRun, GuardedRun, Apply, Serial, Latest, Allowed, Guarded;
    var mid := SkewPrepares([Commit(1, 2), Commit(2, 3)]);
    SkewCommits(mid);
    RunTwo(mid, Commit(1, 2), Commit(2, 3));
    NotSerial(FIRST, SECOND, "y", 2, 3);
    NotSerial(SECOND, FIRST, "x", 3, 2);
  }

  /** A transaction does not come after one that wrote another value than it read. */
  lemma NotSerial(a: Txn, b: Txn, k: Key, ta: nat, tb: nat)
    requires k in a.writeSet && k in b.readSet && k in b.got && b.got[k].Content() != a.writeSet[k]
    ensures !Serial(Latest(LOADED), [Commitment(a, ta), Commitment(b, tb)])
  {
    var commits := [Commitment(a, ta), Commitment(b, tb)];
    assert commits[..1] == [] + [Commitment(a, ta)];
    ReplaySnoc(Latest(LOADED), [], Commitment(a, ta));
    assert Replay(Latest(LOADED), commits[..1])[k] == a.writeSet[k];
    assert commits[1].txn == b;
  }
}
