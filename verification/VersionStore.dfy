/** The multi-version store of store/common/backend/versionstore.{h,cc}: for every key a set
    of versions ordered by write timestamp, and the transactions pre-committed on the key. */
module VersionStore {
  import opened ReplicaLog

  type Key = string
  type Value = string

  /** store/common/timestamp.cc: ordered by time, then by id. */
  datatype Timestamp = Timestamp(time: nat, id: nat) {
    predicate Less(t: Timestamp) {
      if time == t.time then id < t.id else time < t.time
    }
    predicate AtMost(t: Timestamp) {
      if time == t.time then id <= t.id else time <= t.time
    }
  }

  datatype Version = Version(write: Timestamp, value: Value)

  /** The elements of a std::set<VersionedValue> in their order. */
  ghost predicate Sorted(vs: seq<Version>) {
    forall i, j :: 0 <= i < j < |vs| ==> vs[i].write.Less(vs[j].write)
  }

  /** std::set::insert: an element with the same timestamp stays as it was. */
  function Insert(vs: seq<Version>, v: Version): seq<Version> {
    if vs == [] then [v]
    else
      var last := vs[|vs| - 1];
      if last.write.Less(v.write) then vs + [v]
      else if last.write == v.write then vs
      else Insert(vs[..|vs| - 1], v) + [last]
  }

  ghost predicate Holds(vs: seq<Version>, t: Timestamp) {
    exists v :: v in vs && v.write == t
  }

  lemma {:induction false} InsertMembers(vs: seq<Version>, v: Version)
    requires Sorted(vs)
    ensures forall x :: x in Insert(vs, v) <==> x in vs || (x == v && !Holds(vs, v.write))
  {
    if vs != [] {
      var last := vs[|vs| - 1];
      var init := vs[..|vs| - 1];
      assert vs == init + [last];
      if last.write.Less(v.write) {
        assert !Holds(vs, v.write);
      } else if last.write == v.write {
        assert last in vs && Holds(vs, v.write);
      } else {
        InsertMembers(init, v);
        assert Holds(vs, v.write) <==> Holds(init, v.write);
      }
    }
  }

  lemma {:induction false} InsertSorted(vs: seq<Version>, v: Version)
    requires Sorted(vs)
    ensures Sorted(Insert(vs, v))
  {
    if vs != [] {
      var last := vs[|vs| - 1];
      var init := vs[..|vs| - 1];
      if !last.write.Less(v.write) && last.write != v.write {
        InsertSorted(init, v);
        InsertMembers(init, v);
        var r := Insert(init, v);
        forall i | 0 <= i < |r| ensures r[i].write.Less(last.write) {
          assert r[i] in r;
        }
      }
    }
  }

  /** Two versions of one key never share a timestamp. */
  lemma SortedIsFunctional(vs: seq<Version>, a: Version, b: Version)
    requires Sorted(vs) && a in vs && b in vs && a.write == b.write
    ensures a == b
  {
    var i :| 0 <= i < |vs| && vs[i] == a;
    var j :| 0 <= j < |vs| && vs[j] == b;
  }

  /** The version in force at `t`: the one before std::set::upper_bound. */
  function AtTime(vs: seq<Version>, t: Timestamp): Option<Version> {
    if vs == [] then None
    else if vs[|vs| - 1].write.AtMost(t) then Some(vs[|vs| - 1])
    else AtTime(vs[..|vs| - 1], t)
  }

  /** AtTime finds the greatest version not above `t`, if there is one. */
  lemma {:induction false} AtTimeIsGreatest(vs: seq<Version>, t: Timestamp)
    requires Sorted(vs)
    ensures AtTime(vs, t).Some? ==>
      && AtTime(vs, t).value in vs && AtTime(vs, t).value.write.AtMost(t)
      && forall x :: x in vs && x.write.AtMost(t) ==> x.write.AtMost(AtTime(vs, t).value.write)
    ensures AtTime(vs, t).None? ==> forall x :: x in vs ==> !x.write.AtMost(t)
  {
    if vs != [] {
      var last := vs[|vs| - 1];
      assert vs == vs[..|vs| - 1] + [last];
      AtTimeIsGreatest(vs[..|vs| - 1], t);
    }
  }

  datatype Store = Store(versions: map<Key, seq<Version>>, precommits: map<Key, seq<nat>>) {

    ghost predicate Valid() {
      forall k :: k in versions ==> Sorted(versions[k])
    }

    predicate InStore(key: Key) {
      key in versions && |versions[key]| > 0
    }

    function VersionsOf(key: Key): seq<Version> {
      if key in versions then versions[key] else []
    }

    /** Get: the most recent version, if the key exists. */
    function Get(key: Key): Option<Version> {
      if InStore(key) then Some(versions[key][|versions[key]| - 1]) else None
    }

    /** Get at a time: the version in force then. */
    function GetAt(key: Key, t: Timestamp): Option<Version> {
      if InStore(key) then AtTime(versions[key], t) else None
    }

    /** Get for parallel mode: a pre-committed writer of the key is reported instead of a
        version. */
    function GetOrDependency(key: Key): Option<(Option<Version>, nat)> {
      if !InStore(key) then None
      else if key !in precommits || precommits[key] == [] then Some((Get(key), 0))
      else Some((None, precommits[key][|precommits[key]| - 1]))
    }

    function Put(key: Key, value: Value, t: Timestamp): Store {
      this.(versions := versions[key := Insert(VersionsOf(key), Version(t, value))])
    }

    function PreCommit(key: Key, tid: nat): Store {
      this.(precommits := precommits[key := (if key in precommits then precommits[key] else []) + [tid]])
    }

    function Commit(key: Key, tid: nat): Store {
      if InStore(key) && key in precommits
      then this.(precommits := precommits[key := Without(precommits[key], tid)])
      else this
    }
  }

  /** `s` with every occurrence of `x` taken out. */
  function Without(s: seq<nat>, x: nat): seq<nat> {
    if s == [] then []
    else if s[0] == x then Without(s[1..], x)
    else [s[0]] + Without(s[1..], x)
  }

  lemma PutKeepsValid(s: Store, key: Key, value: Value, t: Timestamp)
    requires s.Valid()
    ensures s.Put(key, value, t).Valid()
    ensures s.Put(key, value, t).InStore(key)
  {
    InsertSorted(s.VersionsOf(key), Version(t, value));
  }
}
