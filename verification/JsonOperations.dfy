/** What the six operations of a JSON patch do to a document, in terms of what is found at its
    locations before and after (section 4 of RFC 6902). */
module JsonOperations {
  import opened JsonPointer
  import opened JsonPatch

  // ----- Locations that do not meet -----

  /** The locations part ways at some token. */
  ghost predicate Diverge(p: seq<string>, q: seq<string>) {
    exists k :: 0 <= k < |p| && k < |q| && p[..k] == q[..k] && p[k] != q[k]
  }

  lemma {:induction false} NumberSpelledOnce(s: string)
    requires s != "" && forall i :: 0 <= i < |s| ==> IsDigit(s[i])
    requires |s| > 1 ==> s[0] != '0'
    ensures ToString(Number(s)) == s
  {
    var init, last := s[..|s| - 1], s[|s| - 1];
    assert IsDigit(last);
    if |s| == 1 {
      assert init == "";
      assert s == [last];
    } else {
      assert init[0] == s[0];
      NumberSpelledOnce(init);
      assert ToString(0) == "0";
      assert Number(init) > 0;
      assert s == init + [last];
    }
  }

  /** An array index has one spelling. */
  lemma IndexSpelledOnce(s: string)
    requires ArrayIndex(s).Ok?
    ensures ToString(ArrayIndex(s).value) == s
  {
    NumberSpelledOnce(s);
  }

  lemma ChildElsewhere(j: Json, t: string, u: string, v: Json)
    requires Child(j, t).Ok? && t != u
    ensures Child(WithChild(j, t, v), u) == Child(j, u)
  {
    hide ArrayIndex, ToString;
    if j.Array? && ArrayIndex(u).Ok? {
      IndexSpelledOnce(t);
      IndexSpelledOnce(u);
    }
  }

  lemma DivergeBelow(p: seq<string>, q: seq<string>)
    requires Diverge(p, q)
    ensures p != [] && q != [] && (p[0] == q[0] ==> Diverge(p[1..], q[1..]))
  {
    var k :| 0 <= k < |p| && k < |q| && p[..k] == q[..k] && p[k] != q[k];
    if p[0] == q[0] {
      var p', q' := p[1..], q[1..];
      assert p'[..k - 1] == p[..k][1..] && q'[..k - 1] == q[..k][1..];
      assert p'[k - 1] == p[k] && q'[k - 1] == q[k];
    }
  }

  /** An assignment changes nothing at locations that part from its own. */
  lemma {:induction false} PutElsewhere(j: Json, p: seq<string>, v: Json, q: seq<string>)
    requires At(j, p).Ok? && Diverge(p, q)
    ensures At(Put(j, p, v), q) == At(j, q)
    decreases |p|
  {
    hide Child, WithChild, Diverge;
    DivergeBelow(p, q);
    var child := Child(j, p[0]).value;
    var v' := Put(child, p[1..], v);
    ChildWithChild(j, p[0], v', v');
    if p[0] == q[0] {
      PutElsewhere(child, p[1..], v, q[1..]);
    } else {
      ChildElsewhere(j, p[0], q[0], v');
    }
  }

  /** Behind a location one looks into the value there. */
  lemma {:induction false} AtConcat(j: Json, p: seq<string>, q: seq<string>)
    ensures At(j, p + q) == if At(j, p).Throw? then At(j, p) else At(At(j, p).value, q)
    decreases |p|
  {
    hide Child;
    if p == [] {
      assert p + q == q;
    } else {
      assert (p + q)[1..] == p[1..] + q;
      if Child(j, p[0]).Ok? {
        AtConcat(Child(j, p[0]).value, p[1..], q);
      }
    }
  }

  lemma PutBelow(j: Json, p: seq<string>, v: Json, q: seq<string>)
    requires At(j, p).Ok?
    ensures At(Put(j, p, v), p + q) == At(v, q)
  {
    AtPut(j, p, v, v);
    AtConcat(Put(j, p, v), p, q);
  }

  lemma PutBelowOne(j: Json, p: seq<string>, v: Json, t: string)
    requires At(j, p).Ok?
    ensures At(Put(j, p, v), p + [t]) == Child(v, t) && At(j, p + [t]) == Child(At(j, p).value, t)
  {
    AtPut(j, p, v, v);
    AtSnoc(j, p, t);
    AtSnoc(Put(j, p, v), p, t);
  }

  /** The exceptions of at. */
  lemma {:induction false} AtThrows(j: Json, p: seq<string>)
    requires At(j, p).Throw?
    ensures At(j, p).code in {106, 109, 401, 402, 403, 404}
    decreases |p|
  {
    if Child(j, p[0]).Ok? {
      AtThrows(Child(j, p[0]).value, p[1..]);
    }
  }

  // ----- add -----

  function Init(p: seq<string>): seq<string>
    requires p != []
  {
    p[..|p| - 1]
  }

  function Last(p: seq<string>): string
    requires p != []
  {
    p[|p| - 1]
  }

  /** An array of length `n` has the place for an added element. */
  ghost predicate HasPlace(last: string, n: nat) {
    last == "-" || (ArrayIndex(last).Ok? && ArrayIndex(last).value <= n)
  }

  ghost function Place(last: string, n: nat): nat
    requires HasPlace(last, n)
  {
    if last == "-" then n else ArrayIndex(last).value
  }

  /** A value can be added at a location if its parent is there and is null, an object, or an
      array that has the index or ends there. */
  ghost predicate CanAdd(doc: Json, p: seq<string>)
    requires p != []
  {
    var parent := At(doc, Init(p));
    && parent.Ok?
    && match parent.value
       case Null => true
       case Object(_) => true
       case Array(a) => HasPlace(Last(p), |a|)
       case _ => false
  }

  /** What is found at index `k` of an array once `v` has been put in at index `i`. */
  ghost function Moved(doc: Json, init: seq<string>, i: nat, v: Json, k: nat): Result<Json> {
    if k < i then At(doc, init + [ToString(k)])
    else if k == i then Ok(v)
    else At(doc, init + [ToString(k - 1)])
  }

  /** `after` is `doc` with `v` added: as a member that replaces one with the same name, or as
      an element that moves those from its index on up by one.  Nothing else differs. */
  ghost predicate AddSays(doc: Json, p: seq<string>, v: Json, after: Json)
    requires p != []
  {
    var init, last := Init(p), Last(p);
    && At(doc, init).Ok? && At(after, init).Ok?
    && (forall q :: Diverge(init, q) ==> At(after, q) == At(doc, q))
    && match At(doc, init).value
       case Array(a) =>
         && At(after, init).value.Array? && HasPlace(last, |a|)
         && forall k: nat :: At(after, init + [ToString(k)]) == Moved(doc, init, Place(last, |a|), v, k)
       case Null =>
         && At(after, init).value.Object?
         && forall t :: At(after, init + [t]) == if t == last then Ok(v) else Throw(403)
       case _ =>
         && At(after, init).value.Object?
         && forall t :: At(after, init + [t]) == if t == last then Ok(v) else At(doc, init + [t])
  }

  lemma Frame(doc: Json, init: seq<string>, v: Json)
    requires At(doc, init).Ok?
    ensures At(Put(doc, init, v), init) == Ok(v)
    ensures forall q :: Diverge(init, q) ==> At(Put(doc, init, v), q) == At(doc, q)
    ensures forall t :: At(Put(doc, init, v), init + [t]) == Child(v, t)
    ensures forall t :: At(doc, init + [t]) == Child(At(doc, init).value, t)
  {
    AtPut(doc, init, v, v);
    forall q | Diverge(init, q) ensures At(Put(doc, init, v), q) == At(doc, q) {
      PutElsewhere(doc, init, v, q);
    }
    forall t ensures At(Put(doc, init, v), init + [t]) == Child(v, t)
      ensures At(doc, init + [t]) == Child(At(doc, init).value, t)
    {
      PutBelowOne(doc, init, v, t);
    }
  }

  /** The elements of an array, by their printed indices. */
  lemma Elements(a: seq<Json>, k: nat)
    ensures Child(Array(a), ToString(k)) == if k < |a| then Ok(a[k]) else Throw(401)
  {
    IndexOfToString(k);
  }

  lemma AddExactly(doc: Json, p: seq<string>, v: Json)
    requires p != []
    ensures OperationAdd(doc, p, v).Ok? <==> CanAdd(doc, p)
    ensures At(doc, Init(p)).Throw? ==> OperationAdd(doc, p, v) == At(doc, Init(p))
    ensures OperationAdd(doc, p, v).Ok? ==> AddSays(doc, p, v, OperationAdd(doc, p, v).value)
  {
    var init, last := Init(p), Last(p);
    TopThrows(doc, p);
    if At(doc, init).Ok? {
      var parent := At(doc, init).value;
      AddToExactly(parent, last, v);
      if AddTo(parent, last, v).Ok? {
        AddedSays(doc, p, v);
      }
    }
    hide AddTo, AddSays, At, Put;
  }

  lemma {:induction false} TopThrows(doc: Json, p: seq<string>)
    requires p != []
    ensures |p| > 1 && At(doc, [p[0]]).Throw? ==> At(doc, Init(p)) == At(doc, [p[0]])
    ensures |p| > 1 && At(doc, Init(p)).Ok? ==> At(doc, [p[0]]).Ok?
  {
    hide Child;
    assert [p[0]][1..] == [];
  }

  lemma AddToExactly(parent: Json, last: string, v: Json)
    ensures AddTo(parent, last, v).Ok? <==>
      || parent.Null? || parent.Object?
      || (parent.Array? && HasPlace(last, |parent.elements|))
  {
    hide ArrayIndex;
  }

  lemma AddedSays(doc: Json, p: seq<string>, v: Json)
    requires p != [] && At(doc, Init(p)).Ok? && AddTo(At(doc, Init(p)).value, Last(p), v).Ok?
    ensures AddSays(doc, p, v, Put(doc, Init(p), AddTo(At(doc, Init(p)).value, Last(p), v).value))
  {
    var init, last := Init(p), Last(p);
    var parent := At(doc, init).value;
    Frame(doc, init, AddTo(parent, last, v).value);
    hide At, Put, Diverge, ArrayIndex, ToString;
    if parent.Array? {
      ElementAdded(doc, p, v);
    }
  }

  lemma AddToArray(a: seq<Json>, last: string, v: Json)
    requires AddTo(Array(a), last, v).Ok?
    ensures HasPlace(last, |a|) && Place(last, |a|) <= |a|
    ensures var i := Place(last, |a|); AddTo(Array(a), last, v) == Ok(Array(a[..i] + [v] + a[i..]))
  {
    hide ArrayIndex;
    assert a[..|a|] + [v] + a[|a|..] == a + [v];
  }

  lemma InsertedChild(a: seq<Json>, i: nat, v: Json, k: nat)
    requires i <= |a|
    ensures Child(Array(a[..i] + [v] + a[i..]), ToString(k)) ==
      if k < i then Child(Array(a), ToString(k)) else if k == i then Ok(v) else Child(Array(a), ToString(k - 1))
  {
    hide ToString, Child;
    Elements(a[..i] + [v] + a[i..], k);
    Elements(a, k);
    if k > i {
      Elements(a, k - 1);
    }
  }

  lemma ElementAdded(doc: Json, p: seq<string>, v: Json)
    requires p != [] && At(doc, Init(p)).Ok? && At(doc, Init(p)).value.Array?
    requires AddTo(At(doc, Init(p)).value, Last(p), v).Ok?
    ensures AddSays(doc, p, v, Put(doc, Init(p), AddTo(At(doc, Init(p)).value, Last(p), v).value))
  {
    hide At, Put, Diverge, ArrayIndex, ToString, AddTo, Child, HasPlace, Place;
    var init, last := Init(p), Last(p);
    var a := At(doc, init).value.elements;
    AddToArray(a, last, v);
    var i := Place(last, |a|);
    var b := Array(a[..i] + [v] + a[i..]);
    var after := Put(doc, init, b);
    Frame(doc, init, b);
    forall k: nat
      ensures At(after, init + [ToString(k)]) == Moved(doc, init, i, v, k)
    {
      InsertedChild(a, i, v, k);
    }
  }

  // ----- remove -----

  ghost predicate Primitive(j: Json) {
    !j.Array? && !j.Object?
  }

  /** `after` is `doc` without the member, or without the element, and those behind it have
      moved down by one.  Nothing else differs. */
  ghost predicate RemoveSays(doc: Json, p: seq<string>, after: Json)
    requires p != []
  {
    var init, last := Init(p), Last(p);
    && At(doc, init).Ok? && At(after, init).Ok?
    && (forall q :: Diverge(init, q) ==> At(after, q) == At(doc, q))
    && match At(doc, init).value
       case Array(a) =>
         && At(after, init).value.Array? && ArrayIndex(last).Ok? && ArrayIndex(last).value < |a|
         && forall k: nat :: At(after, init + [ToString(k)]) ==
              At(doc, init + [ToString(if k < ArrayIndex(last).value then k else k + 1)])
       case _ =>
         && At(after, init).value.Object?
         && forall t :: At(after, init + [t]) == if t == last then Throw(403) else At(doc, init + [t])
  }

  lemma RemovedSays(doc: Json, p: seq<string>)
    requires p != [] && At(doc, Init(p)).Ok? && !Primitive(At(doc, Init(p)).value)
    requires RemoveFrom(At(doc, Init(p)).value, Last(p)).Ok?
    ensures RemoveSays(doc, p, Put(doc, Init(p), RemoveFrom(At(doc, Init(p)).value, Last(p)).value))
  {
    var init, last := Init(p), Last(p);
    var parent := At(doc, init).value;
    Frame(doc, init, RemoveFrom(parent, last).value);
    hide At, Put, Diverge, ArrayIndex, ToString;
    if parent.Array? {
      ElementRemoved(doc, p);
    }
  }

  lemma ElementRemoved(doc: Json, p: seq<string>)
    requires p != [] && At(doc, Init(p)).Ok? && At(doc, Init(p)).value.Array?
    requires RemoveFrom(At(doc, Init(p)).value, Last(p)).Ok?
    ensures RemoveSays(doc, p, Put(doc, Init(p), RemoveFrom(At(doc, Init(p)).value, Last(p)).value))
  {
    var init, last := Init(p), Last(p);
    var a := At(doc, init).value.elements;
    var i := ArrayIndex(last).value;
    var b := a[..i] + a[i + 1..];
    assert RemoveFrom(Array(a), last) == Ok(Array(b));
    var after := Put(doc, init, Array(b));
    Frame(doc, init, Array(b));
    hide At, Put, Diverge, ArrayIndex, ToString, RemoveFrom, Child;
    forall k: nat
      ensures At(after, init + [ToString(k)]) == At(doc, init + [ToString(if k < i then k else k + 1)])
    {
      Elements(b, k);
      Elements(a, if k < i then k else k + 1);
    }
  }

  lemma RemoveFromExactly(parent: Json, last: string)
    ensures !Primitive(parent) ==> (RemoveFrom(parent, last).Ok? <==> Child(parent, last).Ok?)
    ensures Primitive(parent) ==> RemoveFrom(parent, last) == Ok(parent) && Child(parent, last).Throw?
  {
  }

  /** A removal takes place exactly if there is something at the location.  The code does not
      notice that there is nothing where the parent is a primitive value: then it does nothing. */
  lemma RemoveExactly(doc: Json, p: seq<string>)
    requires p != []
    ensures At(doc, p).Ok? ==> OperationRemove(doc, p).Ok? && RemoveSays(doc, p, OperationRemove(doc, p).value)
    ensures At(doc, p).Throw? ==>
      if At(doc, Init(p)).Ok? && Primitive(At(doc, Init(p)).value) then OperationRemove(doc, p) == Ok(doc)
      else OperationRemove(doc, p).Throw?
  {
    var init, last := Init(p), Last(p);
    assert p == init + [last];
    AtConcat(doc, init, [last]);
    hide RemoveSays, RemoveFrom, Child;
    if At(doc, init).Ok? {
      var parent := At(doc, init).value;
      AtSnoc(doc, init, last);
      RemoveFromExactly(parent, last);
      if Primitive(parent) {
        AtPut(doc, init, parent, parent);
      } else if RemoveFrom(parent, last).Ok? {
        RemovedSays(doc, p);
      }
    }
  }

  // ----- Round trips -----

  lemma RemoveFromAddTo(parent: Json, last: string)
    requires Child(parent, last).Ok?
    ensures RemoveFrom(parent, last).Ok?
    ensures AddTo(RemoveFrom(parent, last).value, last, Child(parent, last).value) == Ok(parent)
  {
    hide ArrayIndex;
    match parent
    case Object(m) =>
      assert (m - {last})[last := m[last]] == m;
    case Array(a) =>
      var i := ArrayIndex(last).value;
      var b := a[..i] + a[i + 1..];
      assert b[..i] + [a[i]] + b[i..] == a;
  }

  /** What is removed can be added again, and the document is what it was. */
  lemma RemoveThenAdd(doc: Json, p: seq<string>)
    requires p != [] && At(doc, p).Ok?
    ensures OperationRemove(doc, p).Ok?
    ensures OperationAdd(OperationRemove(doc, p).value, p, At(doc, p).value) == Ok(doc)
  {
    var init, last := Init(p), Last(p);
    assert p == init + [last];
    AtConcat(doc, init, [last]);
    AtSnoc(doc, init, last);
    hide Child, AddTo, RemoveFrom;
    var parent := At(doc, init).value;
    RemoveFromAddTo(parent, last);
    var removed := RemoveFrom(parent, last).value;
    var mid := Put(doc, init, removed);
    AtPut(doc, init, removed, parent);
    TopThrows(mid, p);
  }

  /** Adding puts something new there: a member with a new name, or an element at an index. */
  ghost predicate AddsNew(parent: Json, last: string) {
    (parent.Object? && last !in parent.members) || (parent.Array? && last != "-")
  }

  lemma AddToRemoveFrom(parent: Json, last: string, v: Json)
    requires AddTo(parent, last, v).Ok? && AddsNew(parent, last)
    ensures RemoveFrom(AddTo(parent, last, v).value, last) == Ok(parent)
  {
    hide ArrayIndex;
    match parent
    case Object(m) =>
      assert m[last := v] - {last} == m;
    case Array(a) =>
      var i := ArrayIndex(last).value;
      var b := a[..i] + [v] + a[i..];
      assert b[..i] + b[i + 1..] == a;
  }

  /** What has been added as something new is taken away by a removal. */
  lemma AddThenRemove(doc: Json, p: seq<string>, v: Json)
    requires p != [] && OperationAdd(doc, p, v).Ok? && AddsNew(At(doc, Init(p)).value, Last(p))
    ensures OperationRemove(OperationAdd(doc, p, v).value, p) == Ok(doc)
  {
    var init, last := Init(p), Last(p);
    hide AddTo, RemoveFrom, AddsNew;
    var parent := At(doc, init).value;
    AddToRemoveFrom(parent, last, v);
    AtPut(doc, init, AddTo(parent, last, v).value, parent);
  }

  lemma ReplaceChild(parent: Json, last: string, v: Json)
    requires Child(parent, last).Ok?
    ensures RemoveFrom(parent, last).Ok?
    ensures AddTo(RemoveFrom(parent, last).value, last, v) == Ok(WithChild(parent, last, v))
  {
    hide ArrayIndex;
    match parent
    case Object(m) =>
      assert (m - {last})[last := v] == m[last := v];
    case Array(a) =>
      var i := ArrayIndex(last).value;
      var b := a[..i] + a[i + 1..];
      assert b[..i] + [v] + b[i..] == a[i := v];
  }

  // ----- replace -----

  /** Replacing is possible exactly where there is a value; it is removing and adding, and it
      changes nothing at other locations. */
  lemma ReplaceExactly(doc: Json, p: seq<string>, v: Json)
    ensures OperationReplace(doc, p, v).Ok? <==> At(doc, p).Ok?
    ensures At(doc, p).Throw? ==> OperationReplace(doc, p, v) == At(doc, p)
    ensures At(doc, p).Ok? && p != [] ==> OperationRemove(doc, p).Ok?
    ensures At(doc, p).Ok? && p != [] ==>
      OperationReplace(doc, p, v) == OperationAdd(OperationRemove(doc, p).value, p, v)
    ensures At(doc, p).Ok? ==> At(OperationReplace(doc, p, v).value, p) == Ok(v)
    ensures At(doc, p).Ok? ==> forall q :: Diverge(p, q) ==> At(OperationReplace(doc, p, v).value, q) == At(doc, q)
  {
    hide Child, WithChild, AddTo, RemoveFrom, Diverge;
    if At(doc, p).Ok? {
      AtPut(doc, p, v, v);
      forall q | Diverge(p, q) ensures At(Put(doc, p, v), q) == At(doc, q) {
        PutElsewhere(doc, p, v, q);
      }
      if p != [] {
        ReplaceIsRemoveThenAdd(doc, p, v);
      }
    }
  }

  lemma ReplaceIsRemoveThenAdd(doc: Json, p: seq<string>, v: Json)
    requires p != [] && At(doc, p).Ok?
    ensures OperationRemove(doc, p).Ok?
    ensures OperationAdd(OperationRemove(doc, p).value, p, v) == Ok(Put(doc, p, v))
  {
    var init, last := Init(p), Last(p);
    assert p == init + [last];
    AtConcat(doc, init, [last]);
    AtSnoc(doc, init, last);
    PutSnoc(doc, init, last, v);
    hide Child, WithChild, AddTo, RemoveFrom;
    var parent := At(doc, init).value;
    ReplaceChild(parent, last, v);
    var removed := RemoveFrom(parent, last).value;
    var mid := Put(doc, init, removed);
    AtPut(doc, init, removed, WithChild(parent, last, v));
    TopThrows(mid, p);
  }

  // ----- test -----

  /** A test passes, and leaves the document alone, exactly if a value equal to the given one is
      at the location.  Otherwise it fails with 501, unless an array index is ill-formed. */
  lemma TestExactly(doc: Json, p: seq<string>, v: Json)
    ensures OperationTest(doc, p, v).Ok? <==> At(doc, p).Ok? && Equal(At(doc, p).value, v)
    ensures OperationTest(doc, p, v).Ok? ==> OperationTest(doc, p, v) == Ok(doc)
    ensures At(doc, p).Ok? && !Equal(At(doc, p).value, v) ==> OperationTest(doc, p, v) == Throw(501)
    ensures At(doc, p).Throw? ==>
      OperationTest(doc, p, v) == if At(doc, p).code in {106, 109} then At(doc, p) else Throw(501)
  {
    if At(doc, p).Throw? {
      AtThrows(doc, p);
    }
  }

  // ----- copy -----

  /** A copy adds the value found at `from`, and fails exactly if there is none or it cannot be
      added. */
  lemma CopyExactly(doc: Json, from: seq<string>, p: seq<string>)
    requires p != []
    ensures OperationCopy(doc, from, p).Ok? <==> At(doc, from).Ok? && CanAdd(doc, p)
    ensures At(doc, from).Throw? ==> OperationCopy(doc, from, p) == At(doc, from)
    ensures OperationCopy(doc, from, p).Ok? ==>
      AddSays(doc, p, At(doc, from).value, OperationCopy(doc, from, p).value)
  {
    hide AddSays, CanAdd, OperationAdd;
    if At(doc, from).Ok? {
      AddExactly(doc, p, At(doc, from).value);
    }
  }

  // ----- move -----

  /** A move takes the value at `from` away and adds it at `p` to what is left. */
  lemma MoveExactly(doc: Json, from: seq<string>, p: seq<string>)
    requires p != [] && from != []
    ensures At(doc, from).Throw? ==> OperationMove(doc, from, p) == At(doc, from)
    ensures At(doc, from).Ok? ==> exists mid ::
      && RemoveSays(doc, from, mid)
      && (OperationMove(doc, from, p).Ok? <==> CanAdd(mid, p))
      && (OperationMove(doc, from, p).Ok? ==> AddSays(mid, p, At(doc, from).value, OperationMove(doc, from, p).value))
  {
    hide AddSays, RemoveSays, CanAdd, OperationAdd, OperationRemove;
    if At(doc, from).Ok? {
      RemoveExactly(doc, from);
      var mid := OperationRemove(doc, from).value;
      AddExactly(mid, p, At(doc, from).value);
      assert RemoveSays(doc, from, mid);
    }
  }

  /** The whole document cannot be moved. */
  lemma RootStays(doc: Json, p: seq<string>)
    ensures OperationMove(doc, [], p) == Throw(405)
  {
  }

  /** To move a value to where it is changes nothing. */
  lemma MoveToItself(doc: Json, p: seq<string>)
    requires p != [] && At(doc, p).Ok?
    ensures OperationMove(doc, p, p) == Ok(doc)
  {
    RemoveThenAdd(doc, p);
    hide OperationAdd, OperationRemove;
  }

  // ----- Members of objects -----

  /** Nothing but the member at `p` differs. */
  ghost predicate OnlyAt(doc: Json, p: seq<string>, after: Json) {
    forall q :: Diverge(p, q) ==> At(after, q) == At(doc, q)
  }

  /** Where the parent and its other members stay, so do all locations that part from `p`. */
  lemma OnlyMember(doc: Json, p: seq<string>, after: Json)
    requires p != [] && OnlyAt(doc, Init(p), after)
    requires forall t :: t != Last(p) ==> At(after, Init(p) + [t]) == At(doc, Init(p) + [t])
    ensures OnlyAt(doc, p, after)
  {
    var init := Init(p);
    forall q | Diverge(p, q) ensures At(after, q) == At(doc, q) {
      var k :| 0 <= k < |p| && k < |q| && p[..k] == q[..k] && p[k] != q[k];
      if k < |init| {
        assert init[..k] == p[..k];
        assert Diverge(init, q);
      } else {
        assert q == init + [q[k]] + q[k + 1..];
        AtConcat(after, init + [q[k]], q[k + 1..]);
        AtConcat(doc, init + [q[k]], q[k + 1..]);
      }
    }
  }

  /** An assignment does not change what kind of value is above it. */
  lemma {:induction false} PutAbove(j: Json, p: seq<string>, v: Json, k: nat)
    requires At(j, p).Ok? && k < |p|
    ensures At(j, p[..k]).Ok? && At(Put(j, p, v), p[..k]).Ok?
    ensures At(Put(j, p, v), p[..k]).value.Object? <==> At(j, p[..k]).value.Object?
    decreases |p|
  {
    if k > 0 {
      var child := Child(j, p[0]).value;
      var v' := Put(child, p[1..], v);
      ChildWithChild(j, p[0], v', v');
      PutAbove(child, p[1..], v, k - 1);
      assert p[..k][1..] == p[1..][..k - 1];
    }
    hide Child;
  }

  /** There is an object at the parent of `p`. */
  ghost predicate InObject(doc: Json, p: seq<string>) {
    p != [] && At(doc, Init(p)).Ok? && At(doc, Init(p)).value.Object?
  }

  lemma AddMember(doc: Json, p: seq<string>, v: Json)
    requires InObject(doc, p)
    ensures OperationAdd(doc, p, v).Ok?
    ensures At(OperationAdd(doc, p, v).value, p) == Ok(v) && OnlyAt(doc, p, OperationAdd(doc, p, v).value)
  {
    AddExactly(doc, p, v);
    var after := OperationAdd(doc, p, v).value;
    hide OperationAdd, At, Diverge;
    assert p == Init(p) + [Last(p)];
    OnlyMember(doc, p, after);
  }

  lemma RemoveMember(doc: Json, p: seq<string>)
    requires InObject(doc, p) && At(doc, p).Ok?
    ensures OperationRemove(doc, p).Ok?
    ensures At(OperationRemove(doc, p).value, p) == Throw(403) && OnlyAt(doc, p, OperationRemove(doc, p).value)
  {
    RemoveExactly(doc, p);
    var after := OperationRemove(doc, p).value;
    hide OperationRemove, At, Diverge;
    assert p == Init(p) + [Last(p)];
    OnlyMember(doc, p, after);
  }

  /** The removal of another member leaves an object where there was one. */
  lemma StillInObject(doc: Json, from: seq<string>, p: seq<string>)
    requires InObject(doc, from) && At(doc, from).Ok? && InObject(doc, p) && Diverge(from, p)
    ensures OperationRemove(doc, from).Ok? && InObject(OperationRemove(doc, from).value, p)
  {
    RemoveMember(doc, from);
    RemoveExactly(doc, from);
    var mid := OperationRemove(doc, from).value;
    var k :| 0 <= k < |from| && k < |p| && from[..k] == p[..k] && from[k] != p[k];
    var above := Init(from);
    if k < |p| - 1 {
      assert Init(p)[..k] == p[..k];
      assert Diverge(from, Init(p));
    } else if k < |above| {
      assert Init(p) == above[..k];
      PutAbove(doc, above, At(mid, above).value, k);
      AtPut(doc, above, RemoveFrom(At(doc, above).value, Last(from)).value, At(doc, above).value);
    } else {
      assert Init(p) == above;
    }
  }

  /** A move between objects: the value is found at its new location, nothing at the old one,
      and the same as before at every location that parts from both. */
  lemma MoveMember(doc: Json, from: seq<string>, p: seq<string>)
    requires InObject(doc, from) && At(doc, from).Ok? && InObject(doc, p) && Diverge(from, p)
    ensures OperationMove(doc, from, p).Ok?
    ensures
      var after := OperationMove(doc, from, p).value;
      && At(after, p) == At(doc, from) && At(after, from) == Throw(403)
      && forall q :: Diverge(from, q) && Diverge(p, q) ==> At(after, q) == At(doc, q)
  {
    StillInObject(doc, from, p);
    RemoveMember(doc, from);
    AddMember(OperationRemove(doc, from).value, p, At(doc, from).value);
    DivergeSym(from, p);
    hide OperationAdd, OperationRemove, InObject, Diverge, At;
  }

  lemma DivergeSym(p: seq<string>, q: seq<string>)
    requires Diverge(p, q)
    ensures Diverge(q, p)
  {
    var k :| 0 <= k < |p| && k < |q| && p[..k] == q[..k] && p[k] != q[k];
    assert q[k] != p[k];
  }

  /** A copy into an object leaves the value at both locations, and a test for it passes. */
  lemma CopyMember(doc: Json, from: seq<string>, p: seq<string>)
    requires At(doc, from).Ok? && InObject(doc, p) && Diverge(p, from)
    ensures OperationCopy(doc, from, p).Ok?
    ensures
      var after := OperationCopy(doc, from, p).value;
      && At(after, p) == At(doc, from) && At(after, from) == At(doc, from) && OnlyAt(doc, p, after)
      && OperationTest(after, p, At(doc, from).value) == Ok(after)
  {
    AddMember(doc, p, At(doc, from).value);
    EqualReflexive(At(doc, from).value);
    var after := OperationCopy(doc, from, p).value;
    TestExactly(after, p, At(doc, from).value);
    hide OperationAdd, InObject, Diverge, At, OperationTest, Equal;
  }

  // ----- A value moved into itself -----

  lemma CanAddBelow(doc: Json, p: seq<string>, rest: seq<string>)
    requires rest != []
    ensures CanAdd(doc, p + rest) <==> At(doc, p).Ok? && CanAdd(At(doc, p).value, rest)
  {
    assert Init(p + rest) == p + Init(rest) && Last(p + rest) == Last(rest);
    AtConcat(doc, p, Init(rest));
    hide At, HasPlace;
  }

  /** RFC 6902 forbids moving a value to a location inside itself.  The code does not look for
      this; it fails for members of objects, but in an array the value goes into the element
      that has taken its index, where there is one that it can be added to. */
  lemma MoveIntoItself(doc: Json, from: seq<string>, rest: seq<string>)
    requires from != [] && rest != [] && At(doc, from).Ok?
    ensures
      var init := Init(from);
      At(doc, init).Ok? &&
      (OperationMove(doc, from, from + rest).Ok? <==>
        && At(doc, init).value.Array? && ArrayIndex(Last(from)).Ok?
        && var next := At(doc, init + [ToString(ArrayIndex(Last(from)).value + 1)]);
           next.Ok? && CanAdd(next.value, rest))
  {
    var init := Init(from);
    assert from == init + [Last(from)];
    RemoveExactly(doc, from);
    var mid := OperationRemove(doc, from).value;
    AddExactly(mid, from + rest, At(doc, from).value);
    CanAddBelow(mid, from, rest);
    hide OperationAdd, OperationRemove, At, CanAdd, Diverge, ToString, ArrayIndex;
    if At(doc, init).value.Array? {
      IndexSpelledOnce(Last(from));
    }
  }

  /** So [[], []] lets its first element be moved into itself. */
  lemma MovedIntoNext()
    ensures OperationMove(Array([Array([]), Array([])]), ["0"], ["0"] + ["-"]).Ok?
  {
    var empty := Array([]);
    var doc := Array([empty, empty]);
    IndexOfToString(0);
    assert ToString(0) == "0";
    Elements(doc.elements, 0);
    Elements(doc.elements, 1);
    hide Child, ToString, ArrayIndex, OperationMove;
    assert forall t: string :: [t][1..] == [];
    assert At(doc, [ToString(0)]) == Ok(empty) && At(doc, [ToString(1)]) == Ok(empty);
    assert Init(["0"]) == [] && Last(["0"]) == "0" && [] + [ToString(1)] == [ToString(1)];
    assert Init(["-"]) == [] && Last(["-"]) == "-" && CanAdd(empty, ["-"]);
    MoveIntoItself(doc, ["0"], ["-"]);
  }
}
