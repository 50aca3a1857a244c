/** diff of lib/nlohmann/json.hpp, and the law it is for: applying the difference of two
    values to the first yields a value equal to the second. */
module JsonDiff {
  import opened JsonPointer
  import opened JsonPatch

  /** value_t. */
  datatype Kind = NullKind | BooleanKind | IntegerKind | UnsignedKind | FloatKind
      | StringKind | BinaryKind | ArrayKind | ObjectKind

  function KindOf(j: Json): Kind {
    match j
    case Null => NullKind
    case Boolean(_) => BooleanKind
    case Integer(_) => IntegerKind
    case Unsigned(_) => UnsignedKind
    case Float(_) => FloatKind
    case String(_) => StringKind
    case Binary(_) => BinaryKind
    case Array(_) => ArrayKind
    case Object(_) => ObjectKind
  }

  /** Wherever `was` is found at the location, the operations turn it into `v` and change
      nothing else. */
  ghost predicate Turns(tokens: seq<string>, was: Json, ops: seq<Op>, v: Json) {
    forall doc :: At(doc, tokens) == Ok(was) ==> Apply(doc, ops) == Ok(Put(doc, tokens, v))
  }

  /** Wherever `was` is found, the operations turn it, and nothing else, into a value equal to
      `target`. */
  ghost predicate TurnsInto(tokens: seq<string>, was: Json, ops: seq<Op>, target: Json) {
    exists v :: Turns(tokens, was, ops, v) && Equal(v, target)
  }

  // ----- Operations at one location -----

  lemma TurnsNothing(tokens: seq<string>, was: Json)
    ensures Turns(tokens, was, [], was)
  {
    forall doc | At(doc, tokens) == Ok(was) ensures Apply(doc, []) == Ok(Put(doc, tokens, was)) {
      AtPut(doc, tokens, was, was);
    }
  }

  lemma TurnsInTurn(tokens: seq<string>, a: Json, ops: seq<Op>, b: Json, more: seq<Op>, c: Json)
    requires Turns(tokens, a, ops, b) && Turns(tokens, b, more, c)
    ensures Turns(tokens, a, ops + more, c)
  {
    forall doc | At(doc, tokens) == Ok(a) ensures Apply(doc, ops + more) == Ok(Put(doc, tokens, c)) {
      ApplyConcat(doc, ops, more);
      AtPut(doc, tokens, b, c);
    }
  }

  /** What turns a child turns its parent. */
  lemma TurnsParent(tokens: seq<string>, t: string, parent: Json, child: Json, ops: seq<Op>, v: Json)
    requires Child(parent, t) == Ok(child) && Turns(tokens + [t], child, ops, v)
    ensures Turns(tokens, parent, ops, WithChild(parent, t, v))
  {
    forall doc | At(doc, tokens) == Ok(parent)
      ensures Apply(doc, ops) == Ok(Put(doc, tokens, WithChild(parent, t, v)))
    {
      AtSnoc(doc, tokens, t);
      PutSnoc(doc, tokens, t, v);
    }
  }

  lemma ApplyOne(doc: Json, op: Op)
    ensures Apply(doc, [op]) == ApplyOp(doc, op)
  {
    assert [op][1..] == [];
    var r := ApplyOp(doc, op);
    if r.Ok? {
      assert Apply(r.value, []) == r;
    }
  }

  lemma TurnsReplace(tokens: seq<string>, was: Json, v: Json)
    ensures Turns(tokens, was, [Replace(Render(tokens), v)], v)
  {
    ParseRender(tokens);
    forall doc | At(doc, tokens) == Ok(was)
      ensures Apply(doc, [Replace(Render(tokens), v)]) == Ok(Put(doc, tokens, v))
    {
      ApplyOne(doc, Replace(Render(tokens), v));
    }
  }

  lemma TurnsRemove(tokens: seq<string>, t: string, parent: Json)
    requires RemoveFrom(parent, t).Ok?
    ensures Turns(tokens, parent, [Remove(Render(tokens + [t]))], RemoveFrom(parent, t).value)
  {
    var op := Remove(Render(tokens + [t]));
    ParseRender(tokens + [t]);
    assert (tokens + [t])[..|tokens|] == tokens;
    forall doc | At(doc, tokens) == Ok(parent)
      ensures Apply(doc, [op]) == Ok(Put(doc, tokens, RemoveFrom(parent, t).value))
    {
      ApplyOne(doc, op);
    }
  }

  lemma TurnsAdd(tokens: seq<string>, t: string, parent: Json, v: Json)
    requires AddTo(parent, t, v).Ok?
    ensures Turns(tokens, parent, [Add(Render(tokens + [t]), v)], AddTo(parent, t, v).value)
  {
    var op := Add(Render(tokens + [t]), v);
    ParseRender(tokens + [t]);
    assert (tokens + [t])[..|tokens|] == tokens;
    forall doc | At(doc, tokens) == Ok(parent)
      ensures Apply(doc, [op]) == Ok(Put(doc, tokens, AddTo(parent, t, v).value))
    {
      ApplyOne(doc, op);
      if tokens != [] {
        TopExists(doc, tokens);
        assert (tokens + [t])[0] == tokens[0];
      }
    }
  }

  lemma RenderChild(tokens: seq<string>, t: string)
    ensures Render(tokens + [t]) == Render(tokens) + "/" + Escape(t)
  {
    assert (tokens + [t])[..|tokens|] == tokens;
  }

  // ----- Arrays -----

  lemma {:induction false} EscapeOfDigits(s: string)
    requires forall i :: 0 <= i < |s| ==> IsDigit(s[i])
    ensures Escape(s) == s
  {
    if s != "" {
      assert s == [s[0]] + s[1..];
      EscapeCons(s[0], s[1..]);
      EscapeOfDigits(s[1..]);
    }
  }

  /** The path of an element needs no escaping. */
  lemma RenderIndex(tokens: seq<string>, i: nat)
    ensures Render(tokens + [ToString(i)]) == Render(tokens) + "/" + ToString(i)
  {
    RenderChild(tokens, ToString(i));
    ToStringIs(i);
    EscapeOfDigits(ToString(i));
  }

  lemma RenderDash(tokens: seq<string>)
    ensures Render(tokens + ["-"]) == Render(tokens) + "/-"
  {
    RenderChild(tokens, "-");
    assert "-" == ['-'] + "";
    EscapeCons('-', "");
    assert Escape("-") == "-";
  }

  lemma TurnsElement(tokens: seq<string>, a: seq<Json>, i: nat, ops: seq<Op>, v: Json)
    requires i < |a| && Turns(tokens + [ToString(i)], a[i], ops, v)
    ensures Turns(tokens, Array(a), ops, Array(a[i := v]))
  {
    IndexOfToString(i);
    TurnsParent(tokens, ToString(i), Array(a), a[i], ops, v);
  }

  /** Removing the last element. */
  lemma TurnsRemoveLast(tokens: seq<string>, a: seq<Json>)
    requires a != []
    ensures Turns(tokens, Array(a), [Remove(Render(tokens) + "/" + ToString(|a| - 1))], Array(a[..|a| - 1]))
  {
    var i := |a| - 1;
    RenderIndex(tokens, i);
    RemoveLastIs(a);
    hide *;
    TurnsRemove(tokens, ToString(i), Array(a));
  }

  lemma RemoveLastIs(a: seq<Json>)
    requires a != []
    ensures RemoveFrom(Array(a), ToString(|a| - 1)) == Ok(Array(a[..|a| - 1]))
  {
    var i := |a| - 1;
    IndexOfToString(i);
    hide ToString, ArrayIndex;
    assert a[..i] + a[i + 1..] == a[..i];
  }

  /** Removals from the highest index down to `n`, for arrays of length `k`. */
  ghost predicate Truncates(tokens: seq<string>, n: nat, k: nat, ops: seq<Op>) {
    n <= k && forall a: seq<Json> :: |a| == k ==> Turns(tokens, Array(a), ops, Array(a[..n]))
  }

  lemma TruncatesNothing(tokens: seq<string>, n: nat)
    ensures Truncates(tokens, n, n, [])
  {
    forall a: seq<Json> | |a| == n ensures Turns(tokens, Array(a), [], Array(a[..n])) {
      TurnsNothing(tokens, Array(a));
      assert a[..n] == a;
    }
  }

  lemma TruncatesMore(tokens: seq<string>, n: nat, k: nat, ops: seq<Op>)
    requires Truncates(tokens, n, k, ops)
    ensures Truncates(tokens, n, k + 1, [Remove(Render(tokens) + "/" + ToString(k))] + ops)
  {
    var op := Remove(Render(tokens) + "/" + ToString(k));
    forall a: seq<Json> | |a| == k + 1 ensures Turns(tokens, Array(a), [op] + ops, Array(a[..n])) {
      TurnsRemoveLast(tokens, a);
      assert a[..k][..n] == a[..n];
      TurnsInTurn(tokens, Array(a), [op], Array(a[..k]), ops, Array(a[..n]));
    }
  }

  lemma TurnsAppend(tokens: seq<string>, a: seq<Json>, v: Json)
    ensures Turns(tokens, Array(a), [Add(Render(tokens) + "/-", v)], Array(a + [v]))
  {
    RenderDash(tokens);
    TurnsAdd(tokens, "-", Array(a), v);
  }

  // ----- Every operation is needed -----

  /** Both are arrays, or both are objects. */
  ghost predicate SameShape(a: Json, b: Json) {
    (a.Array? && b.Array?) || (a.Object? && b.Object?)
  }

  ghost predicate SameShapeAt(source: Json, target: Json, q: seq<string>) {
    At(source, q).Ok? && At(target, q).Ok? && SameShape(At(source, q).value, At(target, q).value)
  }

  /** The operation is about location `q` of the two values, which are at `tokens` of a document:
      it replaces a value that differs by one that has not the same shape; or removes what only
      the source has, or adds what only the target has, to arrays or objects that both have. */
  ghost predicate NeededAt(source: Json, target: Json, tokens: seq<string>, q: seq<string>, op: Op) {
    match op
    case Replace(path, v) =>
      && path == Render(tokens + q) && At(source, q).Ok? && At(target, q) == Ok(v)
      && !Equal(At(source, q).value, v) && !SameShape(At(source, q).value, v)
    case Remove(path) =>
      && q != [] && path == Render(tokens + q) && SameShapeAt(source, target, q[..|q| - 1])
      && At(source, q).Ok? && At(target, q).Throw?
    case Add(path, v) =>
      && q != [] && SameShapeAt(source, target, q[..|q| - 1])
      && At(source, q).Throw? && At(target, q) == Ok(v)
      && path == Render(tokens + if At(target, q[..|q| - 1]).value.Array? then q[..|q| - 1] + ["-"] else q)
    case _ => false
  }

  ghost predicate Needed(source: Json, target: Json, tokens: seq<string>, op: Op) {
    exists q :: NeededAt(source, target, tokens, q, op)
  }

  ghost predicate AllNeeded(source: Json, target: Json, tokens: seq<string>, ops: seq<Op>) {
    forall op :: op in ops ==> Needed(source, target, tokens, op)
  }

  lemma NeededInTurn(source: Json, target: Json, tokens: seq<string>, a: seq<Op>, b: seq<Op>)
    requires AllNeeded(source, target, tokens, a) && AllNeeded(source, target, tokens, b)
    ensures AllNeeded(source, target, tokens, a + b)
  {
  }

  /** What is needed below is needed. */
  lemma AllNeededBelow(source: Json, target: Json, tokens: seq<string>, t: string, ops: seq<Op>)
    requires Child(source, t).Ok? && Child(target, t).Ok?
    requires AllNeeded(Child(source, t).value, Child(target, t).value, tokens + [t], ops)
    ensures AllNeeded(source, target, tokens, ops)
  {
    hide NeededAt;
    var a, b := Child(source, t).value, Child(target, t).value;
    forall op | op in ops ensures Needed(source, target, tokens, op) {
      var q :| NeededAt(a, b, tokens + [t], q, op);
      NeededBelow(source, target, tokens, t, q, op);
    }
  }

  lemma AtCons(j: Json, t: string, q: seq<string>)
    requires Child(j, t).Ok?
    ensures At(j, [t] + q) == At(Child(j, t).value, q)
  {
    assert ([t] + q)[1..] == q;
  }

  lemma NeededBelow(source: Json, target: Json, tokens: seq<string>, t: string, q: seq<string>, op: Op)
    requires Child(source, t).Ok? && Child(target, t).Ok?
    requires NeededAt(Child(source, t).value, Child(target, t).value, tokens + [t], q, op)
    ensures NeededAt(source, target, tokens, [t] + q, op)
  {
    hide At, Child, Equal, Render, SameShape;
    AtCons(source, t, q);
    AtCons(target, t, q);
    assert tokens + [t] + q == tokens + ([t] + q);
    if q != [] {
      var init, below := q[..|q| - 1], [t] + q;
      assert below[..|below| - 1] == [t] + init;
      AtCons(source, t, init);
      AtCons(target, t, init);
      assert tokens + [t] + (init + ["-"]) == tokens + ([t] + init + ["-"]);
    }
  }

  lemma ReplaceNeeded(source: Json, target: Json, tokens: seq<string>)
    requires !Equal(source, target) && !SameShape(source, target)
    ensures AllNeeded(source, target, tokens, [Replace(Render(tokens), target)])
  {
    assert tokens + [] == tokens;
    assert NeededAt(source, target, tokens, [], Replace(Render(tokens), target));
  }

  lemma OneToken(j: Json, t: string)
    ensures At(j, [t]) == Child(j, t) && [t][..|[t]| - 1] == []
  {
    assert [t][1..] == [];
  }

  lemma MemberRemoveNeeded(a: map<string, Json>, b: map<string, Json>, tokens: seq<string>, k: string)
    requires k in a && k !in b
    ensures AllNeeded(Object(a), Object(b), tokens, [Remove(Render(tokens) + "/" + Escape(k))])
  {
    RenderChild(tokens, k);
    OneToken(Object(a), k);
    OneToken(Object(b), k);
    hide Render, Escape;
    assert NeededAt(Object(a), Object(b), tokens, [k], Remove(Render(tokens + [k])));
  }

  lemma MemberAddNeeded(a: map<string, Json>, b: map<string, Json>, tokens: seq<string>, k: string)
    requires k !in a && k in b
    ensures AllNeeded(Object(a), Object(b), tokens, [Add(Render(tokens) + "/" + Escape(k), b[k])])
  {
    RenderChild(tokens, k);
    OneToken(Object(a), k);
    OneToken(Object(b), k);
    hide Render, Escape;
    assert NeededAt(Object(a), Object(b), tokens, [k], Add(Render(tokens + [k]), b[k]));
  }

  lemma ElementRemoveNeeded(a: seq<Json>, b: seq<Json>, tokens: seq<string>, i: nat)
    requires |b| <= i < |a|
    ensures Needed(Array(a), Array(b), tokens, Remove(Render(tokens) + "/" + ToString(i)))
  {
    RenderIndex(tokens, i);
    IndexOfToString(i);
    OneToken(Array(a), ToString(i));
    OneToken(Array(b), ToString(i));
    hide Render, ToString, ArrayIndex;
    assert NeededAt(Array(a), Array(b), tokens, [ToString(i)], Remove(Render(tokens + [ToString(i)])));
  }

  lemma ElementAddNeeded(a: seq<Json>, b: seq<Json>, tokens: seq<string>, i: nat)
    requires |a| <= i < |b|
    ensures Needed(Array(a), Array(b), tokens, Add(Render(tokens) + "/-", b[i]))
  {
    RenderDash(tokens);
    IndexOfToString(i);
    OneToken(Array(a), ToString(i));
    OneToken(Array(b), ToString(i));
    hide Render, ToString, ArrayIndex;
    assert [] + ["-"] == ["-"];
    assert NeededAt(Array(a), Array(b), tokens, [ToString(i)], Add(Render(tokens + ["-"]), b[i]));
  }

  /** The removals of the second loop: from the last index of the source down. */
  ghost predicate Removals(path: string, n: nat, k: nat, ops: seq<Op>) {
    n <= k && |ops| == k - n && forall j :: 0 <= j < |ops| ==> ops[j] == Remove(path + "/" + ToString(k - 1 - j))
  }

  /** The additions of the third loop: the rest of the target in its order. */
  ghost predicate Additions(path: string, b: seq<Json>, n: nat, ops: seq<Op>) {
    n <= |b| && |ops| == |b| - n && forall j :: 0 <= j < |ops| ==> ops[j] == Add(path + "/-", b[n + j])
  }

  lemma RestNeeded(a: seq<Json>, b: seq<Json>, tokens: seq<string>, n: nat, removals: seq<Op>, additions: seq<Op>)
    requires n <= |a| && n <= |b| && (n == |a| || n == |b|)
    requires Removals(Render(tokens), n, |a|, removals) && Additions(Render(tokens), b, n, additions)
    ensures AllNeeded(Array(a), Array(b), tokens, removals)
    ensures AllNeeded(Array(a), Array(b), tokens, additions)
  {
    hide Needed, Render, ToString;
    forall op | op in removals ensures Needed(Array(a), Array(b), tokens, op) {
      var j :| 0 <= j < |removals| && removals[j] == op;
      ElementRemoveNeeded(a, b, tokens, |a| - 1 - j);
    }
    forall op | op in additions ensures Needed(Array(a), Array(b), tokens, op) {
      var j :| 0 <= j < |additions| && additions[j] == op;
      ElementAddNeeded(a, b, tokens, n + j);
    }
  }

  // ----- diff -----

  /** diff.  Recursion and loops as in the source; members are visited in any order. */
  method Diff(source: Json, target: Json, path: string, ghost tokens: seq<string>) returns (ops: seq<Op>)
    requires path == Render(tokens)
    ensures TurnsInto(tokens, source, ops, target)
    ensures Equal(source, target) ==> ops == []
    ensures AllNeeded(source, target, tokens, ops)
    decreases source, 1
  {
    if Equal(source, target) {
      TurnsNothing(tokens, source);
      return [];
    }
    if KindOf(source) == KindOf(target) == ArrayKind {
      ops := DiffArrays(source, target, path, tokens);
    } else if KindOf(source) == KindOf(target) == ObjectKind {
      ops := DiffObjects(source, target, path, tokens);
    } else {
      TurnsReplace(tokens, source, target);
      EqualReflexive(target);
      ReplaceNeeded(source, target, tokens);
      ops := [Replace(path, target)];
    }
  }

  method DiffArrays(source: Json, target: Json, path: string, ghost tokens: seq<string>) returns (ops: seq<Op>)
    requires path == Render(tokens) && source.Array? && target.Array?
    ensures TurnsInto(tokens, source, ops, target) && AllNeeded(source, target, tokens, ops)
    decreases source, 0
  {
    var a, b := source.elements, target.elements;
    ops := [];
    ghost var cur := a;
    TurnsNothing(tokens, source);
    var i := 0;
    while i < |a| && i < |b|
      invariant 0 <= i <= |a| && i <= |b| && |cur| == |a|
      invariant forall j :: 0 <= j < i ==> Equal(cur[j], b[j])
      invariant forall j :: i <= j < |a| ==> cur[j] == a[j]
      invariant Turns(tokens, source, ops, Array(cur)) && AllNeeded(source, target, tokens, ops)
    {
      RenderIndex(tokens, i);
      IndexOfToString(i);
      var more := Diff(a[i], b[i], path + "/" + ToString(i), tokens + [ToString(i)]);
      ghost var w :| Turns(tokens + [ToString(i)], a[i], more, w) && Equal(w, b[i]);
      TurnsElement(tokens, cur, i, more, w);
      TurnsInTurn(tokens, source, ops, Array(cur), more, Array(cur[i := w]));
      AllNeededBelow(source, target, tokens, ToString(i), more);
      NeededInTurn(source, target, tokens, ops, more);
      hide Turns, Equal, Render, AllNeeded;
      cur := cur[i := w];
      ops := ops + more;
      i := i + 1;
    }
    var removals := RemoveTail(path, i, |a|, tokens);
    assert Turns(tokens, Array(cur), removals, Array(cur[..i]));
    TurnsInTurn(tokens, source, ops, Array(cur), removals, Array(cur[..i]));
    ghost var changes := ops;
    ops := ops + removals;
    var additions := AppendTail(path, b, i, cur[..i], tokens);
    RestNeeded(a, b, tokens, i, removals, additions);
    NeededInTurn(source, target, tokens, changes, removals);
    NeededInTurn(source, target, tokens, ops, additions);
    TurnsInTurn(tokens, source, ops, Array(cur[..i]), additions, Array(cur[..i] + b[i..]));
    ops := ops + additions;
    TailEqual(cur[..i], b, i);
  }

  lemma TailEqual(front: seq<Json>, b: seq<Json>, i: nat)
    requires |front| == i <= |b| && forall j :: 0 <= j < i ==> Equal(front[j], b[j])
    ensures Equal(Array(front + b[i..]), Array(b))
  {
    var all := front + b[i..];
    forall j | 0 <= j < |all| ensures Equal(all[j], b[j]) {
      if j >= i {
        EqualReflexive(b[j]);
      }
    }
  }

  /** The second loop: each removal goes in front of those before it. */
  method RemoveTail(path: string, n: nat, k: nat, ghost tokens: seq<string>) returns (ops: seq<Op>)
    requires path == Render(tokens) && n <= k
    ensures Truncates(tokens, n, k, ops) && Removals(path, n, k, ops)
  {
    ops := [];
    TruncatesNothing(tokens, n);
    var i := n;
    while i < k
      invariant n <= i <= k && Truncates(tokens, n, i, ops) && Removals(path, n, i, ops)
    {
      TruncatesMore(tokens, n, i, ops);
      hide Truncates, Render, ToString;
      ops := [Remove(path + "/" + ToString(i))] + ops;
      i := i + 1;
    }
  }

  /** The third loop. */
  method AppendTail(path: string, b: seq<Json>, n: nat, ghost front: seq<Json>, ghost tokens: seq<string>)
    returns (ops: seq<Op>)
    requires path == Render(tokens) && n <= |b|
    ensures Turns(tokens, Array(front), ops, Array(front + b[n..])) && Additions(path, b, n, ops)
  {
    ops := [];
    TurnsNothing(tokens, Array(front));
    assert front + b[n..n] == front;
    var i := n;
    while i < |b|
      invariant n <= i <= |b| && Turns(tokens, Array(front), ops, Array(front + b[n..i]))
      invariant |ops| == i - n && forall j :: 0 <= j < |ops| ==> ops[j] == Add(path + "/-", b[n + j])
    {
      TurnsAppend(tokens, front + b[n..i], b[i]);
      assert front + b[n..i] + [b[i]] == front + b[n..i + 1];
      TurnsInTurn(tokens, Array(front), ops, Array(front + b[n..i]),
                  [Add(path + "/-", b[i])], Array(front + b[n..i + 1]));
      hide Turns, Render;
      ops := ops + [Add(path + "/-", b[i])];
      i := i + 1;
    }
    assert b[n..i] == b[n..];
  }

  // ----- Objects -----

  /** In the first pass: the visited members are as in the target, the others as they were. */
  ghost predicate HalfWay(a: map<string, Json>, b: map<string, Json>, todo: set<string>, cur: map<string, Json>) {
    && (forall k :: k in cur <==> k in a && (k in todo || k in b))
    && (forall k :: k in cur && k in todo ==> cur[k] == a[k])
    && (forall k :: k in cur && k !in todo ==> Equal(cur[k], b[k]))
  }

  method DiffObjects(source: Json, target: Json, path: string, ghost tokens: seq<string>) returns (ops: seq<Op>)
    requires path == Render(tokens) && source.Object? && target.Object?
    ensures TurnsInto(tokens, source, ops, target) && AllNeeded(source, target, tokens, ops)
    decreases source, 0
  {
    var a, b := source.members, target.members;
    ops := [];
    ghost var cur := a;
    TurnsNothing(tokens, source);
    var todo := a.Keys;
    while todo != {}
      invariant todo <= a.Keys && HalfWay(a, b, todo, cur)
      invariant Turns(tokens, source, ops, Object(cur)) && AllNeeded(source, target, tokens, ops)
      decreases |todo|
    {
      var k :| k in todo;
      RenderChild(tokens, k);
      assert k in cur && cur[k] == a[k];
      hide Turns, HalfWay, Render, Equal, Escape, AllNeeded;
      if k in b {
        var more := Diff(a[k], b[k], path + "/" + Escape(k), tokens + [k]);
        ghost var w :| Turns(tokens + [k], a[k], more, w) && Equal(w, b[k]);
        AllNeededBelow(source, target, tokens, k, more);
        NeededInTurn(source, target, tokens, ops, more);
        TurnsMember(tokens, source, ops, cur, k, more, w);
        MemberDone(a, b, todo, cur, k, w);
        cur := cur[k := w];
        ops := ops + more;
      } else {
        var op := Remove(path + "/" + Escape(k));
        TurnsWithoutMember(tokens, source, ops, cur, k);
        MemberGone(a, b, todo, cur, k);
        MemberRemoveNeeded(a, b, tokens, k);
        NeededInTurn(source, target, tokens, ops, [op]);
        cur := cur - {k};
        ops := ops + [op];
      }
      todo := todo - {k};
    }
    FirstPassDone(a, b, cur);
    hide Turns, HalfWay, Render, Equal, AllNeeded;
    var additions := AddMembers(a, b, path, cur, tokens);
    ghost var all :| Turns(tokens, Object(cur), additions, Object(all)) && Partly(b, {}, all);
    TurnsInTurn(tokens, source, ops, Object(cur), additions, Object(all));
    NeededInTurn(source, target, tokens, ops, additions);
    ops := ops + additions;
    MembersEqual(all, b);
  }

  /** Some of the members of `b` are in place, or equal to them. */
  ghost predicate Partly(b: map<string, Json>, todo: set<string>, cur: map<string, Json>) {
    (forall k :: k in cur <==> k in b && k !in todo) && forall k :: k in cur ==> Equal(cur[k], b[k])
  }

  lemma FirstPassDone(a: map<string, Json>, b: map<string, Json>, cur: map<string, Json>)
    requires HalfWay(a, b, {}, cur)
    ensures Partly(b, b.Keys - a.Keys, cur)
  {
  }

  lemma MembersEqual(all: map<string, Json>, b: map<string, Json>)
    requires Partly(b, {}, all)
    ensures Equal(Object(all), Object(b))
  {
    assert all.Keys == b.Keys;
  }

  lemma MemberAdded(b: map<string, Json>, todo: set<string>, cur: map<string, Json>, k: string)
    requires Partly(b, todo, cur) && k in todo && k in b
    ensures Partly(b, todo - {k}, cur[k := b[k]])
  {
    EqualReflexive(b[k]);
    hide Equal;
  }

  /** The second pass: the members that only the target has. */
  method AddMembers(a: map<string, Json>, b: map<string, Json>, path: string, ghost start: map<string, Json>,
                    ghost tokens: seq<string>)
    returns (ops: seq<Op>)
    requires path == Render(tokens) && Partly(b, b.Keys - a.Keys, start)
    ensures exists cur :: Turns(tokens, Object(start), ops, Object(cur)) && Partly(b, {}, cur)
    ensures AllNeeded(Object(a), Object(b), tokens, ops)
  {
    ops := [];
    ghost var cur := start;
    TurnsNothing(tokens, Object(start));
    var todo := b.Keys - a.Keys;
    assert AllNeeded(Object(a), Object(b), tokens, []);
    hide Turns, Render, Partly, Escape, AllNeeded;
    while todo != {}
      invariant todo <= b.Keys - a.Keys && Partly(b, todo, cur)
      invariant Turns(tokens, Object(start), ops, Object(cur)) && AllNeeded(Object(a), Object(b), tokens, ops)
      decreases |todo|
    {
      var k :| k in todo;
      var op := Add(path + "/" + Escape(k), b[k]);
      RenderChild(tokens, k);
      TurnsAdd(tokens, k, Object(cur), b[k]);
      TurnsInTurn(tokens, Object(start), ops, Object(cur), [op], Object(cur[k := b[k]]));
      MemberAdded(b, todo, cur, k);
      MemberAddNeeded(a, b, tokens, k);
      NeededInTurn(Object(a), Object(b), tokens, ops, [op]);
      cur := cur[k := b[k]];
      ops := ops + [op];
      todo := todo - {k};
    }
  }

  lemma TurnsMember(tokens: seq<string>, source: Json, ops: seq<Op>, m: map<string, Json>, k: string, more: seq<Op>,
                    v: Json)
    requires k in m && Turns(tokens, source, ops, Object(m)) && Turns(tokens + [k], m[k], more, v)
    ensures Turns(tokens, source, ops + more, Object(m[k := v]))
  {
    TurnsParent(tokens, k, Object(m), m[k], more, v);
    hide Turns;
    TurnsInTurn(tokens, source, ops, Object(m), more, Object(m[k := v]));
  }

  lemma TurnsWithoutMember(tokens: seq<string>, source: Json, ops: seq<Op>, m: map<string, Json>, k: string)
    requires k in m && Turns(tokens, source, ops, Object(m))
    ensures Turns(tokens, source, ops + [Remove(Render(tokens) + "/" + Escape(k))], Object(m - {k}))
  {
    RenderChild(tokens, k);
    TurnsRemove(tokens, k, Object(m));
    hide Turns, Render, Escape;
    TurnsInTurn(tokens, source, ops, Object(m), [Remove(Render(tokens) + "/" + Escape(k))], Object(m - {k}));
  }

  lemma MemberDone(a: map<string, Json>, b: map<string, Json>, todo: set<string>, cur: map<string, Json>, k: string,
                   w: Json)
    requires HalfWay(a, b, todo, cur) && k in todo && k in a && k in b && Equal(w, b[k])
    ensures HalfWay(a, b, todo - {k}, cur[k := w])
  {
  }

  lemma MemberGone(a: map<string, Json>, b: map<string, Json>, todo: set<string>, cur: map<string, Json>, k: string)
    requires HalfWay(a, b, todo, cur) && k in todo && k in a && k !in b
    ensures HalfWay(a, b, todo - {k}, cur - {k})
  {
  }

  /** The patch as the JSON value that diff returns, and the law: patching the source with it
      never throws and yields a value equal to the target.  It is empty exactly if the values are
      equal, and holds needed operations only. */
  method DiffPatch(source: Json, target: Json) returns (patch: Json)
    ensures patch.Array?
    ensures Patch(source, patch).Ok? && Equal(Patch(source, patch).value, target)
    ensures patch.elements == [] <==> Equal(source, target)
    ensures exists ops :: patch == Array(EncodeAll(ops)) && AllNeeded(source, target, [], ops)
  {
    var ops := Diff(source, target, "", []);
    patch := Array(EncodeAll(ops));
    ElementsAreOps(source, ops);
    assert At(source, []) == Ok(source);
    hide AllNeeded;
  }
}
