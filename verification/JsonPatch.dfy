/** JSON values, locations in them, and the patch operations of patch_inplace
    (lib/nlohmann/json.hpp). */
module JsonPatch {
  import opened JsonPointer

  /** basic_json without discarded values.  Floating point numbers are real numbers, which
      leaves out NaN. */
  datatype Json =
    | Null
    | Boolean(b: bool)
    | Integer(i: int)
    | Unsigned(u: nat)
    | Float(x: real)
    | String(s: string)
    | Binary(bytes: seq<nat>)
    | Array(elements: seq<Json>)
    | Object(members: map<string, Json>)

  // ----- The library's == -----

  /** static_cast from unsigned to signed 64 bits. */
  function Signed(u: nat): int {
    var w := u % 0x1_0000_0000_0000_0000;
    if w < 0x8000_0000_0000_0000 then w else w - 0x1_0000_0000_0000_0000
  }

  /** operator==: numbers of different types compare by value. */
  predicate Equal(a: Json, b: Json)
    decreases a
  {
    match (a, b)
    case (Null, Null) => true
    case (Boolean(x), Boolean(y)) => x == y
    case (Integer(x), Integer(y)) => x == y
    case (Unsigned(x), Unsigned(y)) => x == y
    case (Float(x), Float(y)) => x == y
    case (Integer(x), Float(y)) => x as real == y
    case (Float(x), Integer(y)) => x == y as real
    case (Unsigned(x), Float(y)) => x as real == y
    case (Float(x), Unsigned(y)) => x == y as real
    case (Unsigned(x), Integer(y)) => Signed(x) == y
    case (Integer(x), Unsigned(y)) => x == Signed(y)
    case (String(x), String(y)) => x == y
    case (Binary(x), Binary(y)) => x == y
    case (Array(x), Array(y)) => |x| == |y| && forall i :: 0 <= i < |x| ==> Equal(x[i], y[i])
    case (Object(x), Object(y)) => x.Keys == y.Keys && forall k :: k in x.Keys ==> Equal(x[k], y[k])
    case _ => false
  }

  lemma {:induction false} EqualReflexive(a: Json)
    ensures Equal(a, a)
    decreases a
  {
    match a
    case Array(x) =>
      forall i | 0 <= i < |x| ensures Equal(x[i], x[i]) {
        EqualReflexive(x[i]);
      }
    case Object(x) =>
      forall k | k in x.Keys ensures Equal(x[k], x[k]) {
        EqualReflexive(x[k]);
      }
    case _ =>
  }

  // ----- Locations -----

  /** One step down: at(token). */
  function Child(j: Json, token: string): Result<Json> {
    match j
    case Object(m) => if token in m then Ok(m[token]) else Throw(403)
    case Array(a) =>
      if token == "-" then Throw(402)
      else
        var index := ArrayIndex(token);
        if index.Throw? then Throw(index.code)
        else if index.value < |a| then Ok(a[index.value]) else Throw(401)
    case _ => Throw(404)
  }

  /** The value with the child at `token` replaced. */
  function WithChild(j: Json, token: string, v: Json): Json
    requires Child(j, token).Ok?
  {
    match j
    case Object(m) => Object(m[token := v])
    case Array(a) => Array(a[ArrayIndex(token).value := v])
  }

  /** at(pointer): the checked access of get_checked. */
  function At(j: Json, tokens: seq<string>): Result<Json>
    decreases |tokens|
  {
    if tokens == [] then Ok(j)
    else
      var child := Child(j, tokens[0]);
      if child.Throw? then child else At(child.value, tokens[1..])
  }

  /** The document after an assignment to the reference that at(pointer) returns. */
  function Put(j: Json, tokens: seq<string>, v: Json): Json
    requires At(j, tokens).Ok?
    decreases |tokens|
  {
    if tokens == [] then v
    else WithChild(j, tokens[0], Put(Child(j, tokens[0]).value, tokens[1..], v))
  }

  lemma ChildWithChild(j: Json, token: string, v: Json, w: Json)
    requires Child(j, token).Ok?
    ensures Child(WithChild(j, token, v), token) == Ok(v)
    ensures WithChild(WithChild(j, token, v), token, w) == WithChild(j, token, w)
    ensures WithChild(j, token, Child(j, token).value) == j
  {
    match j
    case Object(m) =>
      assert m[token := v][token := w] == m[token := w];
      assert m[token := m[token]] == m;
    case Array(a) =>
      var i := ArrayIndex(token).value;
      assert a[i := v][i := w] == a[i := w];
      assert a[i := a[i]] == a;
  }

  /** What is put is there; putting again overwrites; putting back changes nothing. */
  lemma {:induction false} AtPut(j: Json, tokens: seq<string>, v: Json, w: Json)
    requires At(j, tokens).Ok?
    ensures At(Put(j, tokens, v), tokens) == Ok(v)
    ensures Put(Put(j, tokens, v), tokens, w) == Put(j, tokens, w)
    ensures Put(j, tokens, At(j, tokens).value) == j
    decreases |tokens|
  {
    if tokens != [] {
      var child := Child(j, tokens[0]).value;
      AtPut(child, tokens[1..], v, w);
      ChildWithChild(j, tokens[0], Put(child, tokens[1..], v), Put(child, tokens[1..], w));
    }
  }

  /** One token more is one step further down. */
  lemma {:induction false} AtSnoc(j: Json, tokens: seq<string>, t: string)
    requires At(j, tokens).Ok?
    ensures At(j, tokens + [t]) == Child(At(j, tokens).value, t)
    decreases |tokens|
  {
    if tokens == [] {
      assert ([] + [t])[1..] == [];
    } else {
      assert (tokens + [t])[1..] == tokens[1..] + [t];
      AtSnoc(Child(j, tokens[0]).value, tokens[1..], t);
    }
  }

  lemma {:induction false} PutSnoc(j: Json, tokens: seq<string>, t: string, v: Json)
    requires At(j, tokens).Ok? && Child(At(j, tokens).value, t).Ok?
    ensures At(j, tokens + [t]).Ok?
    ensures Put(j, tokens + [t], v) == Put(j, tokens, WithChild(At(j, tokens).value, t, v))
    decreases |tokens|
  {
    AtSnoc(j, tokens, t);
    if tokens == [] {
      assert ([] + [t])[1..] == [];
    } else {
      assert (tokens + [t])[1..] == tokens[1..] + [t];
      PutSnoc(Child(j, tokens[0]).value, tokens[1..], t, v);
    }
  }

  /** A location that exists has existing locations above it. */
  lemma {:induction false} TopExists(j: Json, tokens: seq<string>)
    requires At(j, tokens).Ok? && tokens != []
    ensures At(j, [tokens[0]]).Ok?
  {
    assert [tokens[0]][1..] == [];
  }

  // ----- The operations -----

  datatype Op =
    | Add(path: string, value: Json)
    | Remove(path: string)
    | Replace(path: string, value: Json)
    | Move(from: string, path: string)
    | Copy(from: string, path: string)
    | Test(path: string, value: Json)

  /** The parent of an added value.  The source asserts that it is no primitive; 0 stands for
      a failed assertion. */
  function AddTo(parent: Json, last: string, v: Json): Result<Json> {
    match parent
    case Null => Ok(Object(map[last := v]))
    case Object(m) => Ok(Object(m[last := v]))
    case Array(a) =>
      if last == "-" then Ok(Array(a + [v]))
      else
        var index := ArrayIndex(last);
        if index.Throw? then Throw(index.code)
        else if index.value > |a| then Throw(401)
        else Ok(Array(a[..index.value] + [v] + a[index.value..]))
    case _ => Throw(0)
  }

  function OperationAdd(doc: Json, tokens: seq<string>, v: Json): Result<Json> {
    if tokens == [] then Ok(v)
    else
      var init, last := tokens[..|tokens| - 1], tokens[|tokens| - 1];
      if |tokens| > 1 && At(doc, [tokens[0]]).Throw? then At(doc, [tokens[0]])
      else
        var parent := At(doc, init);
        if parent.Throw? then parent
        else
          var added := AddTo(parent.value, last, v);
          if added.Throw? then added else Ok(Put(doc, init, added.value))
  }

  /** The parent of a removed value; a primitive parent is left as it is. */
  function RemoveFrom(parent: Json, last: string): Result<Json> {
    match parent
    case Object(m) => if last in m then Ok(Object(m - {last})) else Throw(403)
    case Array(a) =>
      var index := ArrayIndex(last);
      if index.Throw? then Throw(index.code)
      else if index.value >= |a| then Throw(401)
      else Ok(Array(a[..index.value] + a[index.value + 1..]))
    case _ => Ok(parent)
  }

  function OperationRemove(doc: Json, tokens: seq<string>): Result<Json> {
    if tokens == [] then Throw(405)
    else
      var init, last := tokens[..|tokens| - 1], tokens[|tokens| - 1];
      var parent := At(doc, init);
      if parent.Throw? then parent
      else
        var removed := RemoveFrom(parent.value, last);
        if removed.Throw? then removed else Ok(Put(doc, init, removed.value))
  }

  function OperationReplace(doc: Json, tokens: seq<string>, v: Json): Result<Json> {
    var was := At(doc, tokens);
    if was.Throw? then was else Ok(Put(doc, tokens, v))
  }

  function OperationMove(doc: Json, from: seq<string>, tokens: seq<string>): Result<Json> {
    var v := At(doc, from);
    if v.Throw? then v
    else
      var removed := OperationRemove(doc, from);
      if removed.Throw? then removed else OperationAdd(removed.value, tokens, v.value)
  }

  function OperationCopy(doc: Json, from: seq<string>, tokens: seq<string>): Result<Json> {
    var v := At(doc, from);
    if v.Throw? then v else OperationAdd(doc, tokens, v.value)
  }

  /** A test that finds no value fails like one that finds another; other exceptions pass
      through. */
  function OperationTest(doc: Json, tokens: seq<string>, v: Json): Result<Json> {
    var found := At(doc, tokens);
    if found.Throw? && !(401 <= found.code <= 410) then found
    else if found.Ok? && Equal(found.value, v) then Ok(doc)
    else Throw(501)
  }

  function ApplyOp(doc: Json, op: Op): Result<Json> {
    var tokens := Parse(op.path);
    if tokens.Throw? then Throw(tokens.code)
    else
      match op
      case Add(_, v) => OperationAdd(doc, tokens.value, v)
      case Remove(_) => OperationRemove(doc, tokens.value)
      case Replace(_, v) => OperationReplace(doc, tokens.value, v)
      case Test(_, v) => OperationTest(doc, tokens.value, v)
      case Move(from, _) =>
        var source := Parse(from);
        if source.Throw? then Throw(source.code) else OperationMove(doc, source.value, tokens.value)
      case Copy(from, _) =>
        var source := Parse(from);
        if source.Throw? then Throw(source.code) else OperationCopy(doc, source.value, tokens.value)
  }

  /** All operations in turn. */
  function Apply(doc: Json, ops: seq<Op>): Result<Json>
    decreases |ops|
  {
    if ops == [] then Ok(doc)
    else
      var r := ApplyOp(doc, ops[0]);
      if r.Throw? then r else Apply(r.value, ops[1..])
  }

  lemma {:induction false} ApplyConcat(doc: Json, a: seq<Op>, b: seq<Op>)
    ensures Apply(doc, a + b) == if Apply(doc, a).Throw? then Apply(doc, a) else Apply(Apply(doc, a).value, b)
    decreases |a|
  {
    if a == [] {
      assert a + b == b;
    } else {
      assert (a + b)[1..] == a[1..] + b;
      var r := ApplyOp(doc, a[0]);
      if r.Ok? {
        ApplyConcat(r.value, a[1..], b);
      }
    }
  }

  // ----- Patches as JSON values -----

  /** The object that stands for an operation. */
  function Encode(op: Op): Json {
    match op
    case Add(path, v) => Object(map["op" := String("add"), "path" := String(path), "value" := v])
    case Remove(path) => Object(map["op" := String("remove"), "path" := String(path)])
    case Replace(path, v) => Object(map["op" := String("replace"), "path" := String(path), "value" := v])
    case Move(from, path) => Object(map["op" := String("move"), "from" := String(from), "path" := String(path)])
    case Copy(from, path) => Object(map["op" := String("copy"), "from" := String(from), "path" := String(path)])
    case Test(path, v) => Object(map["op" := String("test"), "path" := String(path), "value" := v])
  }

  /** get_value with string_type. */
  function Text(m: map<string, Json>, member: string): Result<string> {
    if member in m && m[member].String? then Ok(m[member].s) else Throw(105)
  }

  /** One element of the patch, checked in the order of the source. */
  function ApplyElement(doc: Json, element: Json): Result<Json> {
    if !element.Object? then Throw(104)
    else
      var m := element.members;
      var op, path := Text(m, "op"), Text(m, "path");
      if op.Throw? then Throw(op.code)
      else if path.Throw? then Throw(path.code)
      else
        var tokens := Parse(path.value);
        if tokens.Throw? then Throw(tokens.code)
        else if op.value == "remove" then OperationRemove(doc, tokens.value)
        else if op.value == "add" || op.value == "replace" || op.value == "test" then
          if "value" !in m then Throw(105)
          else if op.value == "add" then OperationAdd(doc, tokens.value, m["value"])
          else if op.value == "replace" then OperationReplace(doc, tokens.value, m["value"])
          else OperationTest(doc, tokens.value, m["value"])
        else if op.value == "move" || op.value == "copy" then
          var from := Text(m, "from");
          if from.Throw? then Throw(from.code)
          else
            var source := Parse(from.value);
            if source.Throw? then Throw(source.code)
            else if op.value == "move" then OperationMove(doc, source.value, tokens.value)
            else OperationCopy(doc, source.value, tokens.value)
        else Throw(105)
  }

  lemma ElementIsOp(doc: Json, op: Op)
    ensures ApplyElement(doc, Encode(op)) == ApplyOp(doc, op)
  {
    hide Parse, OperationAdd, OperationRemove, OperationReplace, OperationTest, OperationMove, OperationCopy;
    var m := Encode(op).members;
    assert Text(m, "path") == Ok(op.path);
    match op
    case Add(_, v) => assert Text(m, "op") == Ok("add") && m["value"] == v;
    case Remove(_) => assert Text(m, "op") == Ok("remove");
    case Replace(_, v) => assert Text(m, "op") == Ok("replace") && m["value"] == v;
    case Test(_, v) => assert Text(m, "op") == Ok("test") && m["value"] == v;
    case Move(from, _) => assert Text(m, "op") == Ok("move") && Text(m, "from") == Ok(from);
    case Copy(from, _) => assert Text(m, "op") == Ok("copy") && Text(m, "from") == Ok(from);
  }

  function ApplyElements(doc: Json, elements: seq<Json>): Result<Json>
    decreases |elements|
  {
    if elements == [] then Ok(doc)
    else
      var r := ApplyElement(doc, elements[0]);
      if r.Throw? then r else ApplyElements(r.value, elements[1..])
  }

  /** patch. */
  function Patch(doc: Json, patch: Json): Result<Json> {
    if !patch.Array? then Throw(104) else ApplyElements(doc, patch.elements)
  }

  function EncodeAll(ops: seq<Op>): seq<Json> {
    seq(|ops|, i requires 0 <= i < |ops| => Encode(ops[i]))
  }

  lemma {:induction false} ElementsAreOps(doc: Json, ops: seq<Op>)
    ensures ApplyElements(doc, EncodeAll(ops)) == Apply(doc, ops)
    decreases |ops|
  {
    if ops != [] {
      ElementIsOp(doc, ops[0]);
      assert EncodeAll(ops)[1..] == EncodeAll(ops[1..]);
      var r := ApplyOp(doc, ops[0]);
      if r.Ok? {
        ElementsAreOps(r.value, ops[1..]);
      }
    }
  }

  /** A document patched in place. */
  class Document {
    var value: Json

    constructor (value: Json)
      ensures this.value == value
    {
      this.value := value;
    }

    /** patch_inplace; `thrown` is the number of the exception. */
    method PatchInPlace(patch: Json) returns (thrown: nat, ok: bool)
      modifies this
      ensures ok <==> Patch(old(value), patch).Ok?
      ensures ok ==> Patch(old(value), patch) == Ok(value)
      ensures !ok ==> Patch(old(value), patch) == Throw(thrown)
    {
      if !patch.Array? {
        return 104, false;
      }
      var elements := patch.elements;
      var i := 0;
      while i < |elements|
        invariant 0 <= i <= |elements|
        invariant Patch(old(value), patch) == ApplyElements(value, elements[i..])
      {
        assert elements[i..][0] == elements[i] && elements[i..][1..] == elements[i + 1..];
        var r := ApplyElement(value, elements[i]);
        hide ApplyElement;
        if r.Throw? {
          return r.code, false;
        }
        value := r.value;
        i := i + 1;
      }
      return 0, true;
    }
  }
}
