/**
 * The path follower of the federation executor: it walks a child plan's
 * path through a result tree and collects the objects the child's answer
 * is merged into (the targets) together with their correlation keys.
 *
 * Two formulations are given. `Follow` is the walk as the executor writes
 * it: it appends to an accumulator and keeps whatever it appended before
 * an error. `Extract` is the same walk as a pure function returning either
 * the collected targets and keys or the error. `FollowIsAppendOfExtract`
 * connects the two.
 */
module PathFollower {
  import opened Wrappers
  import opened Json

  /** One traversal instruction: descend into a field, or keep only objects of one concrete type. */
  datatype PathStep = Field(name: string) | Type(name: string)

  /** The errors of the walk; the wrapping constructors record where an inner error happened. */
  datatype PathError =
    | NotAnObject                                  // path exhausted on a scalar
    | MissingMarker(obj: Fields)                   // path exhausted on an object without the marker
    | MissingField(name: string)                   // field step on an object without the field
    | NoTypename                                   // type step on an object without a string type name
    | AtIndex(index: nat, inner: PathError)        // error in a list element
    | UnderElem(elem: Value, inner: PathError)     // error below a field step, tagged with the field's value
    | UnderType(typename: string, inner: PathError) // error below a matching type step

  /** The collected merge targets and, in parallel, their correlation keys. */
  datatype Follower = Follower(targets: seq<Fields>, keys: seq<Value>)

  const Empty: Follower := Follower([], [])

  function Concat(a: Follower, b: Follower): Follower
  {
    Follower(a.targets + b.targets, a.keys + b.keys)
  }

  /** Targets and keys are in lockstep, and each key is its target's marker field. */
  ghost predicate Marked(pf: Follower)
  {
    && |pf.targets| == |pf.keys|
    && forall i :: 0 <= i < |pf.targets| ==>
         FederationField in pf.targets[i] && pf.keys[i] == pf.targets[i][FederationField]
  }

  /** Every target is an object occurring inside `node`. */
  ghost predicate TargetsWithin(pf: Follower, node: Value)
  {
    forall i :: 0 <= i < |pf.targets| ==> Within(Obj(pf.targets[i]), node)
  }

  /** The object `node` reports itself as an instance of some type. */
  predicate HasTypename(node: Value)
  {
    node.Obj? && TypenameField in node.fields && node.fields[TypenameField].Str?
  }

  lemma WithinField(v: Value, fields: Fields, name: string)
    requires name in fields && Within(v, fields[name])
    ensures Within(v, Obj(fields))
  {
  }

  lemma WithinItem(v: Value, node: Value, i: nat)
    requires node.List? && i < |node.items| && Within(v, node.items[i])
    ensures Within(v, node)
  {
  }

  // ---------------------------------------------------------------------
  // The walk as a pure function
  // ---------------------------------------------------------------------

  /**
   * Follows `path` from `node`. Lists fan out before anything else, even
   * when the path is exhausted; an exhausted path must end on a marked
   * object; a non-empty path on a scalar yields nothing.
   */
  function Extract(node: Value, path: seq<PathStep>): (r: Result<Follower, PathError>)
    ensures r.Success? ==> Marked(r.value)
    decreases |path|, node, 1, 0
  {
    if node.List? then
      ExtractEach(node, 0, path)
    else if |path| == 0 then
      if !node.Obj? then Failure(NotAnObject)
      else if FederationField !in node.fields then Failure(MissingMarker(node.fields))
      else Success(Follower([node.fields], [node.fields[FederationField]]))
    else if !node.Obj? then
      Success(Empty)
    else
      match path[0]
      case Field(name) =>
        if name !in node.fields then Failure(MissingField(name))
        else
          var next := node.fields[name];
          var r := Extract(next, path[1..]);
          if r.Failure? then Failure(UnderElem(next, r.error)) else r
      case Type(name) =>
        if !HasTypename(node) then Failure(NoTypename)
        else if node.fields[TypenameField].s != name then Success(Empty)
        else
          var r := Extract(node, path[1..]);
          if r.Failure? then Failure(UnderType(name, r.error)) else r
  }

  /** The fan-out over the elements `i..` of the list `node`, concatenated in element order. */
  function ExtractEach(node: Value, i: nat, path: seq<PathStep>): (r: Result<Follower, PathError>)
    requires node.List? && i <= |node.items|
    ensures r.Success? ==> Marked(r.value)
    decreases |path|, node, 0, |node.items| - i
  {
    if i == |node.items| then
      Success(Empty)
    else
      var head := Extract(node.items[i], path);
      if head.Failure? then Failure(AtIndex(i, head.error))
      else
        var tail := ExtractEach(node, i + 1, path);
        if tail.Failure? then tail else Success(Concat(head.value, tail.value))
  }

  // ---------------------------------------------------------------------
  // The walk as the executor writes it: appending to an accumulator
  // ---------------------------------------------------------------------

  /** The accumulator after a walk, and the error the walk returned, if any. */
  datatype Walk = Walk(pf: Follower, err: Option<PathError>)

  /** What a walk appended to `before` to reach `after`. */
  function Appended(before: Follower, after: Follower): Follower
    requires |before.targets| <= |after.targets| && |before.keys| <= |after.keys|
  {
    Follower(after.targets[|before.targets|..], after.keys[|before.keys|..])
  }

  /** `after` keeps every entry of `before` and only adds to its end. */
  ghost predicate Extends(before: Follower, after: Follower)
  {
    before.targets <= after.targets && before.keys <= after.keys
  }

  /**
   * Follows `path` from `node`, appending targets and keys to `pf`. On an
   * error the entries appended so far stay in the accumulator.
   */
  function Follow(pf: Follower, node: Value, path: seq<PathStep>): (w: Walk)
    ensures Extends(pf, w.pf)
    ensures Marked(Appended(pf, w.pf))
    decreases |path|, node, 1, 0
  {
    if node.List? then
      FollowEach(pf, node, 0, path)
    else if |path| == 0 then
      if !node.Obj? then Walk(pf, Some(NotAnObject))
      else if FederationField !in node.fields then Walk(pf, Some(MissingMarker(node.fields)))
      else
        var w := Walk(Follower(pf.targets + [node.fields], pf.keys + [node.fields[FederationField]]), None);
        assert Appended(pf, w.pf) == Follower([node.fields], [node.fields[FederationField]]);
        w
    else if !node.Obj? then
      Walk(pf, None)
    else
      match path[0]
      case Field(name) =>
        if name !in node.fields then Walk(pf, Some(MissingField(name)))
        else
          var next := node.fields[name];
          var w := Follow(pf, next, path[1..]);
          if w.err.Some? then Walk(w.pf, Some(UnderElem(next, w.err.value))) else w
      case Type(name) =>
        if !HasTypename(node) then Walk(pf, Some(NoTypename))
        else if node.fields[TypenameField].s != name then Walk(pf, None)
        else
          var w := Follow(pf, node, path[1..]);
          if w.err.Some? then Walk(w.pf, Some(UnderType(name, w.err.value))) else w
  }

  /** The loop over the elements `i..` of the list `node`; the first failing element stops it. */
  function FollowEach(pf: Follower, node: Value, i: nat, path: seq<PathStep>): (w: Walk)
    requires node.List? && i <= |node.items|
    ensures Extends(pf, w.pf)
    ensures Marked(Appended(pf, w.pf))
    decreases |path|, node, 0, |node.items| - i
  {
    if i == |node.items| then
      Walk(pf, None)
    else
      var w := Follow(pf, node.items[i], path);
      if w.err.Some? then
        Walk(w.pf, Some(AtIndex(i, w.err.value)))
      else
        var w' := FollowEach(w.pf, node, i + 1, path);
        MarkedAppendedTrans(pf, w.pf, w'.pf);
        w'
  }

  lemma MarkedAppendedTrans(a: Follower, b: Follower, c: Follower)
    requires Extends(a, b) && Extends(b, c)
    requires Marked(Appended(a, b)) && Marked(Appended(b, c))
    ensures Extends(a, c) && Marked(Appended(a, c))
  {
    assert Appended(a, c) == Concat(Appended(a, b), Appended(b, c));
  }

  // ---------------------------------------------------------------------
  // The accumulating walk appends exactly what the pure walk returns
  // ---------------------------------------------------------------------

  /**
   * Following a path only appends: on success the accumulator grows by
   * exactly the targets and keys `Extract` returns, and on failure the
   * same error is reported while earlier entries are left as they were.
   */
  lemma {:induction false} FollowIsAppendOfExtract(pf: Follower, node: Value, path: seq<PathStep>)
    ensures Follow(pf, node, path).err.None? <==> Extract(node, path).Success?
    ensures Extract(node, path).Success? ==> Follow(pf, node, path).pf == Concat(pf, Extract(node, path).value)
    ensures Extract(node, path).Failure? ==> Follow(pf, node, path).err == Some(Extract(node, path).error)
    decreases |path|, node, 1, 0
  {
    if node.List? {
      FollowEachIsAppendOfExtractEach(pf, node, 0, path);
    } else if |path| == 0 || !node.Obj? {
    } else {
      match path[0]
      case Field(name) =>
        if name in node.fields {
          FollowIsAppendOfExtract(pf, node.fields[name], path[1..]);
        }
      case Type(name) =>
        if HasTypename(node) && node.fields[TypenameField].s == name {
          FollowIsAppendOfExtract(pf, node, path[1..]);
        }
    }
  }

  lemma ConcatAssoc(a: Follower, b: Follower, c: Follower)
    ensures Concat(Concat(a, b), c) == Concat(a, Concat(b, c))
  {
    assert (a.targets + b.targets) + c.targets == a.targets + (b.targets + c.targets);
    assert (a.keys + b.keys) + c.keys == a.keys + (b.keys + c.keys);
  }

  lemma {:induction false} FollowEachIsAppendOfExtractEach(pf: Follower, node: Value, i: nat, path: seq<PathStep>)
    requires node.List? && i <= |node.items|
    ensures FollowEach(pf, node, i, path).err.None? <==> ExtractEach(node, i, path).Success?
    ensures ExtractEach(node, i, path).Success? ==>
              FollowEach(pf, node, i, path).pf == Concat(pf, ExtractEach(node, i, path).value)
    ensures ExtractEach(node, i, path).Failure? ==>
              FollowEach(pf, node, i, path).err == Some(ExtractEach(node, i, path).error)
    decreases |path|, node, 0, |node.items| - i
  {
    if i < |node.items| {
      var elem := node.items[i];
      FollowIsAppendOfExtract(pf, elem, path);
      var w := Follow(pf, elem, path);
      var head := Extract(elem, path);
      if w.err.None? {
        FollowEachIsAppendOfExtractEach(w.pf, node, i + 1, path);
        var tail := ExtractEach(node, i + 1, path);
        if tail.Success? {
          ConcatAssoc(pf, head.value, tail.value);
        }
      }
    }
  }

  // ---------------------------------------------------------------------
  // Targets are objects of the walked tree
  // ---------------------------------------------------------------------

  /** Every target the walk collects is an object occurring inside the node walked. */
  lemma {:induction false} TargetsLieWithinNode(node: Value, path: seq<PathStep>)
    ensures Extract(node, path).Success? ==> TargetsWithin(Extract(node, path).value, node)
    decreases |path|, node, 1, 0
  {
    if node.List? {
      TargetsLieWithinEach(node, 0, path);
    } else if |path| == 0 || !node.Obj? {
    } else {
      match path[0]
      case Field(name) =>
        if name in node.fields {
          var r := Extract(node.fields[name], path[1..]);
          TargetsLieWithinNode(node.fields[name], path[1..]);
          if r.Success? {
            forall i | 0 <= i < |r.value.targets|
              ensures Within(Obj(r.value.targets[i]), node)
            {
              WithinField(Obj(r.value.targets[i]), node.fields, name);
            }
          }
        }
      case Type(name) =>
        if HasTypename(node) && node.fields[TypenameField].s == name {
          TargetsLieWithinNode(node, path[1..]);
        }
    }
  }

  lemma {:induction false} TargetsLieWithinEach(node: Value, i: nat, path: seq<PathStep>)
    requires node.List? && i <= |node.items|
    ensures ExtractEach(node, i, path).Success? ==> TargetsWithin(ExtractEach(node, i, path).value, node)
    decreases |path|, node, 0, |node.items| - i
  {
    if i < |node.items| {
      var head := Extract(node.items[i], path);
      TargetsLieWithinNode(node.items[i], path);
      TargetsLieWithinEach(node, i + 1, path);
      if head.Success? {
        forall k | 0 <= k < |head.value.targets|
          ensures Within(Obj(head.value.targets[k]), node)
        {
          WithinItem(Obj(head.value.targets[k]), node, i);
        }
      }
    }
  }

  // ---------------------------------------------------------------------
  // List fan-out
  // ---------------------------------------------------------------------

  /** Every element of `items` follows `path` without error. */
  ghost predicate AllOk(items: seq<Value>, path: seq<PathStep>)
  {
    forall j :: 0 <= j < |items| ==> Extract(items[j], path).Success?
  }

  /** The outputs of the elements of `items`, concatenated in element order. */
  ghost function Join(items: seq<Value>, path: seq<PathStep>): Follower
    requires AllOk(items, path)
  {
    if |items| == 0 then Empty
    else Concat(Extract(items[0], path).value, Join(items[1..], path))
  }

  lemma {:induction false} ExtractEachIsJoin(node: Value, i: nat, path: seq<PathStep>)
    requires node.List? && i <= |node.items|
    ensures ExtractEach(node, i, path).Success? <==> AllOk(node.items[i..], path)
    ensures ExtractEach(node, i, path).Success? ==>
              ExtractEach(node, i, path).value == Join(node.items[i..], path)
    ensures ExtractEach(node, i, path).Failure? ==>
              exists k :: i <= k < |node.items|
                && (forall j :: i <= j < k ==> Extract(node.items[j], path).Success?)
                && Extract(node.items[k], path).Failure?
                && ExtractEach(node, i, path).error == AtIndex(k, Extract(node.items[k], path).error)
    decreases |node.items| - i
  {
    var items := node.items;
    if i < |items| {
      ExtractEachIsJoin(node, i + 1, path);
      assert items[i..][0] == items[i];
      assert items[i..][1..] == items[i + 1..];
      if Extract(items[i], path).Failure? {
        assert !AllOk(items[i..], path) by {
          assert !Extract(items[i..][0], path).Success?;
        }
      } else if ExtractEach(node, i + 1, path).Failure? {
        var k :| i + 1 <= k < |items|
          && (forall j :: i + 1 <= j < k ==> Extract(items[j], path).Success?)
          && Extract(items[k], path).Failure?
          && ExtractEach(node, i + 1, path).error == AtIndex(k, Extract(items[k], path).error);
        assert !AllOk(items[i..], path) by {
          assert !Extract(items[i..][k - i], path).Success?;
        }
      } else {
        assert AllOk(items[i..], path) by {
          forall j | 0 <= j < |items[i..]|
            ensures Extract(items[i..][j], path).Success?
          {
            if j > 0 {
              assert items[i..][j] == items[i + 1..][j - 1];
            }
          }
        }
      }
    }
  }

  /**
   * A list node applies the same remaining path to each element: the walk
   * succeeds exactly when every element does, its output is the elements'
   * outputs concatenated in element order, and otherwise the error is that
   * of the first failing element, tagged with its index.
   */
  lemma ListFanOut(items: seq<Value>, path: seq<PathStep>)
    ensures Extract(List(items), path).Success? <==> AllOk(items, path)
    ensures Extract(List(items), path).Success? ==> Extract(List(items), path).value == Join(items, path)
    ensures Extract(List(items), path).Failure? ==>
              exists k :: 0 <= k < |items|
                && (forall j :: 0 <= j < k ==> Extract(items[j], path).Success?)
                && Extract(items[k], path).Failure?
                && Extract(List(items), path).error == AtIndex(k, Extract(items[k], path).error)
  {
    ExtractEachIsJoin(List(items), 0, path);
    assert List(items).items[0..] == items;
  }

  /**
   * With the path already exhausted, a list of N marked objects yields N
   * targets, the objects themselves, and N keys, their markers, in list order.
   */
  lemma {:induction false} ExhaustedListOfMarkedObjects(items: seq<Value>)
    requires forall j :: 0 <= j < |items| ==> items[j].Obj? && FederationField in items[j].fields
    ensures Extract(List(items), []).Success?
    ensures |Extract(List(items), []).value.targets| == |items|
    ensures forall j :: 0 <= j < |items| ==>
              && Extract(List(items), []).value.targets[j] == items[j].fields
              && Extract(List(items), []).value.keys[j] == items[j].fields[FederationField]
  {
    ExhaustedEach(List(items), 0);
  }

  lemma {:induction false} ExhaustedEach(node: Value, i: nat)
    requires node.List? && i <= |node.items|
    requires forall j :: 0 <= j < |node.items| ==> node.items[j].Obj? && FederationField in node.items[j].fields
    ensures ExtractEach(node, i, []).Success?
    ensures |ExtractEach(node, i, []).value.targets| == |node.items| - i
    ensures forall j :: i <= j < |node.items| ==>
              && ExtractEach(node, i, []).value.targets[j - i] == node.items[j].fields
              && ExtractEach(node, i, []).value.keys[j - i] == node.items[j].fields[FederationField]
    decreases |node.items| - i
  {
    if i < |node.items| {
      ExhaustedEach(node, i + 1);
      var elem := node.items[i];
      ExhaustedPath(elem);
      var tail := ExtractEach(node, i + 1, []).value;
      assert ExtractEach(node, i, []).value
          == Concat(Follower([elem.fields], [elem.fields[FederationField]]), tail);
    }
  }

  // ---------------------------------------------------------------------
  // Behaviour on a single node
  // ---------------------------------------------------------------------

  /**
   * An exhausted path on a node that is not a list succeeds exactly on an
   * object carrying the marker, which becomes the one target, with the
   * marker as its key; a non-object and an unmarked object are errors.
   */
  lemma ExhaustedPath(node: Value)
    requires !node.List?
    ensures Extract(node, []).Success? <==> node.Obj? && FederationField in node.fields
    ensures !node.Obj? ==> Extract(node, []) == Failure(NotAnObject)
    ensures node.Obj? && FederationField !in node.fields ==> Extract(node, []) == Failure(MissingMarker(node.fields))
    ensures Extract(node, []).Success? ==>
              Extract(node, []).value == Follower([node.fields], [node.fields[FederationField]])
  {
  }

  /** A non-empty path on a scalar yields no targets and no error, and leaves an accumulator unchanged. */
  lemma ScalarYieldsNothing(pf: Follower, node: Value, path: seq<PathStep>)
    requires !node.List? && !node.Obj? && |path| > 0
    ensures Extract(node, path) == Success(Empty)
    ensures Follow(pf, node, path) == Walk(pf, None)
  {
  }

  /**
   * A field step fails on an object without the field; otherwise the walk
   * continues on the field's value with the rest of the path, and an inner
   * error is wrapped with that value.
   */
  lemma FieldStep(fields: Fields, name: string, rest: seq<PathStep>)
    ensures name !in fields ==> Extract(Obj(fields), [Field(name)] + rest) == Failure(MissingField(name))
    ensures name in fields && Extract(fields[name], rest).Success? ==>
              Extract(Obj(fields), [Field(name)] + rest) == Extract(fields[name], rest)
    ensures name in fields && Extract(fields[name], rest).Failure? ==>
              Extract(Obj(fields), [Field(name)] + rest) ==
              Failure(UnderElem(fields[name], Extract(fields[name], rest).error))
  {
    assert ([Field(name)] + rest)[0] == Field(name);
    assert ([Field(name)] + rest)[1..] == rest;
  }

  /**
   * A type step on an object: a missing or non-string type name is an
   * error, a different type name yields nothing, and a matching one
   * continues on the same object with the rest of the path.
   */
  lemma TypeStep(node: Value, name: string, rest: seq<PathStep>)
    requires node.Obj?
    ensures !HasTypename(node) ==> Extract(node, [Type(name)] + rest) == Failure(NoTypename)
    ensures HasTypename(node) && node.fields[TypenameField].s != name ==>
              Extract(node, [Type(name)] + rest) == Success(Empty)
    ensures HasTypename(node) && node.fields[TypenameField].s == name && Extract(node, rest).Success? ==>
              Extract(node, [Type(name)] + rest) == Extract(node, rest)
    ensures HasTypename(node) && node.fields[TypenameField].s == name && Extract(node, rest).Failure? ==>
              Extract(node, [Type(name)] + rest) == Failure(UnderType(name, Extract(node, rest).error))
  {
    assert ([Type(name)] + rest)[0] == Type(name);
    assert ([Type(name)] + rest)[1..] == rest;
  }

  /** The elements of `items` whose reported type is `name`, in order. */
  function OfType(items: seq<Value>, name: string): (kept: seq<Value>)
    requires forall j :: 0 <= j < |items| ==> HasTypename(items[j])
    ensures forall j :: 0 <= j < |kept| ==> HasTypename(kept[j]) && kept[j].fields[TypenameField].s == name
  {
    if |items| == 0 then []
    else
      assert HasTypename(items[0]);
      if items[0].fields[TypenameField].s == name then [items[0]] + OfType(items[1..], name)
    else OfType(items[1..], name)
  }

  lemma {:induction false} TypeStepJoin(items: seq<Value>, name: string, rest: seq<PathStep>)
    requires forall j :: 0 <= j < |items| ==> HasTypename(items[j])
    ensures AllOk(items, [Type(name)] + rest) <==> AllOk(OfType(items, name), rest)
    ensures AllOk(items, [Type(name)] + rest) ==> Join(items, [Type(name)] + rest) == Join(OfType(items, name), rest)
  {
    var typed := [Type(name)] + rest;
    if |items| > 0 {
      TypeStepJoin(items[1..], name, rest);
      TypeStep(items[0], name, rest);
      var kept := OfType(items, name);
      assert AllOk(items, typed) <==> Extract(items[0], typed).Success? && AllOk(items[1..], typed) by {
        if Extract(items[0], typed).Success? && AllOk(items[1..], typed) {
          forall j | 0 <= j < |items| ensures Extract(items[j], typed).Success? {
            if j > 0 { assert items[j] == items[1..][j - 1]; }
          }
        }
      }
      if items[0].fields[TypenameField].s == name {
        assert kept[0] == items[0] && kept[1..] == OfType(items[1..], name);
        assert AllOk(kept, rest) <==> Extract(kept[0], rest).Success? && AllOk(kept[1..], rest) by {
          if Extract(kept[0], rest).Success? && AllOk(kept[1..], rest) {
            forall j | 0 <= j < |kept| ensures Extract(kept[j], rest).Success? {
              if j > 0 { assert kept[j] == kept[1..][j - 1]; }
            }
          }
        }
      } else {
        if AllOk(items, typed) {
          var t := Join(items[1..], typed);
          assert Join(items, typed) == Concat(Empty, t);
          assert Concat(Empty, t) == t;
        }
      }
    }
  }

  /**
   * A type step over a list of typed objects is a filter: following
   * `[Type(name)] + rest` succeeds exactly when following `rest` over the
   * elements of type `name` does, with the same targets and keys; elements
   * of other types contribute nothing and cause no error.
   */
  lemma TypeStepFilters(items: seq<Value>, name: string, rest: seq<PathStep>)
    requires forall j :: 0 <= j < |items| ==> HasTypename(items[j])
    ensures Extract(List(items), [Type(name)] + rest).Success? <==> Extract(List(OfType(items, name)), rest).Success?
    ensures Extract(List(items), [Type(name)] + rest).Success? ==>
              Extract(List(items), [Type(name)] + rest).value == Extract(List(OfType(items, name)), rest).value
  {
    ListFanOut(items, [Type(name)] + rest);
    ListFanOut(OfType(items, name), rest);
    TypeStepJoin(items, name, rest);
  }
}
