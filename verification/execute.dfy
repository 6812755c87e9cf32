/**
 * The target initialisation of the executor's `execute` as written: before
 * a child plan runs, its follower is set to the node's first result as the
 * only target and no keys, without following the child's path.
 */
module Execute {
  import opened Wrappers
  import opened Json
  import opened PathFollower
  import opened Merge

  /** Go runtime panics reachable in the initialisation. */
  datatype Panic =
    | IndexOutOfRange   // indexing the first element of an empty result slice
    | NotAMap           // asserting that the first result is an object when it is not

  /** The node's result slice before its children run: one empty object for the coordinator, nil otherwise. */
  function NodeResult(isCoordinator: bool): seq<Value>
  {
    if isCoordinator then [Obj(map[])] else []
  }

  /**
   * The follower a child plan starts from: the first result as the single
   * target and an empty key list, whatever the child's path is. Whenever it
   * does not panic, targets and keys are out of step, so the follower is
   * never one a path walk could have produced.
   */
  function ChildFollowerAsWritten(res: seq<Value>): (r: Result<Follower, Panic>)
    ensures r.Failure? <==> |res| == 0 || !res[0].Obj?
    ensures |res| == 0 ==> r == Failure(IndexOutOfRange)
    ensures |res| > 0 && !res[0].Obj? ==> r == Failure(NotAMap)
    ensures r.Success? ==> r.value == Follower([res[0].fields], []) && !Marked(r.value)
  {
    if |res| == 0 then Failure(IndexOutOfRange)
    else if !res[0].Obj? then Failure(NotAMap)
    else Success(Follower([res[0].fields], []))
  }

  /** A plan that is not the coordinator panics as soon as it has a child. */
  lemma NonCoordinatorChildPanics()
    ensures ChildFollowerAsWritten(NodeResult(false)) == Failure(IndexOutOfRange)
  {
  }

  /**
   * A coordinator's child gets the empty root object as its one target and
   * no keys, whereas following any path at all over that root fails: the
   * empty object has no marker, no field and no type name.
   */
  lemma CoordinatorChildIsUnkeyed(path: seq<PathStep>)
    ensures ChildFollowerAsWritten(NodeResult(true)) == Success(Follower([map[]], []))
    ensures Extract(List(NodeResult(true)), path).Failure?
  {
    var root := List(NodeResult(true));
    assert ExtractEach(root, 1, path) == Success(Empty);
    if |path| > 0 {
      match path[0]
      case Field(name) =>
        assert Extract(root.items[0], path) == Failure(MissingField(name));
      case Type(name) =>
        assert Extract(root.items[0], path) == Failure(NoTypename);
    }
  }

  /**
   * A root result `{orders: [o1, o2]}` whose orders carry their buyers'
   * ids as markers: following `[Field("orders")]` yields both orders as
   * targets with the ids as keys, and merging one `{buyer: ...}` answer per
   * key adds the buyer to each order and keeps its other fields.
   */
  lemma OrdersScenario(buyer1: Value, buyer2: Value)
    ensures
      var o1: Fields := map["id" := Num(1), FederationField := Str("u7")];
      var o2: Fields := map["id" := Num(2), FederationField := Str("u9")];
      var root := Obj(map["orders" := List([Obj(o1), Obj(o2)])]);
      var r := Extract(root, [Field("orders")]);
      && r == Success(Follower([o1, o2], [Str("u7"), Str("u9")]))
      && Overlay(r.value.targets[0], map["buyer" := buyer1])
         == map["id" := Num(1), FederationField := Str("u7"), "buyer" := buyer1]
      && Overlay(r.value.targets[1], map["buyer" := buyer2])
         == map["id" := Num(2), FederationField := Str("u9"), "buyer" := buyer2]
  {
    var o1: Fields := map["id" := Num(1), FederationField := Str("u7")];
    var o2: Fields := map["id" := Num(2), FederationField := Str("u9")];
    var orders := List([Obj(o1), Obj(o2)]);
    var root := Obj(map["orders" := orders]);
    FieldStep(root.fields, "orders", []);
    assert [Field("orders")] + [] == [Field("orders")];
    ExhaustedListOfMarkedObjects([Obj(o1), Obj(o2)]);
    var found := Extract(orders, []).value;
    assert found.targets == [o1, o2];
    assert found.keys == [Str("u7"), Str("u9")];
  }
}
