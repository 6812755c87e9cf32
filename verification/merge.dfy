/**
 * The merge step the executor runs once a child plan's results arrive:
 * it checks that there is one result per target, then copies every field
 * of result `i` into target `i`.
 */
module Merge {
  import opened Wrappers
  import opened Json

  datatype MergeError =
    | CountMismatch(results: nat, targets: nat)  // a different number of results than targets
    | ResultNotObject(index: nat)                // the result at `index` is not an object

  /** The reference meaning of a shallow merge: the result's fields win, the target's others stay. */
  function Overlay(target: Fields, result: Fields): Fields
  {
    target + result
  }

  /**
   * Copies the fields of `result` into `target` one key at a time, in no
   * particular order, overwriting or inserting each.
   */
  method ShallowMerge(target: Fields, result: Fields) returns (merged: Fields)
    ensures merged.Keys == target.Keys + result.Keys
    ensures forall k :: k in result ==> merged[k] == result[k]
    ensures forall k :: k in target && k !in result ==> merged[k] == target[k]
    ensures merged == Overlay(target, result)
  {
    merged := target;
    var todo := result.Keys;
    while todo != {}
      invariant todo <= result.Keys
      invariant merged.Keys == target.Keys + (result.Keys - todo)
      invariant forall k :: k in result && k !in todo ==> merged[k] == result[k]
      invariant forall k :: k in target && k !in result ==> merged[k] == target[k]
      invariant forall k :: k in target && k in todo ==> merged[k] == target[k]
      decreases todo
    {
      var k :| k in todo;
      merged := merged[k := result[k]];
      todo := todo - {k};
    }
    assert merged.Keys == (target + result).Keys;
  }

  /**
   * Merges `results` into `targets` pairwise. A count mismatch is reported
   * before any target is touched; a non-object result stops the loop with
   * the targets before it already merged and the rest untouched.
   */
  method MergeResults(targets: seq<Fields>, results: seq<Value>) returns (merged: seq<Fields>, err: Option<MergeError>)
    ensures |merged| == |targets|
    ensures |results| != |targets| ==> err == Some(CountMismatch(|results|, |targets|)) && merged == targets
    ensures err.None? <==> |results| == |targets| && forall i :: 0 <= i < |results| ==> results[i].Obj?
    ensures err.None? ==> forall i :: 0 <= i < |targets| ==> merged[i] == Overlay(targets[i], results[i].fields)
    ensures |results| == |targets| && err.Some? ==>
              && err.value.ResultNotObject?
              && err.value.index < |results|
              && !results[err.value.index].Obj?
              && (forall i :: 0 <= i < err.value.index ==>
                    results[i].Obj? && merged[i] == Overlay(targets[i], results[i].fields))
              && merged[err.value.index..] == targets[err.value.index..]
  {
    if |results| != |targets| {
      return targets, Some(CountMismatch(|results|, |targets|));
    }
    merged := targets;
    var i := 0;
    while i < |targets|
      invariant 0 <= i <= |targets| && |merged| == |targets|
      invariant forall j :: 0 <= j < i ==> results[j].Obj? && merged[j] == Overlay(targets[j], results[j].fields)
      invariant merged[i..] == targets[i..]
    {
      if !results[i].Obj? {
        return merged, Some(ResultNotObject(i));
      }
      var m := ShallowMerge(merged[i], results[i].fields);
      assert merged[i] == targets[i..][0];
      merged := merged[i := m];
      i := i + 1;
    }
    return merged, None;
  }

  /**
   * Two sibling children that write disjoint sets of fields leave a target
   * with the same fields whichever of them is merged first.
   */
  lemma SiblingMergesCommute(target: Fields, a: Fields, b: Fields)
    requires a.Keys !! b.Keys
    ensures Overlay(Overlay(target, a), b) == Overlay(Overlay(target, b), a)
    ensures Overlay(Overlay(target, a), b).Keys == target.Keys + a.Keys + b.Keys
  {
  }
}
