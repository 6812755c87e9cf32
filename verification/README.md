# Result-tree correlation in the federation executor

This project models the part of the federation gateway's executor that ties
a child plan's answer back into its parent's result tree. The gateway splits
a graph query into sub-queries across services. When a child sub-query
re-enters an object owned by another service, the executor must find the
objects in the parent's fetched result that the child's answer belongs to.
It then copies the answer's fields into them.

Two pieces of `federation/executor.go` are modelled:

- **The path follower** (`pathFollower.extractTargets`). It walks a child
  plan's path (a sequence of field steps and type steps) through a
  JSON-like result. It collects the merge targets: the objects where the
  path ends. It also collects, in parallel, each target's correlation key:
  the value of its reserved `__federation` field. Lists fan out element by
  element, even when the path is already exhausted. A type step keeps only
  objects whose `__typename` matches. A non-empty path that reaches a
  scalar yields nothing and no error.
- **The merge step** inside `Executor.execute`. It checks that a child
  returned one result per target. It then copies every field of result `i`
  into target `i`, overwriting or inserting.

The walk is given twice. `PathFollower.Follow` is the walk as written: it
appends to an accumulator and keeps the entries appended before an error.
`PathFollower.Extract` is the same walk as a pure function returning the
targets and keys or the error. `PathFollower.FollowIsAppendOfExtract`
proves that they agree. The merge is a pair of loops
(`Merge.MergeResults`, `Merge.ShallowMerge`). They are proved against a
reference shallow merge, `Merge.Overlay`.

As written, `execute` never calls the path follower. For every child it
sets the targets to the node's first result and the keys to nil
(federation/executor.go:170-174). The node's result is nil unless the plan
is the coordinator (federation/executor.go:156-162). So any other plan with
a child indexes an empty slice. For the coordinator, the child gets one
target and no keys. `Execute.ChildFollowerAsWritten` models this
initialisation as it stands, and two lemmas state what it does. The model
does not replace it with a path walk. A non-coordinator `execute` also returns a nil
result slice (federation/executor.go:156, 206). So a coordinator whose child
has no children of its own always fails the count check with 0 results for
1 target (federation/executor.go:182-183), which `Merge.MergeResults`
reports as `CountMismatch(0, 1)`.

Two further details of the code are kept as written. An error below a field step is tagged with the value found at that
field (`elem %s`), not with the field's name. `execute` issues no backend
call at all and never uses its `keys` argument.

## Model

| member | source | states |
|---|---|---|
| PathFollower.Extract | federation/executor.go:98-153 | on success, targets and keys have the same length and every key is the `__federation` value of the target at the same position |
| PathFollower.ExtractEach | federation/executor.go:99-105 | the outputs of the list elements from one index on keep targets and keys in lockstep, each key being its target's marker |
| PathFollower.Follow | federation/executor.go:98-153 | the walk only appends: earlier targets and keys are unchanged, and what it appends is equally many targets and keys, each key being its target's marker |
| PathFollower.FollowEach | federation/executor.go:99-105 | the element loop only appends, in lockstep, even when an element fails part-way |
| PathFollower.FollowIsAppendOfExtract | federation/executor.go:98-153 | the accumulating walk reports no error exactly when the pure walk succeeds; on success it appends exactly the pure walk's targets and keys to whatever was there, and on failure it reports the same error |
| PathFollower.TargetsLieWithinNode | federation/executor.go:98-153 | every target collected is an object that occurs inside the node walked |
| PathFollower.ListFanOut | federation/executor.go:99-105 | a list applies the same path to every element; it succeeds iff every element does, its output is the elements' outputs concatenated in element order, and otherwise its error is the first failing element's error tagged with that element's index |
| PathFollower.ExhaustedListOfMarkedObjects | federation/executor.go:99-120 | with the path exhausted, a list of N objects carrying `__federation` yields the N objects as targets and their markers as keys, in list order |
| PathFollower.ExhaustedPath | federation/executor.go:108-120 | an exhausted path on a non-list succeeds iff the node is an object with `__federation`, giving that object as the one target and its marker as the key; a non-object is a "not an object" error and an unmarked object a "missing __federation" error |
| PathFollower.ScalarYieldsNothing | federation/executor.go:122-125 | a non-empty path on a scalar gives no targets and no error, and leaves the accumulator as it was |
| PathFollower.FieldStep | federation/executor.go:129-137 | a field step on an object without the field is an error; otherwise the result is the walk of the field's value with the rest of the path, its error wrapped with that value |
| PathFollower.TypeStep | federation/executor.go:139-149 | a missing or non-string `__typename` is an error, a different type name gives no targets and no error, and a matching one continues on the same object with the rest of the path, its error wrapped with the type name |
| PathFollower.TypeStepFilters | federation/executor.go:139-149 | over a list of typed objects, a type step followed by a path succeeds iff the path succeeds over the elements of that type, with the same targets and keys |
| Merge.ShallowMerge | federation/executor.go:194-196 | copying a result into a target leaves the union of their keys, the result's value on each of its keys and the target's value on every other key, whatever the order the keys are visited in |
| Merge.MergeResults | federation/executor.go:182-197 | a count mismatch is reported before any target changes; the merge succeeds iff the counts match and every result is an object, and then target `i` is shallow-merged with result `i`; a non-object result at `n` leaves targets before `n` merged and those from `n` on untouched |
| Merge.SiblingMergesCommute | federation/executor.go:186-196 | two children writing disjoint field sets leave a target with the same fields, the union of all three key sets, whichever is merged first |
| Execute.ChildFollowerAsWritten | federation/executor.go:170-174 | the follower a child starts from is the first result as the single target with no keys; it panics iff there is no first result or it is not an object, and when it does not panic, targets and keys are out of step |
| Execute.NonCoordinatorChildPanics | federation/executor.go:156-174 | a plan that is not the coordinator has a nil result, so initialising a child's follower indexes an empty slice |
| Execute.CoordinatorChildIsUnkeyed | federation/executor.go:156-174 | a coordinator's child gets the empty root object as target and no keys, while following any path over that root fails |
| Execute.OrdersScenario | federation/executor.go:98-153 | following `orders` over `{orders: [o1, o2]}` yields both orders with their buyer ids as keys, and merging a `buyer` answer into each adds it and keeps the other fields |

## Left out

- `NewExecutor` and `fetchSchema` (federation/executor.go:26-91): network calls, JSON decoding, schema conversion, the flattener and the planner. Their sources are not part of this model.
- The errgroup and mutex orchestration of `execute` (federation/executor.go:164-206): the recursive call on each child, the wrapping of its error and the wait for the first failure are concurrency. Only the per-child merge is modelled, as a standalone operation. `Merge.SiblingMergesCommute` states why the order in which siblings finish does not matter for disjoint fields.
- `Executor.Execute` and `printPlan` (federation/executor.go:209-224): a thin wrapper over the planner and logging.
- Error messages: errors are tagged constructors (index, value, type name, missing field name), not formatted strings. "Not an object" carries no payload, since the code prints the failed type assertion, a nil map.
- Aliasing: in Go the targets are references into the result tree, so a merge writes into the tree itself. Here targets are values, and the merge returns the updated target objects. Writing them back into the tree is not modelled.
- Numbers: JSON numbers decode to `float64`; the model tags them with an integer, since only equality of values is used.
- Go's random map iteration order: `Merge.ShallowMerge` visits keys in an arbitrary order and is proved to give the same merge for every order.
