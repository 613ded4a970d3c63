# tbl: a verified model of a table-driven test runner

`tbl` is a small Go package for table-driven tests. `Cases(testcases...)` collects the
test cases. All of them must have the type of the first one. `Test.Run(function)` then
checks that the function has one of four accepted forms:

- `func(tc T)`
- `func(tc T) bool`
- `func(idx int, tc T)`
- `func(idx int, tc T) bool`

`Run` calls the function once for each index of a run order and returns the number of
calls it made. A `false` result ends the run early. The run order comes from the first
source that applies:

1. the `tblTest.RunOrder` flag, a comma-separated list of indices;
2. `0, 1, …, n-1` when `InOrder` is set;
3. a random permutation.

This project models that package in Dafny and proves properties of the model. Every
problem the caller causes (an untyped nil case, mixed case types, a function of the wrong
form) is a panic in Go. Here it is an `Abort(reason)` result.

Modules, in dependency order:

- `Wrappers`: `Option` and `Result`.
- `Reflect`: the part of Go reflection the package uses. Types are tokens compared only
  for identity. Values carry their dynamic type. A function value is described by its
  parameter and result types.
- `Strings`, `Strconv`: the parts of `strings.Split` and `strconv.ParseInt(s, 10, 64)`
  that `runOrder` uses, plus their inverses `Join` and `FormatInt`.
- `Permutations`: `0..n-1` and permutations of it, which stand for what `rand.Perm` returns.
- `Table`: the `Test` table and `Cases`.
- `Order`: `runOrder`.
- `Shapes`: the form check at the start of `Run`.
- `Dispatch`: `runTest` and the loop that counts calls.
- `Runner`: `Run` itself, the three order modes, and the empty-table finding.
- `Scenarios`: concrete runs on small inputs.

The test function is modelled as a callback. It receives the arguments of the earlier
calls in the same run and the arguments of the current call, and returns the boolean
result. Because it sees the earlier calls, the model also covers functions that keep state
between calls. The flag's value and the permutation `rand.Perm` would return are passed to
`Run` in an `Env` record.

## Model

| member | source | states |
|---|---|---|
| `Table.Cases` | tbl.go:54-72 | `Cases` succeeds exactly when every argument is a valid value of the first argument's type. On success it keeps every argument in input order. The element type is the first argument's type, or none for no arguments. `InOrder` starts false. On failure the reason names the first faulty index: an untyped nil there, or a type that differs from the first argument's type. |
| `Table.Collect` | tbl.go:56-70 | This is the loop of `Cases`, continued from any index whose earlier arguments passed. It gives the same success condition, contents and first-fault report as `Cases`. |
| `Strings.Split` | tbl.go:43 | Splitting on commas yields at least one piece, and no piece contains a comma. |
| `Strings.JoinSplit` | tbl.go:43 | Joining the pieces of a split with the separator gives back the original flag. |
| `Strings.SplitJoin` | tbl.go:43 | Splitting a join of one or more comma-free pieces gives back exactly those pieces. |
| `Strconv.ParseInt` | tbl.go:45 | A token that parses has an optional sign and then only decimal digits. Its value fits in 64 bits. A negative value comes only with a leading `-`. |
| `Strconv.ParseFormat` | tbl.go:45 | Parsing the decimal spelling of any 64-bit integer gives back that integer. |
| `Strconv.ParseIntAccepts` | tbl.go:45-46 | Every well-formed token parses: an optional `+` or `-` followed by one or more digits, leading zeros allowed. `+2` gives 2, `007` gives 7 and `-0` gives 0. The value is the one the digits spell, negated after `-`. A token whose value does not fit in 64 bits gives nothing. |
| `Order.ParsedIndices` | tbl.go:43-48 | The kept indices are 64-bit values, and there are no more of them than tokens. |
| `Order.ParsedAppend` | tbl.go:43-48 | The parse works token by token: two token lists side by side give their index lists side by side. |
| `Order.ParsedSingle` | tbl.go:45-47 | A single token contributes its value if it parses and nothing if it does not. |
| `Order.RunOrder` | tbl.go:38-50 | An empty flag gives no indices and no override. The override applies exactly when at least one index was parsed. Every index is a 64-bit value. |
| `Order.RunOrderRoundTrip` | tbl.go:38-50 | Take any list of 64-bit indices and write it as a comma-separated flag. Parsing that flag returns the same list, duplicates, order and out-of-range values included. The override applies exactly when the list is non-empty. |
| `Shapes.Classify` | tbl.go:102-135 | An accepted function has exactly the accepted form the result names, for the table's element type. A non-function is rejected as such. A parameter count other than one or two is rejected whatever the results. A two-parameter function whose first parameter is not `int` is rejected at that parameter. Result checks fire only after the parameters have passed. |
| `Shapes.ClassifyForm` | tbl.go:87-97 | Each of the four documented forms is accepted, and its shape is recognised correctly. |
| `Shapes.ClassifyAccepts` | tbl.go:102-135 | A function is accepted if and only if the table has an element type and the function has one of the four forms for it. |
| `Dispatch.InRange` | tbl.go:142-145 | The indices kept are entries of the order that are valid case indices. |
| `Dispatch.InRangeAppend` | tbl.go:142-145 | The range check works entry by entry: the in-range entries of two orders side by side are the in-range entries of each, side by side. Together with `Dispatch.InRangeSingle` this fixes the filtered order exactly, positions and duplicates included. |
| `Dispatch.InRangeSingle` | tbl.go:143-145 | One index is kept exactly when it is a valid case index, and is dropped otherwise. |
| `Dispatch.InRangeCounts` | tbl.go:142-145 | After the range check, every valid case index occurs as often as in the order, and every other value does not occur. |
| `Dispatch.CallParams` | tbl.go:74-85 | The function receives the case value unchanged. It receives the index exactly for two-parameter forms, and then it is the case's own index. `Dispatch.DriveCalls` lifts this to every call of a run. |
| `Dispatch.RunTest` | tbl.go:74-85 | Only a form with a bool result can end the run, and it ends it exactly when the function returns false. `Dispatch.StopsAtFirstFalse` and `Dispatch.RunsToCompletion` lift this to a whole run. |
| `Dispatch.Drive` | tbl.go:140-151 | The count equals the number of calls made. The indices visited are a prefix of the order's in-range entries. |
| `Dispatch.DriveCalls` | tbl.go:142-148 | The j-th call is for the j-th in-range index. It receives that case, and the index too for two-parameter forms. |
| `Dispatch.DriveContinues` | tbl.go:146-150 | Every call except the last returned the continue signal. |
| `Dispatch.DriveStops` | tbl.go:146-151 | The loop ends before the in-range indices run out only when the last call returned false. |
| `Dispatch.StopsAtFirstFalse` | tbl.go:146-151 | If the k-th call returns false, the count is exactly k and no later index is called. |
| `Dispatch.RunsToCompletion` | tbl.go:142-151 | If no call of the run returned false, every in-range index of the order is called, in order and with duplicates. This covers a function with no result, and a bool-returning function that returned true on each call it actually received. |
| `Dispatch.InRangeOfNoCases` | tbl.go:143-145 | With no cases, every index is out of range, so nothing of any order is kept. |
| `Dispatch.SkipsOutOfRange` | tbl.go:143-145 | Out-of-range indices have no effect at all: running over the order is the same as running over its in-range entries. |
| `Permutations.PermutationFacts` | tbl.go:162 | A permutation of `0..n-1` has n entries, all in range, and each index occurs exactly once. |
| `Runner.ChosenOrder` | tbl.go:141-162 | A parsed override is used as given. Without one, the order is a permutation of the case indices, whether from `InOrder` or from `rand.Perm`. With `Runner.AllInRange`, the range check therefore never drops an entry of such an order. `Runner.RunOverridden`, `Runner.RunInOrder` and `Runner.RunShuffled` state what each mode then does. |
| `Runner.Run` | tbl.go:98-171 | `Run` succeeds if and only if the table has an element type and the function has an accepted form. A rejection therefore comes before any call. The count equals the number of calls. Every call is for a valid index and receives that case. It receives the index exactly when the function takes two parameters. A hand-built table with an element type and no cases, which `Cases` never produces, would report 0 calls. |
| `Runner.RunCompletesIfNoFalse` | tbl.go:141-170 | In every mode, if no call returned false, the run visits exactly the in-range indices of the order it walks. |
| `Runner.RunOverridden` | tbl.go:141-152 | With a parsed override, the visited indices are a prefix of the override's in-range indices, in the given order and with duplicates. Out-of-range indices are neither called nor counted. If no call returned false, all of them are visited. |
| `Runner.RunInOrder` | tbl.go:153-161 | With no override and `InOrder` set, the visited indices are a prefix of `0, 1, …, n-1`. If no call returned false, all n of them are visited, and the count is n. |
| `Runner.RunShuffled` | tbl.go:162-170 | With neither an override nor `InOrder`, the visited indices are a prefix of the permutation. If no call returned false, each index is visited exactly once, and the count is n. |
| `Runner.RunStopsAtFalse` | tbl.go:146-149 | In every mode, if the function has a bool result and its k-th call returns false, the count is exactly k. |
| `Runner.RunEveryCaseOnce` | tbl.go:153-170 | With no override, if no call returned false, the function is called once per case and the count is the number of cases, whatever `InOrder` says. |
| `Runner.EmptyTableAborts` | tbl.go:108-124 | On the table built from no cases, every function is rejected, even the well-formed `func(int)`. The `len(tc.cases) == 0` return is never reached. |
| `Runner.WellTypedEmptyAborts` | tbl.go:108-138 | Every consistently typed table without cases, which is every empty table `Cases` builds, rejects every function. |
| `Runner.RunIntended` | tbl.go:136-138 | With the empty-table check moved first, an empty table returns 0 calls for any function. A non-empty table behaves exactly as in `Run`. Acceptance holds if and only if the table is empty or the function has an accepted form. |
| `Runner.IntendedEmptyReturnsZero` | tbl.go:136-138 | With the check moved first, the table built from no cases runs nothing and returns 0, whatever the function. |
| `Scenarios.FlagWithDuplicates` | tbl.go:38-50 | The flag `1,3,1` yields the indices 1, 3, 1. |
| `Scenarios.FlagOutOfRange` | tbl.go:38-50 | The flag `1,9,2` yields 1, 9, 2. The range is not checked while parsing. |
| `Scenarios.FlagWithSignsAndSpace` | tbl.go:43-47 | In `-1,+2, 3`, signed tokens parse, and the token with a leading space is dropped. |
| `Scenarios.FlagWithoutNumbers` | tbl.go:49 | A non-empty flag in which no token parses is not an override. |
| `Scenarios.OverrideWithDuplicates` | tbl.go:141-151 | On four cases, the override `1,3,1` calls indices 1, 3, 1, and the count is 3. |
| `Scenarios.OverrideOutOfRange` | tbl.go:141-151 | On four cases, the override `1,9,2` skips 9, calls 1 and 2, and the count is 2. |
| `Scenarios.MixedTypesAbort` | tbl.go:58-67 | Cases of two different types abort at the second one. An untyped nil aborts at its own index. |
| `Scenarios.BadFormsAbort` | tbl.go:108-134 | These functions are rejected, each with the reason of the check that fires: one with three parameters, one whose single parameter has the wrong type, and one with a non-bool result. |

How the model maps to the code:

- The in-order loop and the random loop in `Run` index the cases directly. The override
  loop skips out-of-range indices first. The model drives all three modes through one loop
  that has the skip. For `0..n-1` and for a permutation the skip never fires
  (`Runner.AllInRange`), so the behaviour is the same.
- `Run` takes the permutation as a parameter. Its precondition says that the parameter is
  a permutation of the case indices, which is what `rand.Perm` guarantees.

`Runner.Run` keeps the code's order of checks: the form check (tbl.go:102-135) comes
before the early return for an empty table (tbl.go:136-138). See the finding below for what
that order causes.

## Findings

| source | as written | input that shows it | evidently intended | confidence | as-written member | corrected member |
|---|---|---|---|---|---|---|
| tbl.go:108-138 | The parameter check compares each parameter type with `tc.vType`. For a table with no cases, `tc.vType` is a nil `reflect.Type`, and no parameter type equals nil. So every function panics, and the `len(tc.cases) == 0` early return can never be reached. | `tbl.Cases().Run(func(tc int) {})` panics in the one-parameter type check | A table with no cases runs nothing and returns 0. | high; not executed | `Runner.EmptyTableAborts` | `Runner.RunIntended` |

The early return at tbl.go:136-138 exists only to return 0 for a table without cases, and
as written it can never fire. `Runner.RunIntended` moves that check before the form check.
On a non-empty table it equals `Runner.Run` (one of its postconditions). So every property
proved about `Run` and the dispatch loop on non-empty tables holds for it too.

## Left out

- Go reflection as such (`reflect.Value`, `fn.Call`, real type identity). Types are
  abstract tokens, and functions are a type plus a callback.
- Panic messages and the call-site lookup in `panicF` (tbl.go:28-36). Only the panic and
  its reason are modelled. The message at tbl.go:119 prints the type of parameter one
  where it means parameter two. This affects only the text, so it is not modelled.
- The global flag registration (tbl.go:17). The flag's value is a field of `Env`.
- Randomness. `rand.Perm` is replaced by any permutation the caller supplies, and every
  property is proved for all of them.
- What the test function does besides returning its result. A panic inside it, or a call
  through a nil function value of function type, is not modelled.
- Variadic test functions. When the cases have type `[]T`, the check at tbl.go:110-111
  accepts `func(...T)`, because the variadic parameter's type is `[]T`. `fn.Call` at
  tbl.go:80 then packs the case value itself into the variadic slice. This panics on the
  first call unless `T` can hold a `[]T` (for example `interface{}`, where the function
  gets a one-element slice). `FuncType` has no variadic flag, so the model calls such a
  function like any other.
- `Order.RunOrder` assumes a 64-bit `int`. On a 32-bit platform `int(i)` at tbl.go:46
  would truncate the parsed value, and that is not modelled.
- The `int` counter in `Run` is unbounded. It never exceeds the length of the order, so it
  cannot overflow in practice.
- Concurrent runs over one table, which the package does not support.
