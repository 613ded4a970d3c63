/**
 `Test.Run` in tbl.go: check the function's form, choose the run order
 (override flag, then `InOrder`, then a random permutation) and drive the calls.
 */
module Runner {
  import opened Wrappers
  import opened Reflect
  import opened Table
  import opened Order
  import opened Shapes
  import opened Dispatch
  import opened Permutations

  /** The value handed to `Run`: its dynamic type and, when it is a function,
      how it answers each call. */
  datatype Callable<!P> = Callable(typ: FuncType, body: Callback<P>)

  /** What `Run` reads from its surroundings: the `tblTest.RunOrder` flag and the
      permutation `rand.Perm` would return on this call. */
  datatype Env = Env(runOrderFlag: string, perm: seq<int>)

  /** The order the loop walks: a parsed override wins, then `InOrder`, then the
      random permutation. */
  function ChosenOrder<P>(tc: Test<P>, env: Env): (r: seq<int>)
    requires IsPermutation(env.perm, |tc.cases|)
    ensures RunOrder(env.runOrderFlag).ok ==> r == RunOrder(env.runOrderFlag).idx
    ensures !RunOrder(env.runOrderFlag).ok ==> IsPermutation(r, |tc.cases|)
  {
    var o := RunOrder(env.runOrderFlag);
    if o.ok then o.idx
    else if tc.inOrder then Range(|tc.cases|)
    else env.perm
  }

  /** `tc.Run(f)` as written: the form is checked first, then an empty table
      returns 0, then the chosen order is driven. */
  function Run<P>(tc: Test<P>, f: Callable<P>, env: Env): (r: Result<Tally<P>, Panic>)
    requires IsPermutation(env.perm, |tc.cases|)
    ensures r.Ok? <==> tc.vType.Some? && Accepts(f.typ, tc.vType.value)
    ensures r.Ok? ==> r.value.count == |r.value.calls| == |r.value.visited|
    ensures r.Ok? ==> forall j :: 0 <= j < |r.value.calls| ==>
      && 0 <= r.value.visited[j] < |tc.cases|
      && r.value.calls[j].testcase == tc.cases[r.value.visited[j]]
      && (r.value.calls[j].index.Some? <==> |f.typ.ins| == 2)
      && (r.value.calls[j].index.Some? ==> r.value.calls[j].index.value == r.value.visited[j])
    ensures r.Ok? && |tc.cases| == 0 ==> r.value.count == 0
  {
    ClassifyAccepts(f.typ, tc.vType);
    match Classify(f.typ, tc.vType)
    case Abort(p) => Abort(p)
    case Ok(shape) =>
      if |tc.cases| == 0 then Ok(Tally(0, [], []))
      else
        assert |f.typ.ins| == 2 <==> shape.passIndex by {
          assert f.typ == Form(shape, tc.vType.value);
        }
        DriveCalls(ChosenOrder(tc, env), tc.cases, shape, f.body, []);
        Ok(Drive(ChosenOrder(tc, env), tc.cases, shape, f.body, []))
  }

  /** The shape `Run` drives with, once the form is accepted. */
  lemma RunDrives<P>(tc: Test<P>, f: Callable<P>, env: Env)
    requires IsPermutation(env.perm, |tc.cases|)
    requires Run(tc, f, env).Ok? && |tc.cases| > 0
    ensures Classify(f.typ, tc.vType).Ok?
    ensures Run(tc, f, env).value
         == Drive(ChosenOrder(tc, env), tc.cases, Classify(f.typ, tc.vType).value, f.body, [])
    ensures Classify(f.typ, tc.vType).value.hasResult <==> |f.typ.outs| == 1
  {
    var shape := Classify(f.typ, tc.vType).value;
    assert f.typ == Form(shape, tc.vType.value);
  }

  /** A run in which no call returned false visits every in-range index of the
      order it walks, whichever mode chose that order. */
  lemma RunCompletesIfNoFalse<P>(tc: Test<P>, f: Callable<P>, env: Env)
    requires IsPermutation(env.perm, |tc.cases|)
    requires Run(tc, f, env).Ok?
    requires NoFalseResult(|f.typ.outs| == 1, f.body, [], Run(tc, f, env).value.calls)
    ensures Run(tc, f, env).value.visited == InRange(ChosenOrder(tc, env), |tc.cases|)
  {
    if |tc.cases| > 0 {
      RunDrives(tc, f, env);
      RunsToCompletion(ChosenOrder(tc, env), tc.cases, Classify(f.typ, tc.vType).value, f.body, []);
    } else {
      InRangeOfNoCases(ChosenOrder(tc, env));
    }
  }

  /** With an override in force, the calls follow its in-range indices in the
      order given, duplicates included; out-of-range ones are skipped and not
      counted. A run in which no call returned false visits all of them. */
  lemma RunOverridden<P>(tc: Test<P>, f: Callable<P>, env: Env)
    requires IsPermutation(env.perm, |tc.cases|)
    requires Run(tc, f, env).Ok? && |tc.cases| > 0
    requires RunOrder(env.runOrderFlag).ok
    ensures Run(tc, f, env).value.visited <= InRange(RunOrder(env.runOrderFlag).idx, |tc.cases|)
    ensures NoFalseResult(|f.typ.outs| == 1, f.body, [], Run(tc, f, env).value.calls) ==>
      Run(tc, f, env).value.visited == InRange(RunOrder(env.runOrderFlag).idx, |tc.cases|)
  {
    RunDrives(tc, f, env);
    if NoFalseResult(|f.typ.outs| == 1, f.body, [], Run(tc, f, env).value.calls) {
      RunCompletesIfNoFalse(tc, f, env);
    }
  }

  /** Without an override and with `InOrder` set, the calls visit 0, 1, ... in
      sequence; a run in which no call returned false visits every index once. */
  lemma RunInOrder<P>(tc: Test<P>, f: Callable<P>, env: Env)
    requires IsPermutation(env.perm, |tc.cases|)
    requires Run(tc, f, env).Ok? && |tc.cases| > 0
    requires !RunOrder(env.runOrderFlag).ok && tc.inOrder
    ensures Run(tc, f, env).value.visited <= Range(|tc.cases|)
    ensures NoFalseResult(|f.typ.outs| == 1, f.body, [], Run(tc, f, env).value.calls) ==>
      Run(tc, f, env).value.visited == Range(|tc.cases|) && Run(tc, f, env).value.count == |tc.cases|
  {
    RunDrives(tc, f, env);
    AllInRange(Range(|tc.cases|), |tc.cases|);
    if NoFalseResult(|f.typ.outs| == 1, f.body, [], Run(tc, f, env).value.calls) {
      RunCompletesIfNoFalse(tc, f, env);
    }
  }

  /** Without an override or `InOrder`, the calls follow the random permutation;
      a run in which no call returned false visits each index exactly once. */
  lemma RunShuffled<P>(tc: Test<P>, f: Callable<P>, env: Env)
    requires IsPermutation(env.perm, |tc.cases|)
    requires Run(tc, f, env).Ok? && |tc.cases| > 0
    requires !RunOrder(env.runOrderFlag).ok && !tc.inOrder
    ensures Run(tc, f, env).value.visited <= env.perm
    ensures NoFalseResult(|f.typ.outs| == 1, f.body, [], Run(tc, f, env).value.calls) ==>
      && Run(tc, f, env).value.visited == env.perm
      && Run(tc, f, env).value.count == |tc.cases|
      && forall x :: 0 <= x < |tc.cases| ==> multiset(Run(tc, f, env).value.visited)[x] == 1
  {
    RunDrives(tc, f, env);
    PermutationFacts(env.perm, |tc.cases|);
    AllInRange(env.perm, |tc.cases|);
    if NoFalseResult(|f.typ.outs| == 1, f.body, [], Run(tc, f, env).value.calls) {
      RunCompletesIfNoFalse(tc, f, env);
    }
  }

  /** If the k-th call returns false, `Run` reports exactly k calls and makes
      no call after it. Only forms with a bool result can stop a run. */
  lemma RunStopsAtFalse<P>(tc: Test<P>, f: Callable<P>, env: Env, k: nat)
    requires IsPermutation(env.perm, |tc.cases|)
    requires Run(tc, f, env).Ok?
    requires 1 <= k <= Run(tc, f, env).value.count
    requires |f.typ.outs| == 1
    requires !f.body(Run(tc, f, env).value.calls[..k - 1], Run(tc, f, env).value.calls[k - 1])
    ensures Run(tc, f, env).value.count == k
  {
    RunDrives(tc, f, env);
    var shape := Classify(f.typ, tc.vType).value;
    var t := Run(tc, f, env).value;
    assert [] + t.calls[..k - 1] == t.calls[..k - 1];
    StopsAtFirstFalse(ChosenOrder(tc, env), tc.cases, shape, f.body, [], k);
  }

  /** Without an override, a run in which no call returned false calls the
      function once for each case, whatever the `InOrder` setting. */
  lemma RunEveryCaseOnce<P>(tc: Test<P>, f: Callable<P>, env: Env)
    requires IsPermutation(env.perm, |tc.cases|)
    requires Run(tc, f, env).Ok? && !RunOrder(env.runOrderFlag).ok
    requires NoFalseResult(|f.typ.outs| == 1, f.body, [], Run(tc, f, env).value.calls)
    ensures Run(tc, f, env).value.count == |tc.cases|
    ensures forall x :: 0 <= x < |tc.cases| ==> multiset(Run(tc, f, env).value.visited)[x] == 1
  {
    if |tc.cases| > 0 {
      if tc.inOrder {
        RunInOrder(tc, f, env);
        forall x | 0 <= x < |tc.cases|
          ensures multiset(Run(tc, f, env).value.visited)[x] == 1
        {
          RangeMultiplicity(|tc.cases|, x);
        }
      } else {
        RunShuffled(tc, f, env);
      }
    }
  }

  /** As written, `Run` rejects every function on a table built from no cases:
      the table has no element type, so the parameter check fails before the
      early return for an empty table is reached. Even `func(int)` on an empty
      table of ints is rejected. */
  lemma EmptyTableAborts<P>(f: Callable<P>)
    ensures Cases<P>([]).Ok?
    ensures Run(Cases<P>([]).value, f, Env("", [])).Abort?
    ensures Run(Cases<P>([]).value, Callable(Form(Shape(false, false), IntType), f.body), Env("", []))
         == Abort(ParamType(0))
  {
    assert IsPermutation([], 0);
  }

  /** The same holds for every consistently typed table without cases, the
      only kind of empty table `Cases` builds. */
  lemma WellTypedEmptyAborts<P>(tc: Test<P>, f: Callable<P>, env: Env)
    requires IsPermutation(env.perm, |tc.cases|)
    requires WellTyped(tc) && |tc.cases| == 0
    ensures Run(tc, f, env).Abort?
  {
  }

  /** `Run` with the empty-table check moved ahead of the form check, which is
      what the early return for an empty table is there for. */
  function RunIntended<P>(tc: Test<P>, f: Callable<P>, env: Env): (r: Result<Tally<P>, Panic>)
    requires IsPermutation(env.perm, |tc.cases|)
    ensures r.Ok? <==> |tc.cases| == 0 || (tc.vType.Some? && Accepts(f.typ, tc.vType.value))
    ensures |tc.cases| == 0 ==> r == Ok(Tally(0, [], []))
    ensures |tc.cases| > 0 ==> r == Run(tc, f, env)
  {
    if |tc.cases| == 0 then Ok(Tally(0, [], [])) else Run(tc, f, env)
  }

  /** With the check moved, a table of no cases runs nothing and returns 0 for
      any function, well-formed or not. */
  lemma IntendedEmptyReturnsZero<P>(f: Callable<P>, env: Env)
    requires env.perm == []
    ensures Cases<P>([]).Ok?
    ensures RunIntended(Cases<P>([]).value, f, env) == Ok(Tally(0, [], []))
  {
    assert IsPermutation([], 0);
  }

  /** An order whose entries all index the table loses nothing to the range check. */
  lemma {:induction false} AllInRange(order: seq<int>, n: nat)
    requires forall k :: 0 <= k < |order| ==> 0 <= order[k] < n
    ensures InRange(order, n) == order
    decreases |order|
  {
    if |order| > 0 {
      AllInRange(order[1..], n);
      assert order == [order[0]] + order[1..];
    }
  }
}
