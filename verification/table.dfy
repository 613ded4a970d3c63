/**
 The case collection of the table runner (`Test` and `Cases` in tbl.go) and the
 reasons the runner panics.
 */
module Table {
  import opened Wrappers
  import opened Reflect

  /** Why the runner panics. Every panic is a programming error of the caller;
      the model keeps which check fired and the offending index, not the message. */
  datatype Panic =
    | InvalidCase(index: nat)        // an untyped nil among the test cases
    | CaseTypeMismatch(index: nat)   // a case whose type differs from the first case's
    | NotAFunction                   // Run was not given a function
    | ParamCount                     // the function takes neither one nor two parameters
    | ParamType(position: nat)       // a parameter of the wrong type
    | ResultCount                    // the function returns more than one value
    | ResultType                     // the single result is not a bool

  /** A table of test cases: the cases, the element type fixed by the first case
      (`None` while there is none, Go's nil `reflect.Type`), and the `InOrder` option. */
  datatype Test<P> = Test(cases: seq<Value<P>>, vType: Option<TypeToken>, inOrder: bool)

  /** The first `k` arguments are valid and share the type of the first one. */
  predicate UniformUpTo<P>(args: seq<Value<P>>, k: nat)
    requires k <= |args|
  {
    && (k > 0 ==> args[0].Valid?)
    && forall i :: 0 <= i < k ==> args[i].Valid? && args[i].typ == args[0].typ
  }

  /** Every argument is valid and of the first argument's type. */
  predicate Uniform<P>(args: seq<Value<P>>) {
    UniformUpTo(args, |args|)
  }

  /** A table in the state `Cases` leaves it: element type set exactly when there
      are cases, and every case valid and of that type. */
  predicate WellTyped<P>(tc: Test<P>) {
    && (tc.vType.None? <==> |tc.cases| == 0)
    && forall i :: 0 <= i < |tc.cases| ==> tc.cases[i].Valid? && tc.cases[i].typ == tc.vType.value
  }

  /** The panic `Cases` raises for argument `j` when all arguments before it are fine. */
  predicate IsFirstFault<P>(args: seq<Value<P>>, p: Panic) {
    match p
    case InvalidCase(j) => j < |args| && UniformUpTo(args, j) && args[j].Invalid?
    case CaseTypeMismatch(j) =>
      0 < j < |args| && UniformUpTo(args, j) && args[j].Valid? && args[j].typ != args[0].typ
    case _ => false
  }

  /** `Cases(testcases...)`: collect the arguments in order; the first one fixes
      the element type; an untyped nil or a case of another type panics. */
  function Cases<P>(args: seq<Value<P>>): (r: Result<Test<P>, Panic>)
    ensures r.Ok? <==> Uniform(args)
    ensures r.Ok? ==> r.value.cases == args && !r.value.inOrder && WellTyped(r.value)
    ensures r.Ok? ==> r.value.vType == if |args| == 0 then None else Some(args[0].typ)
    ensures r.Abort? ==> IsFirstFault(args, r.reason)
  {
    Collect(args, 0, Test([], None, false))
  }

  /** One pass of the loop in `Cases` from argument `i` on, with `tc` the table
      built from the arguments before `i`. */
  function Collect<P>(args: seq<Value<P>>, i: nat, tc: Test<P>): (r: Result<Test<P>, Panic>)
    requires i <= |args|
    requires tc.cases == args[..i] && !tc.inOrder && UniformUpTo(args, i)
    requires tc.vType == if i == 0 then None else Some(args[0].typ)
    ensures r.Ok? <==> Uniform(args)
    ensures r.Ok? ==> r.value.cases == args && !r.value.inOrder
    ensures r.Ok? ==> r.value.vType == if |args| == 0 then None else Some(args[0].typ)
    ensures r.Abort? ==> IsFirstFault(args, r.reason)
    decreases |args| - i
  {
    if i == |args| then
      assert args[..i] == args;
      Ok(tc)
    else
      var v := args[i];
      if v.Invalid? then Abort(InvalidCase(i))
      else if tc.vType.None? then
        assert args[..i + 1] == args[..i] + [v];
        Collect(args, i + 1, tc.(vType := Some(v.typ), cases := tc.cases + [v]))
      else if v.typ != tc.vType.value then Abort(CaseTypeMismatch(i))
      else
        assert args[..i + 1] == args[..i] + [v];
        Collect(args, i + 1, tc.(cases := tc.cases + [v]))
  }
}
