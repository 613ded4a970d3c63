/**
 The check `Run` in tbl.go makes of the function it is given: which of the four
 accepted forms it has, or why it is rejected.
 */
module Shapes {
  import opened Wrappers
  import opened Reflect
  import opened Table

  /** How to call an accepted function: whether it takes the case index before
      the case, and whether it returns a continue signal. */
  datatype Shape = Shape(passIndex: bool, hasResult: bool)

  /** The function type of each accepted form for element type `t`:
      `func(t)`, `func(t) bool`, `func(int, t)` and `func(int, t) bool`. */
  function Form(s: Shape, t: TypeToken): FuncType {
    FuncType((if s.passIndex then [IntType] else []) + [t], if s.hasResult then [BoolType] else [])
  }

  /** `f` has one of the four accepted forms for element type `t`. */
  ghost predicate Accepts(f: FuncType, t: TypeToken) {
    exists s: Shape :: f == Form(s, t)
  }

  /** The parameter and result checks of `Run`: parameters first (count, then
      each type against `int` and the element type `vType`), then results. */
  function Classify(f: FuncType, vType: Option<TypeToken>): (r: Result<Shape, Panic>)
    ensures r.Ok? ==> vType.Some? && f == Form(r.value, vType.value)
    ensures f.NotFunc? ==> r == Abort(NotAFunction)
    ensures f.FuncType? && |f.ins| != 1 && |f.ins| != 2 ==> r == Abort(ParamCount)
    ensures f.FuncType? && |f.ins| == 2 && f.ins[0] != IntType ==> r == Abort(ParamType(0))
    ensures r == Abort(ResultCount) || r == Abort(ResultType) ==>
      && f.FuncType? && vType.Some?
      && (f.ins == [vType.value] || f.ins == [IntType, vType.value])
  {
    match f
    case NotFunc => Abort(NotAFunction)
    case FuncType(ins, outs) =>
      var twoInParams: Result<bool, Panic> :=
        if |ins| == 1 then
          if Some(ins[0]) != vType then Abort(ParamType(0)) else Ok(false)
        else if |ins| == 2 then
          if ins[0] != IntType then Abort(ParamType(0))
          else if Some(ins[1]) != vType then Abort(ParamType(1))
          else Ok(true)
        else Abort(ParamCount);
      if twoInParams.Abort? then Abort(twoInParams.reason)
      else if |outs| == 0 then Ok(Shape(twoInParams.value, false))
      else if |outs| == 1 then
        if outs[0] != BoolType then Abort(ResultType) else Ok(Shape(twoInParams.value, true))
      else Abort(ResultCount)
  }

  /** Each accepted form is recognised as itself. */
  lemma ClassifyForm(s: Shape, t: TypeToken)
    ensures Classify(Form(s, t), Some(t)) == Ok(s)
  {
    var f := Form(s, t);
    if s.passIndex {
      assert f.ins == [IntType, t];
    } else {
      assert f.ins == [t];
    }
  }

  /** A function is accepted exactly when the table has an element type and the
      function has one of the four forms for it. */
  lemma ClassifyAccepts(f: FuncType, vType: Option<TypeToken>)
    ensures Classify(f, vType).Ok? <==> vType.Some? && Accepts(f, vType.value)
  {
    var r := Classify(f, vType);
    if r.Ok? {
      assert f == Form(r.value, vType.value);
    }
    if vType.Some? && Accepts(f, vType.value) {
      var s :| f == Form(s, vType.value);
      ClassifyForm(s, vType.value);
    }
  }
}
