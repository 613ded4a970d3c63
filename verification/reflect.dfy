/**
 The part of Go's runtime reflection the table runner relies on, abstracted:
 types are tokens compared only for identity, values carry their dynamic type,
 and a function value is described by its parameter and result types.
 */
module Reflect {

  /** A runtime type. Only identity matters; `int` and `bool` are singled out
      because the runner checks for them by name. */
  datatype TypeToken = IntType | BoolType | Named(name: string)

  /** What `reflect.ValueOf` yields for an argument: `Invalid` for an untyped nil,
      otherwise the dynamic type and an opaque payload. */
  datatype Value<P> = Invalid | Valid(typ: TypeToken, payload: P)

  /** The dynamic type of the value handed to `Run`: either not a function at all,
      or a function with the given parameter and result types. */
  datatype FuncType = NotFunc | FuncType(ins: seq<TypeToken>, outs: seq<TypeToken>)
}
