/** JavaScript values, exceptions and call completions shared by every model in the project.
    Numbers are integers (no floating point, no NaN); a function value is known only by its
    identity, and what calling it does is supplied separately as a `Code` parameter. */
module Js {

  /** Identity of a function object: two syntactically equal functions are still distinct. */
  type FnId = nat

  datatype Value =
    | Undefined
    | Null
    | Bool(b: bool)
    | Num(n: int)
    | Str(s: string)
    | Arr(elems: seq<Value>)
    | Obj(fields: map<string, Value>)
    | Func(id: FnId)

  /** ToBoolean: undefined, null, false, 0 and "" are falsy, every other value is truthy. */
  predicate Truthy(v: Value) {
    match v
    case Undefined => false
    case Null => false
    case Bool(b) => b
    case Num(n) => n != 0
    case Str(s) => s != ""
    case _ => true
  }

  /** What can be thrown. `NotCallable` and `NotAnArray` are the `new Error(...)` values the
      polyfills throw themselves; `TypeError` and `ReferenceError` are the engine's own;
      `Raised` is anything a user function throws. */
  datatype Exception =
    | NotCallable
    | NotAnArray
    | TypeError
    | ReferenceError(name: string)
    | Raised(thrown: Value)

  /** Normal return with a value, or an exception propagating out. */
  datatype Result<T> = Ok(value: T) | Err(error: Exception)

  type Completion = Result<Value>

  /** A value that may be missing, such as a `null` state or an absent map entry. */
  datatype Option<T> = None | Some(value: T)

  /** What invoking one function does: from the receiver (`this`) and the argument list to a
      completion. Side effects of the function itself are not modelled. */
  type Behaviour = (Value, seq<Value>) -> Completion

  /** What invoking each function object of the program does, by identity. */
  type Code = (FnId, Value, seq<Value>) -> Completion

  /** A function that runs to the end with no `return` statement yields undefined; an exception
      still propagates. */
  function DiscardResult(c: Completion): (r: Completion)
    ensures r.Ok? <==> c.Ok?
    ensures r.Ok? ==> r.value == Undefined
    ensures r.Err? ==> r == c
  {
    if c.Ok? then Ok(Undefined) else c
  }
}
