/** The `context` record that `myCall`, `myApply` and `myBind` invoke their target on. The
    caller owns it; each polyfill writes the target into its field `fn` and leaves it there. */
module Receivers {
  import opened Js

  /** The property name the polyfills store the target under (`context.fn = this`). */
  const FnKey: string := "fn"

  /** A plain JavaScript object used as a receiver; its own properties, updated in place. */
  class Record {
    var fields: map<string, Value>

    constructor (fields: map<string, Value>)
      ensures this.fields == fields
    {
      this.fields := fields;
    }
  }

  /** A number, string or boolean: a value that is not an object. */
  type PrimitiveValue = v: Value | v.Bool? || v.Num? || v.Str? witness Num(0)

  /** The `context` argument as passed. `NoContext` is an omitted or undefined argument, which
      takes the default `{}`; `NullContext` is `null`, which the default does not replace;
      `Primitive` is a number, string or boolean, on which (in sloppy-mode code) the write
      `context.fn = this` is silently dropped, so reading `context.fn` back gives undefined. */
  datatype ContextArg = NoContext | NullContext | Primitive(primitive: PrimitiveValue) | Given(record: Record)

  /** The objects a polyfill may write: the caller's record, if one was passed. */
  function Frame(context: ContextArg): set<object> {
    if context.Given? then {context.record} else {}
  }

  /** The receiver's fields on entry when it is an object that takes the write `context.fn`:
      the caller's record or the fresh `{}` for an omitted context. `null` (where the write
      throws) and a primitive (where the write is dropped) have none. */
  function FieldsOf(context: ContextArg): (r: Option<map<string, Value>>)
    reads Frame(context)
    ensures r.None? <==> context.NullContext? || context.Primitive?
    ensures context.NoContext? ==> r == Some(map[])
    ensures context.Given? ==> r == Some(context.record.fields)
  {
    match context
    case NoContext => Some(map[])
    case NullContext => None
    case Primitive(_) => None
    case Given(record) => Some(record.fields)
  }

  /** `context.fn = target`: the field is added or overwritten; every other field stays. */
  function Attach(fields: map<string, Value>, target: Value): (r: map<string, Value>)
    ensures r.Keys == fields.Keys + {FnKey}
    ensures r[FnKey] == target
    ensures forall k :: k in fields && k != FnKey ==> r[k] == fields[k]
  {
    fields[FnKey := target]
  }

  /** `context.fn`: reading a missing property gives undefined. */
  function Get(fields: map<string, Value>, key: string): Value {
    if key in fields then fields[key] else Undefined
  }

  /** One run of a target: which function, on which receiver, with which arguments. */
  datatype TargetCall = TargetCall(fn: FnId, receiver: Value, args: seq<Value>)
}
